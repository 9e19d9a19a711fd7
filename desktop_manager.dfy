/** The bridge between the web app and the desktop shell
    (app/assets/javascripts/app/services/desktopManager.js): two observer
    lists, the remembered search, the data-load handshake and the merge of
    an installation result into a component. Handlers and callbacks are
    named by numbers; calling one is modelled by returning which one is
    called and with what. The model manager's lookup of a component is a
    map parameter. */
module Desktop {
  import opened Seqs

  /** An observer handed back by a register call; its identity is the
      object itself. */
  class Observer {
    const callback: nat

    constructor (callback: nat)
      ensures this.callback == callback
    {
      this.callback := callback;
    }
  }

  /** A call of the search handler. */
  datatype SearchCall = SearchCall(handler: nat, text: string)

  /* ---------------- Data-load handshake (lines 29-34, 185-190) ---------------- */

  /** `dataLoaded` and `dataLoadHandler`. */
  datatype LoadState = LoadState(dataLoaded: bool, handler: Option<nat>)

  /** The "initial-data-loaded" event, or `desktop_setInitialDataLoadHandler`. */
  datatype LoadEvent = DataLoaded | HandlerSet(h: nat)

  datatype LoadStep = LoadStep(state: LoadState, call: Option<nat>)

  datatype LoadRun = LoadRun(state: LoadState, calls: seq<nat>)

  const NothingLoaded := LoadState(false, None)

  /** One event: the data-loaded event calls the handler if there is one;
      setting the handler calls it if the data has been loaded. */
  function Step(st: LoadState, e: LoadEvent): (r: LoadStep)
    ensures e.DataLoaded? ==> r.state.dataLoaded && r.state.handler == st.handler && r.call == st.handler
    ensures e.HandlerSet? ==> r.state.dataLoaded == st.dataLoaded && r.state.handler == Some(e.h)
    ensures e.HandlerSet? ==> (r.call.Some? <==> st.dataLoaded) && (r.call.Some? ==> r.call.value == e.h)
  {
    match e
    case DataLoaded => LoadStep(st.(dataLoaded := true), st.handler)
    case HandlerSet(h) => LoadStep(st.(handler := Some(h)), if st.dataLoaded then Some(h) else None)
  }

  function CallsOf(c: Option<nat>): seq<nat>
  {
    if c.Some? then [c.value] else []
  }

  /** The events of `trace` in order, from `st`, with every handler call. */
  function Run(st: LoadState, trace: seq<LoadEvent>): LoadRun
  {
    if trace == [] then LoadRun(st, [])
    else
      var before := Run(st, trace[..|trace| - 1]);
      var step := Step(before.state, trace[|trace| - 1]);
      LoadRun(step.state, before.calls + CallsOf(step.call))
  }

  /** The data counts as loaded exactly once its event has come. */
  lemma {:induction false} RunLoaded(st: LoadState, trace: seq<LoadEvent>)
    ensures Run(st, trace).state.dataLoaded <==> st.dataLoaded || DataLoaded in trace
  {
    if trace != [] {
      var init := trace[..|trace| - 1];
      RunLoaded(st, init);
      assert trace == init + [trace[|trace| - 1]];
    }
  }

  /** Every call is of a handler that was set. */
  lemma {:induction false} RunCallsSetHandlers(trace: seq<LoadEvent>)
    ensures forall c <- Run(NothingLoaded, trace).calls :: HandlerSet(c) in trace
  {
    if trace != [] {
      var init := trace[..|trace| - 1];
      RunCallsSetHandlers(init);
      RunHandlerWasSet(init);
      assert trace == init + [trace[|trace| - 1]];
    }
  }

  /** A handler in the state was set by some event. */
  lemma {:induction false} RunHandlerWasSet(trace: seq<LoadEvent>)
    ensures Run(NothingLoaded, trace).state.handler.Some? ==>
      HandlerSet(Run(NothingLoaded, trace).state.handler.value) in trace
  {
    if trace != [] {
      var init := trace[..|trace| - 1];
      RunHandlerWasSet(init);
      assert trace == init + [trace[|trace| - 1]];
    }
  }

  /** Whatever the order, once the data is loaded and a handler is set,
      that handler has been called. */
  lemma HandlerCalledOnceLoaded(trace: seq<LoadEvent>, h: nat)
    requires DataLoaded in trace
    requires Run(NothingLoaded, trace).state.handler == Some(h)
    ensures h in Run(NothingLoaded, trace).calls
  {
    var init := trace[..|trace| - 1];
    var last := trace[|trace| - 1];
    assert trace == init + [last];
    var before := Run(NothingLoaded, init);
    match last
    case DataLoaded =>
      assert before.state.handler == Some(h);
    case HandlerSet(h') =>
      assert DataLoaded in init;
      RunLoaded(NothingLoaded, init);
  }

  /** Until the data has loaded no handler is called. */
  lemma {:induction false} NoCallBeforeLoad(trace: seq<LoadEvent>)
    requires DataLoaded !in trace
    ensures Run(NothingLoaded, trace).calls == []
  {
    if trace != [] {
      var init := trace[..|trace| - 1];
      assert trace == init + [trace[|trace| - 1]];
      assert DataLoaded !in init;
      NoCallBeforeLoad(init);
      RunLoaded(NothingLoaded, init);
    }
  }

  /** Either order of the two events calls the handler exactly once. */
  lemma EitherOrderCallsOnce(h: nat)
    ensures Run(NothingLoaded, [DataLoaded, HandlerSet(h)]).calls == [h]
    ensures Run(NothingLoaded, [HandlerSet(h), DataLoaded]).calls == [h]
  {
    var loadFirst := [DataLoaded, HandlerSet(h)];
    assert loadFirst[..1] == [DataLoaded] && [DataLoaded][..0] == [];
    assert Run(NothingLoaded, [DataLoaded]) == LoadRun(LoadState(true, None), []);
    var handlerFirst := [HandlerSet(h), DataLoaded];
    assert handlerFirst[..1] == [HandlerSet(h)] && [HandlerSet(h)][..0] == [];
    assert Run(NothingLoaded, [HandlerSet(h)]) == LoadRun(LoadState(false, Some(h)), []);
  }

  /* ---------------- Installation results (lines 118-141) ---------------- */

  /** A JavaScript value as far as this code tells them apart. */
  datatype Value = Undefined | Null | Str(s: string) | Object(id: nat)

  /** JavaScript truthiness of a value. */
  predicate Truthy(v: Value)
    ensures v.Undefined? || v.Null? ==> !Truthy(v)
    ensures v.Str? ==> (Truthy(v) <==> v.s != "")
    ensures v.Object? ==> Truthy(v)
  {
    match v
    case Undefined => false
    case Null => false
    case Str(s) => s != ""
    case Object(_) => true
  }

  /** Reading a missing key gives undefined. */
  function Get(m: map<string, Value>, k: string): Value
  {
    if k in m then m[k] else Undefined
  }

  /** The keys the desktop shell may change. */
  const PermissableKeys: seq<string> := ["package_info", "local_url"]

  /** The installation result the desktop shell reports. */
  datatype ComponentData = ComponentData(uuid: Uuid, content: map<string, Value>)

  /** A component item as far as this code writes it. */
  class ComponentItem {
    const uuid: Uuid
    var fields: map<string, Value>
    var installError: Value
    var dirty: bool

    constructor (uuid: Uuid, fields: map<string, Value>)
      ensures this.uuid == uuid && this.fields == fields
      ensures installError == Undefined && !dirty
    {
      this.uuid := uuid;
      this.fields := fields;
      installError := Undefined;
      dirty := false;
    }
  }

  /** `fields[key] = content[key]` for each of `keys` in turn. */
  function CopyKeys(fields: map<string, Value>, content: map<string, Value>, keys: seq<string>): (r: map<string, Value>)
    ensures forall k <- keys :: k in r && r[k] == Get(content, k)
    ensures forall k <- fields.Keys :: k !in keys ==> k in r && r[k] == fields[k]
    ensures forall k <- r.Keys :: k in fields || k in keys
  {
    if keys == [] then fields
    else
      var before := CopyKeys(fields, content, keys[..|keys| - 1]);
      var k := keys[|keys| - 1];
      assert forall j <- keys :: j in keys[..|keys| - 1] || j == k;
      before[k := Get(content, k)]
  }

  /** Only the permitted keys change, and each takes the reported value. */
  function MergePermitted(fields: map<string, Value>, content: map<string, Value>): (r: map<string, Value>)
    ensures forall k <- PermissableKeys :: k in r && r[k] == Get(content, k)
    ensures forall k <- fields.Keys :: k !in PermissableKeys ==> k in r && r[k] == fields[k]
    ensures forall k <- r.Keys :: k in fields || k in PermissableKeys
  {
    CopyKeys(fields, content, PermissableKeys)
  }

  /** Reporting the same result twice changes nothing more. */
  lemma MergeIdempotent(fields: map<string, Value>, content: map<string, Value>)
    ensures MergePermitted(MergePermitted(fields, content), content) == MergePermitted(fields, content)
  {
    var once := MergePermitted(fields, content);
    var twice := MergePermitted(once, content);
    assert twice.Keys == once.Keys;
  }

  /** The merge reads nothing of the result but the permitted keys. */
  lemma MergeIgnoresOtherKeys(fields: map<string, Value>, content: map<string, Value>, k: string, v: Value)
    requires k !in PermissableKeys
    ensures MergePermitted(fields, content[k := v]) == MergePermitted(fields, content)
  {
    var a := MergePermitted(fields, content[k := v]);
    var b := MergePermitted(fields, content);
    assert a.Keys == b.Keys;
  }

  class DesktopManager {
    const isDesktop: bool
    var updateObservers: seq<Observer>
    var componentActivationObservers: seq<Observer>
    var lastSearchedText: Option<string>
    var searchHandler: Option<nat>
    var dataLoaded: bool
    var dataLoadHandler: Option<nat>

    constructor (isDesktop: bool)
      ensures this.isDesktop == isDesktop
      ensures updateObservers == [] && componentActivationObservers == []
      ensures lastSearchedText == None && searchHandler == None
      ensures !dataLoaded && dataLoadHandler == None
    {
      this.isDesktop := isDesktop;
      updateObservers, componentActivationObservers := [], [];
      lastSearchedText, searchHandler := None, None;
      dataLoaded, dataLoadHandler := false, None;
    }

    function LoadStateNow(): LoadState
      reads this
    {
      LoadState(dataLoaded, dataLoadHandler)
    }

    /* ---------------- Observer lists (lines 80-84, 101-103, 150-158) ---------------- */

    /** Appends a new observer; deregistering it afterwards gives the old
        list back (RemoveAllAfterAppend). */
    method RegisterUpdateObserver(callback: nat) returns (o: Observer)
      modifies this`updateObservers
      ensures fresh(o) && o.callback == callback
      ensures o !in old(updateObservers)
      ensures updateObservers == old(updateObservers) + [o]
    {
      o := new Observer(callback);
      updateObservers := updateObservers + [o];
    }

    /** Removes every occurrence of `o`, keeping the others in order. */
    method DeregisterUpdateObserver(o: Observer)
      modifies this`updateObservers
      ensures updateObservers == RemoveAll(old(updateObservers), o)
      ensures o !in updateObservers
      ensures IsSubsequence(updateObservers, old(updateObservers))
    {
      updateObservers := RemoveAll(updateObservers, o);
    }

    method RegisterComponentActivationObserver(callback: nat) returns (o: Observer)
      modifies this`componentActivationObservers
      ensures fresh(o) && o.callback == callback
      ensures o !in old(componentActivationObservers)
      ensures componentActivationObservers == old(componentActivationObservers) + [o]
    {
      o := new Observer(callback);
      componentActivationObservers := componentActivationObservers + [o];
    }

    method DeregisterComponentActivationObserver(o: Observer)
      modifies this`componentActivationObservers
      ensures componentActivationObservers == RemoveAll(old(componentActivationObservers), o)
      ensures o !in componentActivationObservers
      ensures IsSubsequence(componentActivationObservers, old(componentActivationObservers))
    {
      componentActivationObservers := RemoveAll(componentActivationObservers, o);
    }

    /* ---------------- Search (lines 86-98, 105-108) ---------------- */

    /** `null` cancels the search handler. */
    method SetSearchHandler(handler: Option<nat>)
      modifies this`searchHandler
      ensures searchHandler == handler
    {
      searchHandler := handler;
    }

    /** Off the desktop nothing happens; on it the text is remembered and
        handed to the search handler, if one is set. */
    method SearchText(text: string) returns (call: Option<SearchCall>)
      modifies this`lastSearchedText
      ensures !isDesktop ==> call == None && lastSearchedText == old(lastSearchedText)
      ensures isDesktop ==> lastSearchedText == Some(text)
      ensures isDesktop ==> call == if searchHandler.Some? then Some(SearchCall(searchHandler.value, text)) else None
    {
      call := None;
      if !isDesktop {
        return;
      }
      lastSearchedText := Some(text);
      if searchHandler.Some? {
        call := Some(SearchCall(searchHandler.value, text));
      }
    }

    /** Searches again for the remembered text, only when it is non-empty;
        the remembered text stays as it was. */
    method RedoSearch() returns (call: Option<SearchCall>)
      modifies this`lastSearchedText
      ensures lastSearchedText == old(lastSearchedText)
      ensures (lastSearchedText.None? || lastSearchedText.value == "" || !isDesktop) ==> call == None
      ensures lastSearchedText.Some? && lastSearchedText.value != "" && isDesktop ==>
        call == if searchHandler.Some? then Some(SearchCall(searchHandler.value, lastSearchedText.value)) else None
    {
      call := None;
      if lastSearchedText.Some? && lastSearchedText.value != "" {
        call := SearchText(lastSearchedText.value);
      }
    }

    /* ---------------- Data-load handshake (lines 29-34, 185-190) ---------------- */

    /** The "initial-data-loaded" event; returns the handler it calls. */
    method OnInitialDataLoaded() returns (called: Option<nat>)
      modifies this`dataLoaded
      ensures LoadStep(LoadStateNow(), called) == Step(old(LoadStateNow()), DataLoaded)
    {
      dataLoaded := true;
      called := None;
      if dataLoadHandler.Some? {
        called := dataLoadHandler;
      }
    }

    /** Sets the handler and calls it at once if the data has loaded. */
    method SetInitialDataLoadHandler(handler: nat) returns (called: Option<nat>)
      modifies this`dataLoadHandler
      ensures LoadStep(LoadStateNow(), called) == Step(old(LoadStateNow()), HandlerSet(handler))
    {
      dataLoadHandler := Some(handler);
      called := None;
      if dataLoaded {
        called := dataLoadHandler;
      }
    }

    /* ---------------- Installation results (lines 118-141) ---------------- */

    /** Applies an installation result to the component the model manager
        holds under its uuid (`items`): none there, nothing changes; on an
        error only the error is recorded; otherwise only the permitted keys
        are copied and the error is cleared. A found component is marked
        dirty either way. */
    method OnComponentInstallationComplete(data: ComponentData, error: Value, items: map<Uuid, ComponentItem>)
      returns (found: bool)
      modifies if data.uuid in items then {items[data.uuid]} else {}
      ensures found <==> data.uuid in items
      ensures found && Truthy(error) ==>
        var c := items[data.uuid];
        c.installError == error && c.fields == old(c.fields) && c.dirty
      ensures found && !Truthy(error) ==>
        var c := items[data.uuid];
        c.fields == MergePermitted(old(c.fields), data.content) && c.installError == Null && c.dirty
    {
      if data.uuid !in items {
        return false;
      }
      var component := items[data.uuid];
      if Truthy(error) {
        component.installError := error;
      } else {
        for i := 0 to |PermissableKeys|
          invariant component.fields == CopyKeys(old(component.fields), data.content, PermissableKeys[..i])
        {
          assert PermissableKeys[..i + 1][..i] == PermissableKeys[..i];
          var key := PermissableKeys[i];
          component.fields := component.fields[key := Get(data.content, key)];
        }
        assert PermissableKeys[..|PermissableKeys|] == PermissableKeys;
        component.installError := Null;
      }
      component.dirty := true;
      found := true;
    }
  }
}

/** The editor panel controller (app/assets/javascripts/controllers/editor.js)
    as an object whose methods update its fields, the note it edits and the
    components attached to it. Collaborators it calls into are parameters:
    whether the model manager still holds the note (`noteInStore`), whether
    the session is offline, the current time in milliseconds (`now`), the
    model manager's find-or-create of a tag by title (`resolve`) and the
    note's display string of its tags (`display`). A `$timeout` the
    controller schedules is a field holding what it will do when it fires;
    scheduling again overwrites it, as cancelling and rescheduling does. */
module EditorPanel {
  import opened Seqs
  import opened EditorText
  import opened EditorLogic

  /** A note, as far as the controller reads and writes it. */
  class Note {
    const uuid: Uuid
    var text: Option<string>
    var previewPlain: Option<string>
    var previewHtml: Option<string>
    var deleted: bool
    var dummy: bool
    var dirty: bool
    var tags: seq<Tag>

    constructor (uuid: Uuid, text: Option<string>, tags: seq<Tag>)
      ensures this.uuid == uuid && this.text == text && this.tags == tags
      ensures previewPlain == None && previewHtml == None
      ensures !deleted && !dummy && !dirty
    {
      this.uuid := uuid;
      this.text := text;
      this.tags := tags;
      previewPlain, previewHtml := None, None;
      deleted, dummy, dirty := false, false, false;
    }
  }

  /** The three areas the panel registers its handler for. */
  datatype Area = NoteTags | EditorStack | EditorEditor

  /** A component (editor, tag field or stack panel), as far as the panel
      reads and writes it. */
  class Component {
    const area: Area
    var active: bool
    var defaultEditor: bool
    var associatedItemIds: seq<Uuid>
    var disassociatedItemIds: seq<Uuid>
    var dirty: bool

    constructor (area: Area, active: bool, defaultEditor: bool)
      ensures this.area == area && this.active == active && this.defaultEditor == defaultEditor
      ensures associatedItemIds == [] && disassociatedItemIds == [] && !dirty
    {
      this.area := area;
      this.active := active;
      this.defaultEditor := defaultEditor;
      associatedItemIds, disassociatedItemIds := [], [];
      dirty := false;
    }

    function Lists(): ItemLists
      reads this
    {
      ItemLists(associatedItemIds, disassociatedItemIds)
    }

    /** `isExplicitlyEnabledForItem(note)`: the note is on the associated
        list. With no note there is nothing to be enabled for. */
    predicate IsExplicitlyEnabledFor(note: Note?)
      reads this
      ensures IsExplicitlyEnabledFor(note) ==> note != null
      // a note the component is explicitly disabled for is not enabled, while no id is on both lists
      ensures note != null && WellFormed(Lists()) && note.uuid in disassociatedItemIds ==> !IsExplicitlyEnabledFor(note)
    {
      note != null && note.uuid in associatedItemIds
    }
  }

  /** The panel's menus, named after the flags that show them. */
  datatype Menu = ShowMenu | ShowEditorMenu | ShowExtensions | ShowSessionHistory

  const AllMenus: seq<Menu> := [ShowMenu, ShowEditorMenu, ShowExtensions, ShowSessionHistory]

  /** A status line; `date` is set when it is put on screen. */
  datatype Status = Status(message: string, desc: Option<string>, date: Option<int>)

  datatype SaveOptions = SaveOptions(bypassDebouncer: bool, updateClientModified: bool, dontUpdatePreviews: bool)

  /** How saveNote ended: an alert about a deleted note or about a note the
      model manager no longer holds, or a sync scheduled after a delay. */
  datatype SaveResult = DeletedNoteAlert | MissingNoteAlert | SyncScheduled(delayMs: int)

  /** The sync manager's events the panel listens to. */
  datatype SyncEvent = SyncTakingTooLong | SyncCompleted(savedItemUuids: seq<Uuid>) | SyncFailed

  const SavingStatus := Status("Saving...", None, None)
  const AllSavedMessage := "All changes saved"
  const OfflineSuffix := " (offline)"
  /** "All changes saved", marked when the session is offline. */
  function AllSavedText(offline: bool): string
  {
    if offline then AllSavedMessage + OfflineSuffix else AllSavedMessage
  }

  const DefaultErrorStatus := Status("Sync Unreachable", Some("Changes saved offline"), None)

  /* ---------------- The loops of updateTags (editor.js:589-611) ---------------- */

  /** The note's tags whose title is not listed, in order. */
  method CollectTagsToRemove(noteTags: seq<Tag>, stringTags: seq<string>) returns (toRemove: seq<Tag>)
    ensures toRemove == TagsToRemove(noteTags, stringTags)
  {
    toRemove := [];
    for i := 0 to |noteTags|
      invariant toRemove == TagsToRemove(noteTags[..i], stringTags)
    {
      assert noteTags[..i + 1][..i] == noteTags[..i];
      if noteTags[i].title !in stringTags {
        toRemove := toRemove + [noteTags[i]];
      }
    }
    assert noteTags[..|noteTags|] == noteTags;
  }

  /** Each tag of `toRemove` drops its relationship with the note. */
  method RemoveRelationships(note: Note, toRemove: seq<Tag>)
    modifies note`tags
    ensures note.tags == PullEach(old(note.tags), toRemove)
  {
    for j := 0 to |toRemove|
      invariant note.tags == PullEach(old(note.tags), toRemove[..j])
    {
      assert toRemove[..j + 1][..j] == toRemove[..j];
      note.tags := RemoveAll(note.tags, toRemove[j]);
    }
    assert toRemove[..|toRemove|] == toRemove;
  }

  /** A found or created tag for each listed title no tag carries. */
  method CollectTagsToAdd(noteTags: seq<Tag>, stringTags: seq<string>, resolve: string -> Tag) returns (tags: seq<Tag>)
    ensures tags == TagsToAdd(noteTags, stringTags, resolve)
  {
    tags := [];
    for k := 0 to |stringTags|
      invariant tags == TagsToAdd(noteTags, stringTags[..k], resolve)
    {
      assert stringTags[..k + 1][..k] == stringTags[..k];
      if !HasTitle(noteTags, stringTags[k]) {
        tags := tags + [resolve(stringTags[k])];
      }
    }
    assert stringTags[..|stringTags|] == stringTags;
  }

  /** Each tag of `tags` adds its relationship with the note. */
  method AddRelationships(note: Note, tags: seq<Tag>)
    modifies note`tags
    ensures note.tags == PushEach(old(note.tags), tags)
  {
    for l := 0 to |tags|
      invariant note.tags == PushEach(old(note.tags), tags[..l])
    {
      assert tags[..l + 1][..l] == tags[..l];
      note.tags := AppendIfAbsent(note.tags, tags[l]);
    }
    assert tags[..|tags|] == tags;
  }

  class EditorController {
    var note: Note?
    var showMenu: bool
    var showEditorMenu: bool
    var showExtensions: bool
    var showSessionHistory: bool
    var selectedEditor: Component?
    var tagsComponent: Component?
    var noteStatus: Option<Status>
    /** What the scheduled status timeout will put on screen. */
    var pendingStatus: Option<Status>
    /** The delay of the scheduled save timeout, which syncs. */
    var pendingSyncMs: Option<int>
    var saveError: bool
    var syncTakingTooLong: bool
    var didShowErrorAlert: bool
    var tagsString: string

    constructor ()
      ensures note == null && selectedEditor == null && tagsComponent == null
      ensures !showMenu && !showEditorMenu && !showExtensions && !showSessionHistory
      ensures noteStatus == None && pendingStatus == None && pendingSyncMs == None
      ensures !saveError && !syncTakingTooLong && !didShowErrorAlert && tagsString == ""
    {
      note, selectedEditor, tagsComponent := null, null, null;
      showMenu, showEditorMenu, showExtensions, showSessionHistory := false, false, false, false;
      noteStatus, pendingStatus, pendingSyncMs := None, None, None;
      saveError, syncTakingTooLong, didShowErrorAlert := false, false, false;
      tagsString := "";
    }

    /* ---------------- Menus (editor.js:219-238) ---------------- */

    function IsOpen(m: Menu): bool
      reads this
    {
      match m
      case ShowMenu => showMenu
      case ShowEditorMenu => showEditorMenu
      case ShowExtensions => showExtensions
      case ShowSessionHistory => showSessionHistory
    }

    /** `this[menu] = value` */
    method SetMenu(m: Menu, value: bool)
      modifies this`showMenu, this`showEditorMenu, this`showExtensions, this`showSessionHistory
      ensures IsOpen(m) == value
      ensures forall other :: other != m ==> IsOpen(other) == old(IsOpen(other))
    {
      match m
      case ShowMenu => showMenu := value;
      case ShowEditorMenu => showEditorMenu := value;
      case ShowExtensions => showExtensions := value;
      case ShowSessionHistory => showSessionHistory := value;
    }

    method CloseAllMenus()
      modifies this`showMenu, this`showEditorMenu, this`showExtensions
      ensures !showEditorMenu && !showMenu && !showExtensions
      ensures showSessionHistory == old(showSessionHistory)
    {
      showEditorMenu := false;
      showMenu := false;
      showExtensions := false;
    }

    /** Flips one menu and closes every other, so at most one is open. */
    method ToggleMenu(menu: Menu)
      modifies this`showMenu, this`showEditorMenu, this`showExtensions, this`showSessionHistory
      ensures IsOpen(menu) == !old(IsOpen(menu))
      ensures forall m :: m != menu ==> !IsOpen(m)
      ensures forall m, m' :: IsOpen(m) && IsOpen(m') ==> m == m'
    {
      SetMenu(menu, !IsOpen(menu));
      for i := 0 to |AllMenus|
        invariant IsOpen(menu) == !old(IsOpen(menu))
        invariant forall j :: 0 <= j < i && AllMenus[j] != menu ==> !IsOpen(AllMenus[j])
      {
        if AllMenus[i] != menu {
          SetMenu(AllMenus[i], false);
        }
      }
      forall m | m != menu
        ensures !IsOpen(m)
      {
        var j := match m case ShowMenu => 0 case ShowEditorMenu => 1 case ShowExtensions => 2 case ShowSessionHistory => 3;
        assert AllMenus[j] == m;
      }
    }

    /* ---------------- Status (editor.js:356-398) ---------------- */

    /** The date of the status on screen, if there is one. */
    function ShownAt(): Option<int>
      reads this
    {
      if noteStatus.None? then None else noteStatus.value.date
    }

    /** Schedules `status` to replace the one on screen, and returns after
        how many milliseconds; the schedule replaces any earlier one. */
    method SetStatus(status: Status, wait: bool, now: int) returns (delayMs: int)
      modifies this`pendingStatus
      ensures pendingStatus == Some(status)
      ensures delayMs == StatusWaitMs(ShownAt(), now, wait)
    {
      var waitForMs: int;
      if noteStatus.None? || noteStatus.value.date.None? {
        waitForMs := 0;
      } else {
        waitForMs := MinimumStatusDurationMs - (now - noteStatus.value.date.value);
      }
      if !wait || waitForMs < 0 {
        waitForMs := 0;
      }
      pendingStatus := Some(status);
      delayMs := waitForMs;
    }

    /** The status timeout fires at time `now`: its status goes on screen,
        dated. */
    method StatusTimeoutFired(now: int)
      requires pendingStatus.Some?
      modifies this`noteStatus, this`pendingStatus
      ensures noteStatus == Some(old(pendingStatus).value.(date := Some(now)))
      ensures pendingStatus == None
    {
      noteStatus := Some(pendingStatus.value.(date := Some(now)));
      pendingStatus := None;
    }

    method ShowSavingStatus(now: int) returns (delayMs: int)
      modifies this`pendingStatus
      ensures pendingStatus == Some(SavingStatus)
      ensures delayMs == 0
    {
      delayMs := SetStatus(SavingStatus, false, now);
    }

    method ShowAllChangesSavedStatus(offline: bool, now: int) returns (delayMs: int)
      modifies this`saveError, this`syncTakingTooLong, this`pendingStatus
      ensures !saveError && !syncTakingTooLong
      ensures pendingStatus == Some(Status(AllSavedText(offline), None, None))
      ensures delayMs == StatusWaitMs(ShownAt(), now, true)
    {
      saveError := false;
      syncTakingTooLong := false;
      var message := AllSavedMessage;
      if offline {
        message := message + OfflineSuffix;
      }
      delayMs := SetStatus(Status(message, None, None), true, now);
    }

    /** Shows `error`, or the default "Sync Unreachable" status when there
        is none. */
    method ShowErrorStatus(error: Option<Status>, now: int) returns (delayMs: int)
      modifies this`saveError, this`syncTakingTooLong, this`pendingStatus
      ensures saveError && !syncTakingTooLong
      ensures pendingStatus == Some(if error.Some? then error.value else DefaultErrorStatus)
      ensures delayMs == StatusWaitMs(ShownAt(), now, true)
    {
      var status := if error.None? then DefaultErrorStatus else error.value;
      saveError := true;
      syncTakingTooLong := false;
      delayMs := SetStatus(status, true, now);
    }

    /** The sync manager's event handler (editor.js:61-85): returns the
        delay of the status it scheduled, if it scheduled one. */
    method OnSyncEvent(event: SyncEvent, offline: bool, now: int) returns (statusDelay: Option<int>)
      modifies this`saveError, this`syncTakingTooLong, this`pendingStatus
      ensures note == null ==>
        (statusDelay == None && syncTakingTooLong == old(syncTakingTooLong)
         && saveError == old(saveError) && pendingStatus == old(pendingStatus))
      ensures note != null && event.SyncTakingTooLong? ==>
        (syncTakingTooLong && statusDelay == None
         && saveError == old(saveError) && pendingStatus == old(pendingStatus))
      ensures note != null && event.SyncCompleted? ==>
        (!syncTakingTooLong
         && (statusDelay.Some? <==> !note.dirty && (old(saveError) || note.uuid in event.savedItemUuids))
         && (statusDelay.Some? ==>
               (!saveError && pendingStatus == Some(Status(AllSavedText(offline), None, None))
                && statusDelay.value == StatusWaitMs(ShownAt(), now, true)))
         && (statusDelay.None? ==> saveError == old(saveError) && pendingStatus == old(pendingStatus)))
      ensures note != null && event.SyncFailed? ==>
        ((statusDelay.Some? <==> note.dirty)
         && (statusDelay.Some? ==>
               (saveError && !syncTakingTooLong && pendingStatus == Some(DefaultErrorStatus)
                && statusDelay.value == StatusWaitMs(ShownAt(), now, true)))
         && (statusDelay.None? ==>
               saveError == old(saveError) && syncTakingTooLong == old(syncTakingTooLong)
               && pendingStatus == old(pendingStatus)))
    {
      statusDelay := None;
      if note == null {
        return;
      }
      match event
      case SyncTakingTooLong =>
        syncTakingTooLong := true;
      case SyncCompleted(saved) =>
        syncTakingTooLong := false;
        if !note.dirty {
          var savedItem := note.uuid in saved;
          var isInErrorState := saveError;
          if isInErrorState || savedItem {
            var d := ShowAllChangesSavedStatus(offline, now);
            statusDelay := Some(d);
          }
        }
      case SyncFailed =>
        if note.dirty {
          var d := ShowErrorStatus(None, now);
          statusDelay := Some(d);
        }
    }

    /* ---------------- Saving (editor.js:302-354) ---------------- */

    /** Saves the note: a deleted note or one the model manager no longer
        holds raises an alert and nothing else happens; otherwise the
        previews are refreshed unless told not to, the note is marked dirty
        and a sync is scheduled. The note stops being a placeholder in
        every case. */
    method SaveNote(options: SaveOptions, noteInStore: bool, offline: bool, now: int) returns (result: SaveResult)
      requires note != null
      modifies note, this`pendingStatus, this`pendingSyncMs
      ensures !note.dummy
      ensures note.text == old(note.text) && note.tags == old(note.tags) && note.deleted == old(note.deleted)
      ensures (old(note.deleted) || !noteInStore) ==>
        && result == (if old(note.deleted) then DeletedNoteAlert else MissingNoteAlert)
        && note.dirty == old(note.dirty)
        && note.previewPlain == old(note.previewPlain) && note.previewHtml == old(note.previewHtml)
        && pendingStatus == old(pendingStatus) && pendingSyncMs == old(pendingSyncMs)
      ensures !old(note.deleted) && noteInStore ==>
        && result == SyncScheduled(SyncDelayMs(offline, options.bypassDebouncer))
        && pendingSyncMs == Some(result.delayMs)
        && note.dirty
        && pendingStatus == Some(SavingStatus)
        && (options.dontUpdatePreviews ==>
              note.previewPlain == old(note.previewPlain) && note.previewHtml == old(note.previewHtml))
        && (!options.dontUpdatePreviews ==>
              note.previewPlain == Some(PreviewPlain(NoteText(note.text))) && note.previewHtml == None)
    {
      var n := note;
      n.dummy := false;
      if n.deleted {
        return DeletedNoteAlert;
      }
      if !noteInStore {
        return MissingNoteAlert;
      }
      var _ := ShowSavingStatus(now);
      if !options.dontUpdatePreviews {
        var text := NoteText(n.text);
        var truncate := |text| > NotePreviewCharLimit;
        n.previewPlain := Some(Substring(text, 0, NotePreviewCharLimit) + (if truncate then Ellipsis else ""));
        n.previewHtml := None;
      }
      n.dirty := true;
      var syncDebounceMs: int;
      if offline || options.bypassDebouncer {
        syncDebounceMs := SyncNoDebounceMs;
      } else {
        syncDebounceMs := SyncDebounceMs;
      }
      pendingSyncMs := Some(syncDebounceMs);
      result := SyncScheduled(syncDebounceMs);
    }

    /** The save timeout fires and its sync answers: an error raises the
        alert once, and only once per panel. */
    method SaveTimeoutFired(responseError: bool) returns (alert: bool)
      requires pendingSyncMs.Some?
      modifies this`pendingSyncMs, this`didShowErrorAlert
      ensures pendingSyncMs == None
      ensures alert <==> responseError && !old(didShowErrorAlert)
      ensures didShowErrorAlert <==> old(didShowErrorAlert) || responseError
    {
      pendingSyncMs := None;
      alert := false;
      if responseError && !didShowErrorAlert {
        didShowErrorAlert := true;
        alert := true;
      }
    }

    /* ---------------- Tags (editor.js:564-628) ---------------- */

    method LoadTagsString(display: seq<Tag> -> string)
      requires note != null
      modifies this`tagsString
      ensures tagsString == display(note.tags)
    {
      tagsString := display(note.tags);
    }

    /** Reconciles the note's tags with `stringTags`: the first loop
        collects the tags to remove, the second drops them, the third
        finds or creates tags for the titles left without one and the
        fourth adds them. */
    method UpdateTags(stringTags: seq<string>, resolve: string -> Tag)
      requires note != null
      modifies note`tags
      ensures note.tags == UpdatedTags(old(note.tags), stringTags, resolve)
    {
      var n := note;
      var toRemove := CollectTagsToRemove(n.tags, stringTags);
      RemoveRelationships(n, toRemove);
      var tags := CollectTagsToAdd(n.tags, stringTags, resolve);
      AddRelationships(n, tags);
    }

    /** Adds one tag: the note keeps all its titles and gains the new one. */
    method AddTag(tag: Tag, resolve: string -> Tag, display: seq<Tag> -> string)
      requires note != null
      modifies note`tags, this`tagsString
      ensures note.tags == UpdatedTags(old(note.tags), Titles(old(note.tags)) + [tag.title], resolve)
      ensures tagsString == display(note.tags)
    {
      var strings := Titles(note.tags) + [tag.title];
      UpdateTags(strings, resolve);
      LoadTagsString(display);
    }

    /** Removes every tag titled like `tag`. */
    method RemoveTag(tag: Tag, resolve: string -> Tag, display: seq<Tag> -> string)
      requires note != null
      modifies note`tags, this`tagsString
      ensures note.tags == UpdatedTags(old(note.tags), RemoveAll(Titles(old(note.tags)), tag.title), resolve)
      ensures tagsString == display(note.tags)
    {
      var strings := RemoveAll(Titles(note.tags), tag.title);
      UpdateTags(strings, resolve);
      LoadTagsString(display);
    }

    /** Applies the tags field: nothing happens when it still shows the
        note's tags; otherwise the note stops being a placeholder and its
        tags are reconciled with the titles parsed from the field. */
    method UpdateTagsFromTagsString(resolve: string -> Tag, display: seq<Tag> -> string) returns (changed: bool)
      requires note != null
      modifies note
      ensures changed <==> tagsString != display(old(note.tags))
      ensures !changed ==> unchanged(note)
      ensures changed ==> !note.dummy && note.tags == UpdatedTags(old(note.tags), ParseTagsString(tagsString), resolve)
      // only the placeholder flag and the tags change
      ensures note.text == old(note.text) && note.deleted == old(note.deleted) && note.dirty == old(note.dirty)
      ensures note.previewPlain == old(note.previewPlain) && note.previewHtml == old(note.previewHtml)
    {
      if tagsString == display(note.tags) {
        return false;
      }
      var strings := ParseTagsString(tagsString);
      note.dummy := false;
      UpdateTags(strings, resolve);
      changed := true;
    }

    /* ---------------- Components (editor.js:732-876) ---------------- */

    /** What the activation handler reads of a component. */
    function FlagsOf(c: Component): EditorFlags
      reads this, c
    {
      EditorFlags(c.active, c.IsExplicitlyEnabledFor(note), c.defaultEditor)
    }

    /** The selected editor, seen from `incoming`. */
    function SelectionSeenFrom(incoming: Component): Selected
      reads this, selectedEditor
    {
      if selectedEditor == null then NoEditor
      else if selectedEditor == incoming then IsIncoming
      else Another(FlagsOf(selectedEditor))
    }

    /** The handler for a component whose activation changed: the tag
        field is taken or dropped, and for an editor the selection follows
        EditorChoice. */
    method OnComponentActivation(component: Component)
      modifies this`selectedEditor, this`tagsComponent
      ensures component.area == NoteTags ==>
        tagsComponent == (if component.active then component else null) && selectedEditor == old(selectedEditor)
      ensures component.area == EditorEditor ==> tagsComponent == old(tagsComponent)
      ensures component.area == EditorEditor ==>
        var c := EditorChoice(old(SelectionSeenFrom(component)), FlagsOf(component), note != null);
        selectedEditor == (match c case Keep => old(selectedEditor) case Clear => null case SelectIncoming => component)
      ensures component.area == EditorStack ==> selectedEditor == old(selectedEditor) && tagsComponent == old(tagsComponent)
    {
      if component.area == NoteTags {
        tagsComponent := if component.active then component else null;
      } else if component.area == EditorEditor {
        if selectedEditor != null && selectedEditor == component && !component.active {
          selectedEditor := null;
        } else if selectedEditor != null {
          if selectedEditor.active {
            if component.IsExplicitlyEnabledFor(note) && !selectedEditor.IsExplicitlyEnabledFor(note) {
              selectedEditor := component;
            }
          }
        } else {
          if component.active && note != null && (component.IsExplicitlyEnabledFor(note) || component.defaultEditor) {
            selectedEditor := component;
          } else {
            selectedEditor := null;
          }
        }
      }
    }

    method DisassociateComponentWithCurrentNote(component: Component)
      requires note != null
      modifies component
      ensures component.Lists() == Disassociate(old(component.Lists()), note.uuid)
      ensures !component.IsExplicitlyEnabledFor(note)
      ensures component.dirty
      ensures component.active == old(component.active) && component.defaultEditor == old(component.defaultEditor)
    {
      component.associatedItemIds := RemoveAll(component.associatedItemIds, note.uuid);
      if note.uuid !in component.disassociatedItemIds {
        component.disassociatedItemIds := component.disassociatedItemIds + [note.uuid];
      }
      component.dirty := true;
    }

    method AssociateComponentWithCurrentNote(component: Component)
      requires note != null
      modifies component
      ensures component.Lists() == Associate(old(component.Lists()), note.uuid)
      ensures component.IsExplicitlyEnabledFor(note)
      ensures component.dirty
      ensures component.active == old(component.active) && component.defaultEditor == old(component.defaultEditor)
    {
      component.disassociatedItemIds := RemoveAll(component.disassociatedItemIds, note.uuid);
      if note.uuid !in component.associatedItemIds {
        component.associatedItemIds := component.associatedItemIds + [note.uuid];
      }
      component.dirty := true;
    }
  }
}

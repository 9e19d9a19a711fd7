/** The decisions the editor panel (app/assets/javascripts/controllers/editor.js)
    takes, stated as functions of their inputs: how long a new status
    waits before it replaces the one on screen, how long a save waits
    before it syncs, which editor component is selected when a component
    is activated or deactivated, how a note's uuid moves between a
    component's association lists, and how a note's tags are reconciled
    with a list of titles. The controller in EditorPanel runs these steps
    on its own state; here they are values, with the properties proved
    about them. */
module EditorLogic {
  import opened Seqs

  /* ---------------- Status delay (editor.js:384-392) ---------------- */

  const MinimumStatusDurationMs: int := 400

  /** The delay, in milliseconds, before a new status replaces the one on
      screen. `shownAt` is the date of the displayed status (None when no
      status is displayed or it has no date), `now` the current time. */
  function StatusWaitMs(shownAt: Option<int>, now: int, wait: bool): (r: int)
    ensures r >= 0
    ensures !wait || shownAt.None? ==> r == 0
    // when asked to wait, the displayed status stays up for the minimum duration ...
    ensures wait && shownAt.Some? ==> shownAt.value + MinimumStatusDurationMs <= now + r
    // ... and not a millisecond longer
    ensures r > 0 ==> shownAt.Some? && now + r == shownAt.value + MinimumStatusDurationMs
    ensures shownAt.Some? && shownAt.value <= now ==> r <= MinimumStatusDurationMs
  {
    var waitForMs := if shownAt.None? then 0 else MinimumStatusDurationMs - (now - shownAt.value);
    if !wait || waitForMs < 0 then 0 else waitForMs
  }

  /** The later the new status comes, the shorter it waits. */
  lemma StatusWaitShrinks(shownAt: Option<int>, now: int, later: int, wait: bool)
    requires now <= later
    ensures StatusWaitMs(shownAt, later, wait) <= StatusWaitMs(shownAt, now, wait)
    ensures later + StatusWaitMs(shownAt, later, wait) >= now + StatusWaitMs(shownAt, now, wait)
  {
  }

  /* ---------------- Save debounce (editor.js:298-300, 337-342) ---------------- */

  const SyncDebounceMs: int := 350
  const SyncNoDebounceMs: int := 100

  /** The delay before a save is synced: short when offline or when the
      caller bypasses the debouncer, long otherwise. */
  function SyncDelayMs(offline: bool, bypassDebouncer: bool): (r: int)
    ensures r == SyncNoDebounceMs <==> offline || bypassDebouncer
    ensures r == SyncDebounceMs <==> !offline && !bypassDebouncer
  {
    if offline || bypassDebouncer then SyncNoDebounceMs else SyncDebounceMs
  }

  /* ---------------- Editor selection (editor.js:739-763) ---------------- */

  /** What the activation handler reads of an editor component: whether it
      is active, whether it is explicitly enabled for the current note, and
      whether it is the default editor. */
  datatype EditorFlags = EditorFlags(active: bool, explicitlyEnabled: bool, defaultEditor: bool)

  /** The selected editor as seen from the component whose activation
      changed: none, that very component, or another one. */
  datatype Selected = NoEditor | IsIncoming | Another(flags: EditorFlags)

  datatype Choice = Keep | Clear | SelectIncoming

  /** The handler's decision for an editor component whose activation
      changed, given the current selection and whether a note is open. */
  function EditorChoice(selected: Selected, incoming: EditorFlags, hasNote: bool): (c: Choice)
    // the selected editor itself reporting inactive is cleared; reporting active, it stays
    ensures selected == IsIncoming ==> c == (if incoming.active then Keep else Clear)
    // another active selected editor yields only to one enabled for the note when it is not
    ensures selected.Another? ==>
      (c == SelectIncoming <==> selected.flags.active && incoming.explicitlyEnabled && !selected.flags.explicitlyEnabled)
      && c != Clear
    // with nothing selected, only an active candidate for an open note is taken
    ensures selected == NoEditor ==>
      (c == SelectIncoming <==> incoming.active && hasNote && (incoming.explicitlyEnabled || incoming.defaultEditor))
      && c != Keep
  {
    if selected == IsIncoming && !incoming.active then Clear
    else if selected != NoEditor then
      if selected.Another? && selected.flags.active then
        if incoming.explicitlyEnabled && !selected.flags.explicitlyEnabled then SelectIncoming else Keep
      else Keep
    else if incoming.active && hasNote && (incoming.explicitlyEnabled || incoming.defaultEditor) then SelectIncoming
    else Clear
  }

  /** The selection after a choice has been carried out. */
  function Apply(selected: Selected, c: Choice): Selected
  {
    match c
    case Keep => selected
    case Clear => NoEditor
    case SelectIncoming => IsIncoming
  }

  /** Two editors explicitly enabled for the same note do not replace each
      other back and forth: an active selected editor that is explicitly
      enabled is never displaced. */
  lemma EnabledEditorKept(flags: EditorFlags, incoming: EditorFlags, hasNote: bool)
    requires flags.active && flags.explicitlyEnabled
    ensures EditorChoice(Another(flags), incoming, hasNote) == Keep
  {
  }

  /** Starting from no selection, whatever ends up selected is active. */
  lemma SelectionFromNothingIsActive(incoming: EditorFlags, hasNote: bool)
    ensures Apply(NoEditor, EditorChoice(NoEditor, incoming, hasNote)) == IsIncoming ==> incoming.active && hasNote
  {
  }

  /** Delivering the same activation twice has the effect of delivering it
      once, except when an inactive component replaced another editor. */
  lemma ReplayStable(selected: Selected, incoming: EditorFlags, hasNote: bool)
    requires !(selected.Another? && !incoming.active && selected.flags.active
               && !selected.flags.explicitlyEnabled && incoming.explicitlyEnabled)
    ensures var once := Apply(selected, EditorChoice(selected, incoming, hasNote));
      Apply(once, EditorChoice(once, incoming, hasNote)) == once
  {
  }

  /** The exception: a component that is explicitly enabled for the note
      replaces an active editor that is not, even when it reports itself
      inactive, and the same report then clears it. */
  lemma InactiveComponentCanBeSelected(selected: EditorFlags, incoming: EditorFlags, hasNote: bool)
    requires selected.active && !selected.explicitlyEnabled
    requires incoming.explicitlyEnabled && !incoming.active
    ensures EditorChoice(Another(selected), incoming, hasNote) == SelectIncoming
    ensures EditorChoice(IsIncoming, incoming, hasNote) == Clear
  {
  }

  /* ---------------- Association lists (editor.js:852-876) ---------------- */

  /** A component's lists of the items it is explicitly enabled and
      explicitly disabled for. */
  datatype ItemLists = ItemLists(associated: seq<Uuid>, disassociated: seq<Uuid>)

  /** The lists after associating the component with item `id`: `id` leaves
      the disassociated list and joins the associated one unless it is
      already there; every other id stays where it was. */
  function Associate(lists: ItemLists, id: Uuid): (r: ItemLists)
    ensures id in r.associated && id !in r.disassociated
    ensures |lists.associated| <= |r.associated| <= |lists.associated| + 1
    ensures r.associated[..|lists.associated|] == lists.associated
    ensures forall x <- r.associated :: x in lists.associated || x == id
    ensures forall x <- r.disassociated :: x in lists.disassociated && x != id
    ensures forall x <- lists.disassociated :: x != id ==> x in r.disassociated
    ensures IsSubsequence(r.disassociated, lists.disassociated)
    // appended only when absent; the other ids keep their multiplicity
    ensures id in lists.associated ==> r.associated == lists.associated
    ensures multiset(r.disassociated) == multiset(lists.disassociated)[id := 0]
  {
    var disassociated := RemoveAll(lists.disassociated, id);
    var associated := AppendIfAbsent(lists.associated, id);
    ItemLists(associated, disassociated)
  }

  /** The mirror image of Associate. */
  function Disassociate(lists: ItemLists, id: Uuid): (r: ItemLists)
    ensures id in r.disassociated && id !in r.associated
    ensures |lists.disassociated| <= |r.disassociated| <= |lists.disassociated| + 1
    ensures r.disassociated[..|lists.disassociated|] == lists.disassociated
    ensures forall x <- r.disassociated :: x in lists.disassociated || x == id
    ensures forall x <- r.associated :: x in lists.associated && x != id
    ensures forall x <- lists.associated :: x != id ==> x in r.associated
    ensures IsSubsequence(r.associated, lists.associated)
    ensures id in lists.disassociated ==> r.disassociated == lists.disassociated
    ensures multiset(r.associated) == multiset(lists.associated)[id := 0]
  {
    var associated := RemoveAll(lists.associated, id);
    var disassociated := AppendIfAbsent(lists.disassociated, id);
    ItemLists(associated, disassociated)
  }

  function Swap(lists: ItemLists): ItemLists
  {
    ItemLists(lists.disassociated, lists.associated)
  }

  lemma DisassociateMirrorsAssociate(lists: ItemLists, id: Uuid)
    ensures Disassociate(lists, id) == Swap(Associate(Swap(lists), id))
  {
  }

  lemma AssociateIdempotent(lists: ItemLists, id: Uuid)
    ensures Associate(Associate(lists, id), id) == Associate(lists, id)
  {
    RemoveAllIdempotent(lists.disassociated, id);
  }

  lemma DisassociateIdempotent(lists: ItemLists, id: Uuid)
    ensures Disassociate(Disassociate(lists, id), id) == Disassociate(lists, id)
  {
    RemoveAllIdempotent(lists.associated, id);
  }

  ghost predicate WellFormed(lists: ItemLists)
  {
    && NoDuplicates(lists.associated)
    && NoDuplicates(lists.disassociated)
    && forall x <- lists.associated :: x !in lists.disassociated
  }

  /** Lists without duplicates and with no id on both stay that way. */
  lemma AssociationKeepsWellFormed(lists: ItemLists, id: Uuid)
    requires WellFormed(lists)
    ensures WellFormed(Associate(lists, id))
    ensures WellFormed(Disassociate(lists, id))
  {
    RemoveAllKeepsNoDuplicates(lists.disassociated, id);
    RemoveAllKeepsNoDuplicates(lists.associated, id);
  }

  /* ---------------- Tags (editor.js:568-611) ---------------- */

  datatype Tag = Tag(uuid: Uuid, title: string)

  /** `_.find(tags, {title: title})` finds something. */
  predicate HasTitle(tags: seq<Tag>, title: string)
  {
    exists t <- tags :: t.title == title
  }

  /** `tags.map(t => t.title)` */
  function Titles(tags: seq<Tag>): (r: seq<string>)
    ensures |r| == |tags|
    ensures forall i :: 0 <= i < |tags| ==> r[i] == tags[i].title
  {
    seq(|tags|, i requires 0 <= i < |tags| => tags[i].title)
  }

  /** The note's tags whose title is not listed (the first loop of
      updateTags). */
  function TagsToRemove(noteTags: seq<Tag>, titles: seq<string>): (r: seq<Tag>)
    ensures forall t <- r :: t in noteTags && t.title !in titles
    ensures forall t <- noteTags :: t.title !in titles ==> t in r
  {
    if noteTags == [] then []
    else
      var init, last := noteTags[..|noteTags| - 1], noteTags[|noteTags| - 1];
      assert forall t <- noteTags :: t in init || t == last;
      TagsToRemove(init, titles) + (if last.title in titles then [] else [last])
  }

  /** The first loop collects no tag more often than the note holds it. */
  lemma {:induction false} TagsToRemoveWithin(noteTags: seq<Tag>, titles: seq<string>)
    ensures multiset(TagsToRemove(noteTags, titles)) <= multiset(noteTags)
  {
    if noteTags != [] {
      var init, last := noteTags[..|noteTags| - 1], noteTags[|noteTags| - 1];
      TagsToRemoveWithin(init, titles);
      assert noteTags == init + [last];
      assert multiset(noteTags) == multiset(init) + multiset{last};
      var tail := if last.title in titles then [] else [last];
      assert TagsToRemove(noteTags, titles) == TagsToRemove(init, titles) + tail;
      assert multiset(TagsToRemove(noteTags, titles)) == multiset(TagsToRemove(init, titles)) + multiset(tail);
    }
  }

  /** The tags left after each of `toRemove` has dropped its relationship
      with the note. */
  function PullEach(tags: seq<Tag>, toRemove: seq<Tag>): (r: seq<Tag>)
    ensures forall t <- r :: t in tags && t !in toRemove
    ensures forall t <- tags :: t !in toRemove ==> t in r
  {
    if toRemove == [] then tags
    else
      var init, last := toRemove[..|toRemove| - 1], toRemove[|toRemove| - 1];
      var kept := PullEach(tags, init);
      assert forall t <- toRemove :: t in init || t == last;
      RemoveAll(kept, last)
  }

  /** The tags found or created for the listed titles that no tag of the
      note carries (the second loop of updateTags); `resolve` stands for
      the model manager's find-or-create by title. */
  function TagsToAdd(noteTags: seq<Tag>, titles: seq<string>, resolve: string -> Tag): (r: seq<Tag>)
    ensures forall s <- titles :: !HasTitle(noteTags, s) ==> resolve(s) in r
    ensures forall t <- r :: exists s <- titles :: !HasTitle(noteTags, s) && t == resolve(s)
  {
    if titles == [] then []
    else
      var init, last := titles[..|titles| - 1], titles[|titles| - 1];
      assert forall s <- titles :: s in init || s == last;
      assert forall s <- init :: s in titles;
      TagsToAdd(noteTags, init, resolve) + (if HasTitle(noteTags, last) then [] else [resolve(last)])
  }

  /** The note's tags after each of `toAdd` has added its relationship with
      the note (a tag already related is not added twice). */
  function PushEach(tags: seq<Tag>, toAdd: seq<Tag>): (r: seq<Tag>)
    ensures forall t <- r :: t in tags || t in toAdd
    ensures forall t <- tags :: t in r
    ensures forall t <- toAdd :: t in r
    ensures |tags| <= |r| && r[..|tags|] == tags
  {
    if toAdd == [] then tags
    else
      var init, last := toAdd[..|toAdd| - 1], toAdd[|toAdd| - 1];
      assert forall t <- toAdd :: t in init || t == last;
      AppendIfAbsent(PushEach(tags, init), last)
  }

  /** The note's tags after updateTags(titles): the unlisted ones removed,
      then tags for the titles left without one added. */
  function UpdatedTags(noteTags: seq<Tag>, titles: seq<string>, resolve: string -> Tag): (r: seq<Tag>)
    // an empty list removes every tag and adds none
    ensures titles == [] ==> r == []
  {
    var kept := PullEach(noteTags, TagsToRemove(noteTags, titles));
    assert titles == [] ==> kept == [] by {
      if titles == [] && kept != [] {
        HeadIsMember(kept);
        assert false;
      }
    }
    PushEach(kept, TagsToAdd(kept, titles, resolve))
  }

  /** A tag of the note whose title is listed stays. Every tag after
      updateTags(titles) is one of the note's tags with a listed title, or
      one found or created for a listed title; so a tag
      whose title is not listed goes, unless it is found again for a
      listed title. */
  lemma UpdatedTagsOrigin(noteTags: seq<Tag>, titles: seq<string>, resolve: string -> Tag)
    ensures forall t <- noteTags :: t.title in titles ==> t in UpdatedTags(noteTags, titles, resolve)
    ensures forall t <- UpdatedTags(noteTags, titles, resolve) ::
      (t in noteTags && t.title in titles) || exists s <- titles :: t == resolve(s)
    ensures forall t <- noteTags :: t.title !in titles && (forall s <- titles :: t != resolve(s)) ==>
      t !in UpdatedTags(noteTags, titles, resolve)
  {
    var kept := PullEach(noteTags, TagsToRemove(noteTags, titles));
    assert forall t <- kept :: t in noteTags && t.title in titles;
  }

  /** The model manager's find-or-create returns a tag with the title asked
      for. */
  ghost predicate ResolvesByTitle(resolve: string -> Tag)
  {
    forall s :: resolve(s).title == s
  }

  /** After updateTags(titles): a tag of the note stays exactly when its
      title is listed; every other tag is one found or created for a listed
      title that no kept tag carried; and the note's titles are exactly the
      listed ones. */
  lemma UpdatedTagsEffect(noteTags: seq<Tag>, titles: seq<string>, resolve: string -> Tag)
    requires ResolvesByTitle(resolve)
    ensures var r := UpdatedTags(noteTags, titles, resolve);
      && (forall t <- noteTags :: t in r <==> t.title in titles)
      && (forall t <- r :: t in noteTags || (t == resolve(t.title) && t.title in titles && !HasTitle(noteTags, t.title)))
      && (forall s :: HasTitle(r, s) <==> s in titles)
  {
    var toRemove := TagsToRemove(noteTags, titles);
    var kept := PullEach(noteTags, toRemove);
    var added := TagsToAdd(kept, titles, resolve);
    var r := PushEach(kept, added);
    assert forall t <- kept :: t in noteTags && t.title in titles;
    assert forall t <- noteTags :: t.title in titles ==> t in kept;
    forall s <- titles | HasTitle(noteTags, s) ensures HasTitle(kept, s) {
      var t :| t in noteTags && t.title == s;
      assert t in kept;
    }
    forall t <- r | t !in kept ensures t == resolve(t.title) && t.title in titles && !HasTitle(kept, t.title) {
      var s :| s in titles && !HasTitle(kept, s) && t == resolve(s);
    }
    forall s | s in titles ensures HasTitle(r, s) {
      if HasTitle(kept, s) {
        var t :| t in kept && t.title == s;
        assert t in r;
      } else {
        assert resolve(s) in r;
      }
    }
    forall s | HasTitle(r, s) ensures s in titles {
      var t :| t in r && t.title == s;
    }
  }

  /** addTag (editor.js:568-576) lists the note's titles plus the new one:
      no tag is removed, and the note ends up with the new title. */
  lemma AddTagEffect(noteTags: seq<Tag>, tag: Tag, resolve: string -> Tag)
    requires ResolvesByTitle(resolve)
    ensures var r := UpdatedTags(noteTags, Titles(noteTags) + [tag.title], resolve);
      && (forall t <- noteTags :: t in r)
      && (forall s :: HasTitle(r, s) <==> HasTitle(noteTags, s) || s == tag.title)
  {
    var titles := Titles(noteTags) + [tag.title];
    UpdatedTagsEffect(noteTags, titles, resolve);
    forall t <- noteTags ensures t.title in titles {
      var i :| 0 <= i < |noteTags| && noteTags[i] == t;
      assert titles[i] == t.title;
    }
    forall s | s in titles ensures HasTitle(noteTags, s) || s == tag.title {
      var i :| 0 <= i < |titles| && titles[i] == s;
      if i < |noteTags| {
        assert noteTags[i].title == s;
      }
    }
  }

  /** removeTag (editor.js:578-587) lists the note's titles without the
      removed one: exactly the tags carrying that title go, and nothing is
      added. */
  lemma RemoveTagEffect(noteTags: seq<Tag>, tag: Tag, resolve: string -> Tag)
    requires ResolvesByTitle(resolve)
    ensures var r := UpdatedTags(noteTags, RemoveAll(Titles(noteTags), tag.title), resolve);
      && (forall t <- noteTags :: t in r <==> t.title != tag.title)
      && (forall t <- r :: t in noteTags)
      && (forall s :: HasTitle(r, s) <==> HasTitle(noteTags, s) && s != tag.title)
  {
    var all := Titles(noteTags);
    var titles := RemoveAll(all, tag.title);
    UpdatedTagsEffect(noteTags, titles, resolve);
    forall s ensures s in titles <==> s in all && s != tag.title {
      RemoveAllMembers(all, tag.title, s);
    }
    forall t <- noteTags ensures t.title in all {
      var i :| 0 <= i < |noteTags| && noteTags[i] == t;
      assert all[i] == t.title;
    }
    forall s | s in all ensures HasTitle(noteTags, s) {
      var i :| 0 <= i < |all| && all[i] == s;
      assert noteTags[i].title == s;
    }
  }
}

# Editor panel and desktop bridge of a note-taking web app, in Dafny

This project models two pieces of the note-taking web client and proves
properties of them.

The **editor panel controller** (`app/assets/javascripts/controllers/editor.js`)
holds the note being edited, the menu flags, the selected editor component,
the tag-field component and the status line. Modelled here:

- saving a note: the deleted-note and missing-note guards, the plain-text
  preview (first 80 characters, `...` when cut), dirty marking and the
  choice of sync debounce;
- the status line: the delay that keeps a status up for at least 400 ms,
  the "Saving...", "All changes saved" and error statuses, and the sync
  event handler that chooses between them;
- the menus: toggling one closes every other;
- tags: parsing the tags field, reconciling the note's tags with a list of
  titles, and adding or removing one tag;
- components: moving the note's uuid between a component's associated and
  disassociated item lists, and the rule that picks the selected editor
  when a component is activated or deactivated;
- the tab key fallback that replaces the selection with four spaces.

The **desktop bridge** (`app/assets/javascripts/app/services/desktopManager.js`)
keeps two observer lists, the last search text, the data-load handshake with
the desktop shell, and merges installation results into components.

Layout:

- `seqs.dfy` (`Seqs`): removing every occurrence of a value (lodash's
  `_.pull`, or `filter` with `!==`) and appending a value unless present.
- `editor_text.dfy` (`EditorText`): JavaScript `substring`, `split`, `trim`
  and the string operations of the panel built on them.
- `editor_logic.dfy` (`EditorLogic`): the panel's decisions as functions
  (status delay, debounce, editor choice, association lists, tag
  reconciliation) with their properties.
- `editor_panel.dfy` (`EditorPanel`): the classes `Note`, `Component` and
  `EditorController`, whose methods update state step by step and are
  proved against the functions of `EditorLogic` and `EditorText`.
- `desktop_manager.dfy` (`Desktop`): the class `DesktopManager` and a pure
  model of the data-load handshake over event traces.

Collaborators are inputs. Whether the model manager holds the note, whether
the session is offline and the current time are parameters. The model
manager's find-or-create of a tag by title is a function `resolve`. The
note's display string of its tags is a function `display`. The model
manager's lookup of a component is a map. A scheduled `$timeout` is a field
holding what it will do. Scheduling again overwrites that field, which is
what cancelling and rescheduling amounts to. The timeout firing is a
separate method. Handlers and callbacks are numbers, and calling one is
returned as a value.

## Model

| member | source | states |
|---|---|---|
| Seqs.RemoveAll | app/assets/javascripts/app/services/desktopManager.js:101-103 | every occurrence of the value is gone, every other element stays, in order (a subsequence), with its multiplicity |
| Seqs.AppendIfAbsent | app/assets/javascripts/controllers/editor.js:870-872 | the value is present afterwards, the old list is a prefix, at most one element is added and none when the value was already there, and a duplicate-free list stays duplicate-free |
| Seqs.RemoveAllAfterAppend | app/assets/javascripts/app/services/desktopManager.js:80-84 | removing a value that was just appended, and was absent before, gives the old list back |
| Seqs.RemoveAllAbsent | app/assets/javascripts/app/services/desktopManager.js:101-103 | pulling a value that is not there changes nothing |
| Seqs.RemoveAllIdempotent | app/assets/javascripts/app/services/desktopManager.js:101-103 | pulling the same value twice is pulling it once |
| Seqs.RemoveAllKeepsNoDuplicates | app/assets/javascripts/controllers/editor.js:853-855 | filtering out a value keeps a list free of duplicates |
| Seqs.RemoveAllMembers | app/assets/javascripts/controllers/editor.js:580-584 | an element survives the filter exactly when it was there and differs from the removed value |
| EditorText.Substring | app/assets/javascripts/controllers/editor.js:326 | `substring` with bounds inside the string is the slice between them; an end past the string is clamped to its length; bounds in the wrong order are swapped; never longer than the string |
| EditorText.SubstringFrom | app/assets/javascripts/controllers/editor.js:960 | `substring(i)` for an index inside the string is its suffix from i |
| EditorText.Split | app/assets/javascripts/controllers/editor.js:620 | `split` yields at least one piece and no piece holds the separator |
| EditorText.JoinSplit | app/assets/javascripts/controllers/editor.js:620 | joining the pieces of a split with the separator gives the string back |
| EditorText.SplitJoin | app/assets/javascripts/controllers/editor.js:620 | splitting the join of separator-free pieces gives the pieces back |
| EditorText.SplitNoSeparator | app/assets/javascripts/controllers/editor.js:620 | a string without the separator splits into itself alone |
| EditorText.SplitAfterPiece | app/assets/javascripts/controllers/editor.js:620 | a separator-free piece followed by the separator splits off as the first piece |
| EditorText.LeadingWhitespace | app/assets/javascripts/controllers/editor.js:623 | the count of white-space characters before the first other character |
| EditorText.TrailingWhitespace | app/assets/javascripts/controllers/editor.js:623 | the count of white-space characters after the last other character |
| EditorText.Trim | app/assets/javascripts/controllers/editor.js:623 | `trim` gives a trimmed string that is the slice of the input between its leading and trailing white space |
| EditorText.TrimTrimmed | app/assets/javascripts/controllers/editor.js:623 | trimming a trimmed string changes nothing |
| EditorText.TrimIdempotent | app/assets/javascripts/controllers/editor.js:623 | trimming twice is trimming once |
| EditorText.TrimAllWhitespace | app/assets/javascripts/controllers/editor.js:623 | a string of white space alone trims to the empty string |
| EditorText.TrimHasNoNewChar | app/assets/javascripts/controllers/editor.js:623 | trimming introduces no character, so a title holds no `#` |
| EditorText.NoteText | app/assets/javascripts/controllers/editor.js:324 | a missing text reads as the given text when present, and is empty exactly when missing or empty (`note.text || ""`) |
| EditorText.PreviewPlain | app/assets/javascripts/controllers/editor.js:322-326 | a text of at most 80 characters is its own preview; a longer one gives its first 80 characters followed by `...` (83 in all) |
| EditorText.NonEmptyPieces | app/assets/javascripts/controllers/editor.js:620-622 | the filter keeps exactly the non-empty pieces |
| EditorText.NonEmptyPiecesIsRemoveAll | app/assets/javascripts/controllers/editor.js:620-622 | the empty-piece filter is removing every empty piece: the others stay in order and with their multiplicity |
| EditorText.TrimAll | app/assets/javascripts/controllers/editor.js:622-624 | each piece is replaced by its trim, position by position |
| EditorText.ParseTagsString | app/assets/javascripts/controllers/editor.js:620-624 | every title is trimmed and holds no `#` |
| EditorText.ParseTagsStringPieces | app/assets/javascripts/controllers/editor.js:620-624 | every title is the trim of a non-empty `#`-separated piece, and every non-empty piece gives its trim as a title |
| EditorText.WhitespacePieceGivesEmptyTitle | app/assets/javascripts/controllers/editor.js:620-624 | because the empty-piece filter runs before the trim, a white-space-only piece yields the empty title |
| EditorText.ParseHashtags | app/assets/javascripts/controllers/editor.js:620-624 | titles written as `#a #b #c` parse back to exactly those titles, in order |
| EditorText.TabSplice | app/assets/javascripts/controllers/editor.js:954-964 | the selection is replaced by four spaces, the text before and after is kept, and the caret lands at start + 4 |
| EditorText.TabSpliceUndo | app/assets/javascripts/controllers/editor.js:959-960 | removing the four inserted spaces gives the value without the selection |
| EditorLogic.StatusWaitMs | app/assets/javascripts/controllers/editor.js:384-392 | the delay is never negative, is 0 without waiting or without a dated status, keeps a dated status up at least 400 ms and no longer, and never exceeds 400 for a status shown in the past |
| EditorLogic.StatusWaitShrinks | app/assets/javascripts/controllers/editor.js:390-392 | a later status waits no longer, and is never shown earlier |
| EditorLogic.SyncDelayMs | app/assets/javascripts/controllers/editor.js:337-342 | the debounce is 100 ms exactly when offline or bypassing, 350 ms exactly otherwise |
| EditorLogic.EditorChoice | app/assets/javascripts/controllers/editor.js:739-763 | the selected editor reporting inactive is cleared; another active one yields only to an explicitly enabled component when it is not; with no selection only an active, enabled-or-default component for an open note is taken, else the selection is cleared |
| EditorLogic.EnabledEditorKept | app/assets/javascripts/controllers/editor.js:747-752 | an active, explicitly enabled selected editor is never replaced, so duplicated editors do not replace each other in a loop |
| EditorLogic.SelectionFromNothingIsActive | app/assets/javascripts/controllers/editor.js:755-762 | from no selection, a selected editor is active and a note is open |
| EditorLogic.ReplayStable | app/assets/javascripts/controllers/editor.js:739-763 | delivering the same activation twice equals delivering it once, for every case except an inactive, explicitly enabled component replacing an active editor that is not explicitly enabled |
| EditorLogic.InactiveComponentCanBeSelected | app/assets/javascripts/controllers/editor.js:745-752 | for all flags: an inactive but explicitly enabled component replaces an active selected editor that is not enabled, and the same report then clears it |
| EditorLogic.Associate | app/assets/javascripts/controllers/editor.js:865-872 | the uuid is associated (appended only when absent, the list unchanged otherwise) and not disassociated; the other disassociated ids keep their order and multiplicity |
| EditorLogic.Disassociate | app/assets/javascripts/controllers/editor.js:852-859 | the mirror of Associate: the uuid is disassociated (appended only when absent) and not associated; the other associated ids keep their order and multiplicity |
| EditorLogic.DisassociateMirrorsAssociate | app/assets/javascripts/controllers/editor.js:852-876 | disassociating is associating with the two lists swapped |
| EditorLogic.AssociateIdempotent | app/assets/javascripts/controllers/editor.js:865-876 | associating twice is associating once |
| EditorLogic.DisassociateIdempotent | app/assets/javascripts/controllers/editor.js:852-863 | disassociating twice is disassociating once |
| EditorLogic.AssociationKeepsWellFormed | app/assets/javascripts/controllers/editor.js:852-876 | lists without duplicates and without an id on both stay so under either operation |
| EditorLogic.Titles | app/assets/javascripts/controllers/editor.js:570-572 | the titles of the tags, position by position |
| EditorLogic.TagsToRemove | app/assets/javascripts/controllers/editor.js:590-595 | exactly the note's tags whose title is not listed |
| EditorLogic.TagsToRemoveWithin | app/assets/javascripts/controllers/editor.js:590-595 | the first loop never collects more copies of a tag than the note has |
| EditorLogic.PullEach | app/assets/javascripts/controllers/editor.js:596-598 | the tags left are exactly the old ones not removed |
| EditorLogic.TagsToAdd | app/assets/javascripts/controllers/editor.js:601-607 | a tag is found or created exactly for each listed title no tag of the note carries |
| EditorLogic.PushEach | app/assets/javascripts/controllers/editor.js:608-610 | the old tags stay in front, in order, and the added ones follow; nothing else appears |
| EditorLogic.UpdatedTags | app/assets/javascripts/controllers/editor.js:589-611 | an empty list of titles removes every tag of the note and adds none |
| EditorLogic.UpdatedTagsOrigin | app/assets/javascripts/controllers/editor.js:589-611 | a tag whose title is listed stays; every tag afterwards is a kept one with a listed title or one found or created for a listed title; a tag with an unlisted title goes unless it is found again for a listed title |
| EditorLogic.UpdatedTagsEffect | app/assets/javascripts/controllers/editor.js:589-611 | a tag of the note stays exactly when its title is listed; any other tag is the one found or created for a listed title no old tag carried; the note's titles are exactly the listed ones |
| EditorLogic.AddTagEffect | app/assets/javascripts/controllers/editor.js:568-576 | adding a tag removes none and the titles become the old ones plus the new one |
| EditorLogic.RemoveTagEffect | app/assets/javascripts/controllers/editor.js:578-587 | removing a tag drops exactly the tags with its title and adds none |
| EditorPanel.Component.IsExplicitlyEnabledFor | app/assets/javascripts/controllers/editor.js:750-757 | a component is enabled only for an existing note, and never for a note it is explicitly disabled for while no id is on both lists |
| EditorPanel.EditorController.CloseAllMenus | app/assets/javascripts/controllers/editor.js:219-223 | three menu flags are cleared and the session-history flag is left as it was |
| EditorPanel.EditorController.SetMenu | app/assets/javascripts/controllers/editor.js:226 | the named flag takes the value and no other flag changes |
| EditorPanel.EditorController.ToggleMenu | app/assets/javascripts/controllers/editor.js:225-238 | the toggled flag flips, every other flag is false, so at most one menu is open |
| EditorPanel.EditorController.SetStatus | app/assets/javascripts/controllers/editor.js:384-398 | the status is scheduled, replacing any scheduled one, after StatusWaitMs of the shown status's date |
| EditorPanel.EditorController.StatusTimeoutFired | app/assets/javascripts/controllers/editor.js:394-397 | the scheduled status goes on screen dated with the firing time |
| EditorPanel.EditorController.ShowSavingStatus | app/assets/javascripts/controllers/editor.js:356-358 | "Saving..." is scheduled without delay |
| EditorPanel.EditorController.ShowAllChangesSavedStatus | app/assets/javascripts/controllers/editor.js:360-370 | the error and slow-sync flags clear and "All changes saved", with " (offline)" when offline, is scheduled |
| EditorPanel.EditorController.ShowErrorStatus | app/assets/javascripts/controllers/editor.js:372-382 | the error flag is set, the slow-sync flag cleared, and the given status or "Sync Unreachable" / "Changes saved offline" is scheduled |
| EditorPanel.EditorController.OnSyncEvent | app/assets/javascripts/controllers/editor.js:61-85 | without a note nothing happens; a slow sync sets its flag; a completed sync shows "all saved" exactly when the note is clean and was saved or an error was showing; a failed sync shows the error exactly when the note is dirty; a scheduled status waits StatusWaitMs with wait, the 400 ms minimum display of the status on screen |
| EditorPanel.EditorController.SaveNote | app/assets/javascripts/controllers/editor.js:302-354 | the note stops being a placeholder; a deleted or missing note raises its alert and nothing else changes; otherwise the preview is PreviewPlain of the text (or untouched when told), the HTML preview cleared, the note dirty and a sync scheduled after SyncDelayMs |
| EditorPanel.EditorController.SaveTimeoutFired | app/assets/javascripts/controllers/editor.js:344-352 | a sync error raises the alert only if none was raised before, and is remembered |
| EditorPanel.EditorController.LoadTagsString | app/assets/javascripts/controllers/editor.js:564-566 | the tags field shows the note's tags string |
| EditorPanel.CollectTagsToRemove | app/assets/javascripts/controllers/editor.js:590-595 | the first loop collects exactly TagsToRemove: the note's tags whose title is not listed |
| EditorPanel.RemoveRelationships | app/assets/javascripts/controllers/editor.js:596-598 | the second loop leaves the note's tags equal to PullEach of the old tags |
| EditorPanel.CollectTagsToAdd | app/assets/javascripts/controllers/editor.js:601-607 | the third loop collects exactly TagsToAdd: a found or created tag for each listed title no tag carries |
| EditorPanel.AddRelationships | app/assets/javascripts/controllers/editor.js:608-610 | the fourth loop leaves the note's tags equal to PushEach of the old tags |
| EditorPanel.EditorController.UpdateTags | app/assets/javascripts/controllers/editor.js:589-611 | the four loops leave the note's tags equal to UpdatedTags of the old tags and the titles |
| EditorPanel.EditorController.AddTag | app/assets/javascripts/controllers/editor.js:568-576 | the tags are updated with the old titles plus the new one, and the field reloaded |
| EditorPanel.EditorController.RemoveTag | app/assets/javascripts/controllers/editor.js:578-587 | the tags are updated with the old titles except the removed one, and the field reloaded |
| EditorPanel.EditorController.UpdateTagsFromTagsString | app/assets/javascripts/controllers/editor.js:615-628 | the method returns early, leaving the note unchanged, exactly when the field still shows the note's tags; otherwise the note stops being a placeholder and its tags are UpdatedTags of the parsed titles; no other field of the note can change |
| EditorPanel.EditorController.OnComponentActivation | app/assets/javascripts/controllers/editor.js:735-767 | a tag component is kept exactly while active; for an editor the new selection is what EditorChoice decides from the old one |
| EditorPanel.EditorController.AssociateComponentWithCurrentNote | app/assets/javascripts/controllers/editor.js:865-876 | the component's lists become Associate of the old lists and the note's uuid, it is then explicitly enabled for the note, and it is marked dirty |
| EditorPanel.EditorController.DisassociateComponentWithCurrentNote | app/assets/javascripts/controllers/editor.js:852-863 | the component's lists become Disassociate of the old lists and the note's uuid, it is then not explicitly enabled for the note, and it is marked dirty |
| Desktop.Step | app/assets/javascripts/app/services/desktopManager.js:29-34 | the load event marks the data loaded and calls the handler if set; setting the handler calls it exactly when the data is loaded |
| Desktop.RunLoaded | app/assets/javascripts/app/services/desktopManager.js:29-30 | the data counts as loaded exactly once the load event has come |
| Desktop.RunHandlerWasSet | app/assets/javascripts/app/services/desktopManager.js:185-186 | the handler held is one that was set |
| Desktop.RunCallsSetHandlers | app/assets/javascripts/app/services/desktopManager.js:185-190 | only handlers that were set are ever called |
| Desktop.HandlerCalledOnceLoaded | app/assets/javascripts/app/services/desktopManager.js:185-190 | whatever the order, once the data is loaded and a handler is set, that handler has been called |
| Desktop.NoCallBeforeLoad | app/assets/javascripts/app/services/desktopManager.js:185-190 | no handler is called before the data has loaded |
| Desktop.EitherOrderCallsOnce | app/assets/javascripts/app/services/desktopManager.js:185-190 | load then handler, or handler then load, calls the handler exactly once |
| Desktop.Truthy | app/assets/javascripts/app/services/desktopManager.js:130 | undefined, null and the empty string are falsy; other strings and objects are truthy |
| Desktop.CopyKeys | app/assets/javascripts/app/services/desktopManager.js:133-135 | the listed keys take the reported values (undefined when missing), other fields are untouched, no other key appears |
| Desktop.MergePermitted | app/assets/javascripts/app/services/desktopManager.js:122-135 | only `package_info` and `local_url` change, each to the reported value |
| Desktop.MergeIdempotent | app/assets/javascripts/app/services/desktopManager.js:133-135 | applying the same result twice is applying it once |
| Desktop.MergeIgnoresOtherKeys | app/assets/javascripts/app/services/desktopManager.js:122-135 | no reported key other than the permitted ones can affect the component |
| Desktop.DesktopManager.RegisterUpdateObserver | app/assets/javascripts/app/services/desktopManager.js:80-84 | a new observer, absent before, is appended and returned |
| Desktop.DesktopManager.DeregisterUpdateObserver | app/assets/javascripts/app/services/desktopManager.js:101-103 | every occurrence of the observer is removed, the rest kept in order |
| Desktop.DesktopManager.RegisterComponentActivationObserver | app/assets/javascripts/app/services/desktopManager.js:150-154 | a new observer, absent before, is appended and returned |
| Desktop.DesktopManager.DeregisterComponentActivationObserver | app/assets/javascripts/app/services/desktopManager.js:156-158 | every occurrence of the observer is removed, the rest kept in order |
| Desktop.DesktopManager.SetSearchHandler | app/assets/javascripts/app/services/desktopManager.js:105-108 | the handler is replaced; none cancels searching |
| Desktop.DesktopManager.SearchText | app/assets/javascripts/app/services/desktopManager.js:86-92 | off the desktop nothing happens; on it the text is remembered and handed to the handler if one is set |
| Desktop.DesktopManager.RedoSearch | app/assets/javascripts/app/services/desktopManager.js:94-98 | the remembered text is searched again only when non-empty, and stays remembered |
| Desktop.DesktopManager.OnInitialDataLoaded | app/assets/javascripts/app/services/desktopManager.js:29-34 | the state and the call are Step of the load event |
| Desktop.DesktopManager.SetInitialDataLoadHandler | app/assets/javascripts/app/services/desktopManager.js:185-190 | the state and the call are Step of setting the handler |
| Desktop.DesktopManager.OnComponentInstallationComplete | app/assets/javascripts/app/services/desktopManager.js:118-141 | an unknown uuid changes nothing; an error only records the error; success merges only the permitted keys and clears the error; a found component is marked dirty |

## Left out

- DOM work: focus, fonts, resize controls, element sizing and `document.execCommand` (whose failure is what triggers the tab fallback).
- Real timers and wall-clock time. Time is an integer input. A scheduled timeout is a field, and its firing is a separate method.
- The sync manager, the model manager's internals, the component manager, the privileges manager, alert and confirm dialogs, keyboard observers and `$rootScope` broadcasts. They are inputs or returned values, or are not modelled.
- `convertComponentForTransmission`, `syncComponentsInstallation`, `installComponent`, `notifyComponentActivation`, `desktop_requestBackupFile` and protocol-manager export: encryption and serialisation in a library that is not part of this model, behind promises.
- Promises and async ordering. The observer callbacks that `desktop_onComponentInstallationComplete` runs in a timeout are not modelled. Neither are `notifySyncObserversOfModels` or the sync call.
- Observer ids. The source stores `Math.random` itself, the function and not a number, so the id is the same for every observer and means nothing. Observers are told apart by object identity here.
- Component stack sorting, `setNote`, `editorForNote`, `reloadComponentContext` (the editor-stack branch of the activation handler) and the remaining controller handlers.
- `desktop_setExtServerHost`, `getExtServerHost`, `saveBackup`, the major-data-change handler, the window focus broadcasts and the other `desktop_` setters that only store a handler.
- EditorText.PreviewPlain: lengths count Unicode characters; JavaScript counts UTF-16 code units, so texts with characters outside the Basic Multilingual Plane are cut at a different place.
- EditorText.TabSplice: `selectionStart` and `selectionEnd` are UTF-16 offsets in the source and character indices here, so they differ for texts with characters outside the Basic Multilingual Plane.
- EditorPanel.EditorController.SaveNote: `updateClientModified` is passed on to the model manager and has no effect here.
- EditorPanel.EditorController.UpdateTags: `modelManager.setItemsDirty` on the removed and added tags (editor.js:599, 611) and the `syncManager.sync()` that follows (editor.js:612) are not modelled; the model manager and sync manager are not part of this model.
- EditorPanel.EditorController.AssociateComponentWithCurrentNote and DisassociateComponentWithCurrentNote: the `syncManager.sync()` calls (editor.js:862, 875) are not modelled, for the same reason; the component is marked dirty.
- EditorPanel.EditorController.SaveNote: requires a note; with none the source throws at `note.dummy = false` (editor.js:304).
- EditorPanel.EditorController.UpdateTags, AddTag, RemoveTag, LoadTagsString, UpdateTagsFromTagsString, AssociateComponentWithCurrentNote and DisassociateComponentWithCurrentNote require a note. With none, the source throws a TypeError: on `this.note.tagsString()` (editor.js:565, 616), on `this.note.tags` (editor.js:569, 579, 591) or on `this.note.uuid` (editor.js:854, 867). Every caller runs with a note open.
- EditorPanel.Component.IsExplicitlyEnabledFor: the component library is not part of this model. "Explicitly enabled" is taken to mean that the note's uuid is on the associated list, and with no note it is false.
- EditorLogic.PullEach: the tag library is not part of this model. Dropping a relationship is taken to remove every occurrence of the tag from the note's tags, and adding one to append the tag when absent.
- EditorLogic.UpdatedTagsEffect: assumes the model manager's find-or-create returns a tag with the requested title.
- Desktop.DesktopManager.SetInitialDataLoadHandler: takes a handler. Passing `null` after the data has loaded makes the source throw, which is not modelled.
- Desktop.DesktopManager.OnComponentInstallationComplete: `setAppDataItem` is taken as a plain field write, and the truthiness of the error is modelled for undefined, null, strings and objects only (no numbers or booleans).

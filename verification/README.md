# Syfer Agent session state, in Dafny

This project models the session state of the Syfer Agent manager window. It
also models how that window builds a project record from a chosen folder.

- `session_state.dfy`, module `SessionState`: the class `SyferAgentState`.
  It holds a registry of projects, kept in insertion order and unique by
  path. It also maps each window id to the ordered list of project ids whose
  panels are open there, at most `MaxPanels` (3) per window. Projects can be
  added and removed, and panels opened, listed and closed. The two change
  notifications (project list changed; one window's panels changed) are
  recorded in a ghost event log, `events`. Each entry carries the value the
  listeners receive. `Valid()` is the object invariant: registry paths are
  distinct, and each window holds at most three ids, with no duplicates.
  Every mutating method keeps it.
- `project_record.dfy`, module `ProjectRecord`: building a project from the
  open-folder dialog's result. The id is the URI's string form. The path is
  its filesystem path. The name is the last `/`-separated segment of the
  URI's path, or `Untitled` when that segment is empty. JavaScript's
  `split('/')` is modelled by `Split`, which is proved to be undone by `Join`
  and to yield separator-free pieces. The name lemmas then follow from that
  round trip.

Because `split` never returns an empty array, `pop()` always yields a string.
The fallback to `Untitled` therefore applies exactly when the last segment is
the empty string: for the empty path, or a path ending in `/`
(`EmptyLastSegment`).

The state's methods carry contracts that use `old` and a `modifies` clause.
The properties that relate several calls are proved in three ways: by lemmas
on the value-level filter `Without`, shared by project removal and panel
closing, by
`Valid()`, and by scenario methods that drive a freshly constructed state.

## Model

| member | source | states |
|---|---|---|
| `SessionState.SyferAgentState.constructor` | src/vs/workbench/contrib/syferAgent/browser/syferAgentState.ts:24-33 | A new state has no projects, no window entries and no notifications, and satisfies the invariant. |
| `SessionState.SyferAgentState.Projects` | src/vs/workbench/contrib/syferAgent/browser/syferAgentState.ts:35-37 | Returns the registry as it is, in insertion order; its paths are pairwise distinct. |
| `SessionState.SyferAgentState.AddProject` | src/vs/workbench/contrib/syferAgent/browser/syferAgentState.ts:39-45 | With a path already registered: registry and event log unchanged. With a new path: the project is appended after the unchanged old entries, and exactly one project-change event carrying the new list is logged. The path is registered afterwards either way, panels are untouched, and the paths stay distinct. |
| `SessionState.SyferAgentState.RemoveProject` | src/vs/workbench/contrib/syferAgent/browser/syferAgentState.ts:47-50 | The registry becomes the old one filtered to ids different from the argument. One project-change event is always logged, even for an absent id. Panels are untouched. |
| `SessionState.SyferAgentState.GetActivePanels` | src/vs/workbench/contrib/syferAgent/browser/syferAgentState.ts:53-55 | Returns the window's list, or the empty sequence for a window with no entry. It changes nothing, and under the invariant the result has at most 3 distinct ids. |
| `SessionState.SyferAgentState.OpenPanel` | src/vs/workbench/contrib/syferAgent/browser/syferAgentState.ts:57-70 | Returns true iff the id is already open or the window has fewer than 3 panels. If the id is already open, or the window is full, nothing changes and nothing is logged. Otherwise only that window's entry becomes the old list plus the id, and one panel event for that window is logged. Projects never change, and the invariant (length ≤ 3, no duplicates) is kept. |
| `SessionState.SyferAgentState.ClosePanel` | src/vs/workbench/contrib/syferAgent/browser/syferAgentState.ts:72-76 | Only that window's entry changes: it becomes the old list (empty for an unknown window) without the id, in order. Projects stay unchanged. One panel event for the window is always logged. |
| `SessionState.Without` | src/vs/workbench/contrib/syferAgent/browser/syferAgentState.ts:48 | The filter used both for removing projects by id and for closing panel ids keeps exactly the elements whose key differs from the one given, and never grows the list. |
| `SessionState.HasPath` | src/vs/workbench/contrib/syferAgent/browser/syferAgentState.ts:40 | The front-to-back scan for a project with this exact path is true iff some registered project has that path. |
| `SessionState.PanelsOf` | src/vs/workbench/contrib/syferAgent/browser/syferAgentState.ts:54 | When every window's list holds at most 3 ids without duplicates, so does the list looked up for any window. This includes the empty fallback for a window with no entry, which lines 58 and 73 also use. |
| `SessionState.CloseMiddle` | src/vs/workbench/contrib/syferAgent/browser/syferAgentState.ts:74 | Closing the middle one of three distinct open ids leaves the other two in their original order. |
| `SessionState.WithoutAppend` | src/vs/workbench/contrib/syferAgent/browser/syferAgentState.ts:48 | Filtering distributes over concatenation, so the elements that remain after a project removal or a panel close keep their original relative order. |
| `SessionState.WithoutAbsent` | src/vs/workbench/contrib/syferAgent/browser/syferAgentState.ts:47-50 | Filtering by a key that no element carries leaves the list unchanged. In particular, removing an id that no project carries leaves the registry unchanged. |
| `SessionState.WithoutKeepsDistinctPaths` | src/vs/workbench/contrib/syferAgent/browser/syferAgentState.ts:39-50 | Removal preserves pairwise-distinct paths. |
| `SessionState.AppendKeepsDistinctPaths` | src/vs/workbench/contrib/syferAgent/browser/syferAgentState.ts:39-45 | Appending a project whose path is not registered preserves pairwise-distinct paths. |
| `SessionState.WithoutPanelCount` | src/vs/workbench/contrib/syferAgent/browser/syferAgentState.ts:72-76 | On a duplicate-free list, closing keeps it duplicate-free. It frees exactly one slot when the id was open and none otherwise. |
| `SessionState.AppendKeepsNoDup` | src/vs/workbench/contrib/syferAgent/browser/syferAgentState.ts:63-67 | Appending an id not yet open keeps a panel list duplicate-free. |
| `SessionState.FullWindowScenario` | src/vs/workbench/contrib/syferAgent/browser/syferAgentState.ts:57-70 | After three distinct opens, a fourth new id is refused, re-opening an existing id is accepted, and the list stays exactly the three ids in order. |
| `SessionState.CloseThenReopenScenario` | src/vs/workbench/contrib/syferAgent/browser/syferAgentState.ts:57-76 | In a full window, closing an id frees a slot: re-opening it succeeds and puts it last. |
| `SessionState.AddSamePathTwiceScenario` | src/vs/workbench/contrib/syferAgent/browser/syferAgentState.ts:39-45 | Adding two projects with the same path (ids may differ) leaves a registry holding only the first. |
| `ProjectRecord.Split` | src/vs/workbench/contrib/syferAgent/browser/syferAgentActions.ts:127 | Splitting on `/` yields at least one piece, no piece contains the separator, and joining the pieces with it gives back the input. |
| `ProjectRecord.LastSegment` | src/vs/workbench/contrib/syferAgent/browser/syferAgentActions.ts:127 | The element `pop()` takes from the split: it never contains `/` (its exact position in the path is fixed by `LastSegmentIsTail`). |
| `ProjectRecord.LastSegmentIsTail` | src/vs/workbench/contrib/syferAgent/browser/syferAgentActions.ts:127 | The popped segment is a separator-free suffix of the path. It is either the whole path or preceded by a `/`. |
| `ProjectRecord.EmptyLastSegment` | src/vs/workbench/contrib/syferAgent/browser/syferAgentActions.ts:127 | The popped segment is empty iff the path is empty or ends in `/`. |
| `ProjectRecord.DisplayName` | src/vs/workbench/contrib/syferAgent/browser/syferAgentActions.ts:127 | The derived name is never empty and contains no `/`. |
| `ProjectRecord.DisplayNameUntitled` | src/vs/workbench/contrib/syferAgent/browser/syferAgentActions.ts:127 | An empty path, or one ending in `/`, is named `Untitled`. |
| `ProjectRecord.DisplayNameWholePath` | src/vs/workbench/contrib/syferAgent/browser/syferAgentActions.ts:127 | A non-empty path with no `/` is its own name. |
| `ProjectRecord.DisplayNameAfterLastSeparator` | src/vs/workbench/contrib/syferAgent/browser/syferAgentActions.ts:127 | If the path has a last `/` with something after it, the name is exactly the suffix after that `/`. |
| `ProjectRecord.ProjectFromSelection` | src/vs/workbench/contrib/syferAgent/browser/syferAgentActions.ts:123-129 | A project is built iff the dialog returned a non-empty list, and only from its first folder. The id is the URI string and the path the filesystem path, both copied unchanged. The name is exactly `DisplayName` of the URI path, hence non-empty and `/`-free. |
| `ProjectRecord.AddSelectedFolder` | src/vs/workbench/contrib/syferAgent/browser/syferAgentActions.ts:115-131 | With no selection the state is unchanged. Otherwise the built project is added with the registry's add-if-new-path behaviour: a duplicate path leaves registry and event log unchanged, a new path is appended and logs one project-change event carrying the new list. Panels are untouched. |

## Left out

- The lazy process-wide singleton (`instance`): the model is one explicitly constructed object.
- Listener registration and dispatch of the two emitters. Each notification is an entry in the ghost `events` log, and what listeners do with it is not modelled.
- Aliasing. The TypeScript class returns its live arrays from `projects` and `getActivePanels`, and passes the live project array to listeners, so a later `push` shows through earlier references and a caller could mutate the state. The model returns and logs values.
- Plain-object keys. The panel dictionary is a JavaScript object literal, so a window id naming an inherited property such as `constructor` would read a non-array. The model treats window ids as keys of a pure map. The only caller uses `'window_' + Date.now()`.
- Window-id generation from the clock (`syferAgentActions.ts:48`): window ids are opaque strings.
- The URI class: `toString()`, `path` and `fsPath` are taken as given fields of `Uri`. Their computation, including platform separator handling for `fsPath`, is not part of this model.
- The asynchronous open-folder dialog: its result is a parameter, `None` for a dismissed dialog.
- All DOM construction, styling, rendering and listener wiring in `syferAgentActions.ts`, and the "maximum panels reached" prompt that opens a new window when `openPanel` returns false: UI over the host framework.
- Action registration, action ids, the update-service IPC proxy, the Go Flow action, the directory type declaration and the import-rewriting script: glue or declarations with no behaviour of their own.

# WebPlay playground core in Dafny

This project models the state logic of an in-browser code playground. The user edits HTML, CSS and
JavaScript fragments in separate editors, and a preview frame shows them combined into one
document. Three parts are modelled:

- **`useHistory`** (module `History`): a linear undo/redo history. It holds a non-empty sequence
  of snapshots and a cursor. `set` drops the redo branch and appends; `undo` and `redo` move the
  cursor.
  - Its value is the datatype `Log`, whose `Set`, `Undo` and `Redo` are the transitions.
  - The hook itself is the class `History.History`. Each of its methods is proved to make exactly
    the matching `Log` transition.
- **The editor operations of the App component** (module `Editors`): `addEditor`, `deleteEditor`
  and `updateEditorCode` as functions of the current editors. Add and delete return an `Outcome`:
  either the new editors to push, or the message of the `alert` shown instead. Update never
  alerts and returns the new editors.
- **`compileCode` and the auto-run effect** (modules `Compile` and `AutoRun`):
  - the document is assembled from the first editor of each language;
  - the debounce keeps one pending timer, which every re-run of the effect cancels and replaces;
  - the class `AutoRun.AutoRunner` is the mutable slot together with `srcDoc`.

The seed data of `constants.ts` lives in module `Constants` and the types of `types.ts` in module
`Types`. The class `Playground.App` ties the parts together:

- the editors are kept in a `History.History<Snapshot>`;
- every editor handler (add, delete, update) pushes a freshly allocated `Snapshot`, and a reset
  pushes the one `DEFAULT_EDITORS` object;
- after each change, the effect re-runs exactly when one of its dependencies changed.

Browser calls become explicit inputs and outputs:

- `alert` becomes a returned message (`Outcome.Alerted`, or the `alert` out-parameter of the App
  methods);
- `window.confirm` becomes the boolean `confirmed`;
- `Date.now()` becomes the parameter `now`;
- `setTimeout` and `clearTimeout` become the pending slot, advanced by explicit `Tick(now)` events;
- values read from `localStorage` become the optional parameters of the `App` constructor.

The history's no-op test is JavaScript's `===`, which compares arrays by identity, not by
contents. The model follows that, with reference equality on the class `Snapshot`:

- Every accepted editor operation (add, delete, update) builds a new array, so it always pushes a
  new entry. This holds even when the contents are unchanged (`Editors.UpdateWithSameCode`) or the
  id is unknown. A refused add or delete shows its alert and pushes nothing.
- Only a reset while the current array is the `DEFAULT_EDITORS` object itself is suppressed.

## Model

| member | source | states |
|---|---|---|
| `Types.TagHeadDetermines` | types.ts:2 | The three language tags already differ in their first letter. |
| `Types.Upper` | App.tsx:103 | `lang.toUpperCase()` has the tag's length, and each of its letters is the tag's letter in upper case. |
| `Types.DecimalRoundTrip` | App.tsx:102 | The numeral printed for `Date.now()` reads back as that number. |
| `Types.DecimalInjective` | App.tsx:102 | Different instants print as different numerals. |
| `Constants.DefaultEditorsShape` | constants.ts:4-61 | `DEFAULT_EDITORS` has three entries with languages html, css, js in that order. Each id is its language's tag, so the ids are pairwise distinct and none contains '-'. |
| `Constants.DefaultSettingsValues` | constants.ts:63-67 | `DEFAULT_SETTINGS` is font size 14, auto-run on, delay 500 ms. |
| `Editors.NewEditor` | App.tsx:101-106 | The added editor has the requested language, the upper-case tag as its title, the placeholder code naming that tag, and an id of the form tag, '-', digits. |
| `Editors.AddEditor` | App.tsx:96-108 | The add is refused, with the message "`LANG` editor already exists.", exactly when an editor of that language exists. Otherwise the old editors are kept in order and exactly one new editor is appended. |
| `Editors.RemoveId` | App.tsx:115 | The filter keeps exactly the editors whose id differs. It never grows the sequence, and an absent id gives back the same sequence. |
| `Editors.RemoveIdOne` | App.tsx:115 | On one editor, the filter keeps it exactly when its id differs. |
| `Editors.RemoveIdAppend` | App.tsx:115 | The filter distributes over concatenation, so kept editors stay in their order and keep their count; with `RemoveIdOne` this fixes the result on every sequence, repeated ids included. |
| `Editors.DeleteEditor` | App.tsx:110-116 | The delete is refused, with "You can't close the last editor!", exactly when at most one editor is open. Otherwise the result is the filtered sequence. |
| `Editors.UpdateEditorCode` | App.tsx:118-120 | Length, order, ids, titles and languages are kept. The code becomes `value` exactly where the id matches, and every other editor is unchanged. |
| `Editors.DefaultsWellFormed` | constants.ts:4-61 | The seeds have one editor per language, well-shaped ids and at least one editor. |
| `Editors.WellFormedUniqueIds` | App.tsx:102 | One editor per language plus the two id shapes imply that all ids are unique. |
| `Editors.NewIdNotDefault` | App.tsx:102 | A generated id never equals a seed id. |
| `Editors.AddPreservesWellFormed` | App.tsx:96-107 | An accepted add keeps one editor per language and the id shape. |
| `Editors.AddedIdIsFresh` | App.tsx:102 | The id of an accepted add is not already in use. |
| `Editors.RemovePreservesWellFormed` | App.tsx:115 | Filtering keeps the invariant. |
| `Editors.RemoveIdAt` | App.tsx:115 | When only position `k` has that id, the filter removes exactly that editor and keeps the rest in order. |
| `Editors.DeleteKeepsOne` | App.tsx:110-116 | With unique ids, an accepted delete leaves at least one editor (at most one is removed). |
| `Editors.DeleteNeedsUniqueIds` | App.tsx:110-116 | Without unique ids the guard is not enough: two editors sharing an id are both removed, leaving none. |
| `Editors.UpdatePreservesWellFormed` | App.tsx:118-120 | An update keeps the invariant. |
| `Editors.UpdateIdempotent` | App.tsx:118-120 | Updating twice with the same text equals updating once. |
| `Editors.UpdateWithSameCode` | App.tsx:118-120 | Writing back an editor's own code gives equal contents, which the history still records as a new entry. |
| `Compile.Find` | App.tsx:56-58 | `find` gives nothing exactly when no editor has the language, and otherwise the first editor that has it. |
| `Compile.CodeOf` | App.tsx:56-58 | A missing language contributes `''`. Otherwise the code of the first editor of that language is used. |
| `Compile.FindAppend` | App.tsx:56-58 | Editors after the first one of a language are ignored. |
| `Compile.CodeOfOnly` | App.tsx:56-58 | With one editor per language, each fragment is the code of that language's editor. |
| `Compile.DecomposeFill` | App.tsx:60-73 | Given the two fragment lengths, the filled template reads back into exactly the three fragments. |
| `Compile.FillDecompose` | App.tsx:60-73 | Every document that reads back is the template filled with what was read. |
| `Compile.PageLayout` | App.tsx:60-73 | The document is the head with the CSS inside `<style>`, then the body with the HTML, then the JS inside `<script>`, in that order, with the template's exact whitespace. |
| `Compile.FragmentsNotEscaped` | App.tsx:66-70 | Fragments are pasted verbatim: a CSS fragment that contains the closing text gives the same document as a different split of the fragments. |
| `Compile.CompileCode` | App.tsx:55-75 | `compileCode`: the document reads back into exactly the code of the first CSS, HTML and JS editors, `''` for a missing language. |
| `Compile.CompileNoEditors` | App.tsx:55-75 | With no editors the document is the bare template with three empty fragments. |
| `Compile.FindAfterUpdate` | App.tsx:118-120 | After an update, `find` returns the same editor, whose code is replaced exactly when its id matched. |
| `Compile.CompileAfterUpdate` | App.tsx:55-75 | With one editor per language and unique ids, typing into one editor changes that language's fragment to the new text and no other fragment. |
| `Compile.CompileAfterAdd` | App.tsx:96-108 | An accepted add puts the placeholder into the new language's fragment and leaves the others as they were. |
| `AutoRun.Delay` | App.tsx:79 | The timer delay is `autoRunDelay` when it is not negative, and 0 when it is. |
| `AutoRun.Schedule` | App.tsx:77-82 | A re-run leaves exactly one timer pending when auto-run is on, and none when it is off. The timer is due no earlier than now and holds the editors of that render. |
| `AutoRun.Step` | App.tsx:77-82 | Only a tick at or after the pending deadline compiles. It compiles the captured editors and empties the slot. |
| `AutoRun.Replay` | App.tsx:77-82 | A series of effect re-runs and timer ticks compiles at most once per event, and never when only re-runs happen. |
| `AutoRun.TicksFire` | App.tsx:79 | While only time passes, a pending timer fires exactly once, at the first instant reaching its deadline, with what it captured. Nothing fires when no timer is pending. |
| `AutoRun.AfterChange` | App.tsx:77-82 | After a change, whatever was pending is forgotten. With auto-run on, the change's editors compile once, at the first tick at least one delay later. With auto-run off, nothing compiles. |
| `AutoRun.QuietUntilDeadline` | App.tsx:79-80 | Before its deadline a pending timer compiles nothing and stays pending. |
| `AutoRun.DebounceExample` | App.tsx:77-82 | Changes at 0, 100 and 150 ms with a 500 ms delay give exactly one compilation, at 650 ms, of the 150 ms editors. |
| `AutoRun.AutoRunner.constructor` | App.tsx:39 | Nothing is pending and the preview document starts as `''`. |
| `AutoRun.AutoRunner.Rerun` | App.tsx:77-82 | The cleanup clears the slot, then one timer is set when auto-run is on. This is the `Step` of a change. |
| `AutoRun.AutoRunner.Tick` | App.tsx:79 | A due timer compiles its captured editors into `srcDoc` and leaves nothing pending. Otherwise nothing changes. |
| `AutoRun.AutoRunner.Run` | App.tsx:74 | A manual run compiles the given editors into `srcDoc` and leaves the pending timer as it was. |
| `History.Log.Set` | hooks/useHistory.ts:9-20 | `set(x)` makes `x` current and keeps every entry up to the cursor. A new snapshot is appended right after the cursor, the redo branch is gone (redo off) and undo is on. |
| `History.Log.Undo` | hooks/useHistory.ts:22-26 | `undo()` never changes the entries. It moves the cursor back one step when undo is enabled and is a no-op otherwise. |
| `History.Log.Redo` | hooks/useHistory.ts:28-32 | `redo()` never changes the entries. It moves the cursor forward one step when redo is enabled and is a no-op otherwise. |
| `History.Initial` | hooks/useHistory.ts:3-7 | A new history holds only the initial state, and undo and redo are both off. |
| `History.SetCurrentIsNoOp` | hooks/useHistory.ts:10-13 | Setting the current snapshot changes neither the entries nor the cursor. |
| `History.SetThenUndo` | hooks/useHistory.ts:15-25 | `set(x)` then `undo()` restores the previous state, and a following `redo()` brings `x` back. |
| `History.UndoSetRedo` | hooks/useHistory.ts:15-32 | After an undo, a `set` of a new snapshot discards the redo branch, so an immediate `redo` does nothing. |
| `History.CanUndoExact` | hooks/useHistory.ts:22-35 | `canUndo` and `canRedo` hold exactly when `undo` and `redo` change the history. |
| `History.UndoRedoInverse` | hooks/useHistory.ts:22-32 | Where enabled, undo and redo undo each other. |
| `History.AdjacentDistinctKept` | hooks/useHistory.ts:9-32 | No two neighbouring entries are ever the same snapshot, so an enabled undo or redo always changes the state. |
| `History.SetAllMoves` | hooks/useHistory.ts:9-20 | From any history, after undos too: after a series of `set` calls, the last snapshot is current and the cursor has advanced once per call that was not a no-op. Undo is enabled exactly when it already was or some call was not a no-op. If every call was a no-op the history is unchanged; otherwise redo is off. |
| `History.History.constructor` | hooks/useHistory.ts:3-5 | The hook starts as `Initial(initialState)`. |
| `History.History.Set` | hooks/useHistory.ts:9-20 | The new fields are exactly `Log.Set` of the old ones. |
| `History.History.Undo` | hooks/useHistory.ts:22-26 | The new fields are exactly `Log.Undo` of the old ones. |
| `History.History.Redo` | hooks/useHistory.ts:28-32 | The new fields are exactly `Log.Redo` of the old ones. |
| `Playground.App.constructor` | App.tsx:28-39 | Mounting takes the stored editors or `DEFAULT_EDITORS` itself, and the stored or default settings. Stored editors are a new array, never the `DEFAULT_EDITORS` object. Undo and redo are off, the effect has run once and the preview is empty. |
| `Playground.App.Rerender` | App.tsx:77-82 | The effect re-runs exactly when the editors array or one of the two auto-run settings changed. Otherwise the pending timer is kept. |
| `Playground.App.AddEditor` | App.tsx:96-108 | A refusal returns the alert and changes nothing. An accepted add pushes the new editors as a new current entry and reschedules the run. Every entry stays well formed if every entry was. |
| `Playground.App.DeleteEditor` | App.tsx:110-116 | The same for delete, including that a delete of an unknown id still pushes an entry. |
| `Playground.App.UpdateEditorCode` | App.tsx:118-120 | Every update pushes a new entry (undo turns on), the editors become the updated ones and the run is rescheduled. |
| `Playground.App.ResetApp` | App.tsx:122-128 | Not confirmed: nothing changes. Confirmed: `DEFAULT_EDITORS` is set through the history (undoable; a no-op only when it is already current), the settings become `DEFAULT_SETTINGS`, and the effect re-runs when a dependency changed. |
| `Playground.App.Undo` | App.tsx:186 | The history moves back one step. The run is rescheduled exactly when undo was enabled. |
| `Playground.App.Redo` | App.tsx:187 | The history moves forward one step. The run is rescheduled exactly when redo was enabled. |
| `Playground.App.ChangeSettings` | App.tsx:77-82 | New settings are not part of the history. The effect re-runs exactly when auto-run or its delay changed. |
| `Playground.App.Run` | App.tsx:176 | The Run button compiles the current editors now. |
| `Playground.App.Tick` | App.tsx:79 | The pending timer fires if due and compiles the editors it captured, not the current ones. |

## Left out

- Storage: reading and writing `localStorage`, JSON parsing and stringifying, and the persistence effect (App.tsx:15-23, 46-52; `useLocalStorage`) are external I/O. The stored values are parameters of the `App` constructor.
- Stored data: the stored editors may be anything, so the one-per-language and id-shape invariant is stated as preserved (`old(AllWellFormed()) ==> AllWellFormed()`), not assumed.
- Stored `DEFAULT_EDITORS`: after a reload the stored editors are a parsed copy, never the `DEFAULT_EDITORS` object itself. The model reflects this by allocating a new `Snapshot` for stored editors.
- `saveProject`: Blob, URL and download plumbing; no state logic.
- Display: rendering, `react-split` sizes, the media query, the mobile preview toggle and the theme and layout state. This includes `setLayout('horizontal')` in `resetApp`, because layout is not modelled.
- Settings form: `SettingsModal` and the other components are UI. A new settings record is taken whole by `Playground.App.ChangeSettings`. `fontSize` is carried along but never used by the core.
- Render timing: React's batching and render timing are not modelled. Each handler sees the state of the latest render, and the effect runs once after each handler.
- `AutoRun.Delay`: does not model the browser's handling of delays above 2147483647 ms or of fractional delays. Delays are whole milliseconds, and a negative delay counts as 0.
- Timers: time is a sequence of explicit ticks. Timers do not run concurrently, and only one effect timer exists.
- `Types.Decimal` prints every natural number in plain digits. JavaScript switches to exponent notation only from 10^21 on, far beyond any `Date.now()`.
- `Types.Upper` covers only the three language tags, which are the only strings it is applied to.

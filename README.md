# To-do list: a Dafny model of its store, dialogs and components

This project models the behaviour of a small browser to-do application written in
TypeScript and React, and proves properties of that model.

The application keeps an ordered list of tasks. Each task has an id, a title, a completion
flag, a creation time and an optional completion time. It restores the list from browser
storage at start-up, repairing records it does not recognise. Four handlers change the list:
add, toggle, edit and remove. Add, toggle and edit check their input first (a blank title,
an unknown id). Remove checks nothing and prompts even for an id it does not know. All but
add ask the user to confirm through a modal dialog. The list is shown through a filter (all, pending, done)
beside counters. The components around the store are:
- a form that adds tasks;
- an item that edits a title in place;
- a tab bar that switches filters with the arrow keys;
- a list view that keeps a sorted copy of the tasks.

The repository also holds a light/dark theme switch that stores its choice and follows other
tabs. `App` does not render it, and the page's bootstrap (src/main.tsx) removes the stored
choice before every mount; the model covers the component on its own and that bootstrap.

The modules follow the source files:

- `Text` is `String.prototype.trim`: stripping the ECMAScript white-space and line-terminator
  characters from both ends.
- `Types` is the `Task` record and the `Filter` values.
- `App` (src/App.tsx) holds several parts:
  - the loader and repairer of the saved list;
  - the handlers as functions on the list, with the confirmation answer as a parameter;
  - the filtered views and the counters;
  - lemmas about all of the above;
  - the class `Store`, whose methods update `tasks` and `filter` in place. Its storage slot
    always holds the serialised list.
- `ConfirmAction` (src/utils/confirmAction.ts) is the module-level dialog gate: `isOpen`,
  `resolving` and `lastOpenAt` with the 350 ms debounce. Each dialog it builds is recorded,
  with its overlay, its promise, the number of times it was closed and whether its one-shot
  keydown listener is still registered. The module also covers the key mapping and the
  button styles.
- `TaskItem` (the first component in src/components/TaskItem.tsx) is the edit session. Its
  state is `isEditing`, `draft` and the `savingRef` lock. `save` is split at its `await`
  into the part before the prompt and the continuation that receives the answer.
- `TaskInput`, `Filters`, `TaskList` and `ThemeToggle` model the other components.

The clock, fresh ids, the user's answers and dismissals, and storage reads and writes are
parameters. A failed storage access is a boolean parameter.

## Model

| member | source | states |
|---|---|---|
| Text.Trim | src/components/TaskInput.tsx:12 | the result has no white space at either end, is no longer than the input, and is empty exactly when the input is all white space |
| Text.TrimOfTrimmed | src/App.tsx:85 | trimming a title that has no white space at its ends returns it unchanged |
| Text.TrimIdempotent | src/App.tsx:85 | trimming twice gives the same as trimming once |
| Text.TrimStart | src/components/TaskInput.tsx:12 | drops leading white space; `TrimStartSuffix` states its properties |
| Text.TrimEnd | src/components/TaskInput.tsx:12 | drops trailing white space; `TrimEndPrefix` states its properties |
| Text.TrimStartSuffix | src/components/TaskInput.tsx:12 | the leading part trim drops is all white space, and what remains starts with a non-space |
| Text.TrimEndPrefix | src/components/TaskInput.tsx:12 | the trailing part trim drops is all white space, and what remains ends with a non-space |
| Text.TrimRemovesPadding | src/components/TaskInput.tsx:12 | any white space around a trimmed non-empty text is exactly what trim removes |
| App.DecodeAll | src/App.tsx:29-40 | the loader maps record i to task i, one task per record, in order |
| App.Load | src/App.tsx:24-44 | no stored blob, or a blob on which parsing or mapping throws, gives the empty list; otherwise one task per stored record |
| App.LoadRepairsRecord | src/App.tsx:29-39 | each loaded task has `String(id)`, `String(title)`, `Boolean(completed)` and `Number(createdAt ?? now)`; a `completedAt` stored as null or a number is kept, and anything else becomes now when completed and null otherwise |
| App.LoadStampsCompletedRecord | src/App.tsx:33-39 | `{id: 1, title: "x", completed: true}` loads as id "1", completed, with both timestamps from the clock |
| App.LoadKeepsInconsistentRecord | src/App.tsx:34-36 | a pending record with a numeric `completedAt` keeps it, so loading does not restore the completion invariant |
| App.LoadSerializeRoundTrip | src/App.tsx:49-52 | a list written by the persistence effect loads back unchanged |
| App.ToJsString | src/App.tsx:30-31 | `String(v)` of each kind of stored value; the loader lemmas state what it gives |
| App.Truthy | src/App.tsx:32 | `Boolean(v)`: false exactly for undefined, null, false, 0 and the empty string |
| App.StampOf | src/App.tsx:33 | `Number(v ?? now)`: the clock for a missing or null value, 0 or 1 for a boolean, the number itself otherwise |
| App.RepairedCompletedAt | src/App.tsx:34-39 | a stored null or number is kept, and anything else becomes now when completed and null otherwise |
| App.DecodeTask | src/App.tsx:29-40 | builds one task from one record with the coercions above; `LoadRepairsRecord` states it field by field |
| App.NatToString | src/App.tsx:30 | the decimal text of a number is never empty; what it denotes is stated by App.NatToStringDenotes |
| App.NatToStringDenotes | src/App.tsx:30 | `String(n)` for a non-negative integer is the canonical decimal numeral of n: digits only, no leading zero, and its digits denote n |
| App.Serialize | src/App.tsx:50-52 | the records the persistence effect writes, one per task in order; `LoadSerializeRoundTrip` shows the loader reads them back unchanged |
| App.AfterAdd | src/App.tsx:84-99 | the list `addTask` leaves; `AddPrepends`, `AddPreservesWellFormed` and `AddKeepsNewestFirst` state its properties |
| App.SetCompletion | src/App.tsx:115-125 | the `prev.map` of `toggleTask`; `ToggleFlips` states what it does to each task |
| App.TogglePrompt | src/App.tsx:102-112 | no prompt for an unknown id, otherwise "finish" for a pending task and "reopen" for a completed one, naming its title; `ToggleNoOp` states the first case |
| App.AfterToggle | src/App.tsx:102-125 | the list `toggleTask` leaves; `ToggleNoOp`, `ToggleFlips`, `ToggleTwiceRestoresPending` and `TogglePreservesWellFormed` state its properties |
| App.SetTitle | src/App.tsx:71-73 | the `prev.map` of `updateTaskTitle`; `EditReplacesTitle` states what it does to each task |
| App.EditPromptFor | src/App.tsx:55-68 | the prompt `updateTaskTitle` raises; `EditNoOp` and `EditReplacesTitle` state when there is one and what it names |
| App.AfterEdit | src/App.tsx:55-73 | the list `updateTaskTitle` leaves; `EditNoOp`, `EditReplacesTitle` and `EditPreservesWellFormed` state its properties |
| App.RemovePromptFor | src/App.tsx:130-136 | the prompt `removeTask` always raises; `RemoveFilters` states what it names |
| App.AfterRemove | src/App.tsx:129-139 | the list `removeTask` leaves; `RemoveFilters`, `RemovePreservesWellFormed` and `RemoveKeepsNewestFirst` state its properties |
| App.FilteredTasks | src/App.tsx:77-81 | the list shown for a filter; `FilteredViewSelects` and `ViewsPartition` state its properties |
| App.FindIndex | src/App.tsx:103 | returns the first position with the id, and nothing exactly when no task has the id |
| App.Find | src/App.tsx:103 | returns the first task of the list with the id, and nothing exactly when there is none |
| App.Without | src/App.tsx:139 | keeps, in their order, only tasks whose id differs, and every such task that the list holds; App.WithoutKeepsCopies states how many copies |
| App.WithoutKeepsCopies | src/App.tsx:139 | the filter keeps every copy: a task with another id occurs in the result as often as in the list, and a task with the id not at all |
| App.Select | src/App.tsx:78-79 | keeps, in their order, exactly the tasks with the given completion flag |
| App.ViewsPartition | src/App.tsx:77-81 | the pending and done views together hold every task exactly as often as the list does |
| App.FilteredViewSelects | src/App.tsx:77-81 | "all" is the list itself; each view keeps, in their order, exactly the tasks its filter shows |
| App.CountersOf | src/App.tsx:143-145 | `total` is the list length, `done` and `pending` are the sizes of the done and pending views, and `pending + done == total` with `0 <= done <= total` |
| App.AddPrepends | src/App.tsx:84-99 | a title that trims to nothing leaves the list unchanged; otherwise the new pending task goes in front of the unchanged list, with the trimmed title, the fresh id and no completion time |
| App.AddPreservesWellFormed | src/App.tsx:92-99 | with a fresh id, adding keeps ids unique, titles trimmed and non-empty, and `completed` equivalent to a completion time |
| App.ToggleNoOp | src/App.tsx:102-113 | an unknown id (no prompt at all) or a declined prompt leaves the list unchanged |
| App.ToggleFlips | src/App.tsx:102-125 | an accepted toggle reads the direction from the first task with the id; every task with the id gets the opposite of that task's flag, with now as completion time when completing and none when reopening; tasks with other ids are unchanged |
| App.ToggleTwiceRestoresPending | src/App.tsx:102-125 | completing a pending task and then reopening it restores the list |
| App.TogglePreservesWellFormed | src/App.tsx:115-125 | toggling keeps a well-formed list well formed |
| App.EditNoOp | src/App.tsx:55-69 | a blank title, an unknown id or an unchanged title raises no prompt, and these or a declined prompt leave the list unchanged |
| App.EditReplacesTitle | src/App.tsx:61-73 | an accepted change prompts with the title of the first task with the id and the trimmed text, then gives that text as title to every task with the id; tasks with other ids are unchanged |
| App.EditPreservesWellFormed | src/App.tsx:71-73 | editing keeps a well-formed list well formed |
| App.RemoveFilters | src/App.tsx:129-139 | removal always prompts, with "esta tarefa" for an absent id; an accepted one keeps the other tasks in their order, each as often as the list holds it, and none with the id; a declined one changes nothing |
| App.RemovePreservesWellFormed | src/App.tsx:139 | removing keeps a well-formed list well formed |
| App.WithoutKeepsWellFormed | src/App.tsx:139 | filtering out an id keeps a well-formed list well formed |
| App.SubmittedTitleIsAdded | src/App.tsx:85-99 | a title the form submits is added unchanged: the handler's second trim and emptiness check never reject it |
| App.ConfirmedEditIsPromptedAgain | src/App.tsx:55-69 | if an item's `onEdit` were wired to the handler, a title the item has already asked to confirm would arrive trimmed, non-empty and changed, so the handler would prompt a second time with the same two titles |
| App.AddKeepsNewestFirst | src/App.tsx:92-99 | with a clock that never runs backwards, adding keeps a newest-first list newest first |
| App.ToggleEditKeepNewestFirst | src/App.tsx:115-125 | toggling and editing keep every creation time, so a newest-first list stays newest first |
| App.RemoveKeepsNewestFirst | src/App.tsx:139 | removing keeps a newest-first list newest first |
| App.SubsequenceKeepsUniqueIds | src/App.tsx:139 | leaving tasks out of a list whose ids are distinct keeps the ids distinct |
| App.SubsequenceKeepsNewestFirst | src/App.tsx:77-81 | leaving tasks out of a newest-first list keeps it newest first |
| App.ListViewKeepsOrder | src/components/TaskList.tsx:30 | the list view's sort leaves every filtered view of a newest-first list in the order the store passes it |
| App.Store.constructor | src/App.tsx:24-52 | the list starts as the loaded list, the filter as "all", and the storage slot holds the serialised list |
| App.Store.AddTask | src/App.tsx:84-100 | alerts exactly for a blank title; the new list is `AfterAdd` of the old one; the slot is rewritten and the filter kept |
| App.Store.ToggleTask | src/App.tsx:102-126 | prompts as `TogglePrompt` says (finish or reopen, naming the title); the new list is `AfterToggle` of the old one with the answer; the slot is kept in step |
| App.Store.UpdateTaskTitle | src/App.tsx:55-74 | alerts exactly for a blank title, prompts as `EditPromptFor` says, and leaves `AfterEdit` of the old list; the slot is kept in step |
| App.Store.RemoveTask | src/App.tsx:129-140 | prompts with the task's title or the fallback phrase and leaves `AfterRemove` of the old list; the slot is kept in step |
| App.Store.SetFilter | src/App.tsx:47 | the filter becomes the chosen value |
| ConfirmAction.ButtonClasses | src/utils/confirmAction.ts:12-23 | the class string of a button by kind and variant; `ButtonStyles` states how they differ |
| ConfirmAction.ButtonStyles | src/utils/confirmAction.ts:12-23 | the cancel button's style ignores the variant; "default" falls through to the emerald style; the four confirm styles are pairwise distinct and differ from the cancel style |
| ConfirmAction.ConfirmKeyAnswer | src/utils/confirmAction.ts:107-110 | Escape answers false, Enter answers true, and every other key answers nothing |
| ConfirmAction.DialogGate.constructor | src/utils/confirmAction.ts:7-9 | nothing is open, nothing is resolving, the last opening is at time 0, and the invariant holds, including that `resolving` is false between calls |
| ConfirmAction.DialogGate.BeginOpen | src/utils/confirmAction.ts:62-70 | opens exactly when 350 ms have passed since the last opening and nothing is open, and then records `now` with `resolving` cleared; a refusal changes nothing |
| ConfirmAction.DialogGate.Open | src/utils/confirmAction.ts:62-115 | a successful opening builds one shown, unsettled dialog with its keydown listener registered, at least 350 ms after the previous one, records its time as the newest opening, keeps the earlier dialogs' entries and "at most one shown"; a refused one changes nothing |
| ConfirmAction.DialogGate.ConfirmAction | src/utils/confirmAction.ts:77-82 | a refused opening answers false at once and builds nothing; otherwise a new confirmation waits for its answer, its opening time is recorded, and the earlier dialogs' entries stay |
| ConfirmAction.DialogGate.NiceAlert | src/utils/confirmAction.ts:121-126 | a refused opening resolves at once and shows nothing; otherwise a new alert is shown, its opening time is recorded, and the earlier dialogs' entries, close counts included, stay |
| ConfirmAction.DialogGate.FinishClose | src/utils/confirmAction.ts:71-75 | removes the dialog's overlay and clears both `isOpen` and `resolving` |
| ConfirmAction.DialogGate.ResolveOnce | src/utils/confirmAction.ts:97-102 | the guard always finds `resolving` clear, so every call closes the dialog, leaves `resolving` cleared again and settles the promise with its first result only; the keydown listener and the recorded opening times stay |
| ConfirmAction.DialogGate.OnConfirmKey | src/utils/confirmAction.ts:107-115 | a removed listener sees nothing; otherwise the first key press of any kind removes it, Escape or Enter then close the confirmation and settle it with false or true, and other keys change nothing else |
| ConfirmAction.DialogGate.OnAlertKey | src/utils/confirmAction.ts:141-146 | a removed listener sees nothing; otherwise the first key press of any kind removes it, Escape or Enter then close and settle the alert, and other keys change nothing else |
| ConfirmAction.OpeningsSpaced | src/utils/confirmAction.ts:64-66 | any two successful openings are at least 350 ms apart |
| ConfirmAction.SecondConfirmationDeclined | src/utils/confirmAction.ts:65 | a confirmation requested while one is open is answered false at once, even after the debounce window |
| ConfirmAction.OtherKeyDisarmsKeyboard | src/utils/confirmAction.ts:107-115 | a key other than Escape or Enter uses up the confirmation's listener, so a later Enter leaves the dialog open and unsettled |
| ConfirmAction.AnsweredByClick | src/utils/confirmAction.ts:97-115 | a click closes the confirmation and settles it while its keydown listener stays registered |
| ConfirmAction.ClickedThenReopened | src/utils/confirmAction.ts:62-115 | after that click a second confirmation opens, and both dialogs' listeners are registered |
| ConfirmAction.LateResolutionOpensSecondOverlay | src/utils/confirmAction.ts:97-115 | the stale listener of a dialog closed by a click passes the guard, runs `finishClose` a second time, and lets two overlays be shown at once; the first answer stands |
| ConfirmAction.StaleListenerInOneDispatch | src/utils/confirmAction.ts:97-115 | delivered to both registered listeners, the same key press also closes the newer dialog: no overlay stays shown and each promise keeps the answer it was given |
| TaskItem.SaveStepFor | src/components/TaskItem.tsx:37-56 | `save` is ignored exactly under the lock, alerts exactly for a blank draft, ends editing exactly for an unchanged title, and otherwise asks to confirm the trimmed, non-empty, changed title |
| TaskItem.EditSession.constructor | src/components/TaskItem.tsx:15-19 | not editing, the draft is the title, the lock is free and no edit has been reported |
| TaskItem.EditSession.StartEdit | src/components/TaskItem.tsx:24-35 | a completed task only alerts and stays as it was; otherwise the draft is reset to the title and editing starts |
| TaskItem.EditSession.SetDraft | src/components/TaskItem.tsx:109 | the draft becomes the typed text |
| TaskItem.EditSession.Save | src/components/TaskItem.tsx:37-56 | takes the step `SaveStepFor` gives; only a confirmation takes the lock, only an unchanged title ends editing, and `onEdit` is not called before the answer |
| TaskItem.EditSession.Answer | src/components/TaskItem.tsx:56-67 | a confirmed edit calls `onEdit` once with the id and the trimmed title and ends editing; a declined one calls nothing and stays in editing mode; the lock is free on both paths |
| TaskItem.EditSession.Cancel | src/components/TaskItem.tsx:70-73 | editing ends and the draft is reset to the title |
| TaskItem.EditSession.OnKeyDown | src/components/TaskItem.tsx:75-78 | Enter runs `save`, Escape runs `cancel` and leaves the save lock and the pending title as they were, and other keys change nothing |
| TaskItem.EnterTwice | src/components/TaskItem.tsx:38 | of two Enters before the answer, the first asks to confirm the trimmed draft and the second is ignored under the lock |
| TaskItem.DoubleEnterSavesOnce | src/components/TaskItem.tsx:38-67 | editing and pressing Enter twice reports exactly one edit after the answer, and frees the lock |
| TaskInput.Submitted | src/components/TaskInput.tsx:12-19 | nothing is submitted exactly when the field is all white space; otherwise the trimmed title, which is non-empty and has no white space at either end |
| TaskInput.SubmittedIgnoresPadding | src/components/TaskInput.tsx:12 | white space around a title does not change what is submitted |
| TaskInput.Form.constructor | src/components/TaskInput.tsx:8 | the field starts empty and nothing has been added |
| TaskInput.Form.SetTitle | src/components/TaskInput.tsx:31 | the field holds the typed text |
| TaskInput.Form.Submit | src/components/TaskInput.tsx:10-21 | a blank field alerts and keeps its text with no call to `onAdd`; otherwise `onAdd` receives the trimmed title once and only then is the field cleared |
| Filters.FilterIdInjective | src/components/Filters.tsx:12-14 | the three ids are distinct |
| Filters.IndexOf | src/components/Filters.tsx:36 | finds the position of the option with the value as its id, and nothing exactly when no option has it |
| Filters.IndexOfId | src/components/Filters.tsx:12-14 | each option's id is found at that option's own position |
| Filters.HandleKey | src/components/Filters.tsx:35-43 | only an arrow key emits a filter, and a value that is no option's id emits nothing |
| Filters.HandleKeyCycles | src/components/Filters.tsx:38-42 | ArrowRight/ArrowDown select the next filter in the order all, pending, done, all; ArrowLeft/ArrowUp the previous one, wrapping from all to done; other keys select nothing |
| Filters.NavigationCycles | src/components/Filters.tsx:39-41 | next then previous returns to the start, and three nexts go all the way round |
| Filters.CountFor | src/components/Filters.tsx:67 | the count shown is the matching field of `counts`, or 0 when no counts are given |
| Filters.AtMostOneSelected | src/components/Filters.tsx:65 | a value marks at most one tab as selected |
| TaskList.PrependKeepsOrder | src/components/TaskList.tsx:30 | a task no older than the head of a newest-first list can go in front of it |
| TaskList.Insert | src/components/TaskList.tsx:30 | an insertion step of the sort adds exactly that task and loses none of the others |
| TaskList.InsertKeepsOrder | src/components/TaskList.tsx:30 | inserting into a newest-first list keeps it newest first, with the new task or the old head in front |
| TaskList.SortedNewestFirst | src/components/TaskList.tsx:30 | the sorted copy is ordered by creation time, newest first, and is a permutation of the tasks |
| TaskList.SortKeepsOrderedList | src/components/TaskList.tsx:30 | sorting a list that is already newest first returns it unchanged |
| TaskList.SortKeepsMembers | src/components/TaskList.tsx:30 | a task is in the sorted copy exactly when it is in the input |
| TaskList.ListView.constructor | src/components/TaskList.tsx:18-19 | the copy starts empty, before the first update |
| TaskList.ListView.OnTasksChanged | src/components/TaskList.tsx:22-32 | the first run copies the tasks in their given order, later runs copy them sorted newest first; either way the copy is a permutation of the tasks |
| TaskList.Render | src/components/TaskList.tsx:34-80 | loading shows the skeleton; otherwise no tasks shows the empty state, whatever the copy holds; otherwise the copy is listed |
| TaskList.SettledRender | src/components/TaskList.tsx:22-80 | once the effect has run on the current tasks, a non-empty list shows exactly those tasks (as a multiset), newest first; on the effect's first run the copy keeps the given order, so there this holds only when the tasks were passed newest first |
| ThemeToggle.Name | src/components/ThemeToggle.tsx:36 | the stored value is "dark" exactly for dark and "light" exactly for light |
| ThemeToggle.InitialTheme | src/components/ThemeToggle.tsx:11-27 | dark exactly when the read succeeds and the stored value is "dark", or is neither "dark" nor "light" while the system prefers dark; a failed read gives light |
| ThemeToggle.ReloadRestoresTheme | src/components/ThemeToggle.tsx:13-20 | a stored theme is read back as itself, whatever the system prefers |
| ThemeToggle.Toggled | src/components/ThemeToggle.tsx:67 | the toggle always changes the theme, so two toggles restore it |
| ThemeToggle.FromStorage | src/components/ThemeToggle.tsx:42-45 | an event for the preference key gives dark exactly when the new value is "dark"; events for other keys keep the theme |
| ThemeToggle.SyncAdoptsOtherTab | src/components/ThemeToggle.tsx:42-45 | a theme stored by another tab is adopted as it is |
| ThemeToggle.UnknownValueReadsDiffer | src/components/ThemeToggle.tsx:15-20 | an unknown stored value defers to the system preference at mount but means light in a storage event |
| ThemeToggle.ThemeState.constructor | src/components/ThemeToggle.tsx:7-8 | light and not mounted; the page's class and storage are left as found |
| ThemeToggle.ThemeState.Apply | src/components/ThemeToggle.tsx:30-38 | the root's class shows the theme, and the theme is stored unless the write fails |
| ThemeToggle.ThemeState.Mount | src/components/ThemeToggle.tsx:11-38 | the theme is `InitialTheme` of the stored value and the system preference (light when reading throws); the component is mounted on every path and then applies and stores the theme |
| ThemeToggle.ThemeState.Toggle | src/components/ThemeToggle.tsx:67 | flips the theme, applies it to the root and stores it |
| ThemeToggle.ThemeState.OnStorage | src/components/ThemeToggle.tsx:41-49 | the theme follows `FromStorage`; an event for the preference key stores its new value, which the effect overwrites only when the theme changed and is applied; other keys change nothing; a cleared storage (no key) leaves nothing stored; before mounting nothing is applied to the root |
| ThemeToggle.ReloadKeepsTheme | src/components/ThemeToggle.tsx:11-38 | on its own, the component comes back after a reload in the theme it stored |
| ThemeToggle.ReloadThroughBootstrap | src/main.tsx:6-20 | the bootstrap sets the root's class from the system preference and removes the stored choice, so after a reload the component mounts in the system's theme whatever it stored before |

## Left out

- Rendering, class strings other than the dialog buttons', focus handling, and the building and removal of dialog elements (`makeBase`, `close`): these are DOM output.
- Event dispatch: each call of a listener method is one listener receiving one event. A key press that reaches several `window` listeners is modelled only in `ConfirmAction.StaleListenerInOneDispatch`, as one call per listener in registration order. The one-shot removal of the dialogs' keydown listeners is modelled; that of the button click listeners is not, since a click removes the whole overlay.
- TaskItem.EnterTwice and TaskItem.DoubleEnterSavesOnce: Enter in the edit field runs `save` from React's root-container handler, and `save` registers the confirmation's `window` keydown listener before the same event bubbles up to `window`. Under DOM dispatch rules that listener then receives this Enter and confirms at once, so from the keyboard the edit confirms itself and "two Enters before the answer" does not arise. The scenarios show what the `savingRef` lock does for two calls of `save` however they arrive.
- ConfirmAction.LateResolutionOpensSecondOverlay: in a page, the only late caller of a closed dialog's `resolveOnce` is its stale keydown listener. That listener fires in the same dispatch as the newer dialog's own listener, which closes the newer dialog too, as `ConfirmAction.StaleListenerInOneDispatch` shows. "Two overlays shown at once" is what the guard alone allows, not what the page does.
- App.ConfirmedEditIsPromptedAgain: `TaskList` neither accepts nor forwards `onEdit` (src/components/TaskList.tsx:5-10, 72-77), so in the app every item runs the no-op `safeOnEdit` and an item never reaches `updateTaskTitle`. The lemma states what happens if the callback is wired: the second prompt that the comment at src/components/TaskItem.tsx:62 says must not happen.
- Asynchrony: each `await` is split into the part before it and a continuation that receives the answer. Interleavings of several pending handlers are not explored, except in the dialog-gate scenarios.
- `JSON.parse` and `JSON.stringify` work on text, which is not modelled. The stored blob is given already parsed, as records or as a failure.
- App.Load: numbers are integers. Fractional numbers, `NaN`, and a `createdAt` stored as a string or an object (which `Number` converts) are not modelled. `String` of a number is plain decimal notation, without the exponent form of very large values.
- App.Load: both `Date.now()` calls of the loader read one clock value `now`.
- App.Store.constructor: a failing storage write in the persistence effect is not modelled. The slot always holds the list.
- Strings are sequences of code points, not UTF-16 code units. All white space that trim removes lies in the Basic Multilingual Plane.
- TaskItem.EditSession: the `task` prop is fixed for the session. A re-render with a changed task while a prompt is pending is not modelled. The alerts' own waiting is not modelled either: an alerting step reports the alert and returns.
- The second `TaskItem` component in src/components/TaskItem.tsx (from line 175) is a duplicate default export and is not part of this model.
- src/components/counters.tsx is not part of this model: it does not parse, and its percentage uses floating point. The counting rule is modelled from src/App.tsx:143-145.
- src/utils/date.ts (locale date formatting) and tailwind.config.js (build configuration) are not part of this model. Of src/main.tsx, the initial root class and the removal of the stored theme are modelled in `ThemeToggle.ReloadThroughBootstrap`; its listener that follows later changes of the system preference, and the mounting of `App`, are not.
- ThemeToggle.ReloadKeepsTheme: holds for the component on its own. `App` does not render the component, and the page's bootstrap deletes the stored key before every mount, so in the page a reload follows the system preference (`ThemeToggle.ReloadThroughBootstrap`).
- ThemeToggle.ReloadThroughBootstrap: a removal that throws is not modelled; the key is always removed.
- Filters: the labels, icons and button classes are not modelled. `App` passes no `counts`, so the badges are not rendered there.
- TaskList.SortedNewestFirst: the sort is stable by construction, because equal creation times keep their input order. No separate lemma states this. Sorting a value also cannot mutate the caller's array in this model.
- ThemeToggle: the button's labels and `aria` attributes are not modelled.

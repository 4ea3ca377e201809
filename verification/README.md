# DoDash, modelled in Dafny

DoDash is a small to-do web application. Browsers hold named, coloured lists of tasks. Every edit is sent to a tiny Node server as one whole JSON document, and the server keeps that document in a single file. This project models the parts of it that are pure logic:

- **The two document stores.**
  - `server/server.js` is the strict store. Its `validateData` decides what may be written. A stored document that fails validation is repaired when it is read. A missing file is created as `{lists: []}`.
  - `server/index.js` is the lenient store. It only checks that `lists` is truthy. It creates one default list when the file is missing or unparseable.
  - Both are modelled as functions over a disk state (`Storage.Disk`: missing, unparseable, or holding a parsed `Json.JsonValue`). Each request returns the new disk and the HTTP reply (`Storage.Step`). The temporary-file write followed by the rename is one atomic assignment.
- **The client mutations.** These are pure sequence transformations in two data models, kept apart:
  - numeric ids with `todos` (`Todos`, `App`: src/App.tsx and src/components/TodoList.tsx);
  - string ids with `tasks` and `order` (`Tasks`: src/types.ts and src/components/TaskList.tsx).
- **`adjustColor`.** It parses the three hex channels of a `#RRGGBB` colour, shifts and clamps them, and writes them back as lower-case hex (`Color`).

Modules: `Wrappers` (Option), `Json` (JSON values and the JavaScript `typeof`, truthiness and property-read rules the validators use), `Storage`, `Text` (`String.prototype.trim`), `Seqs` (`Array.prototype.filter` and its laws), `Color`, `StrictServer`, `LenientServer`, `Todos`, `App`, `Tasks`.

Notes on how the two servers behave:
- The strict store bootstraps `{lists: []}`, where the lenient one writes a default list.
- The strict validator checks types only. It does not require non-empty text.
- The strict store's GET answers 500 when the file is missing or unparseable. Start-up creates the file only when it does not exist, so an unparseable file keeps GET at 500 until a valid POST replaces it.

## Model

| member | source | states |
|---|---|---|
| Json.TypeOf | server/server.js:32 | `typeof` reports "object" exactly for null, arrays and objects, and "number", "string", "boolean" exactly for those JSON kinds |
| Json.Member | server/server.js:33 | a property read yields a value exactly when the value is an object with that key, and then it is that key's value; on arrays and scalars it is `undefined` |
| Storage.ReadFile | server/server.js:25-28 | reading yields a document exactly when the file holds one (the stored document itself), and the "no file" error exactly when the file is missing |
| Text.SkipSpace | src/components/TodoList.tsx:169 | the start of the trimmed text: every character skipped is whitespace, and the character it stops at (if any) is not |
| Text.SkipSpaceBack | src/components/TodoList.tsx:169 | the end of the trimmed text: every character skipped from the back is whitespace, and the character before where it stops (if any) is not |
| Text.Trim | src/components/TodoList.tsx:169-172 | the trimmed text is a slice of the input with only whitespace cut off at both ends; it starts and ends with non-whitespace, and it is empty exactly when the input is all whitespace |
| Text.TrimIdempotent | src/App.tsx:315-317 | trimming an already trimmed name changes nothing |
| Text.TrimKeepsTrimmed | src/components/TaskList.tsx:15-18 | text with no surrounding whitespace is stored as typed |
| Seqs.Filter | src/components/TodoList.tsx:188-194 | `filter` keeps exactly the elements passing the test, never grows the sequence, and every kept element passes |
| Seqs.FilterMultiset | src/components/TodoList.tsx:188-194 | each kept element occurs as often as in the input, and each other element not at all |
| Seqs.FilterConcat | src/components/TodoList.tsx:164-165 | filtering a concatenation concatenates the filtered parts, so relative order is preserved |
| Seqs.FilterPartition | src/components/TodoList.tsx:164-165 | two complementary filters split the input: their lengths add up and their multisets sum to the input's |
| Seqs.FilterIdempotent | src/components/TodoList.tsx:192-194 | filtering twice with the same test equals filtering once |
| Seqs.FilterKeepsAll | src/components/TodoList.tsx:188-190 | a filter every element passes returns the input unchanged |
| Seqs.FilterFirstKept | src/App.tsx:333-338 | the first element of a filter is the first element of the input that passes |
| Color.ToHexString | src/App.tsx:23 | `n.toString(16)` is a lower-case hex numeral with no leading zero whose value is `n`; it has one digit below 16 and two digits from 16 to 255 |
| Color.PadStart | src/App.tsx:23 | `padStart` produces the requested length, ends with the original string and fills the front with the pad character |
| Color.ParsePair | src/App.tsx:13-15 | `parseInt` of two hex digits is 16 times the first digit plus the second, hence below 256 |
| Color.ToHex2 | src/App.tsx:23 | a channel becomes exactly two lower-case hex digits that parse back to the same value |
| Color.ToHex2IsPaddedHexString | src/App.tsx:23 | the two-digit form equals `n.toString(16).padStart(2, '0')` for every channel value |
| Color.Clamp | src/App.tsx:7 | the clamp lies in 0..255, is the identity inside that range, 0 below it and 255 above it |
| Color.RemoveFirst | src/App.tsx:10 | `replace('#', '')` removes one character when `#` occurs and none otherwise, and strips a leading `#` |
| Color.RemoveFirstAt | src/App.tsx:10 | the character `replace('#', '')` removes is the first `#`: the text before it and the text after it are kept, in order |
| Color.Channel | src/App.tsx:12-15 | each channel of a well-formed colour is a value below 256 |
| Color.HexPartChannels | src/App.tsx:10-15 | after removing the `#`, the substrings 0-2, 2-4 and 4-6 are six hex digits and parse to the red, green and blue channels |
| Color.Compose | src/App.tsx:25 | the template string is a well-formed lower-case colour whose channels are the three given values |
| Color.AdjustColor | src/App.tsx:6-26 | for a well-formed input the output matches `^#[0-9A-Fa-f]{6}$`, uses only lower-case digits, and each channel equals the input channel plus `amount`, clamped to 0..255 |
| Color.LowerDigit | src/App.tsx:23 | lower-casing a hex digit keeps its value |
| Color.LowerColor | src/App.tsx:22-25 | reference for the zero-shift lemma: the lower-case spelling of a colour, which `toString(16)` produces; it is well-formed, and each digit is lower-case with the value of the input digit |
| Color.ChannelDigits | src/App.tsx:13-15 | a channel is 16 times its first digit plus its second |
| Color.LowerDigitUnique | src/App.tsx:23 | two lower-case digits with the same value are the same character |
| Color.LowerColorsByChannels | src/App.tsx:22-25 | a lower-case colour is determined by its three channels |
| Color.AdjustByZeroLowerCases | src/App.tsx:6-26 | adjusting by 0 returns the input colour with its digits lower-cased |
| Color.AdjustByZeroFixesOutput | src/components/TodoList.tsx:5-25 | the copy in TodoList.tsx is the same function; adjusting its output by 0 returns that output unchanged |
| Color.AdjustColorAdditive | src/components/TodoList.tsx:17-20 | shifting by `a` and then by `b` equals shifting by `a + b` when the first shift clamps no channel |
| Color.ColorPatternExamples | server/server.js:39 | the pattern accepts `#6B46C1`, `#8B5CF6` and `#00ff00`, and refuses `#abc`, `abcdef` and `#GGGGGG` |
| StrictServer.TodoPassesIff | server/server.js:43-47 | a todo passes exactly when it is an object with a numeric `id`, a string `text` and a boolean `completed` |
| StrictServer.EveryTodoPassesIff | server/server.js:42-48 | the left-to-right `every` over todos holds exactly when every todo passes |
| StrictServer.ListPassesIff | server/server.js:36-48 | a list passes exactly when it is an object with a numeric id, a string name, a `#RRGGBB` colour and a `todos` array of passing todos |
| StrictServer.EveryListPassesIff | server/server.js:35-49 | the left-to-right `every` over lists holds exactly when every list passes |
| StrictServer.ValidateDataIff | server/server.js:31-50 | a document is accepted exactly when it is an object whose `lists` is an array of well-formed lists with well-formed todos; nothing else is checked |
| StrictServer.ExtraDocKeyIgnored | server/server.js:33-35 | adding or changing any top-level key other than `lists` never changes the verdict |
| StrictServer.EmptyTextsAccepted | server/server.js:36-47 | an empty list name, an empty todo text and an extra list key are all accepted |
| StrictServer.WrongTypesRejected | server/server.js:33-37 | `{lists: "not-an-array"}` and a list with a string id are refused |
| StrictServer.ServerDocumentsValid | server/server.js:69-77 | both `{lists: []}` and the repair document `{lists: [], keyColor: '#6B46C1'}` pass validation, so the repair write cannot be refused |
| StrictServer.Initialize | server/server.js:16-22 | start-up always leaves a file: a missing one becomes `{lists: []}` (a valid document whose only key is an empty `lists`), and an existing one is never touched |
| StrictServer.WriteData | server/server.js:53-64 | the write happens exactly when the document validates; it then holds that document, and otherwise the disk is unchanged |
| StrictServer.Get | server/server.js:67-82 | GET answers 500 and changes nothing without a parsed file; otherwise it answers 200, and what it serves is what the file then holds and always validates: a valid stored document verbatim, or the repair document |
| StrictServer.Post | server/server.js:84-95 | POST answers 400 exactly for invalid bodies and then leaves the disk alone; a valid body is stored and answered with `{success: true}` |
| StrictServer.WriteThenRead | server/server.js:58-63 | after a successful write, reading the file and GET both return the written document |
| StrictServer.PostIdempotent | server/server.js:84-95 | posting the same valid document twice gives the same disk and reply as posting it once |
| StrictServer.ServeKeepsValid | server/server.js:67-95 | once the file holds a valid document, it holds a valid document after any sequence of GETs and POSTs |
| StrictServer.StartFromNothing | server/server.js:97-103 | a server started without a file holds a valid document after any requests |
| LenientServer.InitDataFile | server/index.js:10-42 | start-up always leaves a parsed document: one that parses is kept as it is, and a missing or unparseable file gets the initial document |
| LenientServer.AcceptableIff | server/index.js:62-64 | the POST guard passes exactly when the body is an object with a `lists` key that is not null, false, 0 or "" |
| LenientServer.Get | server/index.js:49-57 | GET never changes the disk; it serves the parsed file verbatim, or answers 500 when there is none |
| LenientServer.Post | server/index.js:59-83 | an acceptable body is stored verbatim and answered with success; any other body leaves the disk alone and gets 400 with `success: false` |
| LenientServer.PostThenGet | server/index.js:71-78 | after an accepted POST, GET returns exactly the posted document |
| LenientServer.StoresNonArrayLists | server/index.js:62-75 | `{lists: "x"}` is stored verbatim, while the strict server refuses it with 400 |
| LenientServer.StrictImpliesAcceptable | server/index.js:62 | every document the strict validator accepts also passes the lenient guard |
| LenientServer.BootstrapServesDefaultList | server/index.js:27-35 | on a missing or corrupt file, start-up followed by GET serves exactly one list, `default` / `My Tasks` / `#8B5CF6`, with no tasks |
| LenientServer.InitKeepsParsedFile | server/index.js:17-21 | start-up never replaces a file that parses, and running it twice equals running it once |
| Todos.ActiveTodos | src/components/TodoList.tsx:164 | the active view holds exactly the todos not completed |
| Todos.CompletedTodos | src/components/TodoList.tsx:165 | the completed view holds exactly the completed todos |
| Todos.ActiveCompletedPartition | src/components/TodoList.tsx:164-165 | each todo is in exactly one view, the lengths add up to the todo count, and the views' multisets sum to the todos' |
| Todos.ViewsKeepOrder | src/components/TodoList.tsx:164-165 | each view of a concatenation is the concatenation of the views, so relative order is kept |
| Todos.AddTodo | src/components/TodoList.tsx:167-178 | whitespace-only input hands nothing on; otherwise exactly one open todo with the trimmed, non-empty text and the given id is appended, and the existing todos are unchanged |
| Todos.ToggleTodo | src/components/TodoList.tsx:180-186 | length, ids and texts are kept, and `completed` changes on exactly the todos with the given id |
| Todos.ToggleTwice | src/components/TodoList.tsx:180-186 | toggling the same id twice restores the todos |
| Todos.DeleteTodo | src/components/TodoList.tsx:188-190 | exactly the todos with another id survive, each as often as before |
| Todos.DeleteTodoShape | src/components/TodoList.tsx:188-190 | the length is unchanged exactly when no todo has the id, and survivors keep their relative order |
| Todos.ClearCompleted | src/components/TodoList.tsx:192-194 | no completed todo survives, every open todo survives as often as before, and the result equals the active view |
| Todos.ClearCompletedIdempotent | src/components/TodoList.tsx:192-194 | clearing twice equals clearing once |
| App.AddList | src/App.tsx:243-261 | a cancelled or empty name, or a failed save, changes nothing; otherwise exactly one list with the given name, colour `#6B46C1` and no todos is appended after the unchanged existing lists, and it is selected |
| App.UpdateTodos | src/App.tsx:263-275 | the list count, the order, every id, name and colour, and the selection are kept; only the selected list's todos change, and only when the save succeeded |
| App.Recolor | src/App.tsx:298-311 | only the colour of lists with the given id changes, and only when the save succeeded |
| App.Rename | src/App.tsx:312-329 | a cancelled or blank name, or a failed save, changes nothing; otherwise lists with the given id take the trimmed name, and no other list field changes |
| App.FallbackSelection | src/App.tsx:337-339 | the selection is kept unless the deleted list was selected; then it moves to the first remaining list, or to nothing when none remain |
| App.DeleteList | src/App.tsx:330-347 | without confirmation or with a failed save nothing changes; otherwise exactly the lists with another id remain, each as often as before, and the selection follows the fallback rule |
| App.DeleteListKeepsOrder | src/App.tsx:333 | the lists that survive a delete keep their original relative order: the survivors of any prefix come before those of the rest |
| App.DeleteSelectedPicksFirstSurvivor | src/App.tsx:333-339 | deleting the selected list selects the first list, in the original order, whose id differs from the deleted one |
| App.InitialLoad | src/App.tsx:197-227 | a failed load gives no lists and no selection; a successful one shows the loaded lists, and something is selected exactly when there are lists: the first one |
| App.FailedSaveKeepsState | src/App.tsx:253-258 | with a failed save, every handler leaves lists and selection at their values before the edit |
| App.AddListKeepsSelectionValid | src/App.tsx:254-256 | after adding a list, the selection is empty or names an existing list |
| App.SameIdsKeepSelectionValid | src/App.tsx:264-268 | a change that keeps every list id and the selection keeps the selection pointing at an existing list |
| App.EditsKeepSelectionValid | src/App.tsx:263-326 | updating todos, recolouring and renaming keep the selection empty or pointing at an existing list |
| App.DeleteListKeepsSelectionValid | src/App.tsx:333-339 | after a delete, the selection is empty or names a remaining list |
| App.HandlersKeepColorsValid | src/App.tsx:246-250 | if all colours are `#RRGGBB` and the picker supplies one, every handler keeps all colours `#RRGGBB` |
| App.DeleteSelectedOfTwo | src/App.tsx:333-339 | deleting the selected one of two lists leaves the other, selected; deleting the only list leaves nothing selected |
| App.EncodedListWellFormed | src/App.tsx:252-253 | one list as the client encodes it passes the strict server's list check exactly when its colour is `#RRGGBB` |
| App.SaveAcceptedIffColorsValid | src/App.tsx:252-253 | the strict server accepts the `{lists}` document the client posts exactly when every list colour is `#RRGGBB` |
| Tasks.AddTask | src/components/TaskList.tsx:14-28 | blank text hands nothing on; otherwise one open task with the trimmed text and `order` equal to the old count is appended, the existing tasks are unchanged, and the list's id, name and colour are kept |
| Tasks.AddTaskKeepsDenseOrder | src/components/TaskList.tsx:20-24 | if orders were exactly 0..n-1 before adding a task, they are exactly 0..n after |
| Tasks.AddAfterDeleteRepeatsOrder | src/components/TaskList.tsx:14-44 | after a delete, adding a task can repeat an order still in use, so orders need not stay distinct |
| Tasks.ApplyPatch | src/components/TaskList.tsx:34 | field by field: a field the patch supplies takes the patch's value, and a field it leaves out keeps the task's value |
| Tasks.ApplyPatchIdempotent | src/components/TaskList.tsx:34 | spreading the same updates over an already updated task gives the same task |
| Tasks.UpdateTask | src/components/TaskList.tsx:30-37 | the length, the list header and every task with another id are unchanged; on tasks with the id, exactly the supplied fields are overwritten |
| Tasks.EmptyPatchIsIdentity | src/components/TaskList.tsx:30-37 | an update that supplies no field changes nothing |
| Tasks.DeleteTask | src/components/TaskList.tsx:39-44 | exactly the tasks with another id remain, each as often as before, and the header is kept |
| Tasks.DeleteTaskKeepsOrder | src/components/TaskList.tsx:39-44 | the survivors keep their relative order |
| Tasks.ClearCompleted | src/components/TaskList.tsx:46-51 | exactly the open tasks remain, each as often as before, the header is kept, and the result is the active view, so the open tasks keep their order |
| Tasks.ClearCompletedIdempotent | src/components/TaskList.tsx:46-51 | clearing twice equals clearing once |
| Tasks.ActiveTasks | src/components/TaskList.tsx:53 | the active view holds exactly the open tasks |
| Tasks.CompletedTasks | src/components/TaskList.tsx:54 | the completed view holds exactly the completed tasks |
| Tasks.ActiveCompletedPartition | src/components/TaskList.tsx:53-54 | the views' lengths add up, their multisets sum to the tasks', and each keeps relative order |
| Tasks.VariantsDisagree | src/types.ts:1-17 | the lenient server stores every string-id document, while the strict server accepts one only when it has no lists |

## Left out

- HTTP plumbing: Express routing, CORS, body parsing, static files and the catch-all route to the UI are left out. GET and POST are functions from disk state to a new disk state and a reply.
- File-system failures other than a missing or unparseable file are left out: a failed write, `mkdir` or rename, and the start-up abort in index.js. The only 500 replies modelled are the unreadable-file ones. The `details` field of the strict server's 500 reply is left out, because it carries the text of a Node exception.
- JSON text is left out: `JSON.stringify` and `JSON.parse` are taken as inverse. This also leaves out number overflow: a literal such as `1e400` parses to `Infinity`, passes the strict `typeof` check, and is written back as `null`. Documents are `JsonValue`s, numbers are reals, and objects are maps, so key order is not modelled.
- The client's network layer is left out: `fetch`, the success flag of `saveToServer` (the `saved` parameter), and `loadFromServer` (an optional list value).
- The 5-second poll is left out, along with its races with edits and other clients. It replaces the lists wholesale, and a failed poll replaces them with `[]`. It never repairs the selection.
- `Date.now()` is left out. New ids are parameters, so every id property is stated over all items with that id.
- `prompt` and `confirm` are left out. Their answers are parameters, and `alert` has no effect on state.
- Rendering is left out: React, styled-components, tailwind.config.js, ColorPicker.tsx, AddListButton.tsx, ListSelector.tsx and TaskItem.tsx. The trim-before-rename guards in the last two are the same rule as `App.Rename`.
- Color.AdjustColor: requires a well-formed `#RRGGBB` input, because `parseInt` on other text (NaN channels) is not modelled; `amount` is an integer.
- Todos.Todo and App.TodoList ids are integers, because the client creates them with `Date.now()`. On the wire they become JSON numbers.
- Text.Trim: whitespace is the fixed set of ECMAScript whitespace and line-terminator code points. Strings are sequences of Unicode scalar values, not UTF-16 code units.

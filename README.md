# Todo app: a verified model of the list logic, the CRUD layer and the API helpers

The repository is a small todo application. A browser client (the
`AdvancedTodoApp` class of `front/script.js`) keeps an ordered list of todo
records and talks to a FastAPI server. The server's `back/crud.py` reads
and writes a `todos` table, and `back/main.py` wraps it in HTTP routes.
This project models three parts of it in Dafny and proves what they promise.

- **The client object.** `Client.TodoApp` is a class with the fields the
  JavaScript object updates: `todos`, `viewMode`, `filterMode`,
  `currentEditId`, `currentTheme`, what the list area shows (`screen`), the
  count badge, the document title, the toasts shown and the requests sent.
  - Each asynchronous operation is one atomic method. The server's reply is
    a parameter (`ApiReply`: a body, an HTTP failure with its `detail`, or a
    network failure), and so is the answer to `confirm()`.
  - The pure parts are functions: the filter, the counts, the title, the
    rendering decisions and `escapeHtml`. They live in the modules `Client`,
    `Html` and `Editor`. The editor module holds the text `insertMarkdown` inserts,
    the word count and the theme cycle.
- **The CRUD layer.** `Crud.TodoTable` is a class whose `rows` field is the
  table in storage order. `nextId` stands for the primary-key sequence.
  Its methods are `get_todos`, `get_todo`, `create_todo`, `update_todo` and
  `delete_todo`. `Valid()` states that the keys are positive and unique.
- **The API helpers.** `Api` holds the pure parts of `main.py`: the CORS
  origin list read from `CORS_ORIGINS`, the `/config` document, and the
  handlers that turn a missing record into a 404. Environment variables are
  parameters, with `None` for an unset variable. `Wire` states how the
  client's update requests are read by the server's merge, and how the
  server's 404 reaches the user.

Shared pieces:
- `Seqs`: an order-keeping filter and first/last index search.
- `Text`:
  - trimming with the exact white-space sets of JavaScript's `trim()` and
    Python's `str.strip()`;
  - Python's `split` on one character and its inverse `join`;
  - decimal formatting and parsing of naturals.
- `Html`: the escaping and its inverse.
- `Wrappers`: `Option`.

## Model

| member | source | states |
|---|---|---|
| Client.TodoApp.constructor | front/script.js:3-26 | Initial modes `card`/`all`, no edit id, theme `default`; one list request; on success the list is the server's and is rendered, on failure it is empty, the error state is shown and one error toast; either way the badge and title match the list |
| Client.TodoApp.SetViewMode | front/script.js:36-44 | The view mode becomes the chosen one and the list is re-rendered with it |
| Client.TodoApp.SetFilterMode | front/script.js:47-60 | The filter mode becomes the chosen one and the list is re-rendered with it |
| Client.TodoApp.LoadTodos | front/script.js:241-250 | One list request; success replaces the list wholesale, re-renders and recounts; failure keeps the list and the counts, shows the error state and an API-error toast |
| Client.TodoApp.AddTodo | front/script.js:252-280 | A title blank after trimming sends nothing and changes nothing but a warning toast; otherwise one create request with the trimmed title and trimmed content (null when blank); on success the server's record is at index 0 followed by the old list in order, re-rendered and recounted; on failure the list is unchanged and the error toasts follow |
| Client.TodoApp.ToggleTodo | front/script.js:282-305 | An id not in the list is a no-op; otherwise one update request carrying the negated flag of the first record with the id; on success that index gets the server's record, all other positions and the length unchanged; the badge and title are not refreshed |
| Client.TodoApp.ToggleTodoRecounting | front/script.js:282-305 | Corrected toggle: an unknown id changes nothing; otherwise the same update request, list, screen and toasts as the toggle as written, and after a successful reply the badge and title match the list; badge and title that matched the list before still match it after |
| Client.StaleTitleAfterToggle | front/script.js:282-305 | Toggling the only pending todo, as written, leaves the title "Advanced Todo (1) - 1 pending" while the list's own title would say 0 pending |
| Client.TodoApp.DeleteTodo | front/script.js:307-324 | Declined at the confirmation: nothing changes and nothing is sent; otherwise one delete request; on success every record with the id is removed and the rest keep their order, re-rendered and recounted; on failure the list is unchanged |
| Client.TodoApp.OpenEditModal | front/script.js:326-362 | A known id is remembered and the form holds the first match's title and its content or the empty string; an unknown id changes nothing |
| Client.TodoApp.SaveEdit | front/script.js:364-397 | Same blank-title rule; otherwise one update request with the trimmed title and content (null when blank) and no completion flag; on success the first record with the id is replaced in place, or the list is unchanged if none has it |
| Client.TodoApp.UpdateTodoCount | front/script.js:519-528 | Afterwards the badge shows the list's length and the title is the one for the list's counts |
| Client.TodoApp.ToggleEditorTheme | front/script.js:597-611 | The theme becomes the next one of the cycle, always one of the four themes, announced in an info toast |
| Client.ReplaceFirst | front/script.js:292-295 | Same length; unchanged when no record has the id; otherwise exactly the first index with the id holds the new record and every other position is unchanged |
| Client.RemoveIdSpec | front/script.js:317 | A record survives the delete filter exactly when it is in the list with another id; the filter distributes over concatenation, so order is kept; an absent id leaves the list unchanged |
| Client.FilterTodosSelects | front/script.js:403-410 | `pending` keeps exactly the not-completed records, `completed` exactly the completed ones, any other mode is the identity, and each filter keeps order |
| Client.CountsAgreeWithFilters | front/script.js:519-522 | The pending count, computed as total minus completed, is the size of the pending view; the completed count and the total are the sizes of the other two views |
| Client.CountsAfterReplace | front/script.js:519-522 | Replacing a record by one with the same completion flag leaves all three counts unchanged |
| Wire.EditKeepsCounts | front/script.js:364-397 | Putting the server's answer to an edit in place of the first record with the id leaves all three counts unchanged, which is why `saveEdit` need not call `updateTodoCount` |
| Client.TitleOfOne | front/script.js:527 | The title for a single todo reads "Advanced Todo (1) - 1 pending" when it is pending and "... - 0 pending" when done |
| Client.RenderTodosShows | front/script.js:400-473 | The empty state is shown exactly when the filter keeps nothing; otherwise one item per kept record in order, each with the title escaped (no `<`, `>`), unescaping back to the title, content shown exactly when it is non-empty, and the status class (`completed`/`pending`) and toggle label (`Undo`/`Complete`) following the completion flag |
| Client.ApiErrorMessageChoice | front/script.js:228-231 | A non-empty `detail` is the message; otherwise the message is "HTTP error! status: " followed by digits that parse back to the status |
| Html.EscapeHtmlIsPerChar | front/script.js:582-589 | The five chained replacements equal the concatenation of a per-character map (`&`, `<`, `>`, `"`, `'` to their entities, others unchanged) |
| Html.EscapeHtmlIsInert | front/script.js:582-589 | The escaped text holds no `<`, `>`, `"` or `'` |
| Html.UnescapeEscapeHtml | front/script.js:582-589 | Decoding the five entities recovers the original text, so escaping loses nothing |
| Html.EscapeHtmlAppend | front/script.js:582-589 | Escaping distributes over concatenation |
| Html.EscapeHtmlChar | front/script.js:582-589 | Escaping one character gives its entity, or the character itself |
| Html.EscapeEach | front/script.js:582-589 | The per-character reference yields text free of the four markup characters and no shorter than the input |
| Html.UnescapeEscapeEach | front/script.js:582-589 | The per-character reference is inverted by decoding |
| Editor.MarkdownReplacementShape | front/script.js:209-215 | The replacement is the start marker, the selection or `text` when nothing is selected, then the end marker |
| Editor.WordCountZeroIff | front/script.js:202 | The word count is zero exactly when the content is all JavaScript white space, and never exceeds the content's length |
| Editor.WordStartsBound | front/script.js:202 | Counting word starts never exceeds the length of the text |
| Editor.NextThemeInThemes | front/script.js:598-601 | The next theme is always one of the four, and an unknown theme moves to `default` |
| Editor.NextThemeOf | front/script.js:598-601 | From the theme at position i the cycle moves to position (i + 1) mod 4 |
| Editor.ThemesDistinct | front/script.js:598 | The four theme names are pairwise different |
| Crud.TodoTable.GetTodos | back/crud.py:6-8 | At most `limit` rows, starting at position `skip`, in table order; none when `skip` is past the end |
| Crud.TodoTable.GetTodo | back/crud.py:10-12 | `None` exactly when no row has the id; otherwise a row of the table with that id |
| Crud.TodoTable.CreateTodo | back/crud.py:14-20 | Exactly one row is appended, with a fresh id, the given title and content, not completed, stamped with the current time; it is returned and the keys stay valid |
| Crud.TodoTable.UpdateTodo | back/crud.py:22-34 | A missing id gives `None` and leaves the table unchanged; otherwise the row with the id is replaced in place by its merge with the update and returned; length and every row with another id unchanged; keys stay valid |
| Crud.TodoTable.DeleteTodo | back/crud.py:36-43 | `true` exactly when the id exists; the table becomes the old table without rows of that id, others in order; unchanged on `false`; one row fewer on `true` |
| Crud.MergeSpec | back/crud.py:26-31 | A field is overwritten exactly when the update carries a value for it; id and creation time never change; the same update twice equals once; an empty update is the identity |
| Crud.FindRow | back/crud.py:12 | `first()` of the id filter: `None` exactly when no row has the id, otherwise a row of the table with that id |
| Crud.Page | back/crud.py:8 | `offset(skip).limit(limit)` as positions: the length is the rows left after `skip`, capped at `limit`, and position i is row skip + i |
| Crud.RemoveFirstIsFilter | back/crud.py:38-41 | With no other row holding the id, deleting the first row with it is filtering the id out |
| Crud.RemoveAtKeepsKeys | back/crud.py:40-41 | Removing a row keeps keys unique and below the next id |
| Api.CorsOriginsDefault | back/main.py:24-39 | An unset or empty `CORS_ORIGINS` gives exactly the four localhost origins |
| Api.EnvOriginsClean | back/main.py:33-36 | Every origin from the variable is non-empty, holds no comma and has no surrounding white space |
| Api.EnvOriginsComplete | back/main.py:33-36 | Every comma-separated piece that is not blank appears stripped in the list |
| Api.EnvOriginsOnePiece | back/main.py:33-36 | A value without a comma gives its stripped self, or nothing when blank |
| Api.EnvOriginsAround | back/main.py:33-36 | The list for `a,b` is the list for `a` followed by the list for `b`, so the pieces keep their order |
| Api.EnvOriginsBlank | back/main.py:35 | A value made only of commas and white space yields no origin |
| Api.BlankListAllowsNone | back/main.py:33-39 | Any non-empty value made only of commas and white space allows no origin at all, not the defaults |
| Api.GetConfigDefaults | back/main.py:58-69 | With nothing set, the document is `http://localhost:8000`, `development`, `1.0.0` |
| Api.ParseBaseUrlRoundTrip | back/main.py:61-66 | `protocol://host:port` gives back protocol, host and port when neither the protocol nor the port holds a colon |
| Api.DefaultPageIsFirstHundred | back/main.py:76-80 | `GET /todos` without parameters returns the first hundred rows, or all of them when fewer |
| Api.ReadTodo | back/main.py:82-88 | 404 "Todo not found" exactly when no row has the id; otherwise a row with that id; no other error |
| Api.UpdateTodo | back/main.py:95-101 | 404 with the table untouched exactly when no row had the id; otherwise the returned row is the merge of the row with the id, stored at that row's index, with every other row and the length unchanged |
| Api.DeleteTodo | back/main.py:103-109 | 404 exactly when no row had the id, with the table untouched; otherwise the success message; the new table is the old one without the row of that id, every other row kept in order |
| Wire.ToggleFlipsOnlyCompletion | front/script.js:286-289 | The toggle body, read by the server's merge, flips the completion of the row and changes nothing else |
| Wire.EditKeepsCompletion | front/script.js:375-381 | The edit body replaces the title and keeps the completion flag, id and creation time |
| Wire.NotFoundAsShown | back/main.py:85-88 | The server's 404 detail reaches the user as the toast "API Error: Todo not found" |
| Html.EscapeHtml | front/script.js:582-589 | The five global replacements in source order (`&` first, so no entity is escaped twice); what the result means is stated by `Html.EscapeHtmlIsPerChar`, `Html.EscapeHtmlIsInert` and `Html.UnescapeEscapeHtml` |
| Client.FilterTodos | front/script.js:403-410 | The records `renderTodos` shows for a filter mode; `Client.FilterTodosSelects` states which records each mode keeps and that order is kept |
| Client.RemoveId | front/script.js:317 | The list after `filter(t => t.id !== id)`; `Client.RemoveIdSpec` states what survives and that order is kept |
| Client.Counts | front/script.js:519-522 | Total, completed and pending (total minus completed) counts; `Client.CountsAgreeWithFilters` ties each to the size of a filtered view |
| Client.PageTitle | front/script.js:527 | "Advanced Todo (count)" followed by " - pending pending" only when the list is not empty; `Client.TitleOfOne` gives both one-todo titles |
| Client.RenderItem | front/script.js:426-473 | One item: the id, the escaped title, content shown when truthy, the status class and the toggle label from the flag; its properties are stated by `Client.RenderTodosShows` |
| Client.RenderTodos | front/script.js:400-424 | The empty state when the filter keeps nothing, otherwise the layout from the view mode and one item per kept record; `Client.RenderTodosShows` states this |
| Client.ApiErrorMessage | front/script.js:228-231 | The message `apiCall` throws: `detail` when it is a non-empty string, else "HTTP error! status: " and the status; `Client.ApiErrorMessageChoice` states both cases and that the status reads back |
| Client.ApiErrorToast | front/script.js:236 | The error toast "API Error: " followed by the message; `Wire.NotFoundAsShown` gives the one a 404 produces |
| Editor.MarkdownReplacement | front/script.js:212 | `start + (selection \|\| 'text') + end`; `Editor.MarkdownReplacementShape` states the three parts |
| Editor.WordCount | front/script.js:202 | Zero for blank content, otherwise the number of white-space-separated runs of the trimmed text; `Editor.WordCountZeroIff` states the blank case and the bound |
| Editor.NextTheme | front/script.js:598-601 | The theme after `(indexOf(current) + 1) % 4`; `Editor.NextThemeOf` and `Editor.NextThemeInThemes` state the cycle and the unknown-theme case |
| Crud.Merge | back/crud.py:26-31 | The three `is not None` assignments applied to a row; `Crud.MergeSpec` states which fields change |
| Api.EnvOrigins | back/main.py:35 | The comprehension over `split(",")`: stripped pieces that are not empty, in order; stated by `Api.EnvOriginsClean`, `Api.EnvOriginsComplete`, `Api.EnvOriginsOnePiece` and `Api.EnvOriginsAround` |
| Api.CorsOrigins | back/main.py:32-39 | The origins from the variable when it is set and non-empty, the defaults otherwise; `Api.CorsOriginsDefault` and `Api.BlankListAllowsNone` state the two branches |
| Api.BaseUrl | back/main.py:66 | The f-string `protocol://host:port`; `Api.ParseBaseUrlRoundTrip` states that it loses nothing |
| Api.GetConfig | back/main.py:58-69 | The `/config` document with the `getenv` defaults and version "1.0.0"; `Api.GetConfigDefaults` states the all-defaults document |
| Api.ParseBaseUrl | back/main.py:66 | The inverse of the f-string: protocol up to the first colon, `//`, host up to the last colon, port after it; `Api.ParseBaseUrlRoundTrip` states the round trip |
| Api.FoundOrNotFound | back/main.py:85-88 | The branch shared by `read_todo` and `update_todo`: 404 "Todo not found" for `None`, the row otherwise; `Api.ReadTodo` and `Api.UpdateTodo` state it against the table |
| Api.DeletedOrNotFound | back/main.py:106-109 | 404 "Todo not found" for `False`, the success message otherwise; `Api.DeleteTodo` states it against the table |
| Text.Trim | front/script.js:253 | Both ends trimmed with a given white-space set (JavaScript's `trim()` or Python's `strip()`); `Text.TrimSpec` and `Text.TrimEmptyIff` state what it keeps |
| Text.Split | back/main.py:35 | Python's `split` on one character: at least one piece, none holding the separator; `Text.JoinSplit` and `Text.SplitJoin` state that it is inverse to joining |
| Seqs.Filter | front/script.js:407-409 | The kept elements all satisfy the predicate and come from the input, and every input element that satisfies it is kept |
| Seqs.FilterAppend | front/script.js:317 | Filtering distributes over concatenation, so relative order is kept |
| Seqs.FilterPartition | front/script.js:520-522 | A filter and its complement split the sequence: their sizes sum to its length |
| Seqs.FirstIndex | front/script.js:383 | `findIndex`: the first position satisfying the predicate, or -1 exactly when none does |
| Text.TrimSpec | front/script.js:253 | A trimmed string is a slice of the input that neither starts nor ends with white space, and all that was cut off is white space |
| Text.TrimEmptyIff | front/script.js:256 | The trimmed title is empty exactly when the input is all white space |
| Text.JoinSplit | back/main.py:35 | Python's `split(",")` loses nothing: joining the pieces gives the input back |
| Text.SplitJoin | back/main.py:35 | Splitting is the inverse of joining pieces that hold no separator |
| Text.SplitAround | back/main.py:35 | The separator splits the text into the pieces of each side |
| Text.ParseNatToString | front/script.js:230 | The decimal text of a status parses back to the status |

## Left out

- The DOM, `marked`, `hljs`, CodeMirror, bootstrap modals and toasts, the clipboard, keyboard shortcuts and `setTimeout`. These are calls into libraries whose code is not part of this model. The model records *what* is shown: `screen`, the badge, the title and the toast list. It does not model the HTML strings.
- `togglePreviewMode`, `copyMarkdown`, `insertTemplate`, `clearEditor`, the previews and the editor placeholder (front/script.js:69-198, 509-517, 530-580, 593-595, 613-687). These are editor and DOM glue with no state the list logic reads. The `clearEditor` call in `addTodo` is therefore not modelled.
- `showLoading` (front/script.js:243, 475-484): `loadTodos` is one atomic method, and its spinner is always replaced before the method ends, so no state of the model shows it.
- `insertMarkdown` is modelled by the string it inserts (`Editor.MarkdownReplacement`). Reading the selection from the editor and replacing it are left out.
- Editor.WordCountZeroIff: the characters and line counts of `updateEditorStats` are left out, as is the number of words for non-blank text. The word count is stated only for the blank case. The `/\s+/` split is taken to count runs of non-white-space characters.
- Date formatting with `toLocaleDateString` is locale-dependent library behaviour. `createdAt` is carried as an opaque string on the client and as an integer time on the server.
- `fetch`, `async`/`await` and the race between rapid mutations. Each operation is atomic, and the reply is a parameter.
- The `/health` and `/` routes return constant messages and are not modelled.
- `front/config.js` and `front/config.production.js` only probe the network to choose a base URL, so they are not modelled.
- `saveEdit` reads the id with `parseInt` from a form field. The model takes the id as an integer, so the `NaN` case is not modelled.
- A non-string `detail` in an error body is not modelled: `detail` is a string or absent.
- SQLAlchemy sessions, `commit` and `refresh`, FastAPI dependency injection, middleware and uvicorn are framework plumbing and are not modelled.
- `updated_at` and the column defaults come from `models.py`, which is not part of this model. A new row is taken to start with `completed` false, and ids come from a counter.
- The table's storage order stands for the order of a query without `ORDER BY`.
- `skip` and `limit` are natural numbers. Negative values are passed to the database engine, whose behaviour is not modelled.
- The schemas (back/schemas.py:8-19) declare no `content`, yet back/crud.py:16 and 28 read it. `content` is kept as an optional field in each layer separately, and no lemma claims that it makes the round trip between client and server.
- Crud.TodoTable.CreateTodo: assumes a creation payload that carries `content`. As written, `TodoCreate` (back/schemas.py:8-10) declares only `title`, so reading `todo.content` at back/crud.py:16 raises `AttributeError` and every create ends in a server error. The model describes the create the CRUD code evidently intends.
- Crud.TodoTable.UpdateTodo: assumes an update payload that carries `content`. As written, `TodoUpdate` (back/schemas.py:12-13) has no such field, so back/crud.py:28 raises `AttributeError` on every update of an existing id, and the server answers with an error instead of the updated row. The same assumption underlies Api.UpdateTodo, Wire.ToggleFlipsOnlyCompletion and Wire.EditKeepsCompletion.
- Api.ParseBaseUrlRoundTrip: holds only when neither the protocol nor the port holds a colon. `main.py` does not check its environment values, so a colon there makes the URL ambiguous.

## Findings

| source | as written | input that shows it | evidently intended | confidence | as-written member | corrected member |
|---|---|---|---|---|---|---|
| front/script.js:282-305 | `toggleTodo` replaces the record and re-renders, but unlike `addTodo` (272-275) and `deleteTodo` (317-319) it never calls `updateTodoCount`, so the document title keeps the old pending count | one pending todo `{id: 1, completed: false}`; toggle it and the server answers with `completed: true`; the title stays "Advanced Todo (1) - 1 pending" | refresh the count after a successful toggle so the title says "0 pending" | high (not executed) | Client.StaleTitleAfterToggle | Client.TodoApp.ToggleTodoRecounting |

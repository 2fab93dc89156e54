/**
 * The browser client of front/script.js (`AdvancedTodoApp`): the ordered
 * list of todos it mirrors from the server, the filter and counts it derives
 * from that list, and the operations that change the list only after the
 * server has answered.
 *
 * Every asynchronous operation is one atomic step: the server's answer (an
 * `ApiReply`) and the user's answer to `confirm()` are parameters. What the
 * page shows is kept in fields: the rendered screen, the count badge, the
 * document title, the notifications shown so far and the requests sent so far.
 */
module Client {
  import opened Wrappers
  import opened Seqs
  import opened Text
  import opened Html
  import opened Editor

  /** A todo record as the server's JSON carries it. */
  datatype Todo = Todo(id: int, title: string, content: Option<string>, completed: bool, createdAt: string)

  predicate IsPending(t: Todo) { !t.completed }
  predicate IsCompleted(t: Todo) { t.completed }

  /** The id test of `find` and `findIndex`. */
  function HasId(id: int): Todo -> bool { (t: Todo) => t.id == id }

  /** The test `deleteTodo` filters with. */
  function LacksId(id: int): Todo -> bool { (t: Todo) => t.id != id }

  // ---------------------------------------------------------------------
  // The list operations, as functions of the old list

  /** `todos[findIndex(t => t.id === id)] = u` when some record has the id,
      the list unchanged otherwise: only the first match is replaced. */
  function ReplaceFirst(todos: seq<Todo>, id: int, u: Todo): (r: seq<Todo>)
    ensures |r| == |todos|
    ensures (forall j :: 0 <= j < |todos| ==> todos[j].id != id) ==> r == todos
    ensures forall j :: 0 <= j < |todos| && todos[j].id == id ==>
      (exists i :: 0 <= i <= j && r[i] == u && todos[i].id == id
         && (forall k :: 0 <= k < |todos| && k != i ==> r[k] == todos[k])
         && (forall k :: 0 <= k < i ==> todos[k].id != id))
  {
    var i := FirstIndex(todos, HasId(id));
    if i == -1 then todos
    else
      assert forall j :: 0 <= j < |todos| && todos[j].id == id ==> i <= j;
      todos[i := u]
  }

  /** `todos.filter(t => t.id !== id)`. */
  function RemoveId(todos: seq<Todo>, id: int): seq<Todo> {
    Filter(todos, LacksId(id))
  }

  /** Deleting removes every record with the id and keeps every other one;
      the removal distributes over concatenation, so the kept records stay in
      their relative order; an id no record has leaves the list as it was. */
  lemma RemoveIdSpec(todos: seq<Todo>, id: int)
    ensures forall t :: t in RemoveId(todos, id) <==> t in todos && t.id != id
    ensures forall a, b :: todos == a + b ==> RemoveId(todos, id) == RemoveId(a, id) + RemoveId(b, id)
    ensures (forall j :: 0 <= j < |todos| ==> todos[j].id != id) ==> RemoveId(todos, id) == todos
  {
    var r := RemoveId(todos, id);
    forall t | t in todos && t.id != id ensures t in r {
      var j :| 0 <= j < |todos| && todos[j] == t;
      assert LacksId(id)(todos[j]);
    }
    forall a, b | todos == a + b ensures r == RemoveId(a, id) + RemoveId(b, id) {
      FilterAppend(a, b, LacksId(id));
    }
    if forall j :: 0 <= j < |todos| ==> todos[j].id != id {
      FilterKeepsAll(todos, LacksId(id));
    }
  }

  // ---------------------------------------------------------------------
  // Filter, counts and rendering

  /** The filter of `renderTodos`: "pending" keeps the open records,
      "completed" the done ones, and any other mode keeps everything. */
  function FilterTodos(todos: seq<Todo>, filterMode: string): seq<Todo> {
    if filterMode == "pending" then Filter(todos, IsPending)
    else if filterMode == "completed" then Filter(todos, IsCompleted)
    else todos
  }

  /** Each mode keeps exactly the records it names, and filtering
      distributes over concatenation, so the order is kept. */
  lemma FilterTodosSelects(todos: seq<Todo>, filterMode: string)
    ensures filterMode == "pending" ==>
      forall t :: t in FilterTodos(todos, filterMode) <==> t in todos && !t.completed
    ensures filterMode == "completed" ==>
      forall t :: t in FilterTodos(todos, filterMode) <==> t in todos && t.completed
    ensures filterMode != "pending" && filterMode != "completed" ==> FilterTodos(todos, filterMode) == todos
    ensures forall a, b :: todos == a + b ==>
      FilterTodos(todos, filterMode) == FilterTodos(a, filterMode) + FilterTodos(b, filterMode)
  {
    var r := FilterTodos(todos, filterMode);
    if filterMode == "pending" || filterMode == "completed" {
      forall t | t in todos && (if filterMode == "pending" then !t.completed else t.completed)
        ensures t in r
      {
        var j :| 0 <= j < |todos| && todos[j] == t;
      }
    }
    forall a, b | todos == a + b
      ensures r == FilterTodos(a, filterMode) + FilterTodos(b, filterMode)
    {
      FilterAppend(a, b, IsPending);
      FilterAppend(a, b, IsCompleted);
    }
  }

  /** The figures of `updateTodoCount`. */
  datatype TodoCounts = TodoCounts(count: nat, completedCount: nat, pendingCount: nat)

  function Counts(todos: seq<Todo>): TodoCounts {
    var completed := |Filter(todos, IsCompleted)|;
    TodoCounts(|todos|, completed, |todos| - completed)
  }

  /** The pending count, computed as total minus completed, is the size of
      the "pending" view; the completed count is the size of the "completed"
      view; the total is the size of the "all" view. */
  lemma CountsAgreeWithFilters(todos: seq<Todo>)
    ensures Counts(todos).pendingCount == |FilterTodos(todos, "pending")|
    ensures Counts(todos).completedCount == |FilterTodos(todos, "completed")|
    ensures Counts(todos).count == |FilterTodos(todos, "all")|
  {
    FilterPartition(todos, IsCompleted, IsPending);
  }

  /** Replacing one record by one with the same completion flag keeps the
      counts. */
  lemma CountsAfterReplace(todos: seq<Todo>, i: nat, u: Todo)
    requires i < |todos| && u.completed == todos[i].completed
    ensures Counts(todos[i := u]) == Counts(todos)
  {
    var after := todos[i := u];
    assert todos == todos[..i] + [todos[i]] + todos[i + 1..];
    assert after == todos[..i] + [u] + todos[i + 1..];
    FilterAppend(todos[..i] + [todos[i]], todos[i + 1..], IsCompleted);
    FilterAppend(todos[..i], [todos[i]], IsCompleted);
    FilterAppend(todos[..i] + [u], todos[i + 1..], IsCompleted);
    FilterAppend(todos[..i], [u], IsCompleted);
    FilterSingle(u, IsCompleted);
    FilterSingle(todos[i], IsCompleted);
  }

  /** `document.title` as `updateTodoCount` sets it. */
  function PageTitle(c: TodoCounts): string {
    "Advanced Todo (" + NatToString(c.count) + ")"
    + (if c.count > 0 then " - " + NatToString(c.pendingCount) + " pending" else "")
  }

  /** One rendered todo: the escaped title, whether a markdown section is
      shown (`todo.content` is truthy), the status class and the label of the
      toggle button. */
  datatype ItemView = ItemView(id: int, titleHtml: string, showsContent: bool, statusClass: string, toggleLabel: string)

  function RenderItem(t: Todo): ItemView {
    ItemView(t.id, EscapeHtml(t.title), t.content.Some? && t.content.value != "",
             if t.completed then "completed" else "pending",
             if t.completed then "Undo" else "Complete")
  }

  /** What the todos container shows. */
  datatype Screen =
    | EmptyState(error: Option<string>)
    | Listing(layout: string, items: seq<ItemView>)

  const LoadFailedMessage := "Failed to load todos. Please check your connection."

  /** `renderTodos`: the empty state when the filter keeps nothing, the kept
      records in a list or card layout otherwise. */
  function RenderTodos(todos: seq<Todo>, filterMode: string, viewMode: string): Screen {
    var shown := FilterTodos(todos, filterMode);
    if shown == [] then EmptyState(None)
    else Listing(if viewMode == "list" then "list-view" else "card-view",
                 seq(|shown|, i requires 0 <= i < |shown| => RenderItem(shown[i])))
  }

  /** The screen is the plain empty state exactly when the filter keeps
      nothing; otherwise it holds one item per kept record, in order, whose
      title is escaped (no tag can open, and decoding gives the title back),
      which shows a markdown section exactly when the record has non-empty
      content, and whose status class and toggle label follow its flag. */
  lemma RenderTodosShows(todos: seq<Todo>, filterMode: string, viewMode: string)
    ensures var v := RenderTodos(todos, filterMode, viewMode);
      var shown := FilterTodos(todos, filterMode);
      && (v == EmptyState(None) <==> shown == [])
      && (v.Listing? <==> shown != [])
      && (v.Listing? ==>
            && v.layout == (if viewMode == "list" then "list-view" else "card-view")
            && |v.items| == |shown|
            && forall i :: 0 <= i < |shown| ==>
                 && v.items[i].id == shown[i].id
                 && '<' !in v.items[i].titleHtml && '>' !in v.items[i].titleHtml
                 && Unescape(v.items[i].titleHtml) == shown[i].title
                 && (v.items[i].showsContent <==> shown[i].content.Some? && shown[i].content.value != "")
                 && v.items[i].statusClass == (if shown[i].completed then "completed" else "pending")
                 && v.items[i].toggleLabel == (if shown[i].completed then "Undo" else "Complete"))
  {
    var shown := FilterTodos(todos, filterMode);
    forall i | 0 <= i < |shown|
      ensures '<' !in EscapeHtml(shown[i].title) && '>' !in EscapeHtml(shown[i].title)
      ensures Unescape(EscapeHtml(shown[i].title)) == shown[i].title
    {
      EscapeHtmlIsInert(shown[i].title);
      UnescapeEscapeHtml(shown[i].title);
    }
  }

  // ---------------------------------------------------------------------
  // Requests, replies and notifications

  /** A request the client sends; `None` stands for a JSON `null` or a
      missing field. */
  datatype Request =
    | ListRequest
    | CreateRequest(title: string, content: Option<string>)
    | UpdateRequest(id: int, newTitle: Option<string>, newContent: Option<string>, newCompleted: Option<bool>)
    | DeleteRequest(id: int)

  /** What `apiCall` gets back: a parsed success body, an HTTP status that is
      not a success with the `detail` field of the error body if it had one,
      or a failure to reach the server or to parse its answer. */
  datatype ApiReply<T> =
    | Ok(value: T)
    | HttpFailure(status: nat, detail: Option<string>)
    | NetworkFailure(message: string)

  datatype ToastKind = Info | Success | Warning | Error
  datatype Toast = Toast(message: string, kind: ToastKind)

  const StatusPrefix := "HTTP error! status: "

  /** The message of the error `apiCall` throws: the server's `detail` when it
      is a non-empty string, the status line otherwise. */
  function ApiErrorMessage<T>(reply: ApiReply<T>): string
    requires !reply.Ok?
  {
    match reply
    case HttpFailure(status, detail) =>
      if detail.Some? && detail.value != "" then detail.value
      else StatusPrefix + NatToString(status)
    case NetworkFailure(message) => message
  }

  /** A non-empty `detail` is the message; without one, the message is the
      status line, from which the status can be read back. */
  lemma ApiErrorMessageChoice<T>(reply: ApiReply<T>)
    requires reply.HttpFailure?
    ensures reply.detail.Some? && reply.detail.value != "" ==> ApiErrorMessage(reply) == reply.detail.value
    ensures reply.detail.None? || reply.detail.value == "" ==>
      var m := ApiErrorMessage(reply);
      && |m| > |StatusPrefix| && m[..|StatusPrefix|] == StatusPrefix
      && (forall i :: |StatusPrefix| <= i < |m| ==> IsDigit(m[i]))
      && ParseNat(m[|StatusPrefix|..]) == reply.status
  {
    if reply.detail.None? || reply.detail.value == "" {
      var d := NatToString(reply.status);
      var m := StatusPrefix + d;
      assert m[|StatusPrefix|..] == d;
      assert forall i :: |StatusPrefix| <= i < |m| ==> m[i] == d[i - |StatusPrefix|];
      ParseNatToString(reply.status);
    }
  }

  /** The notification `apiCall` shows for every failure. */
  function ApiErrorToast<T>(reply: ApiReply<T>): Toast
    requires !reply.Ok?
  {
    Toast("API Error: " + ApiErrorMessage(reply), Error)
  }

  const TitleRequired := Toast("Please enter a todo title", Warning)

  /** `content || null` after trimming: blank content is sent as null. */
  function OptionalContent(trimmed: string): Option<string> {
    if trimmed == "" then None else Some(trimmed)
  }

  /** The fields `openEditModal` fills in. */
  datatype EditForm = EditForm(id: int, title: string, content: string)

  // ---------------------------------------------------------------------
  // The application object

  class TodoApp {
    var todos: seq<Todo>
    var viewMode: string
    var filterMode: string
    var currentEditId: Option<int>
    var currentTheme: string
    var screen: Screen
    var countBadge: string
    var pageTitle: string
    var toasts: seq<Toast>
    var requests: seq<Request>

    /** The count badge and the document title agree with the list. */
    predicate CountShown()
      reads this
    {
      countBadge == NatToString(|todos|) && pageTitle == PageTitle(Counts(todos))
    }

    /** The constructor together with `initializeApp`: initial modes, the
        first load of the list, and the count update that follows it whether
        or not the load succeeded. */
    constructor (reply: ApiReply<seq<Todo>>)
      ensures viewMode == "card" && filterMode == "all"
      ensures currentEditId == None && currentTheme == "default"
      ensures requests == [ListRequest]
      ensures reply.Ok? ==> todos == reply.value && screen == RenderTodos(todos, "all", "card") && toasts == []
      ensures !reply.Ok? ==> todos == [] && screen == EmptyState(Some(LoadFailedMessage))
                             && toasts == [ApiErrorToast(reply)]
      ensures CountShown()
    {
      viewMode, filterMode := "card", "all";
      currentEditId, currentTheme := None, "default";
      requests := [ListRequest];
      var loaded := if reply.Ok? then reply.value else [];
      todos := loaded;
      if reply.Ok? {
        screen := RenderTodos(loaded, "all", "card");
        toasts := [];
      } else {
        screen := EmptyState(Some(LoadFailedMessage));
        toasts := [ApiErrorToast(reply)];
      }
      countBadge := NatToString(|loaded|);
      pageTitle := PageTitle(Counts(loaded));
    }

    /** `updateTodoCount`. */
    method UpdateTodoCount()
      modifies this`countBadge, this`pageTitle
      ensures CountShown()
    {
      countBadge := NatToString(|todos|);
      pageTitle := PageTitle(Counts(todos));
    }

    /** The view-mode radio buttons. */
    method SetViewMode(mode: string)
      modifies this`viewMode, this`screen
      ensures viewMode == mode && screen == RenderTodos(todos, filterMode, mode)
    {
      viewMode := mode;
      screen := RenderTodos(todos, filterMode, viewMode);
    }

    /** The filter radio buttons. */
    method SetFilterMode(mode: string)
      modifies this`filterMode, this`screen
      ensures filterMode == mode && screen == RenderTodos(todos, mode, viewMode)
    {
      filterMode := mode;
      screen := RenderTodos(todos, filterMode, viewMode);
    }

    /** `loadTodos`: the server's list replaces the local one wholesale; on
        failure the list is kept and the screen shows the error state. */
    method LoadTodos(reply: ApiReply<seq<Todo>>)
      modifies this`todos, this`screen, this`countBadge, this`pageTitle, this`toasts, this`requests
      ensures requests == old(requests) + [ListRequest]
      ensures reply.Ok? ==> todos == reply.value && screen == RenderTodos(todos, filterMode, viewMode)
                            && toasts == old(toasts) && CountShown()
      ensures !reply.Ok? ==> todos == old(todos) && screen == EmptyState(Some(LoadFailedMessage))
                             && toasts == old(toasts) + [ApiErrorToast(reply)]
                             && countBadge == old(countBadge) && pageTitle == old(pageTitle)
    {
      requests := requests + [ListRequest];
      if reply.Ok? {
        todos := reply.value;
        screen := RenderTodos(todos, filterMode, viewMode);
        UpdateTodoCount();
      } else {
        toasts := toasts + [ApiErrorToast(reply)];
        screen := EmptyState(Some(LoadFailedMessage));
      }
    }

    /** `addTodo`: a title that is blank after trimming sends nothing and
        changes nothing but the warning; otherwise the creation is sent, and
        the server's record goes to the head of the list. */
    method AddTodo(titleInput: string, editorText: string, reply: ApiReply<Todo>)
      modifies this`todos, this`screen, this`countBadge, this`pageTitle, this`toasts, this`requests
      ensures Trim(titleInput, IsJsSpace) == "" ==>
        && todos == old(todos) && screen == old(screen) && requests == old(requests)
        && toasts == old(toasts) + [TitleRequired]
        && countBadge == old(countBadge) && pageTitle == old(pageTitle)
      ensures Trim(titleInput, IsJsSpace) != "" ==>
        requests == old(requests) + [CreateRequest(Trim(titleInput, IsJsSpace), OptionalContent(Trim(editorText, IsJsSpace)))]
      ensures Trim(titleInput, IsJsSpace) != "" && reply.Ok? ==>
        && todos == [reply.value] + old(todos)
        && screen == RenderTodos(todos, filterMode, viewMode) && CountShown()
        && toasts == old(toasts) + [Toast("Creating todo...", Info)] + [Toast("Todo created successfully!", Success)]
      ensures Trim(titleInput, IsJsSpace) != "" && !reply.Ok? ==>
        && todos == old(todos) && screen == old(screen)
        && countBadge == old(countBadge) && pageTitle == old(pageTitle)
        && toasts == old(toasts) + [Toast("Creating todo...", Info)] + [ApiErrorToast(reply), Toast("Failed to create todo", Error)]
    {
      var title := Trim(titleInput, IsJsSpace);
      var content := Trim(editorText, IsJsSpace);
      if title == "" {
        toasts := toasts + [TitleRequired];
        return;
      }
      toasts := toasts + [Toast("Creating todo...", Info)];
      requests := requests + [CreateRequest(title, OptionalContent(content))];
      if reply.Ok? {
        todos := [reply.value] + todos;
        UpdateTodoCount();
        toasts := toasts + [Toast("Todo created successfully!", Success)];
        screen := RenderTodos(todos, filterMode, viewMode);
      } else {
        toasts := toasts + [ApiErrorToast(reply), Toast("Failed to create todo", Error)];
      }
    }

    /** `toggleTodo`: an id not in the list does nothing; otherwise the
        negated flag of the first record with the id is sent, and the server's
        record replaces that one in place. The count badge and the document
        title are not refreshed. */
    method ToggleTodo(id: int, reply: ApiReply<Todo>)
      modifies this`todos, this`screen, this`toasts, this`requests
      ensures var i := FirstIndex(old(todos), HasId(id));
        && (i == -1 ==>
              todos == old(todos) && screen == old(screen) && toasts == old(toasts) && requests == old(requests))
        && (i != -1 ==>
              requests == old(requests) + [UpdateRequest(id, None, None, Some(!old(todos)[i].completed))])
        && (i != -1 && reply.Ok? ==>
              && todos == old(todos)[i := reply.value]
              && screen == RenderTodos(todos, filterMode, viewMode)
              && toasts == old(toasts) + [Toast(if reply.value.completed then "Todo completed!" else "Todo marked as pending!", Success)])
        && (i != -1 && !reply.Ok? ==>
              && todos == old(todos) && screen == old(screen)
              && toasts == old(toasts) + [ApiErrorToast(reply), Toast("Failed to update todo", Error)])
    {
      var i := FirstIndex(todos, HasId(id));
      if i == -1 {
        return;
      }
      requests := requests + [UpdateRequest(id, None, None, Some(!todos[i].completed))];
      if reply.Ok? {
        todos := todos[i := reply.value];
        screen := RenderTodos(todos, filterMode, viewMode);
        toasts := toasts + [Toast(if reply.value.completed then "Todo completed!" else "Todo marked as pending!", Success)];
      } else {
        toasts := toasts + [ApiErrorToast(reply), Toast("Failed to update todo", Error)];
      }
    }

    /** `toggleTodo` followed, on success, by `updateTodoCount`, as `addTodo`
        and `deleteTodo` do: the count badge and the title stay in step with
        the list. */
    method ToggleTodoRecounting(id: int, reply: ApiReply<Todo>)
      modifies this`todos, this`screen, this`countBadge, this`pageTitle, this`toasts, this`requests
      ensures todos == (if reply.Ok? then ReplaceFirst(old(todos), id, reply.value) else old(todos))
      ensures old(CountShown()) ==> CountShown()
      ensures var i := FirstIndex(old(todos), HasId(id));
        && (i == -1 ==>
              && screen == old(screen) && toasts == old(toasts) && requests == old(requests)
              && countBadge == old(countBadge) && pageTitle == old(pageTitle))
        && (i != -1 ==>
              requests == old(requests) + [UpdateRequest(id, None, None, Some(!old(todos)[i].completed))])
        && (i != -1 && reply.Ok? ==>
              && screen == RenderTodos(todos, filterMode, viewMode) && CountShown()
              && toasts == old(toasts) + [Toast(if reply.value.completed then "Todo completed!" else "Todo marked as pending!", Success)])
        && (i != -1 && !reply.Ok? ==>
              && screen == old(screen) && countBadge == old(countBadge) && pageTitle == old(pageTitle)
              && toasts == old(toasts) + [ApiErrorToast(reply), Toast("Failed to update todo", Error)])
    {
      var found := FirstIndex(todos, HasId(id)) != -1;
      ToggleTodo(id, reply);
      if found && reply.Ok? {
        UpdateTodoCount();
      }
    }

    /** `deleteTodo`: declined at the confirmation, nothing happens; otherwise
        the deletion is sent, and on success every record with the id leaves
        the list. */
    method DeleteTodo(id: int, confirmed: bool, reply: ApiReply<()>)
      modifies this`todos, this`screen, this`countBadge, this`pageTitle, this`toasts, this`requests
      ensures !confirmed ==>
        && todos == old(todos) && screen == old(screen) && toasts == old(toasts) && requests == old(requests)
        && countBadge == old(countBadge) && pageTitle == old(pageTitle)
      ensures confirmed ==> requests == old(requests) + [DeleteRequest(id)]
      ensures confirmed && reply.Ok? ==>
        && todos == RemoveId(old(todos), id)
        && screen == RenderTodos(todos, filterMode, viewMode) && CountShown()
        && toasts == old(toasts) + [Toast("Todo deleted successfully!", Success)]
      ensures confirmed && !reply.Ok? ==>
        && todos == old(todos) && screen == old(screen)
        && countBadge == old(countBadge) && pageTitle == old(pageTitle)
        && toasts == old(toasts) + [ApiErrorToast(reply), Toast("Failed to delete todo", Error)]
    {
      if !confirmed {
        return;
      }
      requests := requests + [DeleteRequest(id)];
      if reply.Ok? {
        todos := RemoveId(todos, id);
        UpdateTodoCount();
        toasts := toasts + [Toast("Todo deleted successfully!", Success)];
        screen := RenderTodos(todos, filterMode, viewMode);
      } else {
        toasts := toasts + [ApiErrorToast(reply), Toast("Failed to delete todo", Error)];
      }
    }

    /** `openEditModal`: for a known id, remembers it and fills the form with
        the record's title and content (empty when absent). */
    method OpenEditModal(id: int) returns (form: Option<EditForm>)
      modifies this`currentEditId
      ensures var i := FirstIndex(todos, HasId(id));
        && (i == -1 ==> form == None && currentEditId == old(currentEditId))
        && (i != -1 ==> form == Some(EditForm(id, todos[i].title, todos[i].content.GetOr("")))
                        && currentEditId == Some(id))
    {
      var i := FirstIndex(todos, HasId(id));
      if i == -1 {
        return None;
      }
      currentEditId := Some(id);
      form := Some(EditForm(id, todos[i].title, todos[i].content.GetOr("")));
    }

    /** `saveEdit`: the same blank-title rule as `addTodo`; otherwise the new
        title and content are sent, and the server's record replaces the first
        record with the id, if any. The editor's text is `None` when the edit
        editor was never created. */
    method SaveEdit(id: int, titleInput: string, editorText: Option<string>, reply: ApiReply<Todo>)
      modifies this`todos, this`screen, this`toasts, this`requests
      ensures var title := Trim(titleInput, IsJsSpace);
        var content := if editorText.Some? then Trim(editorText.value, IsJsSpace) else "";
        && (title == "" ==>
              && todos == old(todos) && screen == old(screen) && requests == old(requests)
              && toasts == old(toasts) + [TitleRequired])
        && (title != "" ==>
              requests == old(requests) + [UpdateRequest(id, Some(title), OptionalContent(content), None)])
        && (title != "" && reply.Ok? ==>
              && todos == ReplaceFirst(old(todos), id, reply.value)
              && screen == RenderTodos(todos, filterMode, viewMode)
              && toasts == old(toasts) + [Toast("Todo updated successfully!", Success)])
        && (title != "" && !reply.Ok? ==>
              && todos == old(todos) && screen == old(screen)
              && toasts == old(toasts) + [ApiErrorToast(reply), Toast("Failed to update todo", Error)])
    {
      var title := Trim(titleInput, IsJsSpace);
      var content := if editorText.Some? then Trim(editorText.value, IsJsSpace) else "";
      if title == "" {
        toasts := toasts + [TitleRequired];
        return;
      }
      requests := requests + [UpdateRequest(id, Some(title), OptionalContent(content), None)];
      if reply.Ok? {
        var i := FirstIndex(todos, HasId(id));
        if i != -1 {
          todos := todos[i := reply.value];
        }
        screen := RenderTodos(todos, filterMode, viewMode);
        toasts := toasts + [Toast("Todo updated successfully!", Success)];
      } else {
        toasts := toasts + [ApiErrorToast(reply), Toast("Failed to update todo", Error)];
      }
    }

    /** `toggleEditorTheme`: the next theme of the cycle, announced. */
    method ToggleEditorTheme()
      modifies this`currentTheme, this`toasts
      ensures currentTheme == NextTheme(old(currentTheme)) && currentTheme in Themes
      ensures toasts == old(toasts) + [Toast("Theme changed to " + currentTheme, Info)]
    {
      NextThemeInThemes(currentTheme);
      currentTheme := NextTheme(currentTheme);
      toasts := toasts + [Toast("Theme changed to " + currentTheme, Info)];
    }
  }

  /** The counts of a one-todo list. */
  lemma CountsOfOne(t: Todo)
    ensures Counts([t]) == if t.completed then TodoCounts(1, 1, 0) else TodoCounts(1, 0, 1)
  {
    FilterSingle(t, IsCompleted);
  }

  /** The title for one todo, pending and done. */
  lemma TitleOfOne(t: Todo)
    ensures !t.completed ==> PageTitle(Counts([t])) == "Advanced Todo (1) - 1 pending"
    ensures t.completed ==> PageTitle(Counts([t])) == "Advanced Todo (1) - 0 pending"
  {
    CountsOfOne(t);
    assert NatToString(1) == "1" && NatToString(0) == "0";
  }

  /** As written, toggling the only pending todo leaves the document title
      saying one todo is pending: the list shows it done, the title does not. */
  method StaleTitleAfterToggle() returns (app: TodoApp)
    ensures |app.todos| == 1 && app.todos[0].completed
    ensures app.pageTitle == "Advanced Todo (1) - 1 pending"
    ensures PageTitle(Counts(app.todos)) == "Advanced Todo (1) - 0 pending"
    ensures !app.CountShown()
  {
    var t := Todo(1, "a", None, false, "");
    var done := t.(completed := true);
    TitleOfOne(t);
    TitleOfOne(done);
    app := new TodoApp(Ok([t]));
    app.ToggleTodo(1, Ok(done));
    assert app.todos == [done];
  }
}

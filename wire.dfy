/**
 * Where the client of front/script.js meets the server of back/main.py and
 * back/crud.py: the update requests the client sends, read by the server's
 * partial-update merge, and the server's 404 detail as the client reports it.
 */
module Wire {
  import opened Wrappers
  import Seqs
  import Client
  import Crud
  import Api

  /** The JSON body of an update request as a partial update whose absent
      fields are `None`. The server's declared update schema has no `content`
      field, so this reading of `content` is the one back/crud.py:28
      expects, not the one the schema gives. */
  function UpdateBody(r: Client.Request): Crud.TodoUpdate
    requires r.UpdateRequest?
  {
    Crud.TodoUpdate(r.newTitle, r.newContent, r.newCompleted)
  }

  /** The toggle request built from the client's copy of a row flips that
      row's completion and changes nothing else about it. */
  lemma ToggleFlipsOnlyCompletion(row: Crud.Row)
    ensures Crud.Merge(row, UpdateBody(Client.UpdateRequest(row.id, None, None, Some(!row.completed))))
            == row.(completed := !row.completed)
  {
    Crud.MergeSpec(row, UpdateBody(Client.UpdateRequest(row.id, None, None, Some(!row.completed))));
  }

  /** The edit request replaces the title and keeps the completion flag, the
      id and the creation time. */
  lemma EditKeepsCompletion(row: Crud.Row, title: string, content: Option<string>)
    ensures var r := Crud.Merge(row, UpdateBody(Client.UpdateRequest(row.id, Some(title), content, None)));
      r.title == title && r.completed == row.completed && r.id == row.id && r.createdAt == row.createdAt
  {
    Crud.MergeSpec(row, UpdateBody(Client.UpdateRequest(row.id, Some(title), content, None)));
  }

  /** Why `saveEdit` may skip `updateTodoCount`: the server answers an edit
      with its row merged with the edit body, which keeps the completion flag,
      so putting that answer in place of the client's copy (which agrees with
      the server on the flag) leaves the counts as they were. */
  lemma EditKeepsCounts(todos: seq<Client.Todo>, row: Crud.Row, title: string, content: Option<string>, answer: Client.Todo)
    requires var i := Seqs.FirstIndex(todos, Client.HasId(row.id));
      i != -1 ==> todos[i].completed == row.completed
    requires answer.completed
             == Crud.Merge(row, UpdateBody(Client.UpdateRequest(row.id, Some(title), content, None))).completed
    ensures Client.Counts(Client.ReplaceFirst(todos, row.id, answer)) == Client.Counts(todos)
  {
    var i := Seqs.FirstIndex(todos, Client.HasId(row.id));
    if i != -1 {
      EditKeepsCompletion(row, title, content);
      Client.CountsAfterReplace(todos, i, answer);
    }
  }

  /** The server's 404 reaches the user as "API Error: Todo not found". */
  lemma NotFoundAsShown<T>(reply: Client.ApiReply<T>)
    requires reply == Client.HttpFailure(404, Some(Api.NotFoundDetail))
    ensures Client.ApiErrorToast(reply)
            == Client.Toast("API Error: Todo not found", Client.Error)
  {
  }
}

/**
 * The data access layer of back/crud.py over the todos table. The database
 * session is a `TodoTable` object whose `rows` are the table in its storage
 * order; `nextId` stands for the primary-key sequence.
 */
module Crud {
  import opened Wrappers
  import opened Seqs

  /** A row of the todos table. `createdAt` is the time the database
      stamped at insertion. */
  datatype Row = Row(id: int, title: string, content: Option<string>, completed: bool, createdAt: int)

  /** The creation payload. */
  datatype TodoCreate = TodoCreate(title: string, content: Option<string>)

  /** The partial-update payload: `None` leaves a field as it is. */
  datatype TodoUpdate = TodoUpdate(title: Option<string>, content: Option<string>, completed: Option<bool>)

  /** The field assignments of `update_todo` applied to one row. */
  function Merge(row: Row, upd: TodoUpdate): Row {
    var title := if upd.title.Some? then upd.title.value else row.title;
    var content := if upd.content.Some? then upd.content else row.content;
    var completed := if upd.completed.Some? then upd.completed.value else row.completed;
    row.(title := title, content := content, completed := completed)
  }

  /** A field is overwritten exactly when the update carries a value for it;
      the id and the creation time never change. Applying the same update
      twice is the same as once, and an empty update changes nothing. */
  lemma MergeSpec(row: Row, upd: TodoUpdate)
    ensures var r := Merge(row, upd);
      && r.id == row.id && r.createdAt == row.createdAt
      && (upd.title.Some? ==> r.title == upd.title.value) && (upd.title.None? ==> r.title == row.title)
      && (upd.content.Some? ==> r.content == upd.content) && (upd.content.None? ==> r.content == row.content)
      && (upd.completed.Some? ==> r.completed == upd.completed.value)
      && (upd.completed.None? ==> r.completed == row.completed)
      && Merge(r, upd) == r
    ensures Merge(row, TodoUpdate(None, None, None)) == row
  {
  }

  function RowHasId(id: int): Row -> bool { (r: Row) => r.id == id }
  function RowLacksId(id: int): Row -> bool { (r: Row) => r.id != id }

  predicate HasIdIn(rows: seq<Row>, id: int) {
    exists i :: 0 <= i < |rows| && rows[i].id == id
  }

  /** `filter(models.Todo.id == todo_id).first()`. */
  function FindRow(rows: seq<Row>, id: int): (r: Option<Row>)
    ensures r.None? <==> !HasIdIn(rows, id)
    ensures r.Some? ==> r.value.id == id && r.value in rows
  {
    var i := FirstIndex(rows, RowHasId(id));
    if i == -1 then None else Some(rows[i])
  }

  /** `offset(skip).limit(limit)`: at most `limit` rows, starting at
      position `skip`, in table order. */
  function Page(rows: seq<Row>, skip: nat, limit: nat): (page: seq<Row>)
    ensures |page| == if skip >= |rows| then 0 else if |rows| - skip < limit then |rows| - skip else limit
    ensures forall i :: 0 <= i < |page| ==> page[i] == rows[skip + i]
  {
    if skip >= |rows| then []
    else if |rows| - skip < limit then rows[skip..]
    else rows[skip..skip + limit]
  }

  /** When no later row shares the id, removing the first row with the id
      is removing every row with the id. */
  lemma {:induction false} RemoveFirstIsFilter(rows: seq<Row>, i: nat, id: int)
    requires i < |rows| && rows[i].id == id
    requires forall j :: 0 <= j < i ==> rows[j].id != id
    requires forall j :: i < j < |rows| ==> rows[j].id != id
    ensures rows[..i] + rows[i + 1..] == Filter(rows, RowLacksId(id))
  {
    var p := RowLacksId(id);
    var before, after := rows[..i], rows[i + 1..];
    assert forall j :: 0 <= j < |before| ==> p(before[j]) by {
      forall j | 0 <= j < |before| ensures p(before[j]) {
        assert before[j] == rows[j];
      }
    }
    assert forall j :: 0 <= j < |after| ==> p(after[j]) by {
      forall j | 0 <= j < |after| ensures p(after[j]) {
        assert after[j] == rows[i + 1 + j];
      }
    }
    FilterKeepsAll(before, p);
    FilterKeepsAll(after, p);
    FilterDropsOne(rows, i, p);
  }

  /** Every id is positive and below `nextId`, and no two rows share one. */
  ghost predicate KeysValid(rows: seq<Row>, nextId: int) {
    && nextId >= 1
    && (forall i :: 0 <= i < |rows| ==> 1 <= rows[i].id < nextId)
    && (forall i, j :: 0 <= i < j < |rows| ==> rows[i].id != rows[j].id)
  }

  /** Removing a row keeps the keys valid and leaves every other row. */
  lemma RemoveAtKeepsKeys(rows: seq<Row>, i: nat, nextId: int)
    requires KeysValid(rows, nextId) && i < |rows|
    ensures var kept := rows[..i] + rows[i + 1..];
      && KeysValid(kept, nextId) && |kept| == |rows| - 1
      && forall j :: i < j < |rows| ==> rows[j].id != rows[i].id
  {
    var kept := rows[..i] + rows[i + 1..];
    assert forall j :: 0 <= j < |kept| ==> kept[j] == rows[if j < i then j else j + 1];
  }

  class TodoTable {
    var rows: seq<Row>
    var nextId: int

    /** Ids are positive, below `nextId`, and unique (the primary key). */
    ghost predicate Valid()
      reads this
    {
      KeysValid(rows, nextId)
    }

    constructor ()
      ensures Valid() && rows == [] && nextId == 1
    {
      rows, nextId := [], 1;
    }

    /** `get_todos`. */
    method GetTodos(skip: nat, limit: nat) returns (page: seq<Row>)
      ensures |page| <= limit
      ensures |page| == if skip >= |rows| then 0 else if |rows| - skip < limit then |rows| - skip else limit
      ensures forall i :: 0 <= i < |page| ==> page[i] == rows[skip + i]
    {
      page := Page(rows, skip, limit);
    }

    /** `get_todo`: the row with the id, or `None`. */
    method GetTodo(todoId: int) returns (found: Option<Row>)
      ensures found.None? <==> !HasIdIn(rows, todoId)
      ensures found.Some? ==> found.value.id == todoId && found.value in rows
    {
      found := FindRow(rows, todoId);
    }

    /** `create_todo`: one new row with a fresh id, the given title and
        content, not completed, stamped `now`; returned as stored. */
    method CreateTodo(todo: TodoCreate, now: int) returns (row: Row)
      requires Valid()
      modifies this
      ensures Valid()
      ensures row == Row(old(nextId), todo.title, todo.content, false, now)
      ensures !HasIdIn(old(rows), row.id)
      ensures rows == old(rows) + [row] && nextId == old(nextId) + 1
    {
      row := Row(nextId, todo.title, todo.content, false, now);
      rows := rows + [row];
      nextId := nextId + 1;
    }

    /** `update_todo`: a missing id gives `None` and changes nothing;
        otherwise the row with the id gets the update's non-`None` fields and
        is returned, and every other row is left as it was. */
    method UpdateTodo(todoId: int, upd: TodoUpdate) returns (updated: Option<Row>)
      requires Valid()
      modifies this`rows
      ensures Valid()
      ensures updated.None? <==> !HasIdIn(old(rows), todoId)
      ensures updated.None? ==> rows == old(rows)
      ensures updated.Some? ==>
        exists i :: 0 <= i < |old(rows)| && old(rows)[i].id == todoId
          && updated.value == Merge(old(rows)[i], upd) && rows == old(rows)[i := updated.value]
      ensures |rows| == |old(rows)|
      ensures forall j :: 0 <= j < |rows| && old(rows)[j].id != todoId ==> rows[j] == old(rows)[j]
    {
      var i := FirstIndex(rows, RowHasId(todoId));
      if i == -1 {
        return None;
      }
      var merged := Merge(rows[i], upd);
      rows := rows[i := merged];
      updated := Some(merged);
    }

    /** `delete_todo`: `true` and the row removed when the id exists,
        `false` and nothing changed otherwise. */
    method DeleteTodo(todoId: int) returns (deleted: bool)
      requires Valid()
      modifies this`rows
      ensures Valid()
      ensures deleted <==> HasIdIn(old(rows), todoId)
      ensures rows == Filter(old(rows), RowLacksId(todoId))
      ensures !deleted ==> rows == old(rows)
      ensures deleted ==> |rows| == |old(rows)| - 1
    {
      var i := FirstIndex(rows, RowHasId(todoId));
      if i == -1 {
        FilterKeepsAll(rows, RowLacksId(todoId));
        return false;
      }
      RemoveAtKeepsKeys(rows, i, nextId);
      RemoveFirstIsFilter(rows, i, todoId);
      rows := rows[..i] + rows[i + 1..];
      deleted := true;
    }
  }
}

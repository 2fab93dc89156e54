/**
 * The pure parts of back/main.py: the CORS origin list read from the
 * environment, the `/config` document, and the handlers that turn a missing
 * record into a 404. Environment variables are parameters: `None` is an
 * unset variable.
 */
module Api {
  import opened Wrappers
  import opened Seqs
  import opened Text
  import Crud

  // CORS origins

  /** The origins allowed when `CORS_ORIGINS` is unset or empty. */
  const DefaultOrigins: seq<string> := [
    "http://localhost:3000",
    "http://127.0.0.1:3000",
    "http://localhost:8080",
    "http://127.0.0.1:8080"
  ]

  /** Python's `str.strip()` with no argument. */
  function Strip(s: string): string {
    Trim(s, IsPySpace)
  }

  function Stripped(pieces: seq<string>): seq<string> {
    seq(|pieces|, i requires 0 <= i < |pieces| => Strip(pieces[i]))
  }

  function IsNonEmpty(s: string): bool { s != "" }

  /** `[origin.strip() for origin in value.split(",") if origin.strip()]`. */
  function EnvOrigins(value: string): seq<string> {
    Filter(Stripped(Split(value, ',')), IsNonEmpty)
  }

  /** The origin list built from `CORS_ORIGINS`, whose default is "". */
  function CorsOrigins(env: Option<string>): seq<string> {
    var value := env.GetOr("");
    if value != "" then EnvOrigins(value) else DefaultOrigins
  }

  /** An unset or empty variable gives exactly the four defaults. */
  lemma CorsOriginsDefault(env: Option<string>)
    requires env.None? || env.value == ""
    ensures CorsOrigins(env) == DefaultOrigins
  {
  }

  /** Every origin read from the variable is non-empty, holds no comma and
      has no surrounding white space. */
  lemma EnvOriginsClean(value: string)
    ensures var origins := EnvOrigins(value);
      forall i :: 0 <= i < |origins| ==>
        && origins[i] != "" && ',' !in origins[i]
        && !IsPySpace(origins[i][0]) && !IsPySpace(origins[i][|origins[i]| - 1])
  {
    var pieces := Split(value, ',');
    var stripped := Stripped(pieces);
    var origins := EnvOrigins(value);
    forall i | 0 <= i < |origins|
      ensures ',' !in origins[i] && !IsPySpace(origins[i][0]) && !IsPySpace(origins[i][|origins[i]| - 1])
    {
      assert origins[i] in stripped;
      var k :| 0 <= k < |stripped| && stripped[k] == origins[i];
      TrimKeepsOut(pieces[k], IsPySpace, ',');
    }
  }

  /** No piece that is not blank is lost: its stripped form is allowed. */
  lemma EnvOriginsComplete(value: string)
    ensures var pieces := Split(value, ',');
      forall k :: 0 <= k < |pieces| && Strip(pieces[k]) != "" ==> Strip(pieces[k]) in EnvOrigins(value)
  {
    var pieces := Split(value, ',');
    var stripped := Stripped(pieces);
    forall k | 0 <= k < |pieces| && Strip(pieces[k]) != ""
      ensures Strip(pieces[k]) in EnvOrigins(value)
    {
      assert stripped[k] == Strip(pieces[k]);
    }
  }

  /** A value with no comma gives its stripped self, or nothing when it is
      blank. */
  lemma EnvOriginsOnePiece(value: string)
    requires ',' !in value
    ensures EnvOrigins(value) == if Strip(value) == "" then [] else [Strip(value)]
  {
    SplitWithoutSep(value, ',');
    assert Stripped([value]) == [Strip(value)];
    FilterSingle(Strip(value), IsNonEmpty);
  }

  /** The origins keep the order of the pieces: the list for `a,b` is the
      list for `a` followed by the list for `b`. */
  lemma EnvOriginsAround(a: string, b: string)
    ensures EnvOrigins(a + "," + b) == EnvOrigins(a) + EnvOrigins(b)
  {
    SplitAround(a, b, ',');
    var pa, pb := Split(a, ','), Split(b, ',');
    assert Stripped(pa + pb) == Stripped(pa) + Stripped(pb);
    FilterAppend(Stripped(pa), Stripped(pb), IsNonEmpty);
  }

  /** A value made only of commas and white space names no origin. */
  lemma {:induction false} EnvOriginsBlank(v: string)
    requires forall k :: 0 <= k < |v| ==> v[k] == ',' || IsPySpace(v[k])
    ensures EnvOrigins(v) == []
    decreases |v|
  {
    var i := FirstIndex(v, IsComma);
    if i == -1 {
      assert ',' !in v by {
        forall k | 0 <= k < |v| ensures v[k] != ',' { assert !IsComma(v[k]); }
      }
      assert AllSpace(v, IsPySpace);
      TrimEmptyIff(v, IsPySpace);
      EnvOriginsOnePiece(v);
    } else {
      var a, b := v[..i], v[i + 1..];
      assert v == a + "," + b;
      assert ',' !in a by {
        forall k | 0 <= k < |a| ensures a[k] != ',' { assert !IsComma(v[k]); }
      }
      assert AllSpace(a, IsPySpace);
      TrimEmptyIff(a, IsPySpace);
      EnvOriginsOnePiece(a);
      EnvOriginsBlank(b);
      EnvOriginsAround(a, b);
    }
  }

  function IsComma(c: char): bool { c == ',' }

  /** A variable that is set but names no origin (only commas and blanks)
      allows no origin at all rather than the defaults. */
  lemma BlankListAllowsNone(v: string)
    requires v != ""
    requires forall k :: 0 <= k < |v| ==> v[k] == ',' || IsPySpace(v[k])
    ensures CorsOrigins(Some(v)) == []
  {
    EnvOriginsBlank(v);
  }

  // The /config document

  datatype Config = Config(apiBaseUrl: string, environment: string, version: string)

  datatype UrlParts = UrlParts(protocol: string, host: string, port: string)

  /** `f"{protocol}://{host}:{port}"`. */
  function BaseUrl(parts: UrlParts): string {
    parts.protocol + "://" + parts.host + ":" + parts.port
  }

  /** The configuration read from `BACKEND_PROTOCOL`, `BACKEND_HOST`,
      `BACKEND_PORT` and `ENVIRONMENT`. */
  function GetConfig(protocol: Option<string>, host: Option<string>, port: Option<string>,
                     environment: Option<string>): Config
  {
    Config(BaseUrl(UrlParts(protocol.GetOr("http"), host.GetOr("localhost"), port.GetOr("8000"))),
           environment.GetOr("development"), "1.0.0")
  }

  /** With nothing set the document points at the local development server. */
  lemma GetConfigDefaults()
    ensures GetConfig(None, None, None, None) == Config("http://localhost:8000", "development", "1.0.0")
  {
  }

  function IsColon(c: char): bool { c == ':' }

  /** Reads the parts back out of a base URL: the protocol ends at the first
      colon, which must be followed by `//`, and the port starts after the
      last colon, so a host may itself hold colons. */
  function ParseBaseUrl(url: string): Option<UrlParts> {
    var i := FirstIndex(url, IsColon);
    if i == -1 || |url| < i + 3 || url[i + 1] != '/' || url[i + 2] != '/' then None
    else ParseHostPort(url[..i], url[i + 3..])
  }

  /** The part after `//`: the port starts after the last colon. */
  function ParseHostPort(protocol: string, rest: string): Option<UrlParts> {
    var j := LastIndex(rest, IsColon);
    if j == -1 then None else Some(UrlParts(protocol, rest[..j], rest[j + 1..]))
  }

  /** The base URL loses nothing when neither the protocol nor the port
      holds a colon. */
  lemma ParseBaseUrlRoundTrip(parts: UrlParts)
    requires ':' !in parts.protocol && ':' !in parts.port
    ensures ParseBaseUrl(BaseUrl(parts)) == Some(parts)
  {
    var p := parts.protocol;
    var rest := parts.host + ":" + parts.port;
    var url := BaseUrl(parts);
    UrlShape(p, rest, url);
    HostPortRoundTrip(p, parts.host, parts.port);
  }

  lemma UrlShape(p: string, rest: string, url: string)
    requires ':' !in p && url == p + "://" + rest
    ensures FirstIndex(url, IsColon) == |p| && |url| >= |p| + 3
    ensures url[|p| + 1] == '/' && url[|p| + 2] == '/' && url[..|p|] == p && url[|p| + 3..] == rest
  {
    assert url == p + ":" + ("//" + rest);
    FirstColonAt(p, "//" + rest);
  }

  lemma HostPortRoundTrip(protocol: string, host: string, port: string)
    requires ':' !in port
    ensures ParseHostPort(protocol, host + ":" + port) == Some(UrlParts(protocol, host, port))
  {
    LastColonAt(host, port);
  }

  lemma FirstColonAt(before: string, after: string)
    requires ':' !in before
    ensures FirstIndex(before + ":" + after, IsColon) == |before|
  {
    var s := before + ":" + after;
    assert s[|before|] == ':';
    assert forall k :: 0 <= k < |before| ==> s[k] == before[k];
  }

  lemma LastColonAt(before: string, after: string)
    requires ':' !in after
    ensures var s := before + ":" + after;
      LastIndex(s, IsColon) == |before| && s[..|before|] == before && s[|before| + 1..] == after
  {
    var s := before + ":" + after;
    assert s[|before|] == ':';
    assert forall k :: |before| < k < |s| ==> s[k] == after[k - |before| - 1];
    assert s[..|before|] == before && s[|before| + 1..] == after;
  }

  // Handlers

  /** What a route answers: the body, or an HTTP error with its detail. */
  datatype Response<T> = Ok(body: T) | HttpError(status: nat, detail: string)

  const NotFoundDetail := "Todo not found"
  const NotFound: Response<Crud.Row> := HttpError(404, NotFoundDetail)
  const DeletedMessage := "Todo deleted successfully"

  /** The query defaults of `GET /todos`. */
  const DefaultSkip: nat := 0
  const DefaultLimit: nat := 100

  /** `GET /todos` with no query parameters returns the first hundred rows. */
  lemma DefaultPageIsFirstHundred(rows: seq<Crud.Row>)
    ensures Crud.Page(rows, DefaultSkip, DefaultLimit) == rows[..if |rows| < 100 then |rows| else 100]
  {
  }

  /** The branch shared by `read_todo` and `update_todo`. */
  function FoundOrNotFound(found: Option<Crud.Row>): Response<Crud.Row> {
    if found.None? then NotFound else Ok(found.value)
  }

  /** The branch of `delete_todo`. */
  function DeletedOrNotFound(success: bool): Response<string> {
    if !success then HttpError(404, NotFoundDetail) else Ok(DeletedMessage)
  }

  /** `GET /todos/{id}`: 404 exactly when no row has the id, otherwise that
      row. */
  method ReadTodo(db: Crud.TodoTable, todoId: int) returns (resp: Response<Crud.Row>)
    ensures resp == NotFound <==> !Crud.HasIdIn(db.rows, todoId)
    ensures resp.Ok? ==> resp.body.id == todoId && resp.body in db.rows
    ensures resp.HttpError? ==> resp == NotFound
  {
    var found := db.GetTodo(todoId);
    resp := FoundOrNotFound(found);
  }

  /** `PUT /todos/{id}`: 404 with the table untouched exactly when no row
      has the id, otherwise the merged row, stored in place of the row it
      came from, with every other row as it was. */
  method UpdateTodo(db: Crud.TodoTable, todoId: int, upd: Crud.TodoUpdate) returns (resp: Response<Crud.Row>)
    requires db.Valid()
    modifies db`rows
    ensures db.Valid()
    ensures resp == NotFound <==> !Crud.HasIdIn(old(db.rows), todoId)
    ensures resp == NotFound ==> db.rows == old(db.rows)
    ensures resp.Ok? ==> resp.body.id == todoId && resp.body in db.rows
    ensures resp.Ok? ==>
      exists i :: 0 <= i < |old(db.rows)| && old(db.rows)[i].id == todoId
        && resp.body == Crud.Merge(old(db.rows)[i], upd) && db.rows == old(db.rows)[i := resp.body]
    ensures resp.HttpError? ==> resp == NotFound
  {
    var updated := db.UpdateTodo(todoId, upd);
    if updated.Some? {
      ghost var i :| 0 <= i < |old(db.rows)| && old(db.rows)[i].id == todoId
          && updated.value == Crud.Merge(old(db.rows)[i], upd) && db.rows == old(db.rows)[i := updated.value];
      Crud.MergeSpec(old(db.rows)[i], upd);
      assert db.rows[i] == updated.value;
    }
    resp := FoundOrNotFound(updated);
  }

  /** `DELETE /todos/{id}`: 404 exactly when no row has the id, otherwise
      the success message; the table loses the row with the id and keeps
      every other row in order. */
  method DeleteTodo(db: Crud.TodoTable, todoId: int) returns (resp: Response<string>)
    requires db.Valid()
    modifies db`rows
    ensures db.Valid()
    ensures resp == HttpError(404, NotFoundDetail) <==> Crud.HasIdIn(old(db.rows), todoId) == false
    ensures resp.Ok? ==> resp.body == DeletedMessage && !Crud.HasIdIn(db.rows, todoId)
    ensures resp.HttpError? ==> db.rows == old(db.rows)
    ensures db.rows == Filter(old(db.rows), Crud.RowLacksId(todoId))
  {
    var success := db.DeleteTodo(todoId);
    if success {
      forall k | 0 <= k < |db.rows| ensures db.rows[k].id != todoId {
        assert db.rows[k] in Filter(old(db.rows), Crud.RowLacksId(todoId));
      }
    }
    resp := DeletedOrNotFound(success);
  }
}

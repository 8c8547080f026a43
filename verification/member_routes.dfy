/** The five member route handlers. Each takes the request's inputs and the store, and gives the
    response together with the queries it issued, in order. */
module MemberRoutes {

  import opened Wrappers
  import opened Json
  import opened Store
  import opened HttpStatus
  import opened MemberSchema
  import opened MemberUpdate
  import opened SqlText

  /** A response body. `Message` is `{ message }` and `Msg` is `{ msg }`: the handlers use both. */
  datatype Body =
    | Empty
    | Message(text: string)
    | Msg(text: string)
    | Rejected                                  // the framework's answer to a body the schema refuses
    | Created(id: Option<Value>)                // `{ id }`; None when the row has no id column
    | Member(row: Row)
    | Listing(members: seq<Row>, count: nat)

  datatype Response = Response(status: StatusCode, body: Body)

  /** The response, and the queries issued to produce it */
  datatype Handled = Handled(response: Response, queries: seq<Query>)

  const AddFailed := "Could not add new member"
  const ListFailed := "Could not fetch members"
  const FetchFailed := "Could not fetch member"
  const DeleteFailed := "Could not delete member"

  /** The answer to a failed store call: the propagated status and the handler's fixed message */
  function StoreFailure(statusCode: Option<ErrorCode>, msg: string): Response
  {
    Response(ErrorStatus(statusCode), Msg(msg))
  }

  function IdOf(row: Row): Option<Value>
  {
    if "id" in row then Some(row["id"]) else None
  }

  /** `POST /members`. A body the schema refuses never reaches the handler or the store. A
      successful insert answers with the new row's id; an insert that returns no row makes
      `rows[0].id` throw, which the handler reports like a store error without a status code. */
  function Create(body: Value, run: Executor): (h: Handled)
    ensures !ValidCreateBody(body) <==> h.queries == []
    ensures !ValidCreateBody(body) ==> h.response == Response(BadRequest, Rejected)
    ensures ValidCreateBody(body) ==> h.queries == [InsertMember(InsertParams(body.fields))]
    ensures h.response.body.Created? <==>
      ValidCreateBody(body) && run(h.queries[0]).Rows? && |run(h.queries[0]).rows| > 0
    ensures h.response.body.Created? ==>
      h.response == Response(OK, Created(IdOf(run(h.queries[0]).rows[0])))
    ensures ValidCreateBody(body) && !h.response.body.Created? ==>
      h.response.body == Msg(AddFailed)
  {
    if !ValidCreateBody(body) then Handled(Response(BadRequest, Rejected), [])
    else
      var insert := InsertMember(InsertParams(body.fields));
      match run(insert)
      case Failed(code) => Handled(StoreFailure(code, AddFailed), [insert])
      case Rows(rows, _) =>
        if |rows| == 0 then Handled(StoreFailure(None, AddFailed), [insert])
        else Handled(Response(OK, Created(IdOf(rows[0]))), [insert])
  }

  /** `GET /members`. An absent or empty search term applies no filter. */
  function List(search: Option<string>, run: Executor): (h: Handled)
    ensures |h.queries| == 1
    ensures h.queries[0].SelectMembers?
    ensures h.queries[0].search.Some? <==> search.Some? && search.value != ""
    ensures h.queries[0].search.Some? ==> h.queries[0].search == search
    ensures run(h.queries[0]).Rows? ==>
      h.response == Response(OK, Listing(run(h.queries[0]).rows, run(h.queries[0]).rowCount))
  {
    var filter := if search.Some? && search.value != "" then search else None;
    var select := SelectMembers(filter);
    match run(select)
    case Failed(code) => Handled(StoreFailure(code, ListFailed), [select])
    case Rows(rows, count) => Handled(Response(OK, Listing(rows, count)), [select])
  }

  /** `GET /members/:id`. Not found exactly when the lookup returns no row; otherwise the first
      row is the answer. */
  function GetById(id: string, run: Executor): (h: Handled)
    ensures h.queries == [SelectMemberById(id)]
    ensures run(SelectMemberById(id)).Rows? ==>
      (h.response == Response(NotFound, Message("Member not found"))
       <==> |run(SelectMemberById(id)).rows| == 0)
    ensures run(SelectMemberById(id)).Rows? && |run(SelectMemberById(id)).rows| > 0 ==>
      h.response == Response(OK, Member(run(SelectMemberById(id)).rows[0]))
  {
    var select := SelectMemberById(id);
    match run(select)
    case Failed(code) => Handled(StoreFailure(code, FetchFailed), [select])
    case Rows(rows, _) =>
      if |rows| == 0 then Handled(Response(NotFound, Message("Member not found")), [select])
      else Handled(Response(OK, Member(rows[0])), [select])
  }

  /** The member exists: the existence check returned at least one row */
  predicate Exists(id: string, run: Executor)
  {
    run(SelectMemberId(id)).Rows? && |run(SelectMemberId(id)).rows| > 0
  }

  /** `PATCH /members/:id`. Existence is checked first, then emptiness; only then is the body
      normalised and the UPDATE issued. Success is 200 with an empty body. */
  function Patch(id: string, body: seq<Entry>, run: Executor, snake: string -> string): (h: Handled)
    ensures 1 <= |h.queries| <= 2 && h.queries[0] == SelectMemberId(id)
    ensures |h.queries| == 2 <==> Exists(id, run) && |body| > 0
    ensures |h.queries| == 2 ==> h.queries[1] == UpdateQuery(Normalised(body), id, snake)
    ensures h.response == Response(OK, Empty) <==> |h.queries| == 2 && run(h.queries[1]).Rows?
    ensures run(SelectMemberId(id)).Rows? && !Exists(id, run) ==>
      h.response == Response(NotFound, Message("Member not found"))
  {
    var lookup := SelectMemberId(id);
    match run(lookup)
    case Failed(code) => Handled(StoreFailure(code, FetchFailed), [lookup])
    case Rows(rows, _) =>
      if |rows| == 0 then Handled(Response(NotFound, Message("Member not found")), [lookup])
      else if |body| == 0 then Handled(Response(NotFound, Message("No fields provided")), [lookup])
      else
        var update := UpdateQuery(Normalised(body), id, snake);
        match run(update)
        case Failed(code) => Handled(StoreFailure(code, FetchFailed), [lookup, update])
        case Rows(_, _) => Handled(Response(OK, Empty), [lookup, update])
  }

  /** The PATCH handler with its in-place update of the request body: the body is normalised
      once both checks have passed, just before the UPDATE is issued. */
  method HandlePatch(id: string, body: array<Entry>, run: Executor, snake: string -> string)
    returns (h: Handled)
    modifies body
    ensures h == Patch(id, old(body[..]), run, snake)
    ensures body[..] == if |h.queries| == 2 then Normalised(old(body[..])) else old(body[..])
  {
    var lookup := SelectMemberId(id);
    var found := run(lookup);
    if found.Failed? {
      return Handled(StoreFailure(found.statusCode, FetchFailed), [lookup]);
    }
    if |found.rows| == 0 {
      return Handled(Response(NotFound, Message("Member not found")), [lookup]);
    }
    if body.Length == 0 {
      return Handled(Response(NotFound, Message("No fields provided")), [lookup]);
    }
    NormaliseBody(body);
    var entries := body[..];
    var update := UpdateMember(UpdateSql(Keys(entries), snake), UpdateValues(entries, id));
    var done := run(update);
    if done.Failed? {
      h := Handled(StoreFailure(done.statusCode, FetchFailed), [lookup, update]);
    } else {
      h := Handled(Response(OK, Empty), [lookup, update]);
    }
  }

  /** `DELETE /members/:id`. An empty id is refused before any query; otherwise 204 when the
      cascade delete returned a row and 404 when it returned none. */
  function Delete(id: string, run: Executor): (h: Handled)
    ensures id == "" <==> h.queries == []
    ensures id == "" ==> h.response == Response(BadRequest, Message("ID is required"))
    ensures id != "" ==> h.queries == [DeleteMemberCascade(id)]
    ensures h.response == Response(NoContent, Empty) <==>
      id != "" && run(DeleteMemberCascade(id)).Rows? && |run(DeleteMemberCascade(id)).rows| > 0
    ensures h.response == Response(NotFound, Empty) <==>
      id != "" && run(DeleteMemberCascade(id)).Rows? && |run(DeleteMemberCascade(id)).rows| == 0
  {
    if id == "" then Handled(Response(BadRequest, Message("ID is required")), [])
    else
      var delete := DeleteMemberCascade(id);
      match run(delete)
      case Failed(code) =>
        Handled(Response(ErrorStatus(code), Message(DeleteFailed)), [delete])
      case Rows(rows, _) =>
        if |rows| > 0 then Handled(Response(NoContent, Empty), [delete])
        else Handled(Response(NotFound, Empty), [delete])
  }

  /** Every handler maps a failing store call to `error.statusCode || 500` and its own fixed
      message; PATCH reuses the message of GET by id. */
  lemma StoreErrorsMapped(id: string, body: Value, patch: seq<Entry>, search: Option<string>,
                          run: Executor, snake: string -> string)
    ensures ValidCreateBody(body) && run(InsertMember(InsertParams(body.fields))).Failed? ==>
      Create(body, run).response
      == StoreFailure(run(InsertMember(InsertParams(body.fields))).statusCode, AddFailed)
    ensures run(List(search, run).queries[0]).Failed? ==>
      List(search, run).response
      == StoreFailure(run(List(search, run).queries[0]).statusCode, ListFailed)
    ensures run(SelectMemberById(id)).Failed? ==>
      GetById(id, run).response == StoreFailure(run(SelectMemberById(id)).statusCode, FetchFailed)
    ensures run(SelectMemberId(id)).Failed? ==>
      Patch(id, patch, run, snake).response
      == StoreFailure(run(SelectMemberId(id)).statusCode, FetchFailed)
    ensures Exists(id, run) && |patch| > 0 && run(UpdateQuery(Normalised(patch), id, snake)).Failed? ==>
      Patch(id, patch, run, snake).response
      == StoreFailure(run(UpdateQuery(Normalised(patch), id, snake)).statusCode, FetchFailed)
    ensures id != "" && run(DeleteMemberCascade(id)).Failed? ==>
      Delete(id, run).response
      == Response(ErrorStatus(run(DeleteMemberCascade(id)).statusCode), Message(DeleteFailed))
  {
  }

  /** For a missing member PATCH answers "Member not found" whatever the body, the empty one
      included; for an existing member an empty body answers "No fields provided" and issues no
      UPDATE. */
  lemma PatchChecksExistenceFirst(id: string, body: seq<Entry>, run: Executor, snake: string -> string)
    ensures run(SelectMemberId(id)).Rows? && !Exists(id, run) ==>
      Patch(id, body, run, snake) == Patch(id, [], run, snake)
      && Patch(id, [], run, snake).response == Response(NotFound, Message("Member not found"))
    ensures Exists(id, run) ==>
      Patch(id, [], run, snake)
      == Handled(Response(NotFound, Message("No fields provided")), [SelectMemberId(id)])
  {
  }

  /** The second query of a PATCH that passes both checks is the UPDATE of the normalised body. */
  lemma PatchIssuesUpdate(id: string, body: seq<Entry>, run: Executor, snake: string -> string)
    requires Exists(id, run) && |body| > 0
    ensures |Patch(id, body, run, snake).queries| == 2
    ensures Patch(id, body, run, snake).queries[1] == UpdateQuery(Normalised(body), id, snake)
  {
  }

  /** The UPDATE a PATCH issues binds `$k` to the k-th normalised body value for k up to the
      number n of keys, and `$(n + 1)`, the WHERE clause's, to the id. An empty string in the body
      is bound as null. */
  lemma PatchBindsEveryPlaceholder(id: string, body: seq<Entry>, run: Executor, snake: string -> string)
    requires Exists(id, run) && |body| > 0
    ensures |Patch(id, body, run, snake).queries| == 2
    ensures var q := Patch(id, body, run, snake).queries[1];
      q.UpdateMember? && |q.params| == |body| + 1
      && (forall k :: 1 <= k <= |body| ==>
            TrailingPlaceholder(Assignments(Keys(body), snake)[k - 1]) == Some(k)
            && q.params[k - 1] == Blank(body[k - 1].value))
      && TrailingPlaceholder(q.sql) == Some(|body| + 1)
      && q.params[|body|] == Str(id)
  {
    PatchIssuesUpdate(id, body, run, snake);
    var n := Normalised(body);
    UpdateBindsNormalised(body, id, snake);
  }

  /** A body whose age is under 14 is refused before anything reaches the store. */
  lemma UnderageRefused(body: Value, run: Executor)
    requires body.Obj? && "age" in body.fields && body.fields["age"].Num?
    requires body.fields["age"].n < 14.0
    ensures Create(body, run) == Handled(Response(BadRequest, Rejected), [])
  {
    assert !PropertyOk("age", body.fields["age"]);
  }
}

/** src/app/api/comments/route.ts: posting a comment or a reply. */
module Comments {
  import opened Strings
  import opened Types

  /** The JSON body. `body` is `None` when absent or null and `Some(None)`
      when it is not a string (so `trim` throws). */
  datatype CommentRequest = CommentRequest(
    content_id: Option<Id>,
    user_id: Option<UserId>,
    body: Option<Option<string>>,
    parent_id: Option<Id>)

  const MissingFields: string := "Missing required fields"

  /** `!content_id || !user_id || !body?.trim()`, evaluated left to right:
      `Some(true)` rejects, `None` is the throw of `trim`. */
  function Missing(request: CommentRequest): (r: Option<bool>)
    ensures r.None? <==> request.content_id.Some? && Truthy(request.user_id) && request.body == Some(None)
    ensures r == Some(false) <==>
      request.content_id.Some? && Truthy(request.user_id)
      && request.body.Some? && request.body.value.Some? && !AllSpace(request.body.value.value)
  {
    if request.content_id.None? || !Truthy(request.user_id) then Some(true)
    else if request.body.None? then Some(true)
    else if request.body.value.None? then None
    else Some(Trim(request.body.value.value) == [])
  }

  /** The comments rows, keyed by id; ids below `nextId` have been issued. */
  class CommentTable {
    var rows: map<Id, Comment>
    var nextId: Id

    ghost predicate Valid()
      reads this
    {
      forall id :: id in rows ==> rows[id].id == id && id < nextId
    }

    constructor ()
      ensures Valid() && rows == map[] && nextId == 0
    {
      rows := map[];
      nextId := 0;
    }

    /** `insert(draft)`: the row gets the next id. */
    method Insert(draft: Comment) returns (row: Comment)
      requires Valid()
      modifies this
      ensures Valid()
      ensures row == draft.(id := old(nextId))
      ensures rows == old(rows)[old(nextId) := row] && nextId == old(nextId) + 1
      ensures old(nextId) !in old(rows)
    {
      row := draft.(id := nextId);
      rows := rows[nextId := row];
      nextId := nextId + 1;
    }
  }

  /** `POST`: store the comment with its body trimmed. `thrown` is the
      message the handler catches when the body is not JSON (`request` is
      `None`) or `trim` throws; `insertError` is the storage layer's
      failure; `now` the database clock. */
  method PostComment(request: Option<CommentRequest>, thrown: string, insertError: Option<string>,
                     now: Timestamp, comments: CommentTable)
    returns (response: Response<Comment>)
    requires comments.Valid()
    modifies comments
    ensures comments.Valid()
    ensures !response.Ok? ==> unchanged(comments)
    ensures request.None? ==> response == Fail(500, thrown)
    ensures request.Some? && Missing(request.value) == Some(true) ==> response == Fail(400, MissingFields)
    ensures request.Some? && Missing(request.value).None? ==> response == Fail(500, thrown)
    ensures response.Ok? <==> request.Some? && Missing(request.value) == Some(false) && insertError.None?
    ensures response.Ok? ==>
      var r := request.value;
      && response.body == Comment(old(comments.nextId), r.content_id.value, r.user_id.value, r.parent_id,
                                  Trim(r.body.value.value), 0, now, now)
      && response.body.body != [] && Trim(response.body.body) == response.body.body
      && comments.rows == old(comments.rows)[response.body.id := response.body]
      && response.body.id !in old(comments.rows)
  {
    if request.None? {
      return Fail(500, thrown);
    }
    var r := request.value;
    var missing := Missing(r);
    if missing.None? {
      return Fail(500, thrown);
    }
    if missing.value {
      return Fail(400, MissingFields);
    }
    if insertError.Some? {
      return Fail(500, insertError.value);
    }
    var body := Trim(r.body.value.value);
    TrimIdempotent(r.body.value.value);
    var row := comments.Insert(Comment(0, r.content_id.value, r.user_id.value, r.parent_id, body, 0, now, now));
    response := Ok(row);
  }
}

/** src/app/api/vote/route.ts: a user's upvote on a content item, toggled
    on and off by the same request. */
module VoteRoute {
  import opened Strings
  import opened Types
  import opened VoteStore

  /** The JSON body: the target's id under the route's own key, and the
      voter. Absent keys are `None`. */
  datatype VoteRequest = VoteRequest(target: Option<Id>, user_id: Option<UserId>)

  datatype VoteReply = VoteReply(voted: bool)

  const MissingFields: string := "Missing content_id or user_id"

  /** The toggle both vote routes share. `body` is `None` when the request
      body is not JSON, and `thrown` is the message caught then.
      `deleteError` is the result of the delete, which the handler never
      inspects; `insertError` that of the insert. */
  method ToggleVote(body: Option<VoteRequest>, thrown: string, missing: string,
                    deleteError: Option<string>, insertError: Option<string>, votes: PairTable)
    returns (response: Response<VoteReply>)
    modifies votes
    ensures body.None? ==> response == Fail(500, thrown)
    ensures body.Some? && (body.value.target.None? || !Truthy(body.value.user_id)) ==>
      response == Fail(400, missing)
    ensures !response.Ok? ==> unchanged(votes)
    ensures response.Ok? ==>
      && body.Some? && body.value.target.Some? && Truthy(body.value.user_id)
      && var p := (body.value.user_id.value, body.value.target.value);
      && response.body.voted == (p !in old(votes.pairs))
      && (p in old(votes.pairs) && deleteError.Some? ==> votes.pairs == old(votes.pairs))
      && (p in old(votes.pairs) && deleteError.None? ==> votes.pairs == Toggled(old(votes.pairs), p))
      && (p !in old(votes.pairs) ==> votes.pairs == Toggled(old(votes.pairs), p))
    ensures body.Some? && body.value.target.Some? && Truthy(body.value.user_id) ==>
      var p := (body.value.user_id.value, body.value.target.value);
      && (response.Ok? <==> p in old(votes.pairs) || insertError.None?)
      && (p !in old(votes.pairs) && insertError.Some? ==> response == Fail(500, insertError.value))
  {
    if body.None? {
      return Fail(500, thrown);
    }
    var request := body.value;
    if request.target.None? || !Truthy(request.user_id) {
      return Fail(400, missing);
    }
    var p := (request.user_id.value, request.target.value);
    if votes.Has(p) {
      if deleteError.None? {
        votes.Remove(p);
      }
      return Ok(VoteReply(false));
    }
    if insertError.Some? {
      return Fail(500, insertError.value);
    }
    votes.Add(p);
    response := Ok(VoteReply(true));
  }

  /** `POST /api/vote`. */
  method PostVote(body: Option<VoteRequest>, thrown: string, deleteError: Option<string>,
                  insertError: Option<string>, votes: PairTable)
    returns (response: Response<VoteReply>)
    modifies votes
    ensures body.None? ==> response == Fail(500, thrown)
    ensures body.Some? && (body.value.target.None? || !Truthy(body.value.user_id)) ==>
      response == Fail(400, MissingFields)
    ensures !response.Ok? ==> unchanged(votes)
    ensures response.Ok? ==> body.Some? && body.value.target.Some? && Truthy(body.value.user_id)
    ensures response.Ok? && deleteError.None? ==>
      var p := (body.value.user_id.value, body.value.target.value);
      votes.pairs == Toggled(old(votes.pairs), p) && response.body.voted == (p in votes.pairs)
    ensures response.Ok? && deleteError.Some? ==>
      var p := (body.value.user_id.value, body.value.target.value);
      && response.body.voted == (p !in old(votes.pairs))
      && (p in old(votes.pairs) ==> votes.pairs == old(votes.pairs))
      && (p !in old(votes.pairs) ==> votes.pairs == Toggled(old(votes.pairs), p))
    ensures body.Some? && body.value.target.Some? && Truthy(body.value.user_id) ==>
      var p := (body.value.user_id.value, body.value.target.value);
      && (response.Ok? <==> p in old(votes.pairs) || insertError.None?)
      && (p !in old(votes.pairs) && insertError.Some? ==> response == Fail(500, insertError.value))
  {
    response := ToggleVote(body, thrown, MissingFields, deleteError, insertError, votes);
  }
}

/** src/app/api/comment-vote/route.ts: the same toggle over the
    `comment_votes` table, keyed by comment id. */
module CommentVoteRoute {
  import opened Strings
  import opened Types
  import opened VoteStore
  import opened VoteRoute

  const MissingCommentFields: string := "Missing comment_id or user_id"

  /** `POST /api/comment-vote`; `body.target` is `comment_id`. */
  method PostCommentVote(body: Option<VoteRequest>, thrown: string, deleteError: Option<string>,
                         insertError: Option<string>, commentVotes: PairTable)
    returns (response: Response<VoteReply>)
    modifies commentVotes
    ensures body.None? ==> response == Fail(500, thrown)
    ensures body.Some? && (body.value.target.None? || !Truthy(body.value.user_id)) ==>
      response == Fail(400, MissingCommentFields)
    ensures !response.Ok? ==> unchanged(commentVotes)
    ensures response.Ok? ==> body.Some? && body.value.target.Some? && Truthy(body.value.user_id)
    ensures response.Ok? && deleteError.None? ==>
      var p := (body.value.user_id.value, body.value.target.value);
      commentVotes.pairs == Toggled(old(commentVotes.pairs), p) && response.body.voted == (p in commentVotes.pairs)
    ensures response.Ok? && deleteError.Some? ==>
      var p := (body.value.user_id.value, body.value.target.value);
      && response.body.voted == (p !in old(commentVotes.pairs))
      && (p in old(commentVotes.pairs) ==> commentVotes.pairs == old(commentVotes.pairs))
      && (p !in old(commentVotes.pairs) ==> commentVotes.pairs == Toggled(old(commentVotes.pairs), p))
    ensures body.Some? && body.value.target.Some? && Truthy(body.value.user_id) ==>
      var p := (body.value.user_id.value, body.value.target.value);
      && (response.Ok? <==> p in old(commentVotes.pairs) || insertError.None?)
      && (p !in old(commentVotes.pairs) && insertError.Some? ==> response == Fail(500, insertError.value))
  {
    response := ToggleVote(body, thrown, MissingCommentFields, deleteError, insertError, commentVotes);
  }
}

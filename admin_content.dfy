/** src/app/api/admin/content/route.ts: the moderation queue. Every handler
    requires the bearer secret; GET lists rows by status, PATCH approves
    and DELETE removes the named rows. */
module AdminContent {
  import opened Strings
  import opened Types
  import opened ContentStore

  /** The status filter of the queue listing: "review" holds published rows
      awaiting a decision, "unpublished" the hidden ones, "published" the
      settled ones; any other status filters nothing. */
  predicate StatusMatches(status: string, c: ContentItem) {
    if status == "review" then c.published && c.needs_review
    else if status == "unpublished" then !c.published
    else if status == "published" then c.published && !c.needs_review
    else true
  }

  /** Every row is in exactly one of the three queues. */
  lemma StatusesPartition(c: ContentItem)
    ensures StatusMatches("review", c) || StatusMatches("unpublished", c) || StatusMatches("published", c)
    ensures !(StatusMatches("review", c) && StatusMatches("unpublished", c))
    ensures !(StatusMatches("review", c) && StatusMatches("published", c))
    ensures !(StatusMatches("unpublished", c) && StatusMatches("published", c))
  {
  }

  /** Approving moves a row out of the review and unpublished queues into
      the published one. */
  lemma ApprovedRowIsPublished(c: ContentItem)
    ensures StatusMatches("published", c.(published := true, needs_review := false))
  {
  }

  /** The listing's query string after `parseInt`; absent or empty
      parameters are `None`. */
  datatype AdminQuery = AdminQuery(status: Option<string>, contentType: Option<string>, page: int, limit: int)

  datatype AdminPage = AdminPage(items: seq<ContentItem>, total: nat, page: int, limit: int, has_more: bool)

  function StatusOf(q: AdminQuery): string { if Truthy(q.status) then q.status.value else "review" }
  function TypeOf(q: AdminQuery): string { if Truthy(q.contentType) then q.contentType.value else "all" }

  /** `(page - 1) * limit`; the limit is not capped. */
  function OffsetOf(q: AdminQuery): (offset: int)
    ensures q.page >= 1 && q.limit >= 1 ==> offset >= 0
  {
    (q.page - 1) * q.limit
  }

  predicate Listed(q: AdminQuery, c: ContentItem) {
    StatusMatches(StatusOf(q), c) && (TypeOf(q) == "all" || c.content_type == TypeOf(q))
  }

  function ListedOf(q: AdminQuery): ContentItem -> bool {
    c => Listed(q, c)
  }

  /** The rows the listing selects, in id order: its exact count is `total`. */
  function Queue(q: AdminQuery, all: seq<ContentItem>): (r: seq<ContentItem>)
    ensures forall x :: x in r <==> x in all && Listed(q, x)
  {
    Where(all, ListedOf(q))
  }

  function Newest(c: ContentItem): real {
    c.created_at as real
  }

  /** The status switch and the type filter of the query builder. */
  method Narrow(q: AdminQuery, all: seq<ContentItem>) returns (query: seq<ContentItem>)
    ensures query == Queue(q, all)
  {
    var status := StatusOf(q);
    var contentType := TypeOf(q);
    var byStatus := (c: ContentItem) => StatusMatches(status, c);
    var keepAll := (c: ContentItem) => true;
    query := Where(all, byStatus);
    if contentType != "all" {
      var ofType := (c: ContentItem) => c.content_type == contentType;
      WhereWhere(all, byStatus, ofType, ListedOf(q));
      query := Where(query, ofType);
    } else {
      WhereWhere(all, byStatus, keepAll, ListedOf(q));
      WhereAll(query, keepAll);
    }
  }

  /** The rows of the requested page, newest first. */
  function QueuePage(q: AdminQuery, all: seq<ContentItem>): (r: seq<ContentItem>)
    requires q.page >= 1 && q.limit >= 1
    ensures |r| <= q.limit
    ensures forall x :: x in r ==> x in all && Listed(q, x)
  {
    var ordered := OrderDesc(Queue(q, all), Newest);
    var r := Page(ordered, OffsetOf(q), q.limit);
    assert forall x :: x in r ==> x in multiset(ordered);
    r
  }

  /** `GET`: the page of the queue, newest first. `page` and `limit` must
      have parsed to positive numbers. */
  method GetQueue(authorization: Option<string>, secret: Option<string>, q: AdminQuery, content: ContentTable)
    returns (response: Response<AdminPage>)
    requires content.Valid()
    requires q.page >= 1 && q.limit >= 1
    ensures !BearerMatches(authorization, secret) <==> response == Fail(401, "Unauthorized")
    ensures response.Ok? ==>
      var selection := Queue(q, content.Ordered());
      && response.body.items == QueuePage(q, content.Ordered())
      && response.body.total == |selection|
      && response.body.has_more == (|selection| > OffsetOf(q) + q.limit)
      && response.body.page == q.page && response.body.limit == q.limit
    ensures response.Ok? ==> forall i :: 0 <= i < |response.body.items| ==>
      response.body.items[i] in content.rows.Values && Listed(q, response.body.items[i])
  {
    if !BearerMatches(authorization, secret) {
      return Fail(401, "Unauthorized");
    }
    var offset := OffsetOf(q);
    var all := content.Ordered();
    var query := Narrow(q, all);
    var count := |query|;
    query := OrderDesc(query, Newest);
    var items := Page(query, offset, q.limit);
    assert items == QueuePage(q, all);
    response := Ok(AdminPage(items, count, q.page, q.limit, count > offset + q.limit));
  }

  /** The JSON body of PATCH and DELETE; absent keys are `None`. */
  datatype ModerationRequest = ModerationRequest(id: Option<Id>, ids: Option<seq<Id>>, action: Option<string>)

  /** `ids || [id]`: an empty list is still a list, and with neither the
      target list holds one absent id. */
  function Targets(request: ModerationRequest): (targets: seq<Option<Id>>)
    ensures request.ids.Some? ==>
      |targets| == |request.ids.value| && forall i :: 0 <= i < |targets| ==> targets[i] == Some(request.ids.value[i])
    ensures request.ids.None? ==> targets == [request.id]
  {
    if request.ids.Some? then
      seq(|request.ids.value|, i requires 0 <= i < |request.ids.value| => Some(request.ids.value[i]))
    else [request.id]
  }

  datatype PatchReply = PatchReply(success: bool, updated: nat)
  datatype DeleteReply = DeleteReply(success: bool, deleted: nat)

  const MissingTargets: string := "Missing id/ids and action"
  const InvalidAction: string := "Invalid action"

  /** `PATCH`: approve the targets. `dbError` is the storage layer's error
      for the update, if any. The reported count is the length of the
      target list. */
  method PatchQueue(authorization: Option<string>, secret: Option<string>, request: ModerationRequest,
                    dbError: Option<string>, content: ContentTable)
    returns (response: Response<PatchReply>)
    requires content.Valid()
    modifies content
    ensures content.Valid()
    ensures !BearerMatches(authorization, secret) ==> response == Fail(401, "Unauthorized")
    ensures BearerMatches(authorization, secret) && (!Truthy(request.action) || (request.id.None? && request.ids.None?)) ==>
      response == Fail(400, MissingTargets)
    ensures BearerMatches(authorization, secret) && Truthy(request.action) && (request.id.Some? || request.ids.Some?)
            && request.action.value != "approve" ==>
      response == Fail(400, InvalidAction)
    ensures !response.Ok? ==> unchanged(content)
    ensures response.Ok? <==>
      BearerMatches(authorization, secret) && request.action == Some("approve")
      && (request.id.Some? || request.ids.Some?) && dbError.None?
    ensures response.Ok? ==>
      && response.body == PatchReply(true, |Targets(request)|)
      && content.rows == ApproveRows(old(content.rows), Targets(request))
      && content.nextId == old(content.nextId)
  {
    if !BearerMatches(authorization, secret) {
      return Fail(401, "Unauthorized");
    }
    if !Truthy(request.action) || (request.id.None? && request.ids.None?) {
      return Fail(400, MissingTargets);
    }
    var targets := Targets(request);
    if request.action.value != "approve" {
      return Fail(400, InvalidAction);
    }
    if dbError.Some? {
      return Fail(500, dbError.value);
    }
    content.Approve(targets);
    response := Ok(PatchReply(true, |targets|));
  }

  /** `DELETE`: remove the targets. No field is required; without `id` and
      `ids` the single absent target names no row. */
  method DeleteFromQueue(authorization: Option<string>, secret: Option<string>, request: ModerationRequest,
                         dbError: Option<string>, content: ContentTable)
    returns (response: Response<DeleteReply>)
    requires content.Valid()
    modifies content
    ensures content.Valid()
    ensures !BearerMatches(authorization, secret) ==> response == Fail(401, "Unauthorized")
    ensures !response.Ok? ==> unchanged(content)
    ensures response.Ok? <==> BearerMatches(authorization, secret) && dbError.None?
    ensures response.Ok? ==>
      && response.body == DeleteReply(true, |Targets(request)|)
      && content.rows == DeleteRows(old(content.rows), Targets(request))
      && content.nextId == old(content.nextId)
  {
    if !BearerMatches(authorization, secret) {
      return Fail(401, "Unauthorized");
    }
    var targets := Targets(request);
    if dbError.Some? {
      return Fail(500, dbError.value);
    }
    content.Delete(targets);
    response := Ok(DeleteReply(true, |targets|));
  }

  /** A delete naming neither `id` nor `ids` removes nothing yet reports one
      deletion. */
  lemma DeleteWithoutTargetsRemovesNothing(rows: map<Id, ContentItem>, request: ModerationRequest)
    requires request.id.None? && request.ids.None?
    ensures DeleteRows(rows, Targets(request)) == rows && |Targets(request)| == 1
  {
  }
}

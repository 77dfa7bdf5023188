/** The `content` table as the routes use it: rows keyed by id, ids handed
    out in increasing order, and the storage layer's unique-URL constraint.
    Reads are functions over the rows; the writes the routes perform
    (insert, the moderation update and delete) are methods. */
module ContentStore {
  import opened Strings
  import opened Types
  import opened Sorting

  /** No two rows share a URL. */
  predicate UrlsUnique(rows: map<Id, ContentItem>) {
    forall a, b :: a in rows && b in rows && rows[a].url == rows[b].url ==> a == b
  }

  /** The URLs the table holds. */
  function StoredUrls(rows: map<Id, ContentItem>): set<string> {
    set id | id in rows :: rows[id].url
  }

  /** A row stored under a fresh id adds its URL and no other. */
  lemma StoredUrlsInsert(rows: map<Id, ContentItem>, id: Id, row: ContentItem)
    requires id !in rows
    ensures StoredUrls(rows[id := row]) == StoredUrls(rows) + {row.url}
  {
    var after := rows[id := row];
    assert row.url == after[id].url;
    forall u | u in StoredUrls(rows) ensures u in StoredUrls(after) {
      var k :| k in rows && rows[k].url == u;
      assert after[k] == rows[k];
    }
  }

  /** Every row is stored under its own id. */
  predicate IdsConsistent(rows: map<Id, ContentItem>) {
    forall id :: id in rows ==> rows[id].id == id
  }

  /** The rows whose id is below `n`, in increasing id order. */
  function InIdOrder(rows: map<Id, ContentItem>, n: nat): seq<ContentItem> {
    if n == 0 then []
    else if n - 1 in rows then InIdOrder(rows, n - 1) + [rows[n - 1]]
    else InIdOrder(rows, n - 1)
  }

  /** Each row of `r` is stored under its own id, which is below `n`. */
  predicate StoredBelow(r: seq<ContentItem>, rows: map<Id, ContentItem>, n: nat) {
    forall i :: 0 <= i < |r| ==> r[i].id < n && r[i].id in rows && rows[r[i].id] == r[i]
  }

  predicate IdsIncreasing(r: seq<ContentItem>) {
    forall i, j :: 0 <= i < j < |r| ==> r[i].id < r[j].id
  }

  /** Each listed row is stored under its own id, which is below `n`. */
  lemma {:induction false} InIdOrderRowsStored(rows: map<Id, ContentItem>, n: nat)
    requires IdsConsistent(rows)
    ensures StoredBelow(InIdOrder(rows, n), rows, n)
  {
    if n > 0 {
      InIdOrderRowsStored(rows, n - 1);
      var prefix := InIdOrder(rows, n - 1);
      if n - 1 in rows {
        var r := prefix + [rows[n - 1]];
        assert InIdOrder(rows, n) == r;
        assert r[|prefix|] == rows[n - 1] && rows[n - 1].id == n - 1;
        forall i | 0 <= i < |r| ensures r[i].id < n && r[i].id in rows && rows[r[i].id] == r[i] {
          if i < |prefix| {
            assert r[i] == prefix[i];
          }
        }
      }
    }
  }

  /** Every stored row with an id below `n` is listed. */
  lemma {:induction false} InIdOrderComplete(rows: map<Id, ContentItem>, n: nat)
    ensures forall id :: id < n && id in rows ==> rows[id] in InIdOrder(rows, n)
  {
    if n > 0 {
      InIdOrderComplete(rows, n - 1);
      var prefix := InIdOrder(rows, n - 1);
      if n - 1 in rows {
        assert InIdOrder(rows, n) == prefix + [rows[n - 1]];
      }
    }
  }

  /** The listing is in increasing id order. */
  lemma {:induction false} InIdOrderIncreasing(rows: map<Id, ContentItem>, n: nat)
    requires IdsConsistent(rows)
    ensures IdsIncreasing(InIdOrder(rows, n))
  {
    if n > 0 {
      InIdOrderIncreasing(rows, n - 1);
      InIdOrderRowsStored(rows, n - 1);
      var prefix := InIdOrder(rows, n - 1);
      if n - 1 in rows {
        var r := prefix + [rows[n - 1]];
        assert InIdOrder(rows, n) == r;
        assert r[|prefix|] == rows[n - 1] && rows[n - 1].id == n - 1;
        forall i, j | 0 <= i < j < |r| ensures r[i].id < r[j].id {
          assert r[i] == prefix[i];
          if j < |prefix| {
            assert r[j] == prefix[j];
          }
        }
      }
    }
  }

  /** The rows that satisfy `p`, in their original order. */
  function Where(s: seq<ContentItem>, p: ContentItem -> bool): (r: seq<ContentItem>)
    ensures |r| <= |s|
    ensures forall x :: x in r <==> x in s && p(x)
  {
    if s == [] then []
    else if p(s[0]) then [s[0]] + Where(s[1..], p)
    else Where(s[1..], p)
  }

  /** Filtering twice is filtering once by the conjunction. */
  lemma {:induction false} WhereWhere(s: seq<ContentItem>, p: ContentItem -> bool, q: ContentItem -> bool,
                                      both: ContentItem -> bool)
    requires forall x :: both(x) == (p(x) && q(x))
    ensures Where(Where(s, p), q) == Where(s, both)
  {
    if s != [] {
      WhereWhere(s[1..], p, q, both);
    }
  }

  /** The filter that keeps everything keeps everything. */
  lemma {:induction false} WhereAll(s: seq<ContentItem>, keep: ContentItem -> bool)
    requires forall x :: keep(x)
    ensures Where(s, keep) == s
  {
    if s != [] {
      WhereAll(s[1..], keep);
    }
  }

  /** The number of rows that satisfy `p` (an exact count). */
  function CountWhere(s: seq<ContentItem>, p: ContentItem -> bool): (n: nat)
    ensures n <= |s|
  {
    if s == [] then 0
    else (if p(s[0]) then 1 else 0) + CountWhere(s[1..], p)
  }

  /** The count is the length of the filtered rows. */
  lemma {:induction false} CountIsFilteredLength(s: seq<ContentItem>, p: ContentItem -> bool)
    ensures CountWhere(s, p) == |Where(s, p)|
  {
    if s != [] {
      CountIsFilteredLength(s[1..], p);
    }
  }

  /** `range(offset, offset + limit - 1)`: at most `limit` rows starting at
      `offset`, clipped to the rows there are. */
  function Page(s: seq<ContentItem>, offset: nat, limit: nat): (r: seq<ContentItem>)
    ensures |r| <= limit
    ensures offset + limit <= |s| ==> |r| == limit
    ensures forall i :: 0 <= i < |r| ==> offset + i < |s| && r[i] == s[offset + i]
  {
    if offset >= |s| then []
    else if offset + limit <= |s| then s[offset..offset + limit]
    else s[offset..]
  }

  /** A page is non-empty exactly when rows exist at the offset, and the
      rows exist past it exactly when the count exceeds offset + limit. */
  lemma PageBounds(s: seq<ContentItem>, offset: nat, limit: nat)
    requires limit > 0
    ensures Page(s, offset, limit) != [] <==> offset < |s|
    ensures offset < |s| ==> |Page(s, offset, limit)| == (if offset + limit <= |s| then limit else |s| - offset)
  {
  }

  /** `order(field, descending)` over rows in id order: ties keep increasing
      id order. */
  function OrderDesc(s: seq<ContentItem>, key: ContentItem -> real): (r: seq<ContentItem>)
    ensures multiset(r) == multiset(s)
    ensures SortedDesc(r, key)
    ensures forall v :: WithKey(r, key, v) == WithKey(s, key, v)
  {
    SortDescSorted(s, key);
    forall v ensures WithKey(SortDesc(s, key), key, v) == WithKey(s, key, v) {
      SortDescStable(s, key, v);
    }
    SortDesc(s, key)
  }

  /** Is `id` one of the ids a moderation request names? An absent id in the
      list names nothing. */
  predicate Targeted(targets: seq<Option<Id>>, id: Id) {
    Some(id) in targets
  }

  /** The rows after `update({published: true, needs_review: false})` on the
      targets. */
  function ApproveRows(rows: map<Id, ContentItem>, targets: seq<Option<Id>>): (r: map<Id, ContentItem>)
    ensures r.Keys == rows.Keys
    ensures forall id :: id in rows && Targeted(targets, id) ==>
              r[id] == rows[id].(published := true, needs_review := false)
    ensures forall id :: id in rows && !Targeted(targets, id) ==> r[id] == rows[id]
  {
    map id | id in rows :: if Targeted(targets, id) then rows[id].(published := true, needs_review := false) else rows[id]
  }

  /** The rows after `delete().in('id', targets)`. */
  function DeleteRows(rows: map<Id, ContentItem>, targets: seq<Option<Id>>): (r: map<Id, ContentItem>)
    ensures forall id :: id in r <==> id in rows && !Targeted(targets, id)
    ensures forall id :: id in r ==> r[id] == rows[id]
  {
    map id | id in rows && !Targeted(targets, id) :: rows[id]
  }

  /** Approving is idempotent. */
  lemma ApproveIdempotent(rows: map<Id, ContentItem>, targets: seq<Option<Id>>)
    ensures ApproveRows(ApproveRows(rows, targets), targets) == ApproveRows(rows, targets)
  {
  }

  /** Approving keeps ids and URLs, so it keeps the table's invariants. */
  lemma ApproveKeepsKeys(rows: map<Id, ContentItem>, targets: seq<Option<Id>>)
    requires IdsConsistent(rows) && UrlsUnique(rows)
    ensures IdsConsistent(ApproveRows(rows, targets)) && UrlsUnique(ApproveRows(rows, targets))
    ensures forall id :: id in rows ==> ApproveRows(rows, targets)[id].url == rows[id].url
  {
  }

  /** Deleting twice is deleting once, and a deleted id is gone. */
  lemma DeleteIdempotent(rows: map<Id, ContentItem>, targets: seq<Option<Id>>)
    ensures DeleteRows(DeleteRows(rows, targets), targets) == DeleteRows(rows, targets)
    ensures forall i :: 0 <= i < |targets| && targets[i].Some? ==> targets[i].value !in DeleteRows(rows, targets)
  {
  }

  class ContentTable {
    var rows: map<Id, ContentItem>
    var nextId: Id

    ghost predicate Valid()
      reads this
    {
      && IdsConsistent(rows)
      && (forall id :: id in rows ==> id < nextId)
      && UrlsUnique(rows)
    }

    constructor ()
      ensures Valid() && rows == map[] && nextId == 0
    {
      rows := map[];
      nextId := 0;
    }

    /** `select('id').eq('url', url).single()` finds a row. */
    predicate HasUrl(url: string)
      reads this
    {
      exists id :: id in rows && rows[id].url == url
    }

    /** All rows, in increasing id order. */
    function Ordered(): (r: seq<ContentItem>)
      reads this
      requires Valid()
      ensures forall x :: x in r <==> x in rows.Values
    {
      var r := InIdOrder(rows, nextId);
      InIdOrderRowsStored(rows, nextId);
      InIdOrderComplete(rows, nextId);
      assert forall x :: x in rows.Values ==> rows[x.id] == x;
      r
    }

    /** `insert(draft)`: the row gets the next id; a URL that is already
        stored violates the unique constraint and nothing changes. */
    method Insert(draft: ContentItem) returns (row: Option<ContentItem>)
      requires Valid()
      modifies this
      ensures Valid()
      ensures old(HasUrl(draft.url)) ==> row.None? && rows == old(rows) && nextId == old(nextId)
      ensures !old(HasUrl(draft.url)) ==>
        && row == Some(draft.(id := old(nextId)))
        && rows == old(rows)[old(nextId) := draft.(id := old(nextId))]
        && nextId == old(nextId) + 1
    {
      if HasUrl(draft.url) {
        return None;
      }
      var r := draft.(id := nextId);
      rows := rows[nextId := r];
      nextId := nextId + 1;
      row := Some(r);
    }

    /** The moderation update on the targets. */
    method Approve(targets: seq<Option<Id>>)
      requires Valid()
      modifies this
      ensures Valid()
      ensures rows == ApproveRows(old(rows), targets) && nextId == old(nextId)
    {
      ApproveKeepsKeys(rows, targets);
      rows := ApproveRows(rows, targets);
    }

    /** The moderation delete of the targets. */
    method Delete(targets: seq<Option<Id>>)
      requires Valid()
      modifies this
      ensures Valid()
      ensures rows == DeleteRows(old(rows), targets) && nextId == old(nextId)
    {
      rows := DeleteRows(rows, targets);
    }
  }
}

/** The `votes` and `comment_votes` tables: each holds (user, target)
    pairs, at most one per pair, so a table is a set of pairs. */
module VoteStore {
  import opened Types

  type VotePair = (UserId, Id)

  /** The pairs after one toggle of `p`: removed if present, added if not. */
  function Toggled(pairs: set<VotePair>, p: VotePair): (r: set<VotePair>)
    ensures p in r <==> p !in pairs
    ensures forall q :: q != p ==> (q in r <==> q in pairs)
  {
    if p in pairs then pairs - {p} else pairs + {p}
  }

  /** Toggling the same pair twice restores the table. */
  lemma ToggleTwice(pairs: set<VotePair>, p: VotePair)
    ensures Toggled(Toggled(pairs, p), p) == pairs
  {
  }

  /** Toggles of different pairs commute. */
  lemma TogglesCommute(pairs: set<VotePair>, p: VotePair, q: VotePair)
    ensures Toggled(Toggled(pairs, p), q) == Toggled(Toggled(pairs, q), p)
  {
  }

  class PairTable {
    var pairs: set<VotePair>

    constructor (initial: set<VotePair>)
      ensures pairs == initial
    {
      pairs := initial;
    }

    /** `select('id').eq('user_id', user).eq(target column, target).single()`
        finds a row. */
    predicate Has(p: VotePair)
      reads this
    {
      p in pairs
    }

    /** `insert({user_id, target})`. */
    method Add(p: VotePair)
      modifies this
      ensures pairs == old(pairs) + {p}
    {
      pairs := pairs + {p};
    }

    /** `delete().eq('id', …)` of the pair's row. */
    method Remove(p: VotePair)
      modifies this
      ensures pairs == old(pairs) - {p}
    {
      pairs := pairs - {p};
    }
  }
}

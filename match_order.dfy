/** The ascending timestamp order in which the export and the session quality counters
    walk matches: a copy sorted with `(a, b) => a.timestamp - b.timestamp`, which
    `Array.prototype.sort` applies stably. */
module MatchOrder {
  import opened Types
  import opened StableSorting

  /** The comparator is negative exactly when a is older than b. */
  predicate Earlier(a: Match, b: Match)
  {
    a.timestamp < b.timestamp
  }

  function Chronological(matches: seq<Match>): (r: seq<Match>)
    ensures |r| == |matches|
  {
    StableSort(matches, Earlier)
  }

  /** The sorted copy holds the same matches, oldest first. */
  lemma ChronologicalOrder(matches: seq<Match>)
    ensures multiset(Chronological(matches)) == multiset(matches)
    ensures var r := Chronological(matches);
      forall i, j :: 0 <= i < j < |r| ==> r[i].timestamp <= r[j].timestamp
  {
    SortPermutes(matches, Earlier);
    assert StrictWeakOrder(Earlier);
    SortSorted(matches, Earlier);
  }

  /** The matches with timestamp t, in the order of the sequence. */
  function AtTime(matches: seq<Match>, t: int): (r: seq<Match>)
    ensures |r| <= |matches|
  {
    if |matches| == 0 then []
    else
      var last := matches[|matches| - 1];
      AtTime(matches[..|matches| - 1], t) + (if last.timestamp == t then [last] else [])
  }

  /** Under the timestamp comparator, the matches tied with x are those stored at x's time. */
  lemma {:induction false} TiedAreSameTime(matches: seq<Match>, x: Match)
    ensures TiedWith(matches, x, Earlier) == AtTime(matches, x.timestamp)
  {
    if |matches| > 0 {
      TiedAreSameTime(matches[..|matches| - 1], x);
    }
  }

  /** Matches sharing a timestamp keep their stored order, whatever the other matches are. */
  lemma ChronologicalKeepsTies(matches: seq<Match>, t: int)
    ensures AtTime(Chronological(matches), t) == AtTime(matches, t)
  {
    if |matches| > 0 {
      var x := matches[0].(timestamp := t);
      assert StrictWeakOrder(Earlier);
      SortStable(matches, x, Earlier);
      TiedAreSameTime(matches, x);
      TiedAreSameTime(Chronological(matches), x);
    }
  }
}

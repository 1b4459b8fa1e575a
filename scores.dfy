/** Game-score rules of the service layer: the token award for a recorded
    score and the "best scores first" ranking behind the high-score lists. */
module Scores {
  import opened Models
  import opened Collections

  /** Tokens earned by a recorded score: one per ten points, at least one.
      The source computes `max(1, score // 10)`; Dafny's `/` with the positive
      divisor 10 rounds toward negative infinity exactly as Python's `//`. */
  function TokenAward(score: int): (a: int)
    ensures a >= 1
    ensures score < 20 ==> a == 1
    ensures score >= 10 ==> 10 * a <= score < 10 * a + 10
  {
    var tenths := score / 10;
    if tenths < 1 then 1 else tenths
  }

  /** The awards of the documented examples, including a negative score that
      arrives unvalidated. */
  lemma TokenAwardExamples()
    ensures TokenAward(47) == 4 && TokenAward(3) == 1 && TokenAward(-5) == 1
  {
  }

  /** Scores never increase along the list. */
  ghost predicate SortedByScore(s: seq<GameScore>)
  {
    forall i, j :: 0 <= i < j < |s| ==> s[i].score >= s[j].score
  }

  /** A record scoring at least as much as every record of a sorted list can
      go in front of it. */
  lemma SortedCons(h: GameScore, t: seq<GameScore>)
    requires SortedByScore(t)
    requires forall x :: x in t ==> x.score <= h.score
    ensures SortedByScore([h] + t)
  {
    var r := [h] + t;
    forall i, j | 0 <= i < j < |r| ensures r[i].score >= r[j].score {
      if i == 0 {
        assert r[j] == t[j - 1];
      } else {
        assert r[i] == t[i - 1] && r[j] == t[j - 1];
      }
    }
  }

  /** Puts `g` into a list sorted by score, after every record that scores
      at least as much. */
  function Insert(g: GameScore, s: seq<GameScore>): (r: seq<GameScore>)
    requires SortedByScore(s)
    ensures SortedByScore(r)
    ensures multiset(r) == multiset(s) + multiset{g}
  {
    if s == [] then [g]
    else if g.score > s[0].score then
      SortedCons(g, s);
      [g] + s
    else
      var head, rest := s[0], s[1..];
      assert s == [head] + rest;
      assert SortedByScore(rest);
      var tail := Insert(g, rest);
      assert forall x :: x in tail ==> x.score <= head.score by {
        forall x | x in tail ensures x.score <= head.score {
          assert x in multiset(tail);
          if x != g {
            assert x in multiset(rest);
          }
        }
      }
      SortedCons(head, tail);
      [head] + tail
  }

  /** The records in order of score, highest first (the source's
      `order_by('-score')`). */
  function SortByScore(s: seq<GameScore>): (r: seq<GameScore>)
    ensures SortedByScore(r)
    ensures multiset(r) == multiset(s)
  {
    if s == [] then []
    else
      assert s == [s[0]] + s[1..];
      Insert(s[0], SortByScore(s[1..]))
  }

  /** Cutting a list sorted by score after `m` records leaves out nothing that
      scores more than a record kept. */
  lemma PrefixKeepsBest(sorted: seq<GameScore>, m: nat)
    requires SortedByScore(sorted) && m <= |sorted|
    ensures multiset(sorted[..m]) <= multiset(sorted)
    ensures forall g :: g in multiset(sorted) - multiset(sorted[..m]) ==>
              forall h :: h in sorted[..m] ==> g.score <= h.score
  {
    var top, rest := sorted[..m], sorted[m..];
    assert sorted == top + rest;
    assert multiset(sorted) == multiset(top) + multiset(rest);
    forall g, h | g in multiset(sorted) - multiset(top) && h in top
      ensures g.score <= h.score
    {
      assert g in rest;
      var j :| 0 <= j < |rest| && rest[j] == g;
      var i :| 0 <= i < |top| && top[i] == h;
      assert sorted[i] == h && sorted[m + j] == g;
    }
  }

  /** The `k` best records of `s`: all of them when there are at most `k`;
      every record left out scores no more than any record kept. */
  function TopByScore(s: seq<GameScore>, k: nat): (r: seq<GameScore>)
    ensures |r| == Min(k, |s|)
    ensures SortedByScore(r)
    ensures multiset(r) <= multiset(s)
    ensures |s| <= k ==> multiset(r) == multiset(s)
    ensures forall g :: g in r ==> g in s
    ensures forall g :: g in multiset(s) - multiset(r) ==> |r| == k && forall h :: h in r ==> g.score <= h.score
  {
    var sorted := SortByScore(s);
    assert |sorted| == |multiset(sorted)| == |s|;
    var m := Min(k, |s|);
    PrefixKeepsBest(sorted, m);
    assert m == |s| ==> sorted[..m] == sorted;
    forall g | g in sorted[..m] ensures g in s {
      assert g in multiset(sorted[..m]);
    }
    sorted[..m]
  }

  /** Scores 5, 90 and 40 come back as 90, 40, 5. */
  lemma TopByScoreExample(u: UserId, t: Timestamp)
    ensures var s := [GameScore(u, Puzzleaurus, 5, t), GameScore(u, Puzzleaurus, 90, t), GameScore(u, Puzzleaurus, 40, t)];
            TopByScore(s, 10) == [s[1], s[2], s[0]]
  {
  }
}

/** `getTopMatches`: the catalog order, stably sorted by descending score,
    cut to its first n ids. */
module Ranking {
  import opened JsRuntime
  import opened Scoring

  predicate Distinct(s: seq<string>)
  {
    forall i, j :: 0 <= i < j < |s| ==> s[i] != s[j]
  }

  /** The position of x's first occurrence. */
  function Pos(s: seq<string>, x: string): (k: nat)
    requires x in s
    ensures k < |s| && s[k] == x
    ensures forall j :: 0 <= j < k ==> s[j] != x
  {
    if s[0] == x then 0 else 1 + Pos(s[1..], x)
  }

  lemma PosOfDistinct(s: seq<string>, i: int)
    requires Distinct(s) && 0 <= i < |s|
    ensures Pos(s, s[i]) == i
  {
  }

  /** a ranks before b: a higher score, or the same score and an earlier
      place in the catalog order. */
  predicate Before(order: seq<string>, scores: map<string, real>, a: string, b: string)
    requires Scored(order, scores)
  {
    a in order && b in order
    && (scores[a] > scores[b] || (scores[a] == scores[b] && Pos(order, a) < Pos(order, b)))
  }

  predicate Ranked(order: seq<string>, scores: map<string, real>, r: seq<string>)
    requires Scored(order, scores)
  {
    forall i, j :: 0 <= i < j < |r| ==> Before(order, scores, r[i], r[j])
  }

  /** One step of a stable sort with comparator `scores[b] - scores[a]`: x,
      the latest id, goes after every id scoring at least as much. */
  function Insert(ranked: seq<string>, x: string, scores: map<string, real>): (r: seq<string>)
    requires x in scores && forall y :: y in ranked ==> y in scores
    ensures |r| == |ranked| + 1
    ensures forall y :: y in r <==> y in ranked || y == x
    ensures multiset(r) == multiset(ranked) + multiset{x}
  {
    if ranked == [] then [x]
    else if scores[ranked[0]] < scores[x] then [x] + ranked
    else
      assert ranked == [ranked[0]] + ranked[1..];
      [ranked[0]] + Insert(ranked[1..], x, scores)
  }

  /** The stable descending sort of the ids by score. */
  function SortByScore(ids: seq<string>, scores: map<string, real>): (r: seq<string>)
    requires Scored(ids, scores)
    ensures |r| == |ids|
    ensures forall y :: y in r <==> y in ids
    ensures multiset(r) == multiset(ids)
  {
    if ids == [] then []
    else
      var init := ids[..|ids| - 1];
      assert ids == init + [ids[|ids| - 1]];
      Insert(SortByScore(init, scores), ids[|ids| - 1], scores)
  }

  /** `getTopMatches(scores, n)` over the catalog order: a copy of the order,
      sorted, then `slice(0, n)` (a negative n counts back from the end). */
  function GetTopMatches(scores: map<string, real>, typeOrder: seq<string>, n: int): (r: seq<string>)
    requires Scored(typeOrder, scores)
    ensures |r| == if n >= 0 then Min(n, |typeOrder|) else Max(|typeOrder| + n, 0)
    ensures forall y :: y in r ==> y in typeOrder
    ensures multiset(r) <= multiset(typeOrder)
    ensures n >= |typeOrder| ==> multiset(r) == multiset(typeOrder)
  {
    var sorted := SortByScore(typeOrder, scores);
    var r := SliceTo(sorted, n);
    assert sorted == r + sorted[|r|..];
    r
  }

  /** `getTopMatches(scores)` with its default n = 3. */
  function GetTopMatchesDefault(scores: map<string, real>, typeOrder: seq<string>): (r: seq<string>)
    requires Scored(typeOrder, scores)
    ensures |r| == Min(3, |typeOrder|)
    ensures r == GetTopMatches(scores, typeOrder, 3)
  {
    GetTopMatches(scores, typeOrder, 3)
  }

  /** Inserting the latest id keeps a ranked list ranked. */
  lemma {:induction false} InsertRanked(order: seq<string>, scores: map<string, real>, ranked: seq<string>, x: string)
    requires Scored(order, scores) && x in order
    requires forall y :: y in ranked ==> y in order && Pos(order, y) < Pos(order, x)
    requires Ranked(order, scores, ranked)
    ensures Ranked(order, scores, Insert(ranked, x, scores))
  {
    if ranked == [] {
    } else if scores[ranked[0]] < scores[x] {
      forall j | 0 <= j < |ranked|
        ensures Before(order, scores, x, ranked[j])
      {
        if j > 0 {
          assert Before(order, scores, ranked[0], ranked[j]);
        }
      }
      ConsRanked(order, scores, x, ranked);
    } else {
      var rest := ranked[1..];
      RankedTail(order, scores, ranked);
      InsertRanked(order, scores, rest, x);
      var t := Insert(rest, x, scores);
      forall j | 0 <= j < |t|
        ensures Before(order, scores, ranked[0], t[j])
      {
        if t[j] != x {
          assert t[j] in rest;
          var m :| 0 <= m < |rest| && rest[m] == t[j];
          assert Before(order, scores, ranked[0], ranked[m + 1]);
        }
      }
      ConsRanked(order, scores, ranked[0], t);
    }
  }

  /** The tail of a ranked list is ranked. */
  lemma RankedTail(order: seq<string>, scores: map<string, real>, ranked: seq<string>)
    requires Scored(order, scores) && Ranked(order, scores, ranked) && ranked != []
    ensures Ranked(order, scores, ranked[1..])
  {
    var rest := ranked[1..];
    forall i, j | 0 <= i < j < |rest|
      ensures Before(order, scores, rest[i], rest[j])
    {
      assert rest[i] == ranked[i + 1] && rest[j] == ranked[j + 1];
    }
  }

  /** An id ranking before every id of a ranked list can head it. */
  lemma ConsRanked(order: seq<string>, scores: map<string, real>, h: string, t: seq<string>)
    requires Scored(order, scores) && Ranked(order, scores, t)
    requires forall j :: 0 <= j < |t| ==> Before(order, scores, h, t[j])
    ensures Ranked(order, scores, [h] + t)
  {
    var r := [h] + t;
    forall i, j | 0 <= i < j < |r|
      ensures Before(order, scores, r[i], r[j])
    {
      assert r[j] == t[j - 1];
      if i > 0 {
        assert r[i] == t[i - 1];
      }
    }
  }

  /** Sorting a prefix of a duplicate-free order ranks it. */
  lemma {:induction false} SortPrefixRanked(order: seq<string>, scores: map<string, real>, n: nat)
    requires Scored(order, scores) && Distinct(order) && n <= |order|
    ensures Scored(order[..n], scores)
    ensures Ranked(order, scores, SortByScore(order[..n], scores))
  {
    if n > 0 {
      var init := order[..n][..n - 1];
      assert init == order[..n - 1];
      SortPrefixRanked(order, scores, n - 1);
      var x := order[n - 1];
      PosOfDistinct(order, n - 1);
      forall y | y in SortByScore(init, scores)
        ensures y in order && Pos(order, y) < Pos(order, x)
      {
        var i :| 0 <= i < n - 1 && order[i] == y;
      }
      InsertRanked(order, scores, SortByScore(init, scores), x);
    }
  }

  /** The top matches come in ranking order: a higher score first, ties in
      catalog order. */
  lemma TopMatchesRanked(scores: map<string, real>, typeOrder: seq<string>, n: int)
    requires Scored(typeOrder, scores) && Distinct(typeOrder)
    ensures Ranked(typeOrder, scores, GetTopMatches(scores, typeOrder, n))
    ensures forall i, j :: 0 <= i < j < |GetTopMatches(scores, typeOrder, n)| ==>
              scores[GetTopMatches(scores, typeOrder, n)[i]] >= scores[GetTopMatches(scores, typeOrder, n)[j]]
  {
    SortPrefixRanked(typeOrder, scores, |typeOrder|);
    assert typeOrder[..|typeOrder|] == typeOrder;
  }

  /** The top matches are the best ones: each ranks before every id of the
      order that was left out. */
  lemma TopMatchesAreTop(scores: map<string, real>, typeOrder: seq<string>, n: int)
    requires Scored(typeOrder, scores) && Distinct(typeOrder)
    ensures var r := GetTopMatches(scores, typeOrder, n);
      forall x, y :: x in r && y in typeOrder && y !in r ==> Before(typeOrder, scores, x, y)
  {
    var sorted := SortByScore(typeOrder, scores);
    var r := GetTopMatches(scores, typeOrder, n);
    SortPrefixRanked(typeOrder, scores, |typeOrder|);
    assert typeOrder[..|typeOrder|] == typeOrder;
    assert r == sorted[..|r|];
    PrefixRanksFirst(typeOrder, scores, sorted, |r|);
  }

  /** In a ranked list, every id of a prefix ranks before every id after it. */
  lemma PrefixRanksFirst(order: seq<string>, scores: map<string, real>, ranked: seq<string>, k: nat)
    requires Scored(order, scores) && Ranked(order, scores, ranked) && k <= |ranked|
    ensures forall x, y :: x in ranked[..k] && y in ranked && y !in ranked[..k] ==> Before(order, scores, x, y)
  {
    forall x, y | x in ranked[..k] && y in ranked && y !in ranked[..k]
      ensures Before(order, scores, x, y)
    {
      var i :| 0 <= i < k && ranked[..k][i] == x;
      var j :| 0 <= j < |ranked| && ranked[j] == y;
      assert ranked[i] == x;
    }
  }

  /** The top matches never repeat an id. */
  lemma TopMatchesDistinct(scores: map<string, real>, typeOrder: seq<string>, n: int)
    requires Scored(typeOrder, scores) && Distinct(typeOrder)
    ensures Distinct(GetTopMatches(scores, typeOrder, n))
  {
    TopMatchesRanked(scores, typeOrder, n);
  }

  /** No id ranks before the first maximum of the catalog order. */
  lemma NothingBeforeFirstBest(order: seq<string>, scores: map<string, real>, k: int, y: string)
    requires Scored(order, scores) && Distinct(order) && FirstBestAt(order, scores, k)
    ensures !Before(order, scores, y, order[k])
  {
    PosOfDistinct(order, k);
    if y in order {
      var p := Pos(order, y);
      assert scores[order[p]] <= scores[order[k]];
      assert p < k ==> scores[order[p]] < scores[order[k]];
    }
  }

  /** The type `calculateScore` picks, the first maximum, heads the ranking. */
  lemma FirstBestLeads(scores: map<string, real>, typeOrder: seq<string>, k: int, n: int)
    requires Scored(typeOrder, scores) && Distinct(typeOrder)
    requires FirstBestAt(typeOrder, scores, k) && n >= 1
    ensures GetTopMatches(scores, typeOrder, n)[0] == typeOrder[k]
  {
    var r := SortByScore(typeOrder, scores);
    SortPrefixRanked(typeOrder, scores, |typeOrder|);
    assert typeOrder[..|typeOrder|] == typeOrder;
    assert GetTopMatches(scores, typeOrder, n)[0] == r[0];
    assert typeOrder[k] in r;
    var m :| 0 <= m < |r| && r[m] == typeOrder[k];
    assert m == 0 || Before(typeOrder, scores, r[0], r[m]);
    NothingBeforeFirstBest(typeOrder, scores, k, r[0]);
  }
}

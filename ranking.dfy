/**
 * Ranking of classifier scores, shared by the web page and the Gradio app:
 * JavaScript's `entries.sort(([, a], [, b]) => b - a)` and Python's
 * `sorted(items, key=prob, reverse=True)` are both STABLE sorts into
 * non-increasing probability, so entries with equal probability keep the
 * order they had in the input (there is no tie-break by name).
 */
module Ranking {
  import opened Wrappers

  /** One (class name, probability) entry of a classifier's output. */
  datatype Scored = Scored(name: string, prob: real)

  predicate NonIncreasing(s: seq<Scored>)
  {
    forall i, j :: 0 <= i < j < |s| ==> s[i].prob >= s[j].prob
  }

  /** The entries of `s` whose probability is exactly `p`, in their order in `s`. */
  function WithProb(s: seq<Scored>, p: real): seq<Scored>
  {
    if s == [] then [] else (if s[0].prob == p then [s[0]] else []) + WithProb(s[1..], p)
  }

  /** `r` orders the entries of `s` the way a stable sort would: same entries per probability, same order among them. */
  ghost predicate SameTies(r: seq<Scored>, s: seq<Scored>)
  {
    forall p :: WithProb(r, p) == WithProb(s, p)
  }

  /** Inserts `x` in front of the first entry whose probability is not above its own. */
  function Insert(x: Scored, s: seq<Scored>): (r: seq<Scored>)
    ensures |r| == |s| + 1
    ensures multiset(r) == multiset(s) + multiset{x}
  {
    if s == [] || s[0].prob <= x.prob then [x] + s
    else
      assert s == [s[0]] + s[1..];
      [s[0]] + Insert(x, s[1..])
  }

  lemma {:induction false} InsertBounded(x: Scored, s: seq<Scored>, b: real)
    requires x.prob <= b && forall i :: 0 <= i < |s| ==> s[i].prob <= b
    ensures forall i :: 0 <= i < |s| + 1 ==> Insert(x, s)[i].prob <= b
  {
    if s != [] && s[0].prob > x.prob {
      InsertBounded(x, s[1..], b);
    }
  }

  lemma {:induction false} InsertSorted(x: Scored, s: seq<Scored>)
    requires NonIncreasing(s)
    ensures NonIncreasing(Insert(x, s))
  {
    if s != [] && s[0].prob > x.prob {
      InsertSorted(x, s[1..]);
      InsertBounded(x, s[1..], s[0].prob);
    }
  }

  /** The stable descending sort, as an insertion sort from the back. */
  function SortDesc(s: seq<Scored>): (r: seq<Scored>)
    ensures |r| == |s|
    ensures multiset(r) == multiset(s)
    ensures NonIncreasing(r)
  {
    if s == [] then []
    else
      var rest := SortDesc(s[1..]);
      assert s == [s[0]] + s[1..];
      InsertSorted(s[0], rest);
      Insert(s[0], rest)
  }

  lemma {:induction false} InsertWithProb(x: Scored, s: seq<Scored>, p: real)
    ensures WithProb(Insert(x, s), p) == (if x.prob == p then [x] else []) + WithProb(s, p)
  {
    if s == [] || s[0].prob <= x.prob {
      assert ([x] + s)[1..] == s;
    } else {
      var r := [s[0]] + Insert(x, s[1..]);
      assert r[1..] == Insert(x, s[1..]);
      InsertWithProb(x, s[1..], p);
    }
  }

  lemma {:induction false} SortDescWithProb(s: seq<Scored>, p: real)
    ensures WithProb(SortDesc(s), p) == WithProb(s, p)
  {
    if s != [] {
      SortDescWithProb(s[1..], p);
      InsertWithProb(s[0], SortDesc(s[1..]), p);
    }
  }

  /** The sort is stable: among entries of equal probability the input order is kept. */
  lemma SortDescStable(s: seq<Scored>)
    ensures SameTies(SortDesc(s), s)
  {
    forall p {
      SortDescWithProb(s, p);
    }
  }

  lemma {:induction false} WithProbHead(s: seq<Scored>)
    requires s != [] && NonIncreasing(s)
    ensures WithProb(s, s[0].prob) != [] && WithProb(s, s[0].prob)[0] == s[0]
    ensures forall p :: p > s[0].prob ==> WithProb(s, p) == []
  {
    forall p | p > s[0].prob
      ensures WithProb(s, p) == []
    {
      WithProbAbove(s, p);
    }
  }

  lemma {:induction false} WithProbAbove(s: seq<Scored>, p: real)
    requires forall i :: 0 <= i < |s| ==> s[i].prob < p
    ensures WithProb(s, p) == []
  {
    if s != [] {
      WithProbAbove(s[1..], p);
    }
  }

  /** An entry lies in the tie group at `p` exactly when it is an entry of `s` with confidence `p`; in particular every entry lies in the tie group of its own confidence. */
  lemma {:induction false} WithProbMember(s: seq<Scored>, p: real, e: Scored)
    ensures e in WithProb(s, p) <==> e in s && e.prob == p
  {
    if s != [] {
      WithProbMember(s[1..], p, e);
      assert s == [s[0]] + s[1..];
    }
  }

  /**
   * Uniqueness: a non-increasing sequence with the same ties as `s` is fully
   * determined, so SortDesc is THE stable descending sort of `s`.
   */
  lemma {:induction false} StableSortUnique(r: seq<Scored>, s: seq<Scored>)
    requires NonIncreasing(r) && SameTies(r, s)
    ensures r == SortDesc(s)
  {
    SortDescStable(s);
    SameTiesDetermine(r, SortDesc(s));
  }

  lemma {:induction false} SameTiesDetermine(a: seq<Scored>, b: seq<Scored>)
    requires NonIncreasing(a) && NonIncreasing(b)
    requires forall p :: WithProb(a, p) == WithProb(b, p)
    ensures a == b
    decreases |a|
  {
    if a == [] && b != [] {
      WithProbHead(b);
      assert false;
    } else if a != [] && b == [] {
      WithProbHead(a);
      assert false;
    } else if a != [] {
      WithProbHead(a);
      WithProbHead(b);
      assert a[0].prob == b[0].prob;
      assert a[0] == b[0];
      forall p
        ensures WithProb(a[1..], p) == WithProb(b[1..], p)
      {
        var h := if a[0].prob == p then [a[0]] else [];
        assert WithProb(a, p) == h + WithProb(a[1..], p);
        assert WithProb(b, p) == h + WithProb(b[1..], p);
        assert WithProb(a[1..], p) == WithProb(a, p)[|h|..];
        assert WithProb(b[1..], p) == WithProb(b, p)[|h|..];
      }
      SameTiesDetermine(a[1..], b[1..]);
      assert a == [a[0]] + a[1..] && b == [b[0]] + b[1..];
    }
  }

  /** The first `k` entries of the stable descending sort (`.slice(0, k)`, `[:k]`). */
  function Top(s: seq<Scored>, k: nat): (r: seq<Scored>)
    ensures |r| == Min(k, |s|)
    ensures NonIncreasing(r)
    ensures multiset(r) <= multiset(s)
  {
    var sorted := SortDesc(s);
    assert sorted == sorted[..Min(k, |s|)] + sorted[Min(k, |s|)..];
    sorted[..Min(k, |s|)]
  }

  /** Nothing left out of the top `k` scores above anything kept. */
  lemma TopDominates(s: seq<Scored>, k: nat)
    ensures forall e, t :: e in s && e !in Top(s, k) && t in Top(s, k) ==> e.prob <= t.prob
  {
    var sorted := SortDesc(s);
    var m := Min(k, |s|);
    forall e, t | e in s && e !in Top(s, k) && t in Top(s, k)
      ensures e.prob <= t.prob
    {
      assert e in multiset(sorted);
      var j :| 0 <= j < |sorted| && sorted[j] == e;
      var i :| 0 <= i < m && sorted[i] == t;
      assert j >= m;
    }
  }

  /** The top `k` keep their stable order: they are the first `k` of the stable sort. */
  lemma TopIsStablePrefix(s: seq<Scored>, k: nat, r: seq<Scored>)
    requires NonIncreasing(r) && SameTies(r, s)
    ensures |r| == |s| && Top(s, k) == r[..Min(k, |s|)]
  {
    StableSortUnique(r, s);
  }

  /** The best entry leads the ranking: it belongs to the input and no input entry beats it. */
  lemma TopHeadIsMaximum(s: seq<Scored>, k: nat)
    requires s != [] && k > 0
    ensures Top(s, k)[0] in s
    ensures forall e :: e in s ==> e.prob <= Top(s, k)[0].prob
  {
    var sorted := SortDesc(s);
    assert sorted[0] in multiset(s);
    forall e | e in s
      ensures e.prob <= sorted[0].prob
    {
      assert e in multiset(sorted);
    }
  }
}

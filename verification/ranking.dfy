/** Ordering scored candidates: the stable descending sort that feeds the
    top-K context, and the strict-`>` scan that picks the single best note.
    A stable sort is pinned down by two facts: the output is sorted by
    descending score, and for every score value the candidates carrying that
    score appear in the same relative order as in the input. */
module Ranking {
  import opened Domain
  import opened Similarity

  datatype Scored = Scored(note: Note, score: real)

  /** Scores never increase along the sequence. */
  predicate SortedDesc(s: seq<Scored>)
  {
    forall i, j :: 0 <= i < j < |s| ==> s[i].score >= s[j].score
  }

  /** The subsequence of entries whose score is `v`. */
  function WithScore(s: seq<Scored>, v: real): seq<Scored>
  {
    if s == [] then [] else (if s[0].score == v then [s[0]] else []) + WithScore(s[1..], v)
  }

  /** Every score class lists the same entries in the same order. */
  ghost predicate SameClasses(a: seq<Scored>, b: seq<Scored>)
  {
    forall v :: WithScore(a, v) == WithScore(b, v)
  }

  /** `output` is a stable descending sort of `input`. */
  ghost predicate IsStableDescSort(input: seq<Scored>, output: seq<Scored>)
  {
    |output| == |input| && SortedDesc(output) && SameClasses(output, input)
  }

  lemma {:induction false} WithScoreMembers(s: seq<Scored>, v: real, x: Scored)
    ensures x in WithScore(s, v) <==> x in s && x.score == v
  {
    if s != [] {
      WithScoreMembers(s[1..], v, x);
      assert s == [s[0]] + s[1..];
    }
  }

  lemma SameClassesSameMembers(a: seq<Scored>, b: seq<Scored>)
    requires SameClasses(a, b)
    ensures forall x :: x in a <==> x in b
  {
    forall x
      ensures x in a <==> x in b
    {
      WithScoreMembers(a, x.score, x);
      WithScoreMembers(b, x.score, x);
      assert WithScore(a, x.score) == WithScore(b, x.score);
    }
  }

  lemma WithScoreCons(x: Scored, t: seq<Scored>, v: real)
    ensures WithScore([x] + t, v) == (if x.score == v then [x] else []) + WithScore(t, v)
  {
    assert ([x] + t)[1..] == t;
  }

  /** Places `x` in front of the first entry whose score is not larger, so
      that `x` stays ahead of the entries it ties with. */
  function Insert(x: Scored, t: seq<Scored>): (r: seq<Scored>)
    ensures |r| == |t| + 1
  {
    if t == [] || t[0].score <= x.score then [x] + t else [t[0]] + Insert(x, t[1..])
  }

  /** Inserting into a sorted sequence keeps it sorted; every entry is
      either `x` or came from `t`. */
  lemma {:induction false} InsertSorted(x: Scored, t: seq<Scored>)
    ensures forall y :: y in Insert(x, t) ==> y == x || y in t
    ensures SortedDesc(t) ==> SortedDesc(Insert(x, t))
  {
    if t == [] || t[0].score <= x.score {
    } else {
      var rest := Insert(x, t[1..]);
      InsertSorted(x, t[1..]);
      assert Insert(x, t) == [t[0]] + rest;
      if SortedDesc(t) {
        assert SortedDesc(t[1..]);
        forall j | 0 <= j < |rest|
          ensures rest[j].score <= t[0].score
        {
          assert rest[j] in rest;
          if rest[j] != x {
            var k :| 0 <= k < |t[1..]| && t[1..][k] == rest[j];
            assert t[k + 1] == rest[j];
          }
        }
      }
    }
  }

  /** Inserting `x` only adds `x` to its own class, at the front. */
  lemma {:induction false} InsertWithScore(x: Scored, t: seq<Scored>, v: real)
    ensures WithScore(Insert(x, t), v) == (if x.score == v then [x] else []) + WithScore(t, v)
  {
    if t == [] || t[0].score <= x.score {
      WithScoreCons(x, t, v);
    } else {
      InsertWithScore(x, t[1..], v);
      WithScoreCons(t[0], Insert(x, t[1..]), v);
      WithScoreCons(t[0], t[1..], v);
      assert t == [t[0]] + t[1..];
    }
  }

  lemma InsertKeepsClasses(x: Scored, t: seq<Scored>, rest: seq<Scored>)
    requires SameClasses(t, rest)
    ensures SameClasses(Insert(x, t), [x] + rest)
  {
    forall v
      ensures WithScore(Insert(x, t), v) == WithScore([x] + rest, v)
    {
      InsertWithScore(x, t, v);
      WithScoreCons(x, rest, v);
    }
  }

  /** The stable descending sort (`sorted(comparingDouble(score).reversed())`). */
  function SortDesc(s: seq<Scored>): (r: seq<Scored>)
    ensures |r| == |s|
    ensures IsStableDescSort(s, r)
  {
    if s == [] then []
    else
      var t := SortDesc(s[1..]);
      InsertKeepsClasses(s[0], t, s[1..]);
      InsertSorted(s[0], t);
      assert [s[0]] + s[1..] == s;
      Insert(s[0], t)
  }

  /** Two sequences sorted by descending score with the same score classes
      are equal. */
  lemma {:induction false} SameClassesSortedEqual(a: seq<Scored>, b: seq<Scored>)
    requires SortedDesc(a) && SortedDesc(b) && SameClasses(a, b)
    ensures a == b
  {
    SameClassesSameMembers(a, b);
    if |a| > 0 {
      assert a[0] in b;
    }
    if |b| > 0 {
      assert b[0] in a;
    }
    if a == [] || b == [] {
    } else {
      assert a[0] in b;
      assert b[0] in a;
      var m := a[0].score;
      assert b[0].score == m;
      assert a == [a[0]] + a[1..] && b == [b[0]] + b[1..];
      forall v
        ensures WithScore(a, v) == (if a[0].score == v then [a[0]] else []) + WithScore(a[1..], v)
        ensures WithScore(b, v) == (if b[0].score == v then [b[0]] else []) + WithScore(b[1..], v)
      {
        WithScoreCons(a[0], a[1..], v);
        WithScoreCons(b[0], b[1..], v);
      }
      assert WithScore(a, m) == WithScore(b, m);
      assert WithScore(a, m)[0] == a[0] && WithScore(b, m)[0] == b[0];
      forall v
        ensures WithScore(a[1..], v) == WithScore(b[1..], v)
      {
        assert WithScore(a, v) == WithScore(b, v);
        var pa := if a[0].score == v then [a[0]] else [];
        assert WithScore(a, v) == pa + WithScore(a[1..], v);
        assert WithScore(b, v) == pa + WithScore(b[1..], v);
        assert WithScore(a[1..], v) == WithScore(a, v)[|pa|..];
      }
      SameClassesSortedEqual(a[1..], b[1..]);
    }
  }

  /** Any stable descending sort of `s` is `SortDesc(s)`: the ranking does
      not depend on which stable sorting algorithm produced it. */
  lemma StableSortUnique(s: seq<Scored>, output: seq<Scored>)
    requires IsStableDescSort(s, output)
    ensures output == SortDesc(s)
  {
    var r := SortDesc(s);
    forall v
      ensures WithScore(output, v) == WithScore(r, v)
    {
      assert WithScore(output, v) == WithScore(s, v);
      assert WithScore(r, v) == WithScore(s, v);
    }
    SameClassesSortedEqual(output, r);
  }

  /** The first `min(k, |s|)` entries of the stable descending sort. */
  function TopK(s: seq<Scored>, k: nat): (r: seq<Scored>)
    ensures |r| == Min(k, |s|)
    ensures SortedDesc(r)
    ensures forall x :: x in r ==> x in s
    ensures forall output :: IsStableDescSort(s, output) ==> r == output[..|r|]
  {
    var sorted := SortDesc(s);
    SameClassesSameMembers(sorted, s);
    forall output | IsStableDescSort(s, output)
      ensures sorted[..Min(k, |s|)] == output[..Min(k, |s|)]
    {
      StableSortUnique(s, output);
    }
    sorted[..Min(k, |s|)]
  }

  /** Index `i` holds a maximal score and every earlier entry scores
      strictly less: the entry a left-to-right scan with `>` ends on. */
  predicate IsBestAt(s: seq<Scored>, i: int)
  {
    && 0 <= i < |s|
    && (forall j :: 0 <= j < |s| ==> s[j].score <= s[i].score)
    && (forall j :: 0 <= j < i ==> s[j].score < s[i].score)
  }

  lemma {:induction false} WithScoreFirst(s: seq<Scored>, i: int, v: real)
    requires 0 <= i < |s| && s[i].score == v
    requires forall j :: 0 <= j < i ==> s[j].score != v
    ensures |WithScore(s, v)| > 0 && WithScore(s, v)[0] == s[i]
  {
    WithScoreCons(s[0], s[1..], v);
    assert s == [s[0]] + s[1..];
    if i > 0 {
      WithScoreFirst(s[1..], i - 1, v);
    }
  }

  /** The entry the strict-`>` scan picks leads every non-empty top-K. */
  lemma BestLeadsTopK(s: seq<Scored>, i: int, k: nat)
    requires IsBestAt(s, i) && k > 0
    ensures |TopK(s, k)| > 0 && TopK(s, k)[0] == s[i]
  {
    BestIsSortHead(s, i);
    assert IsStableDescSort(s, SortDesc(s));
  }

  /** The entry the strict-`>` scan picks heads the stable descending sort. */
  lemma BestIsSortHead(s: seq<Scored>, i: int)
    requires IsBestAt(s, i)
    ensures |SortDesc(s)| > 0 && SortDesc(s)[0] == s[i]
  {
    var r := SortDesc(s);
    SameClassesSameMembers(r, s);
    var m := s[i].score;
    assert s[i] in s;
    assert r[0] in s;
    assert s[i] in r;
    assert r[0].score == m;
    WithScoreFirst(r, 0, m);
    WithScoreFirst(s, i, m);
    assert WithScore(r, m) == WithScore(s, m);
  }
}

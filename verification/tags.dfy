/** `GET /tags`: every comma-separated piece of every tag column, trimmed,
    without blanks and duplicates, in natural string order. */
module Tags {
  import opened JavaText
  import opened Domain

  /** No string occurs twice. */
  predicate NoDuplicates(s: seq<string>)
  {
    forall i, j :: 0 <= i < j < |s| ==> s[i] != s[j]
  }

  /** Strictly ascending in `compareTo` order. */
  predicate StrictlyAscending(s: seq<string>)
  {
    forall i, j :: 0 <= i < j < |s| ==> LexLe(s[i], s[j]) && s[i] != s[j]
  }

  function TrimAll(parts: seq<string>): (r: seq<string>)
    ensures |r| == |parts|
    ensures forall i :: 0 <= i < |parts| ==> r[i] == Trim(parts[i])
  {
    seq(|parts|, i requires 0 <= i < |parts| => Trim(parts[i]))
  }

  /** The trimmed pieces of one note's tag column; none for a null tag. */
  function PiecesOf(n: Note): seq<string>
  {
    if n.tag.Some? then TrimAll(JavaSplit(n.tag.value)) else []
  }

  /** The `flatMap` over the listing. */
  function TagPieces(listing: seq<Note>): (r: seq<string>)
    ensures forall x :: x in r <==> exists n :: n in listing && x in PiecesOf(n)
  {
    if listing == [] then []
    else
      var rest := TagPieces(listing[1..]);
      assert forall n :: n in listing <==> n == listing[0] || n in listing[1..];
      PiecesOf(listing[0]) + rest
  }

  /** `filter(tag -> !tag.isBlank())`. */
  function NonBlank(s: seq<string>): (r: seq<string>)
    ensures forall x :: x in r <==> x in s && !IsBlank(x)
  {
    if s == [] then []
    else (if IsBlank(s[0]) then [] else [s[0]]) + NonBlank(s[1..])
  }

  /** `distinct()`: keeps the first occurrence of each string. */
  function Distinct(s: seq<string>): (r: seq<string>)
    ensures forall x :: x in r <==> x in s
    ensures NoDuplicates(r)
  {
    if s == [] then []
    else
      var init := s[..|s| - 1];
      var last := s[|s| - 1];
      var d := Distinct(init);
      assert s == init + [last];
      if last in init then d else d + [last]
  }

  /** Places `x` in front of the first string it does not come after. */
  function Insert(x: string, t: seq<string>): (r: seq<string>)
    ensures |r| == |t| + 1
    ensures forall y :: y in r <==> y == x || y in t
  {
    if t == [] || LexLe(x, t[0]) then [x] + t
    else
      var rest := Insert(x, t[1..]);
      assert forall y :: y in t <==> y == t[0] || y in t[1..];
      [t[0]] + rest
  }

  /** Inserting a new string into a strictly ascending sequence keeps it
      strictly ascending. */
  lemma {:induction false} InsertStrict(x: string, t: seq<string>)
    requires StrictlyAscending(t) && x !in t
    ensures StrictlyAscending(Insert(x, t))
  {
    if t == [] {
    } else if LexLe(x, t[0]) {
      forall j | 0 <= j < |t|
        ensures LexLe(x, t[j]) && x != t[j]
      {
        if j > 0 {
          LexLeTransitive(x, t[0], t[j]);
        }
      }
    } else {
      LexLeTotal(x, t[0]);
      assert x != t[0];
      var rest := Insert(x, t[1..]);
      InsertStrict(x, t[1..]);
      forall j | 0 <= j < |rest|
        ensures LexLe(t[0], rest[j]) && t[0] != rest[j]
      {
        assert rest[j] in rest;
        if rest[j] != x {
          var k :| 0 <= k < |t[1..]| && t[1..][k] == rest[j];
          assert t[k + 1] == rest[j];
        }
      }
    }
  }

  /** `sorted()` by natural order (insertion sort). */
  function SortStrings(s: seq<string>): (r: seq<string>)
    ensures |r| == |s|
    ensures forall x :: x in r <==> x in s
  {
    if s == [] then []
    else
      assert forall y :: y in s <==> y == s[0] || y in s[1..];
      Insert(s[0], SortStrings(s[1..]))
  }

  /** Sorting distinct strings gives a strictly ascending sequence. */
  lemma {:induction false} SortStrict(s: seq<string>)
    requires NoDuplicates(s)
    ensures StrictlyAscending(SortStrings(s))
  {
    if s != [] {
      assert NoDuplicates(s[1..]);
      SortStrict(s[1..]);
      assert s[0] !in s[1..];
      InsertStrict(s[0], SortStrings(s[1..]));
    }
  }

  /** `getAllTags`: strictly ascending, each tag a trimmed piece of some
      note's tag column, none blank, and every non-blank piece present. */
  function GetAllTags(listing: seq<Note>): (r: seq<string>)
    ensures StrictlyAscending(r)
    ensures forall x :: x in r <==> x in TagPieces(listing) && !IsBlank(x)
    ensures forall x :: x in r ==> !IsBlank(x) && Trim(x) == x
  {
    var pieces := TagPieces(listing);
    var d := Distinct(NonBlank(pieces));
    SortStrict(d);
    var r := SortStrings(d);
    forall x | x in r
      ensures Trim(x) == x
    {
      var n :| n in listing && x in PiecesOf(n);
      var parts := JavaSplit(n.tag.value);
      var i :| 0 <= i < |PiecesOf(n)| && PiecesOf(n)[i] == x;
      TrimIdempotent(parts[i]);
    }
    r
  }

  /** Two strictly ascending sequences with the same strings are equal. */
  lemma {:induction false} StrictlyAscendingUnique(a: seq<string>, b: seq<string>)
    requires StrictlyAscending(a) && StrictlyAscending(b)
    requires forall x :: x in a <==> x in b
    ensures a == b
  {
    if |a| > 0 {
      assert a[0] in b;
    }
    if |b| > 0 {
      assert b[0] in a;
    }
    if a != [] && b != [] {
      var i :| 0 <= i < |b| && b[i] == a[0];
      var j :| 0 <= j < |a| && a[j] == b[0];
      if i > 0 && j > 0 {
        assert LexLe(b[0], b[i]) && LexLe(a[0], a[j]);
        LexLeAntisymmetric(a[0], b[0]);
        assert false;
      }
      assert a[0] == b[0];
      forall x
        ensures x in a[1..] <==> x in b[1..]
      {
        if x in a[1..] {
          var k :| 0 <= k < |a[1..]| && a[1..][k] == x;
          assert a[k + 1] == x && x != a[0];
          assert x in b;
        }
        if x in b[1..] {
          var k :| 0 <= k < |b[1..]| && b[1..][k] == x;
          assert b[k + 1] == x && x != b[0];
          assert x in a;
        }
      }
      StrictlyAscendingUnique(a[1..], b[1..]);
      assert a == [a[0]] + a[1..] && b == [b[0]] + b[1..];
    }
  }

  /** The tag list depends only on which notes are stored, not on the
      order `findAll` returns them in. */
  lemma TagsIgnoreListingOrder(l1: seq<Note>, l2: seq<Note>)
    requires forall n :: n in l1 <==> n in l2
    ensures GetAllTags(l1) == GetAllTags(l2)
  {
    StrictlyAscendingUnique(GetAllTags(l1), GetAllTags(l2));
  }
}

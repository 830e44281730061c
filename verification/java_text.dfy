/** The few pieces of java.lang.String behaviour the core relies on:
    `isBlank`, `trim`, lower-casing for the "today" test, `contains`,
    `split(",")`, `compareTo` and the decimal rendering of a `long`. */
module JavaText {
  import opened Wrappers

  /** `Character.isWhitespace`: the Unicode space, line and paragraph
      separators except the three no-break spaces, plus the ASCII controls
      U+0009..U+000D and U+001C..U+001F. */
  predicate IsWhitespace(c: char)
  {
    var u := c as int;
    || (0x09 <= u <= 0x0D) || (0x1C <= u <= 0x20)
    || u == 0x1680
    || (0x2000 <= u <= 0x2006) || (0x2008 <= u <= 0x200A)
    || u == 0x2028 || u == 0x2029
    || u == 0x205F || u == 0x3000
  }

  /** `String.isBlank`: empty or whitespace only. */
  predicate IsBlank(s: string)
  {
    forall i :: 0 <= i < |s| ==> IsWhitespace(s[i])
  }

  /** `s == null || s.isBlank()`: a missing or blank request value. */
  predicate MissingOrBlank(s: Option<string>)
  {
    s.None? || IsBlank(s.value)
  }

  /** `String.trim` strips every leading and trailing char at or below U+0020. */
  predicate IsTrimmable(c: char)
  {
    c <= ' '
  }

  /** `isBlank` and `trim` judge chars differently. Every ASCII whitespace
      char is trimmed; the ASCII chars `trim` removes that are not
      whitespace are the controls U+0000..U+0008 and U+000E..U+001B; and
      the whitespace `trim` keeps is exactly the whitespace above U+0020. */
  lemma WhitespaceVersusTrimmable(c: char)
    ensures IsWhitespace(c) && c as int < 0x80 ==> IsTrimmable(c)
    ensures IsTrimmable(c) && !IsWhitespace(c) <==> c as int <= 0x08 || 0x0E <= c as int <= 0x1B
    ensures IsWhitespace(c) && !IsTrimmable(c) <==> IsWhitespace(c) && c as int > 0x20
  {
  }

  function TrimStart(s: string): (r: string)
    ensures |r| <= |s| && r == s[|s| - |r|..]
    ensures forall i :: 0 <= i < |s| - |r| ==> IsTrimmable(s[i])
    ensures |r| > 0 ==> !IsTrimmable(r[0])
  {
    if |s| > 0 && IsTrimmable(s[0]) then TrimStart(s[1..]) else s
  }

  function TrimEnd(s: string): (r: string)
    ensures |r| <= |s| && r == s[..|r|]
    ensures forall i :: |r| <= i < |s| ==> IsTrimmable(s[i])
    ensures |r| > 0 ==> !IsTrimmable(r[|r| - 1])
  {
    if |s| > 0 && IsTrimmable(s[|s| - 1]) then TrimEnd(s[..|s| - 1]) else s
  }

  /** `String.trim`: the result is a slice of `s` that neither starts nor
      ends with a trimmable char, and only trimmable chars were cut off. */
  function Trim(s: string): (r: string)
    ensures exists i, j :: 0 <= i <= j <= |s| && r == s[i..j]
                           && (forall k :: 0 <= k < i ==> IsTrimmable(s[k]))
                           && (forall k :: j <= k < |s| ==> IsTrimmable(s[k]))
    ensures |r| > 0 ==> !IsTrimmable(r[0]) && !IsTrimmable(r[|r| - 1])
  {
    var t := TrimStart(s);
    var r := TrimEnd(t);
    var i := |s| - |t|;
    assert r == s[i..i + |r|];
    r
  }

  lemma TrimStartFixed(s: string)
    requires |s| == 0 || !IsTrimmable(s[0])
    ensures TrimStart(s) == s
  {
  }

  lemma TrimEndFixed(s: string)
    requires |s| == 0 || !IsTrimmable(s[|s| - 1])
    ensures TrimEnd(s) == s
  {
  }

  /** Trimming twice is trimming once. */
  lemma TrimIdempotent(s: string)
    ensures Trim(Trim(s)) == Trim(s)
  {
    var r := Trim(s);
    TrimStartFixed(r);
    TrimEndFixed(r);
  }

  /** A blank string of ASCII chars trims to nothing. */
  lemma BlankAsciiTrimsEmpty(s: string)
    requires IsBlank(s)
    requires forall i :: 0 <= i < |s| ==> s[i] as int < 0x80
    ensures Trim(s) == ""
  {
    forall k | 0 <= k < |s|
      ensures IsTrimmable(s[k])
    {
      WhitespaceVersusTrimmable(s[k]);
    }
  }

  /** Java's `null` rendered by string concatenation. */
  function Show(s: Option<string>): string
  {
    match s
    case Some(v) => v
    case None => "null"
  }

  /** `toLowerCase(Locale.ROOT)` restricted to ASCII letters. No other char
      lower-cases to one of the letters of "today", so the "today" test is
      unaffected by the restriction. */
  function LowerChar(c: char): char
  {
    if 'A' <= c <= 'Z' then (c as int - 'A' as int + 'a' as int) as char else c
  }

  function Lower(s: string): (r: string)
    ensures |r| == |s|
    ensures forall i :: 0 <= i < |s| ==> r[i] == LowerChar(s[i])
  {
    if |s| == 0 then [] else [LowerChar(s[0])] + Lower(s[1..])
  }

  /** `String.contains`, written as a scan over start positions. */
  predicate Contains(s: string, t: string)
  {
    t <= s || (|s| > 0 && Contains(s[1..], t))
  }

  /** `t` occurs in `s` starting at position `i`. */
  predicate OccursAt(s: string, t: string, i: int)
  {
    0 <= i && i + |t| <= |s| && s[i..i + |t|] == t
  }

  /** The scan finds `t` exactly when `t` occurs at some position of `s`. */
  lemma {:induction false} ContainsIffOccurs(s: string, t: string)
    ensures Contains(s, t) <==> exists i :: OccursAt(s, t, i)
  {
    if t <= s {
      assert OccursAt(s, t, 0);
    } else if |s| > 0 {
      assert !OccursAt(s, t, 0);
      forall i | OccursAt(s, t, i) && i > 0
        ensures OccursAt(s[1..], t, i - 1)
      {
        assert s[1..][i - 1..i - 1 + |t|] == s[i..i + |t|];
      }
      forall i | OccursAt(s[1..], t, i)
        ensures OccursAt(s, t, i + 1)
      {
        assert s[1..][i..i + |t|] == s[i + 1..i + 1 + |t|];
      }
      ContainsIffOccurs(s[1..], t);
    } else {
      assert forall i :: OccursAt(s, t, i) ==> |t| == 0 && t <= s;
    }
  }

  /** All comma-separated pieces of `s`, including empty ones. */
  function SplitAll(s: string): (r: seq<string>)
    ensures |r| >= 1
    ensures forall i :: 0 <= i < |r| ==> ',' !in r[i]
  {
    if |s| == 0 then [""]
    else
      var rest := SplitAll(s[1..]);
      if s[0] == ',' then [""] + rest
      else [[s[0]] + rest[0]] + rest[1..]
  }

  /** Puts the pieces back together with a comma between neighbours. */
  function JoinCommas(parts: seq<string>): string
    requires |parts| >= 1
  {
    if |parts| == 1 then parts[0] else parts[0] + "," + JoinCommas(parts[1..])
  }

  /** Splitting loses nothing: the pieces join back into the input. */
  lemma {:induction false} SplitAllJoins(s: string)
    ensures JoinCommas(SplitAll(s)) == s
  {
    if |s| > 0 {
      var rest := SplitAll(s[1..]);
      SplitAllJoins(s[1..]);
      if s[0] == ',' {
        assert s == "" + "," + s[1..];
      } else if |rest| == 1 {
        assert SplitAll(s) == [[s[0]] + rest[0]];
      } else {
        var r := SplitAll(s);
        assert r[1..] == rest[1..];
        assert JoinCommas(r) == [s[0]] + rest[0] + "," + JoinCommas(rest[1..]);
      }
    }
  }

  function DropTrailingEmpty(parts: seq<string>): (r: seq<string>)
    ensures |r| <= |parts| && r == parts[..|r|]
    ensures |r| > 0 ==> r[|r| - 1] != ""
    ensures forall i :: |r| <= i < |parts| ==> parts[i] == ""
  {
    if |parts| > 0 && parts[|parts| - 1] == "" then DropTrailingEmpty(parts[..|parts| - 1]) else parts
  }

  /** `String.split(",")`: without a comma the whole string is the single
      piece; otherwise all pieces with trailing empty ones removed. */
  function JavaSplit(s: string): (r: seq<string>)
    ensures ',' !in s ==> r == [s]
    ensures ',' in s ==> r == DropTrailingEmpty(SplitAll(s))
    ensures forall p :: p in r ==> p in SplitAll(s)
  {
    if ',' !in s then
      assert SplitAll(s) == [s] by { SplitAllJoins(s); }
      [s]
    else DropTrailingEmpty(SplitAll(s))
  }

  /** `String.compareTo(b) <= 0` (chars compared as code points). */
  predicate LexLe(a: string, b: string)
  {
    if |a| == 0 then true
    else if |b| == 0 then false
    else if a[0] != b[0] then a[0] < b[0]
    else LexLe(a[1..], b[1..])
  }

  lemma LexLeTotal(a: string, b: string)
    ensures LexLe(a, b) || LexLe(b, a)
  {
  }

  lemma {:induction false} LexLeAntisymmetric(a: string, b: string)
    requires LexLe(a, b) && LexLe(b, a)
    ensures a == b
  {
    if |a| > 0 && |b| > 0 {
      LexLeAntisymmetric(a[1..], b[1..]);
      assert a == [a[0]] + a[1..];
      assert b == [b[0]] + b[1..];
    }
  }

  lemma {:induction false} LexLeTransitive(a: string, b: string, c: string)
    requires LexLe(a, b) && LexLe(b, c)
    ensures LexLe(a, c)
  {
    if |a| > 0 && |b| > 0 && |c| > 0 && a[0] == b[0] && b[0] == c[0] {
      LexLeTransitive(a[1..], b[1..], c[1..]);
    }
  }

  function Digit(d: nat): char
    requires d < 10
  {
    "0123456789"[d]
  }

  function NatToString(n: nat): (r: string)
    ensures |r| > 0
  {
    if n < 10 then [Digit(n)] else NatToString(n / 10) + [Digit(n % 10)]
  }

  /** `Long.toString`. */
  function IntToString(i: int): (r: string)
    ensures |r| > 0
  {
    if i < 0 then "-" + NatToString(-i) else NatToString(i)
  }
}

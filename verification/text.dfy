/**
 * The string operations of Python that the two scripts rely on:
 * `str.strip()` (only its truthiness is used), `str(n)` for a non-negative
 * integer, and `sep.join(xs)`.
 */
module Text {

  /** The characters Python's `str.isspace()` accepts, which are the ones
      `str.strip()` with no argument removes. */
  predicate IsSpace(c: char) {
    || c == ' ' || c == '\t' || c == '\n' || c == '\r'
    || c == '\U{000B}' || c == '\U{000C}'
    || ('\U{001C}' <= c <= '\U{001F}')
    || c == '\U{0085}' || c == '\U{00A0}' || c == '\U{1680}'
    || ('\U{2000}' <= c <= '\U{200A}')
    || c == '\U{2028}' || c == '\U{2029}' || c == '\U{202F}'
    || c == '\U{205F}' || c == '\U{3000}'
  }

  /** `s.lstrip()` */
  function TrimStart(s: string): string {
    if |s| > 0 && IsSpace(s[0]) then TrimStart(s[1..]) else s
  }

  /** `s.rstrip()` */
  function TrimEnd(s: string): string {
    if |s| > 0 && IsSpace(s[|s| - 1]) then TrimEnd(s[..|s| - 1]) else s
  }

  /** `lstrip` keeps a suffix of the string, drops only whitespace and stops
      at the first character that is not whitespace. */
  lemma {:induction false} TrimStartSpec(s: string)
    ensures var t := TrimStart(s);
      && |t| <= |s| && t == s[|s| - |t|..]
      && (t != [] ==> !IsSpace(t[0]))
      && forall i :: 0 <= i < |s| - |t| ==> IsSpace(s[i])
  {
    if |s| > 0 && IsSpace(s[0]) {
      var r := s[1..];
      TrimStartSpec(r);
      var t := TrimStart(r);
      assert TrimStart(s) == t;
      assert r[|r| - |t|..] == s[|s| - |t|..];
      forall i | 0 <= i < |s| - |t| ensures IsSpace(s[i]) {
        if i > 0 {
          assert s[i] == r[i - 1];
        }
      }
    }
  }

  /** `rstrip` keeps a prefix of the string, drops only whitespace and stops
      at the last character that is not whitespace. */
  lemma {:induction false} TrimEndSpec(s: string)
    ensures var t := TrimEnd(s);
      && |t| <= |s| && t == s[..|t|]
      && (t != [] ==> !IsSpace(t[|t| - 1]))
      && forall i :: |t| <= i < |s| ==> IsSpace(s[i])
  {
    if |s| > 0 && IsSpace(s[|s| - 1]) {
      var r := s[..|s| - 1];
      TrimEndSpec(r);
      var t := TrimEnd(r);
      assert TrimEnd(s) == t;
      assert r[..|t|] == s[..|t|];
      forall i | |t| <= i < |s| ensures IsSpace(s[i]) {
        if i < |s| - 1 {
          assert s[i] == r[i];
        }
      }
    }
  }

  /** `s.strip()` */
  function Strip(s: string): (t: string)
  {
    TrimEnd(TrimStart(s))
  }

  /** `not s.strip()`: the string is empty or made only of whitespace. */
  predicate IsBlank(s: string) {
    Strip(s) == []
  }

  /** A string is blank exactly when every character of it is whitespace. */
  lemma BlankIffAllSpace(s: string)
    ensures IsBlank(s) <==> forall i :: 0 <= i < |s| ==> IsSpace(s[i])
  {
    var t := TrimStart(s);
    TrimStartSpec(s);
    TrimEndSpec(t);
    if IsBlank(s) {
      assert t == [];
    } else {
      var u := TrimEnd(t);
      assert u != [] && !IsSpace(u[0]);
      assert s[|s| - |t|] == u[0];
    }
  }

  // ---- str(n) for n >= 0 ----

  predicate IsDigit(c: char) {
    '0' <= c <= '9'
  }

  predicate AllDigits(s: string) {
    forall i :: 0 <= i < |s| ==> IsDigit(s[i])
  }

  function DigitChar(d: nat): (c: char)
    requires d < 10
    ensures IsDigit(c)
  {
    ('0' as int + d) as char
  }

  function DigitValue(c: char): (d: nat)
    requires IsDigit(c)
    ensures d < 10
  {
    c as int - '0' as int
  }

  /** Python's `str(n)` for a non-negative integer: its decimal digits,
      without leading zeros, "0" for zero. */
  function NatToString(n: nat): (s: string)
    ensures |s| >= 1 && AllDigits(s)
    ensures |s| > 1 ==> s[0] != '0'
    decreases n
  {
    if n < 10 then [DigitChar(n)] else NatToString(n / 10) + [DigitChar(n % 10)]
  }

  /** Reads a string of decimal digits back as a number (Python's `int(s)`). */
  function StringToNat(s: string): nat
    requires AllDigits(s)
  {
    if |s| == 0 then 0 else StringToNat(s[..|s| - 1]) * 10 + DigitValue(s[|s| - 1])
  }

  /** `int(str(n)) == n`. */
  lemma {:induction false} NatToStringRoundTrip(n: nat)
    ensures StringToNat(NatToString(n)) == n
  {
    var s := NatToString(n);
    if n >= 10 {
      NatToStringRoundTrip(n / 10);
      assert s[..|s| - 1] == NatToString(n / 10);
    }
  }

  /** Distinct numbers print differently. */
  lemma NatToStringInjective(m: nat, n: nat)
    ensures NatToString(m) == NatToString(n) ==> m == n
  {
    NatToStringRoundTrip(m);
    NatToStringRoundTrip(n);
  }

  // ---- sep.join(xs) ----

  /** Python's `sep.join(xs)`. */
  function Join(sep: string, xs: seq<string>): (r: string)
  {
    if |xs| == 0 then "" else if |xs| == 1 then xs[0] else xs[0] + sep + Join(sep, xs[1..])
  }

  /** The total length of the pieces. */
  function TotalLength(xs: seq<string>): nat
  {
    if |xs| == 0 then 0 else |xs[0]| + TotalLength(xs[1..])
  }

  /** Where piece `i` starts in `Join(sep, xs)`: after the pieces before it and
      one separator after each of them. */
  function PieceOffset(sep: string, xs: seq<string>, i: nat): nat
    requires i <= |xs|
  {
    TotalLength(xs[..i]) + i * |sep|
  }

  /** The joined string is as long as its pieces plus one separator between
      each two neighbours. */
  lemma {:induction false} JoinLength(sep: string, xs: seq<string>)
    requires |xs| > 0
    ensures |Join(sep, xs)| == TotalLength(xs) + (|xs| - 1) * |sep|
  {
    if |xs| > 1 {
      JoinLength(sep, xs[1..]);
    }
  }

  /** Appending a piece appends a separator and that piece. */
  lemma {:induction false} JoinAppend(sep: string, xs: seq<string>, x: string)
    requires |xs| > 0
    ensures Join(sep, xs + [x]) == Join(sep, xs) + sep + x
  {
    if |xs| > 1 {
      assert (xs + [x])[1..] == xs[1..] + [x];
      JoinAppend(sep, xs[1..], x);
    }
  }

  lemma {:induction false} TotalLengthPrefixStep(xs: seq<string>, i: nat)
    requires i < |xs|
    ensures TotalLength(xs[..i + 1]) == TotalLength(xs[..i]) + |xs[i]|
    decreases i
  {
    if i > 0 {
      assert xs[..i + 1][1..] == xs[1..][..i];
      assert xs[..i][1..] == xs[1..][..i - 1];
      TotalLengthPrefixStep(xs[1..], i - 1);
    }
  }

  /** The offset of piece `i > 0` is the offset of piece `i - 1` of the tail,
      shifted past the first piece and its separator. */
  lemma PieceOffsetStep(sep: string, xs: seq<string>, i: nat)
    requires 0 < i <= |xs|
    ensures PieceOffset(sep, xs, i) == |xs[0]| + |sep| + PieceOffset(sep, xs[1..], i - 1)
  {
    TotalLengthPrefixStep(xs, 0);
    assert xs[..i][1..] == xs[1..][..i - 1];
    assert xs[..1] == [xs[0]];
  }

  /** Joining at least two pieces: the tail's join follows the first piece and
      the separator. */
  lemma JoinTail(sep: string, xs: seq<string>)
    requires |xs| > 1
    ensures |Join(sep, xs)| == |xs[0]| + |sep| + |Join(sep, xs[1..])|
    ensures Join(sep, xs)[..|xs[0]|] == xs[0]
    ensures Join(sep, xs)[|xs[0]|..|xs[0]| + |sep|] == sep
    ensures Join(sep, xs)[|xs[0]| + |sep|..] == Join(sep, xs[1..])
  {
  }

  /** The joined string starts with the first piece. */
  lemma JoinFirstPiece(sep: string, xs: seq<string>)
    requires |xs| > 0
    ensures |xs[0]| <= |Join(sep, xs)| && Join(sep, xs)[..|xs[0]|] == xs[0]
  {
    if |xs| > 1 {
      JoinTail(sep, xs);
    }
  }

  /** Every piece appears, unchanged, at its offset in the joined string. */
  lemma {:induction false} JoinPieceAt(sep: string, xs: seq<string>, i: nat)
    requires i < |xs|
    ensures PieceOffset(sep, xs, i) + |xs[i]| <= |Join(sep, xs)|
    ensures Join(sep, xs)[PieceOffset(sep, xs, i)..PieceOffset(sep, xs, i) + |xs[i]|] == xs[i]
    decreases i
  {
    if i == 0 {
      assert PieceOffset(sep, xs, 0) == 0 by { assert xs[..0] == []; }
      JoinFirstPiece(sep, xs);
    } else {
      JoinPieceAt(sep, xs[1..], i - 1);
      JoinPieceShift(sep, xs, i);
    }
  }

  /** Piece `i > 0` sits in the joined string where it sits in the join of
      the tail, shifted past the first piece and its separator. */
  lemma JoinPieceShift(sep: string, xs: seq<string>, i: nat)
    requires 0 < i < |xs|
    requires var o := PieceOffset(sep, xs[1..], i - 1);
      o + |xs[i]| <= |Join(sep, xs[1..])| && Join(sep, xs[1..])[o..o + |xs[i]|] == xs[i]
    ensures PieceOffset(sep, xs, i) + |xs[i]| <= |Join(sep, xs)|
    ensures Join(sep, xs)[PieceOffset(sep, xs, i)..PieceOffset(sep, xs, i) + |xs[i]|] == xs[i]
  {
    var tail := xs[1..];
    var d := |xs[0]| + |sep|;
    var o := PieceOffset(sep, tail, i - 1);
    assert PieceOffset(sep, xs, i) == d + o by { PieceOffsetStep(sep, xs, i); }
    assert |Join(sep, xs)| == d + |Join(sep, tail)| && Join(sep, xs)[d..] == Join(sep, tail) by {
      JoinTail(sep, xs);
    }
    SliceOfSuffix(Join(sep, xs), d, o, o + |xs[i]|);
  }

  /** A separator follows every piece but the last. */
  lemma {:induction false} JoinSeparatorAfter(sep: string, xs: seq<string>, i: nat)
    requires i + 1 < |xs|
    ensures PieceOffset(sep, xs, i) + |xs[i]| + |sep| <= |Join(sep, xs)|
    ensures Join(sep, xs)[PieceOffset(sep, xs, i) + |xs[i]|..PieceOffset(sep, xs, i) + |xs[i]| + |sep|] == sep
    decreases i
  {
    if i == 0 {
      assert xs[..0] == [];
      JoinTail(sep, xs);
    } else {
      var tail := xs[1..];
      var d := |xs[0]| + |sep|;
      var o := PieceOffset(sep, tail, i - 1) + |tail[i - 1]|;
      assert xs[i] == tail[i - 1];
      assert PieceOffset(sep, xs, i) + |xs[i]| == d + o by { PieceOffsetStep(sep, xs, i); }
      assert o + |sep| <= |Join(sep, tail)| && Join(sep, tail)[o..o + |sep|] == sep by {
        JoinSeparatorAfter(sep, tail, i - 1);
      }
      assert |Join(sep, xs)| == d + |Join(sep, tail)| && Join(sep, xs)[d..] == Join(sep, tail) by {
        JoinTail(sep, xs);
      }
      SliceOfSuffix(Join(sep, xs), d, o, o + |sep|);
    }
  }

  /** Slicing a suffix is slicing the whole string further on. */
  lemma SliceOfSuffix(s: string, d: nat, a: nat, b: nat)
    requires d <= |s| && a <= b <= |s| - d
    ensures s[d..][a..b] == s[d + a..d + b]
  {
    forall j | 0 <= j < b - a ensures s[d..][a..b][j] == s[d + a..d + b][j] {
    }
  }
}

/**
 * The handful of Python `str` operations the scrapers use: `split` with a
 * non-empty separator, `sep in s`, `strip()`, `lower()` and the decimal
 * rendering of an integer in an f-string.
 */
module Text {
  import opened Wrappers

  // ---------------------------------------------------------------------
  // Searching

  /** `sep` occurs in `s` starting at index `i`. */
  predicate OccursAt(s: string, sep: string, i: nat) {
    i + |sep| <= |s| && s[i..i + |sep|] == sep
  }

  lemma OccursAtTail(s: string, sep: string, k: nat)
    requires |s| > 0
    ensures OccursAt(s[1..], sep, k) == OccursAt(s, sep, k + 1)
  {
    if k + 1 + |sep| <= |s| {
      assert s[1..][k..k + |sep|] == s[k + 1..k + 1 + |sep|];
    }
  }

  /** Index of the first occurrence of `sep` in `s` (Python `s.find(sep)`, None for -1). */
  function IndexOf(s: string, sep: string): (r: Option<nat>)
    requires |sep| > 0
    ensures r.Some? ==> OccursAt(s, sep, r.value)
    ensures r.Some? ==> forall j :: 0 <= j < r.value ==> !OccursAt(s, sep, j)
    ensures r.None? ==> forall j: nat :: !OccursAt(s, sep, j)
    decreases |s|
  {
    if |s| < |sep| then None
    else if s[..|sep|] == sep then Some(0)
    else
      var rest := IndexOf(s[1..], sep);
      assert !OccursAt(s, sep, 0);
      assert forall j: nat :: 1 <= j ==> OccursAt(s, sep, j) == OccursAt(s[1..], sep, j - 1) by {
        forall j: nat | 1 <= j
          ensures OccursAt(s, sep, j) == OccursAt(s[1..], sep, j - 1)
        {
          OccursAtTail(s, sep, j - 1);
        }
      }
      match rest
      case None => None
      case Some(k) => Some(k + 1)
  }

  /** The first occurrence is the unique index with an occurrence and none before it. */
  lemma IndexOfIs(s: string, sep: string, i: nat)
    requires |sep| > 0
    requires OccursAt(s, sep, i)
    requires forall j :: 0 <= j < i ==> !OccursAt(s, sep, j)
    ensures IndexOf(s, sep) == Some(i)
  {
    var r := IndexOf(s, sep);
  }

  /** Python `sep in s`. */
  predicate Contains(s: string, sep: string)
    requires |sep| > 0
  {
    IndexOf(s, sep).Some?
  }

  /** Extending a string on the right keeps its first occurrence of `sep`. */
  lemma {:induction false} IndexOfExtend(a: string, b: string, sep: string)
    requires |sep| > 0
    requires Contains(a, sep)
    ensures IndexOf(a + b, sep) == IndexOf(a, sep)
  {
    var i := IndexOf(a, sep).value;
    assert (a + b)[i..i + |sep|] == a[i..i + |sep|];
    forall j | 0 <= j < i
      ensures !OccursAt(a + b, sep, j)
    {
      assert (a + b)[j..j + |sep|] == a[j..j + |sep|];
      assert !OccursAt(a, sep, j);
    }
    IndexOfIs(a + b, sep, i);
  }

  /** If `sep` does not occur in `a + sep` before `|a|`, its first occurrence in `a + sep + b` is at `|a|`. */
  lemma {:induction false} IndexOfAfter(a: string, b: string, sep: string)
    requires |sep| > 0
    requires IndexOf(a + sep, sep) == Some(|a|)
    ensures IndexOf(a + sep + b, sep) == Some(|a|)
  {
    IndexOfExtend(a + sep, b, sep);
  }

  /** A string with no `c` has its first `c` right after it. */
  lemma CharAfterFree(a: string, c: char)
    requires forall k :: 0 <= k < |a| ==> a[k] != c
    ensures IndexOf(a + [c], [c]) == Some(|a|)
  {
    var s := a + [c];
    assert OccursAt(s, [c], |a|) by { assert s[|a|..|a| + 1] == [c]; }
    forall j | 0 <= j < |a|
      ensures !OccursAt(s, [c], j)
    {
      assert s[j..j + 1] == [a[j]];
    }
    IndexOfIs(s, [c], |a|);
  }

  /** A string whose characters are all different from `c` does not contain `c`. */
  lemma CharFreeNotContains(a: string, c: char)
    requires forall k :: 0 <= k < |a| ==> a[k] != c
    ensures !Contains(a, [c])
  {
    forall j: nat
      ensures !OccursAt(a, [c], j)
    {
      if j + 1 <= |a| {
        assert a[j..j + 1] == [a[j]];
      }
    }
  }

  // ---------------------------------------------------------------------
  // Splitting

  /** Python `s.split(sep)` for a non-empty separator: cut at every occurrence, left to right. */
  function Split(s: string, sep: string): (parts: seq<string>)
    requires |sep| > 0
    ensures |parts| >= 1
    ensures |parts| > 1 <==> Contains(s, sep)
    decreases |s|
  {
    match IndexOf(s, sep)
    case None => [s]
    case Some(i) => [s[..i]] + Split(s[i + |sep|..], sep)
  }

  /** Python `sep.join(parts)`. */
  function Join(parts: seq<string>, sep: string): string
    decreases |parts|
  {
    if |parts| == 0 then ""
    else if |parts| == 1 then parts[0]
    else parts[0] + sep + Join(parts[1..], sep)
  }

  /** Splitting loses nothing: joining the parts back with the separator restores the string. */
  lemma {:induction false} JoinSplit(s: string, sep: string)
    requires |sep| > 0
    ensures Join(Split(s, sep), sep) == s
    decreases |s|
  {
    match IndexOf(s, sep)
    case None =>
    case Some(i) =>
      var rest := s[i + |sep|..];
      var parts := Split(rest, sep);
      JoinSplit(rest, sep);
      var all := [s[..i]] + parts;
      assert Split(s, sep) == all;
      assert all[1..] == parts;
      assert Join(all, sep) == s[..i] + sep + Join(parts, sep);
      assert s[i..i + |sep|] == sep;
      assert s == s[..i] + sep + rest;
  }

  /** No part of a split contains the separator. */
  lemma {:induction false} SplitPartsFree(s: string, sep: string)
    requires |sep| > 0
    ensures forall k :: 0 <= k < |Split(s, sep)| ==> !Contains(Split(s, sep)[k], sep)
    decreases |s|
  {
    match IndexOf(s, sep)
    case None =>
    case Some(i) =>
      var head := s[..i];
      var rest := s[i + |sep|..];
      SplitPartsFree(rest, sep);
      if Contains(head, sep) {
        var j := IndexOf(head, sep).value;
        assert OccursAt(head, sep, j);
        assert j + |sep| <= i;
        assert head[j..j + |sep|] == s[j..j + |sep|];
        assert OccursAt(s, sep, j);
      }
      assert Split(s, sep) == [head] + Split(rest, sep);
  }

  /** The text before the first `sep` (Python `s.split(sep)[0]`). */
  function Before(s: string, sep: string): (r: string)
    requires |sep| > 0
    ensures r == Split(s, sep)[0]
  {
    match IndexOf(s, sep)
    case None => s
    case Some(i) => s[..i]
  }

  /** Text before a character that `p` does not contain is `p` itself. */
  lemma BeforeChar(p: string, c: char, q: string)
    requires forall k :: 0 <= k < |p| ==> p[k] != c
    ensures Before(p + [c] + q, [c]) == p
  {
    CharAfterFree(p, c);
    IndexOfAfter(p, q, [c]);
    assert (p + [c] + q)[..|p|] == p;
  }

  /** If `sep` does not start before index `m`, the text before `sep` keeps the first `m` characters. */
  lemma BeforeKeeps(s: string, sep: string, m: nat)
    requires |sep| > 0 && m <= |s|
    requires forall j :: 0 <= j < m ==> !OccursAt(s, sep, j)
    ensures m <= |Before(s, sep)| && Before(s, sep)[..m] == s[..m]
  {
  }

  /**
   * The text before the first `c` (`s.split(c)[0]`) is the longest prefix
   * of `s` free of `c`: it is all of `s`, or it is followed by a `c`.
   */
  lemma BeforeCharSpec(s: string, c: char)
    ensures var b := Before(s, [c]);
      && |b| <= |s| && b == s[..|b|]
      && (forall k :: 0 <= k < |b| ==> b[k] != c)
      && (|b| < |s| ==> s[|b|] == c)
  {
    var b := Before(s, [c]);
    forall k | 0 <= k < |b|
      ensures b[k] != c
    {
      if b[k] == c {
        assert s[k..k + 1] == [c];
        assert OccursAt(s, [c], k);
      }
    }
    if |b| < |s| {
      assert OccursAt(s, [c], |b|);
      assert s[|b|..|b| + 1] == [c];
    }
  }

  /** A string that does not contain `[c]` has no character `c`. */
  lemma NotContainsChar(a: string, c: char)
    requires !Contains(a, [c])
    ensures forall k :: 0 <= k < |a| ==> a[k] != c
  {
    forall k | 0 <= k < |a|
      ensures a[k] != c
    {
      if a[k] == c {
        assert a[k..k + 1] == [c];
        assert OccursAt(a, [c], k);
      }
    }
  }

  /** The last part of a split contains no separator. */
  lemma LastPartFree(s: string, sep: string)
    requires |sep| > 0
    ensures !Contains(LastPart(s, sep), sep)
  {
    SplitPartsFree(s, sep);
  }

  /** The second part of a split is the text between the first and second occurrences. */
  lemma SplitSecond(s: string, sep: string, i: nat)
    requires |sep| > 0
    requires IndexOf(s, sep) == Some(i)
    ensures |Split(s, sep)| > 1 && Split(s, sep)[1] == Before(s[i + |sep|..], sep)
  {
    var rest := s[i + |sep|..];
    SplitAt(s, sep, i);
    assert Split(s, sep)[1] == Split(rest, sep)[0] == Before(rest, sep);
  }

  /** At the first occurrence, a split is the text before it followed by the split of the text after it. */
  lemma SplitAt(s: string, sep: string, i: nat)
    requires |sep| > 0
    requires IndexOf(s, sep) == Some(i)
    ensures Split(s, sep) == [s[..i]] + Split(s[i + |sep|..], sep)
  {
  }

  /** The last part of a split (Python `s.split(sep)[-1]`). */
  function LastPart(s: string, sep: string): string
    requires |sep| > 0
  {
    var parts := Split(s, sep);
    parts[|parts| - 1]
  }

  // ---------------------------------------------------------------------
  // Whitespace and case

  /** The characters for which Python's `str.isspace()` holds, i.e. what `strip()` removes. */
  predicate IsSpace(c: char) {
    c == ' ' || ('\t' <= c <= '\r') || ('\U{1C}' <= c <= '\U{1F}') || c == '\U{85}' || c == '\U{A0}'
    || c == '\U{1680}' || ('\U{2000}' <= c <= '\U{200A}') || c == '\U{2028}' || c == '\U{2029}'
    || c == '\U{202F}' || c == '\U{205F}' || c == '\U{3000}'
  }

  /** `s.lstrip()`: drops the longest all-whitespace prefix. */
  function TrimStart(s: string): (r: string)
    ensures |r| <= |s| && r == s[|s| - |r|..]
    ensures forall k :: 0 <= k < |s| - |r| ==> IsSpace(s[k])
    ensures |r| > 0 ==> !IsSpace(r[0])
    decreases |s|
  {
    if |s| > 0 && IsSpace(s[0]) then TrimStart(s[1..]) else s
  }

  /** `s.rstrip()`: drops the longest all-whitespace suffix. */
  function TrimEnd(s: string): (r: string)
    ensures |r| <= |s| && r == s[..|r|]
    ensures forall k :: |r| <= k < |s| ==> IsSpace(s[k])
    ensures |r| > 0 ==> !IsSpace(r[|r| - 1])
    decreases |s|
  {
    if |s| > 0 && IsSpace(s[|s| - 1]) then TrimEnd(s[..|s| - 1]) else s
  }

  /** Length of the whitespace prefix that `lstrip()` removes. */
  function LeadingSpace(s: string): nat {
    |s| - |TrimStart(s)|
  }

  /** `s.strip()`: `lstrip()` and then `rstrip()`. */
  function Strip(s: string): (r: string)
    ensures |r| <= |s|
  {
    TrimEnd(TrimStart(s))
  }

  /** What `strip()` leaves is the piece of `s` after its whitespace prefix. */
  lemma {:induction false} StripPiece(s: string)
    ensures LeadingSpace(s) + |Strip(s)| <= |s|
    ensures Strip(s) == s[LeadingSpace(s)..LeadingSpace(s) + |Strip(s)|]
  {
    var t := TrimStart(s);
    var r := TrimEnd(t);
    var lead := |s| - |t|;
    assert t == s[lead..];
    assert r == t[..|r|];
    forall k | 0 <= k < |r|
      ensures r[k] == s[lead + k]
    {
      assert r[k] == t[k];
    }
  }

  /**
   * Only whitespace is removed on either side of that piece, and the piece
   * neither starts nor ends with whitespace.
   */
  lemma {:induction false} StripEdges(s: string)
    ensures LeadingSpace(s) + |Strip(s)| <= |s|
    ensures forall k :: 0 <= k < LeadingSpace(s) ==> IsSpace(s[k])
    ensures forall k :: LeadingSpace(s) + |Strip(s)| <= k < |s| ==> IsSpace(s[k])
    ensures |Strip(s)| > 0 ==> !IsSpace(Strip(s)[0]) && !IsSpace(Strip(s)[|Strip(s)| - 1])
  {
    var t := TrimStart(s);
    var r := TrimEnd(t);
    var lead := |s| - |t|;
    assert t == s[lead..];
    forall k | lead + |r| <= k < |s|
      ensures IsSpace(s[k])
    {
      assert s[k] == t[k - lead];
    }
    if |r| > 0 {
      assert r[0] == t[0];
    }
  }

  /** Stripping twice is stripping once. */
  lemma {:induction false} StripIdempotent(s: string)
    ensures Strip(Strip(s)) == Strip(s)
  {
    var r := Strip(s);
    StripEdges(s);
    if |r| > 0 {
      assert TrimStart(r) == r;
      assert TrimEnd(r) == r;
    }
  }

  function LowerChar(c: char): char {
    if 'A' <= c <= 'Z' then (c as int + 32) as char else c
  }

  /** `s.lower()` for ASCII letters; other characters are kept. */
  function Lower(s: string): (r: string)
    ensures |r| == |s|
  {
    seq(|s|, i requires 0 <= i < |s| => LowerChar(s[i]))
  }

  /** Lower-casing is idempotent, so comparing `lower()` forms is an equivalence. */
  lemma LowerIdempotent(s: string)
    ensures Lower(Lower(s)) == Lower(s)
  {
  }

  // ---------------------------------------------------------------------
  // Decimal integers

  predicate IsDigit(c: char) {
    '0' <= c <= '9'
  }

  function DigitChar(d: nat): (c: char)
    requires d < 10
    ensures IsDigit(c)
  {
    ('0' as int + d) as char
  }

  function DigitValue(c: char): (d: nat)
    requires IsDigit(c)
    ensures d < 10 && DigitChar(d) == c
  {
    c as int - '0' as int
  }

  /** Decimal digits of `n`, most significant first, with no leading zero. */
  function NatToDecimal(n: nat): (r: string)
    ensures |r| >= 1
    ensures forall i :: 0 <= i < |r| ==> IsDigit(r[i])
    decreases n
  {
    if n < 10 then [DigitChar(n)] else NatToDecimal(n / 10) + [DigitChar(n % 10)]
  }

  /** Python `f"{n}"` for an `int`. */
  function IntToDecimal(n: int): (r: string)
    ensures |r| >= 1
    ensures forall i :: 0 <= i < |r| ==> IsDigit(r[i]) || (i == 0 && r[i] == '-')
  {
    if n < 0 then "-" + NatToDecimal(-n) else NatToDecimal(n)
  }

  predicate AllDigits(s: string) {
    forall i :: 0 <= i < |s| ==> IsDigit(s[i])
  }

  function DecimalToNat(s: string): nat
    requires AllDigits(s)
    decreases |s|
  {
    if s == [] then 0 else DecimalToNat(s[..|s| - 1]) * 10 + DigitValue(s[|s| - 1])
  }

  /** A string `int(s)` accepts in the form `IntToDecimal` produces: digits with an optional leading '-'. */
  predicate IsIntLiteral(s: string) {
    if |s| > 0 && s[0] == '-' then |s| > 1 && AllDigits(s[1..]) else |s| > 0 && AllDigits(s)
  }

  function DecimalToInt(s: string): int
    requires IsIntLiteral(s)
  {
    if s[0] == '-' then -(DecimalToNat(s[1..]) as int) else DecimalToNat(s)
  }

  lemma {:induction false} NatDecimalRoundTrip(n: nat)
    ensures DecimalToNat(NatToDecimal(n)) == n
    decreases n
  {
    var r := NatToDecimal(n);
    if n >= 10 {
      NatDecimalRoundTrip(n / 10);
      assert r[..|r| - 1] == NatToDecimal(n / 10);
      assert r[|r| - 1] == DigitChar(n % 10);
    }
  }

  /** Reading back the decimal rendering of any integer gives that integer. */
  lemma IntDecimalRoundTrip(n: int)
    ensures IsIntLiteral(IntToDecimal(n))
    ensures DecimalToInt(IntToDecimal(n)) == n
  {
    if n < 0 {
      assert IntToDecimal(n)[1..] == NatToDecimal(-n);
      NatDecimalRoundTrip(-n);
    } else {
      NatDecimalRoundTrip(n);
    }
  }
}

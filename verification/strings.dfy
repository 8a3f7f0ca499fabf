/** The string operations the scripts lean on, written out: character classes
    (ASCII readings of the regex classes `\d`, `\w`, `\s`), `str.upper`/`str.lower`,
    substring search, `str.replace`, `str.split`/`str.join`, decimal digits and
    `{n:02d}`, and Python's ordering of strings. */
module Strings {
  import opened Base

  // ---------------------------------------------------------------------------
  // Character classes

  predicate IsDigit(c: char) { '0' <= c <= '9' }

  predicate IsAsciiLetter(c: char) { 'a' <= c <= 'z' || 'A' <= c <= 'Z' }

  /** `\w`: letters, digits and the underscore. */
  predicate IsWordChar(c: char) { IsAsciiLetter(c) || IsDigit(c) || c == '_' }

  /** `\s`: space, tab, newline, carriage return, vertical tab, form feed. */
  predicate IsSpace(c: char) {
    c == ' ' || c == '\t' || c == '\n' || c == '\r' || c == '\U{000B}' || c == '\U{000C}'
  }

  predicate AllDigits(s: string) { forall i | 0 <= i < |s| :: IsDigit(s[i]) }

  predicate AllWordChars(s: string) { forall i | 0 <= i < |s| :: IsWordChar(s[i]) }

  predicate IsUpperAscii(c: char) { 'A' <= c <= 'Z' }

  function UpperChar(c: char): char {
    if 'a' <= c <= 'z' then (c as int - 32) as char else c
  }

  function LowerChar(c: char): char {
    if 'A' <= c <= 'Z' then (c as int + 32) as char else c
  }

  /** `str.upper()` on ASCII letters. */
  function Upper(s: string): string {
    seq(|s|, i requires 0 <= i < |s| => UpperChar(s[i]))
  }

  /** `str.lower()` on ASCII letters. */
  function Lower(s: string): string {
    seq(|s|, i requires 0 <= i < |s| => LowerChar(s[i]))
  }

  /** Lower-casing undoes upper-casing on a string that has no upper-case letter. */
  lemma LowerUpper(s: string)
    requires forall i | 0 <= i < |s| :: !IsUpperAscii(s[i])
    ensures Lower(Upper(s)) == s
  {
  }

  // ---------------------------------------------------------------------------
  // Substrings

  predicate OccursAt(s: string, sub: string, i: int) {
    0 <= i && i + |sub| <= |s| && s[i..i + |sub|] == sub
  }

  /** Python's `sub in s`. */
  predicate Contains(s: string, sub: string) {
    exists i | 0 <= i <= |s| - |sub| :: OccursAt(s, sub, i)
  }

  predicate StartsWith(s: string, prefix: string) {
    |prefix| <= |s| && s[..|prefix|] == prefix
  }

  /** The first occurrence of `sub` in `s` at or after `from` (`str.find`). */
  function FindFrom(s: string, sub: string, from: nat): (r: Option<nat>)
    decreases |s| - from
    ensures r.Some? ==> from <= r.value && OccursAt(s, sub, r.value)
    ensures forall j :: from <= j && (r.None? || j < r.value) ==> !OccursAt(s, sub, j)
  {
    if from + |sub| > |s| then None
    else if s[from..from + |sub|] == sub then Some(from)
    else FindFrom(s, sub, from + 1)
  }

  lemma ContainsIffFound(s: string, sub: string)
    ensures Contains(s, sub) <==> FindFrom(s, sub, 0).Some?
  {
    if FindFrom(s, sub, 0).Some? {
      var i := FindFrom(s, sub, 0).value;
      assert OccursAt(s, sub, i);
    }
  }

  lemma NotContainsChar(s: string, c: char)
    ensures Contains(s, [c]) <==> c in s
  {
    if c in s {
      var i :| 0 <= i < |s| && s[i] == c;
      assert OccursAt(s, [c], i);
    }
    if Contains(s, [c]) {
      var i :| 0 <= i <= |s| - 1 && OccursAt(s, [c], i);
      assert s[i] == s[i..i + 1][0];
    }
  }

  // ---------------------------------------------------------------------------
  // str.replace, str.split, str.join

  /** `rep` before every character and at the end: `s.replace("", rep)`. */
  function InsertAround(s: string, rep: string): string
    decreases |s|
  {
    if |s| == 0 then rep else rep + [s[0]] + InsertAround(s[1..], rep)
  }

  /** Python's `s.replace(pat, rep)`: leftmost, non-overlapping occurrences, replaced all at once. */
  function ReplaceAll(s: string, pat: string, rep: string): string
    decreases |s|
  {
    if |pat| == 0 then InsertAround(s, rep)
    else if |s| < |pat| then s
    else if s[..|pat|] == pat then rep + ReplaceAll(s[|pat|..], pat, rep)
    else [s[0]] + ReplaceAll(s[1..], pat, rep)
  }

  /** Python's `sep.join(parts)`. */
  function Join(parts: seq<string>, sep: string): string
    decreases |parts|
  {
    if |parts| == 0 then ""
    else if |parts| == 1 then parts[0]
    else parts[0] + sep + Join(parts[1..], sep)
  }

  /** Python's `s.split(sep)` for a non-empty separator: the pieces between
      leftmost non-overlapping occurrences. */
  function Split(s: string, sep: string): (parts: seq<string>)
    requires |sep| > 0
    decreases |s|
    ensures |parts| >= 1
  {
    match FindFrom(s, sep, 0)
    case None => [s]
    case Some(i) => [s[..i]] + Split(s[i + |sep|..], sep)
  }

  /** Joining the pieces of a split with the same separator gives the string back. */
  lemma {:induction false} JoinSplit(s: string, sep: string)
    requires |sep| > 0
    ensures Join(Split(s, sep), sep) == s
    decreases |s|
  {
    match FindFrom(s, sep, 0)
    case None =>
    case Some(i) =>
      var tail := s[i + |sep|..];
      var rest := Split(tail, sep);
      var parts := [s[..i]] + rest;
      assert Split(s, sep) == parts;
      assert parts[1..] == rest;
      assert Join(parts, sep) == s[..i] + sep + Join(rest, sep);
      JoinSplit(tail, sep);
      assert s[i..i + |sep|] == sep;
      assert s == s[..i] + s[i..i + |sep|] + tail;
  }

  /** A string free of the (single-character) separator splits into itself. */
  lemma SplitNoSep(s: string, c: char)
    requires c !in s
    ensures Split(s, [c]) == [s]
  {
    NoChar(s, c);
  }

  /** The first occurrence of a one-character separator is its first position. */
  lemma FindChar(s: string, c: char, k: nat)
    requires k < |s| && s[k] == c
    requires forall j | 0 <= j < k :: s[j] != c
    ensures FindFrom(s, [c], 0) == Some(k)
  {
    assert OccursAt(s, [c], k);
    forall j | 0 <= j < k
      ensures !OccursAt(s, [c], j)
    {
      assert s[j..j + 1] == [s[j]];
    }
  }

  lemma NoChar(s: string, c: char)
    requires c !in s
    ensures FindFrom(s, [c], 0) == None
  {
    NotContainsChar(s, c);
    ContainsIffFound(s, [c]);
  }

  lemma SplitAt(s: string, c: char, i: nat)
    requires FindFrom(s, [c], 0) == Some(i)
    ensures Split(s, [c]) == [s[..i]] + Split(s[i + 1..], [c])
  {
  }

  /** Splitting on one character distributes over a concatenation around that character. */
  lemma {:induction false} SplitConcat(a: string, b: string, c: char)
    ensures Split(a + [c] + b, [c]) == Split(a, [c]) + Split(b, [c])
    decreases |a|
  {
    if c !in a {
      SplitConcatFree(a, b, c);
    } else {
      var i := FirstIndex(a, c);
      SplitConcatStep(a, b, c, i);
      SplitConcat(a[i + 1..], b, c);
    }
  }

  lemma SplitConcatFree(a: string, b: string, c: char)
    requires c !in a
    ensures Split(a + [c] + b, [c]) == Split(a, [c]) + Split(b, [c])
  {
    var s := a + [c] + b;
    SplitNoSep(a, c);
    FindChar(s, c, |a|);
    SplitAt(s, c, |a|);
    assert s[|a| + 1..] == b;
    assert s[..|a|] == a;
  }

  lemma SplitConcatStep(a: string, b: string, c: char, i: nat)
    requires i < |a| && a[i] == c && forall j | 0 <= j < i :: a[j] != c
    ensures Split(a + [c] + b, [c]) == [a[..i]] + Split(a[i + 1..] + [c] + b, [c])
    ensures Split(a, [c]) == [a[..i]] + Split(a[i + 1..], [c])
  {
    var s := a + [c] + b;
    FindChar(a, c, i);
    FindChar(s, c, i);
    SplitAt(a, c, i);
    SplitAt(s, c, i);
    assert s[i + 1..] == a[i + 1..] + [c] + b;
    assert s[..i] == a[..i];
  }

  lemma FirstIndex(a: string, c: char) returns (i: nat)
    requires c in a
    ensures i < |a| && a[i] == c && forall j | 0 <= j < i :: a[j] != c
  {
    if a[0] == c {
      i := 0;
    } else {
      var k := FirstIndex(a[1..], c);
      i := k + 1;
    }
  }

  /** Joining pieces that are free of the separator and splitting again gives the pieces back. */
  lemma {:induction false} SplitJoin(parts: seq<string>, c: char)
    requires |parts| >= 1
    requires forall k | 0 <= k < |parts| :: c !in parts[k]
    ensures Split(Join(parts, [c]), [c]) == parts
    decreases |parts|
  {
    if |parts| == 1 {
      SplitNoSep(parts[0], c);
    } else {
      var rest := parts[1..];
      forall k | 0 <= k < |rest| ensures c !in rest[k] {
        assert rest[k] == parts[k + 1];
      }
      SplitJoin(rest, c);
      var j := Join(rest, [c]);
      assert Join(parts, [c]) == parts[0] + [c] + j;
      SplitConcat(parts[0], j, c);
      SplitNoSep(parts[0], c);
      assert [parts[0]] + rest == parts;
    }
  }

  /** A split on one character never yields a piece containing it. */
  lemma {:induction false} SplitPiecesFree(s: string, c: char)
    ensures forall k | 0 <= k < |Split(s, [c])| :: c !in Split(s, [c])[k]
    decreases |s|
  {
    if c !in s {
      SplitNoSep(s, c);
    } else {
      var i := FirstIndex(s, c);
      FindChar(s, c, i);
      SplitAt(s, c, i);
      SplitPiecesFree(s[i + 1..], c);
    }
  }

  /** A suffix is its first character followed by the rest. */
  lemma SliceCons(s: string, i: nat)
    requires i < |s|
    ensures [s[i]] + s[i + 1..] == s[i..]
  {
  }

  /** A suffix cut at `e` is its two pieces joined. */
  lemma SliceSplit(s: string, i: nat, e: nat)
    requires i <= e <= |s|
    ensures s[i..e] + s[e..] == s[i..]
  {
  }

  /** A slice of length one. */
  lemma OneSlice(s: string, i: nat)
    requires i < |s|
    ensures s[i..i + 1] == [s[i]]
  {
  }

  /** The pieces of a text joined from three. */
  lemma Pieces(a: string, x: string, b: string, s: string)
    requires s == a + x + b
    ensures |s| == |a| + |x| + |b| && s[..|a|] == a && s[|a|..|a| + |x|] == x && s[|a| + |x|..] == b
  {
  }

  /** `s.replace(pat, rep)` with no occurrence of `pat` leaves `s` as it is. */
  lemma {:induction false} ReplaceAbsent(s: string, pat: string, rep: string)
    requires |pat| > 0
    requires forall j :: !OccursAt(s, pat, j)
    ensures ReplaceAll(s, pat, rep) == s
    decreases |s|
  {
    if |s| >= |pat| {
      assert !OccursAt(s, pat, 0);
      forall j ensures !OccursAt(s[1..], pat, j) {
        if OccursAt(s[1..], pat, j) {
          assert s[1..][j..j + |pat|] == s[j + 1..j + 1 + |pat|];
          assert OccursAt(s, pat, j + 1);
        }
      }
      ReplaceAbsent(s[1..], pat, rep);
    }
  }

  /** `str.replace` copies every character before the first occurrence unchanged. */
  lemma {:induction false} ReplaceSkip(s: string, pat: string, rep: string, i: nat)
    requires |pat| > 0 && i <= |s|
    requires forall j | 0 <= j < i :: !OccursAt(s, pat, j)
    ensures ReplaceAll(s, pat, rep) == s[..i] + ReplaceAll(s[i..], pat, rep)
    decreases i
  {
    if i > 0 {
      assert !OccursAt(s, pat, 0);
      if |s| < |pat| {
        ReplaceAbsent(s[i..], pat, rep);
      } else {
        assert ReplaceAll(s, pat, rep) == [s[0]] + ReplaceAll(s[1..], pat, rep) by {
          assert s[..|pat|] != pat;
        }
        NoOccurrenceTail(s, pat, i);
        ReplaceSkip(s[1..], pat, rep, i - 1);
        ConsPrefix(s, i, ReplaceAll(s[i..], pat, rep));
      }
    }
  }

  /** The first character followed by the next `i - 1` is the prefix of length `i`. */
  lemma ConsPrefix(s: string, i: nat, x: string)
    requires 0 < i <= |s|
    ensures s[1..][i - 1..] == s[i..] && [s[0]] + (s[1..][..i - 1] + x) == s[..i] + x
  {
    assert [s[0]] + s[1..][..i - 1] == s[..i];
  }

  /** No occurrence among the first `i` positions leaves none among the
      first `i - 1` positions of the tail. */
  lemma NoOccurrenceTail(s: string, pat: string, i: nat)
    requires 0 < i <= |s| && forall j | 0 <= j < i :: !OccursAt(s, pat, j)
    ensures forall j | 0 <= j < i - 1 :: !OccursAt(s[1..], pat, j)
  {
    forall j | 0 <= j < i - 1
      ensures !OccursAt(s[1..], pat, j)
    {
      if OccursAt(s[1..], pat, j) {
        assert s[1..][j..j + |pat|] == s[j + 1..j + 1 + |pat|];
        assert OccursAt(s, pat, j + 1);
      }
    }
  }

  /** `s.replace(pat, rep)` is `rep.join(s.split(pat))`: an independent reading of replace. */
  lemma {:induction false} ReplaceIsSplitJoin(s: string, pat: string, rep: string)
    requires |pat| > 0
    ensures ReplaceAll(s, pat, rep) == Join(Split(s, pat), rep)
    decreases |s|
  {
    match FindFrom(s, pat, 0)
    case None =>
      ReplaceAbsent(s, pat, rep);
    case Some(i) =>
      ReplaceSkip(s, pat, rep, i);
      assert s[i..][..|pat|] == pat;
      assert s[i..][|pat|..] == s[i + |pat|..];
      ReplaceIsSplitJoin(s[i + |pat|..], pat, rep);
  }

  // ---------------------------------------------------------------------------
  // Decimal numbers

  function DigitValue(c: char): nat
    requires IsDigit(c)
  {
    c as int - '0' as int
  }

  function DigitChar(d: nat): (c: char)
    requires d < 10
    ensures IsDigit(c) && DigitValue(c) == d
  {
    (d + '0' as int) as char
  }

  /** Python's `int(digits)`. */
  function ParseNat(s: string): nat
    requires AllDigits(s)
    decreases |s|
  {
    if |s| == 0 then 0 else ParseNat(s[..|s| - 1]) * 10 + DigitValue(s[|s| - 1])
  }

  /** Python's `str(n)`; `int(str(n)) == n`. */
  function NatToString(n: nat): (r: string)
    decreases n
    ensures |r| > 0 && AllDigits(r)
    ensures ParseNat(r) == n
  {
    if n < 10 then [DigitChar(n)]
    else
      var r := NatToString(n / 10) + [DigitChar(n % 10)];
      assert r[..|r| - 1] == NatToString(n / 10);
      r
  }

  /** Python's `f"{n:02d}"`: at least two digits, zero-padded. */
  function Pad2(n: nat): (r: string)
    ensures |r| >= 2 && AllDigits(r) && ParseNat(r) == n
  {
    if n < 10 then
      var r := "0" + NatToString(n);
      assert r[..1] == "0";
      assert r[..|r| - 1] == "0";
      r
    else NatToString(n)
  }

  /** `s.count(c)` for one character. */
  function CountChar(s: string, c: char): nat
    decreases |s|
  {
    if |s| == 0 then 0 else CountChar(s[..|s| - 1], c) + (if s[|s| - 1] == c then 1 else 0)
  }

  lemma {:induction false} CountCharConcat(a: string, b: string, c: char)
    ensures CountChar(a + b, c) == CountChar(a, c) + CountChar(b, c)
    decreases |b|
  {
    if |b| > 0 {
      assert (a + b)[..|a + b| - 1] == a + b[..|b| - 1];
      CountCharConcat(a, b[..|b| - 1], c);
    } else {
      assert a + b == a;
    }
  }

  // ---------------------------------------------------------------------------
  // Python's string order (code points, a prefix first) and the least element of a set

  predicate LexLe(a: string, b: string)
    decreases |a|
  {
    |a| == 0 || (|b| > 0 && (a[0] < b[0] || (a[0] == b[0] && LexLe(a[1..], b[1..]))))
  }

  lemma {:induction false} LexLeRefl(a: string)
    ensures LexLe(a, a)
    decreases |a|
  {
    if |a| > 0 { LexLeRefl(a[1..]); }
  }

  lemma {:induction false} LexLeTotal(a: string, b: string)
    ensures LexLe(a, b) || LexLe(b, a)
    decreases |a|
  {
    if |a| > 0 && |b| > 0 && a[0] == b[0] { LexLeTotal(a[1..], b[1..]); }
  }

  lemma {:induction false} LexLeAntisym(a: string, b: string)
    requires LexLe(a, b) && LexLe(b, a)
    ensures a == b
    decreases |a|
  {
    if |a| > 0 {
      LexLeAntisym(a[1..], b[1..]);
      assert a == [a[0]] + a[1..] && b == [b[0]] + b[1..];
    }
  }

  lemma {:induction false} LexLeTrans(a: string, b: string, c: string)
    requires LexLe(a, b) && LexLe(b, c)
    ensures LexLe(a, c)
    decreases |a|
  {
    if |a| > 0 && a[0] == b[0] && b[0] == c[0] { LexLeTrans(a[1..], b[1..], c[1..]); }
  }

  predicate IsLeast(m: string, s: set<string>) {
    m in s && forall x | x in s :: LexLe(m, x)
  }

  lemma {:induction false} LeastExists(s: set<string>)
    requires s != {}
    ensures exists m :: IsLeast(m, s)
    decreases |s|
  {
    var x :| x in s;
    if s == {x} {
      LexLeRefl(x);
      assert IsLeast(x, s);
    } else {
      LeastExists(s - {x});
      var m :| IsLeast(m, s - {x});
      LexLeTotal(x, m);
      if LexLe(x, m) {
        LexLeRefl(x);
        forall y | y in s ensures LexLe(x, y) {
          if y != x { LexLeTrans(x, m, y); }
        }
        assert IsLeast(x, s);
      } else {
        assert IsLeast(m, s);
      }
    }
  }

  lemma LeastUnique(s: set<string>)
    ensures forall a, b :: IsLeast(a, s) && IsLeast(b, s) ==> a == b
  {
    forall a, b | IsLeast(a, s) && IsLeast(b, s) ensures a == b {
      LexLeAntisym(a, b);
    }
  }

  /** `sorted(s)[0]`: the least string of a non-empty set in Python's order. */
  function Least(s: set<string>): (m: string)
    requires s != {}
    ensures m in s
    ensures forall x | x in s :: LexLe(m, x)
  {
    LeastExists(s);
    LeastUnique(s);
    var m :| IsLeast(m, s);
    m
  }
}

module NotationFacts {
  import opened Base
  import opened Strings
  import opened Assoc
  import opened Notation

  /** One step of the weapon scan at a position where a token matches. */
  lemma ScanToken(s: string, i: nat, acc: Assoc<WeaponKind, nat>, k: WeaponKind, c: nat, e: nat)
    requires TokenAt(s, i) == Some((k, c, e))
    ensures ScanWeapons(s, i, acc) == ScanWeapons(s, e, Put(acc, k, c))
  {
  }

  /** A one-letter weapon code followed by a single digit is a token. */
  lemma OneDigitToken(s: string, i: nat, k: WeaponKind)
    requires |Code(k)| == 1 && i + 1 < |s| && s[i] == Code(k)[0] && IsDigit(s[i + 1])
    requires i + 2 == |s| || !IsDigit(s[i + 2])
    ensures TokenAt(s, i) == Some((k, ParseNat([s[i + 1]]), i + 2))
  {
    assert s[i..i + 1] == Code(k);
    assert CodeAt(s, i, k);
    assert DigitRun(s, i + 1) == 1 + DigitRun(s, i + 2);
    assert s[i + 1..i + 2] == [s[i + 1]];
  }

  /** One step of the weapon scan at a position where no token starts. */
  lemma ScanSkip(s: string, i: nat, acc: Assoc<WeaponKind, nat>)
    requires i < |s| && s[i] !in "SPMGLHXTW"
    ensures ScanWeapons(s, i, acc) == ScanWeapons(s, i + 1, acc)
  {
    assert s[i..i + 1][0] == s[i];
    if i + 2 <= |s| {
      assert s[i..i + 2][0] == s[i];
    }
    assert KindAt(s, i) == None;
  }

  /** A tag whose first letter does not occur in the string matches nothing. */
  lemma Untagged(s: string, tag: string)
    requires |tag| > 0 && tag[0] !in s
    ensures ExtractUtility(s, tag) == Extracted(0, s)
  {
    forall j: nat ensures !TaggedAt(s, tag, j) {
      if j + |tag| <= |s| {
        assert s[j..j + |tag|][0] == s[j];
      }
    }
  }

  /** The leftmost tag is the first one after a prefix free of its first letter. */
  lemma FirstTagged(s: string, tag: string, i: nat)
    requires |tag| > 0 && i <= |s| && tag[0] !in s[..i] && TaggedAt(s, tag, i)
    ensures SearchTagged(s, tag, 0) == Some(i)
  {
    forall j: nat | j < i ensures !TaggedAt(s, tag, j) {
      if j + |tag| <= |s| {
        assert s[j..j + |tag|][0] == s[j] == s[..i][j];
      }
    }
  }

  /** A utility tag with a single digit, after a prefix free of the tag's
      first letter and before a text that does not repeat the token: its
      digit is the count, and the token is deleted. */
  lemma OneDigitUtility(a: string, tag: string, dg: char, b: string)
    requires |tag| > 0 && tag[0] !in a && IsDigit(dg)
    requires |b| == 0 || !IsDigit(b[0])
    requires forall j :: !OccursAt(b, tag + [dg], j)
    ensures ExtractUtility(a + (tag + [dg]) + b, tag) == Extracted(ParseNat([dg]), a + b)
  {
    var x := tag + [dg];
    var s := a + x + b;
    Pieces(a, x, b, s);
    UtilityAt(s, |a|, x, tag, dg, b);
    DeleteOnce(a, x, b);
  }

  /** A trailing `UL<d>` is taken out before the weapon scan, so its `L` is
      never read as a weapon: on a notation without `U` and `A` (so with no
      other utility or aux token) it adds `d` large utility slots, 4 points
      each, and leaves the weapons as they were. */
  lemma TrailingLargeUtility(w: string, d: char, ship: string)
    requires 'U' !in w && 'A' !in w && IsDigit(d)
    ensures var p, q := ParseNotation(w + "UL" + [d], ship), ParseNotation(w, ship);
      p.largeUtility == ParseNat([d]) && p.smallUtility == 0 && p.aux == 0 && p.weapons == q.weapons
      && q.largeUtility == 0 && q.smallUtility == 0 && q.aux == 0
      && p.totalPoints == q.totalPoints + 4 * ParseNat([d])
  {
    var n := w + "UL" + [d];
    assert n == w + ("UL" + [d]) + "";
    OneDigitUtility(w, "UL", d, "");
    assert w + "" == w;
    Untagged(w, "UL");
    Untagged(w, "US");
    Untagged(w, "AUX");
  }

  /** The utility token `x`, a tag and one digit, found at `i`. */
  lemma UtilityAt(s: string, i: nat, x: string, tag: string, dg: char, b: string)
    requires |tag| > 0 && IsDigit(dg) && (|b| == 0 || !IsDigit(b[0])) && x == tag + [dg]
    requires i + |x| <= |s| && tag[0] !in s[..i] && s[i..i + |x|] == x && s[i + |x|..] == b
    ensures ExtractUtility(s, tag) == Extracted(ParseNat([dg]), ReplaceAll(s, x, ""))
  {
    TokenDigit(s, i, x, tag, dg, b);
    assert SearchTagged(s, tag, 0) == Some(i) by {
      assert s[i..i + |tag|] == s[i..i + |x|][..|tag|];
      FirstTagged(s, tag, i);
    }
    ExtractAt(s, tag, i, 1, [dg], x, ParseNat([dg]), ReplaceAll(s, x, ""));
  }

  /** What the extraction yields once the match and its digit run are known:
      the count `c` read from the digits `num`, and the rest `r` left when the
      token `tok` is deleted. */
  lemma ExtractAt(s: string, tag: string, i: nat, n: nat, num: string, tok: string, c: nat, r: string)
    requires SearchTagged(s, tag, 0) == Some(i) && DigitRun(s, i + |tag|) == n
    requires i + |tag| + n <= |s| && s[i + |tag|..i + |tag| + n] == num && s[i..i + |tag| + n] == tok
    requires AllDigits(num) && c == ParseNat(num) && r == ReplaceAll(s, tok, "")
    ensures ExtractUtility(s, tag) == Extracted(c, r)
  {
    ExtractFound(s, tag, i);
    TakeTokenAt(s, tag, i, n, num, tok, c, r);
  }

  /** A match hands the working string to `TakeToken`. */
  lemma ExtractFound(s: string, tag: string, i: nat)
    requires SearchTagged(s, tag, 0) == Some(i)
    ensures i + |tag| <= |s| && ExtractUtility(s, tag) == TakeToken(s, i, i + |tag|)
  {
  }

  /** The token taken when the digit run after the tag at `i` has length `n`. */
  lemma TakeTokenAt(s: string, tag: string, i: nat, n: nat, num: string, tok: string, c: nat, r: string)
    requires i + |tag| <= |s| && DigitRun(s, i + |tag|) == n
    requires i + |tag| + n <= |s| && s[i + |tag|..i + |tag| + n] == num && s[i..i + |tag| + n] == tok
    requires AllDigits(num) && c == ParseNat(num) && r == ReplaceAll(s, tok, "")
    ensures TakeToken(s, i, i + |tag|) == Extracted(c, r)
  {
  }

  /** A tag and one digit at `i`, followed by `b`, which does not start with a digit. */
  lemma TokenDigit(s: string, i: nat, x: string, tag: string, dg: char, b: string)
    requires IsDigit(dg) && (|b| == 0 || !IsDigit(b[0])) && x == tag + [dg]
    requires i + |x| <= |s| && s[i..i + |x|] == x && s[i + |x|..] == b
    ensures i + |tag| < |s| && DigitRun(s, i + |tag|) == 1
    ensures s[i + |tag|..i + |tag| + 1] == [dg] && s[i..i + |tag| + 1] == x
  {
    var d := i + |tag|;
    assert d + 1 == i + |x|;
    assert x[|tag|] == dg;
    assert s[d] == s[i..d + 1][|tag|] == dg;
    assert d + 1 < |s| ==> s[d + 1] == s[d + 1..][0] == b[0];
    OneSlice(s, d);
    SingleDigit(s, d);
  }

  /** A digit followed by a non-digit or the end is a run of one. */
  lemma SingleDigit(s: string, d: nat)
    requires d < |s| && IsDigit(s[d]) && (d + 1 < |s| ==> !IsDigit(s[d + 1]))
    ensures DigitRun(s, d) == 1
  {
    var n := DigitRun(s, d);
    assert n != 0;
    assert n < 2;
  }

  /** Deleting a text that occurs once, after a prefix free of its first letter. */
  lemma DeleteOnce(a: string, m: string, b: string)
    requires |m| > 0 && m[0] !in a && forall j :: !OccursAt(b, m, j)
    ensures ReplaceAll(a + m + b, m, "") == a + b
  {
    var s := a + m + b;
    forall j | 0 <= j < |a| ensures !OccursAt(s, m, j) {
      if j + |m| <= |s| {
        assert s[j..j + |m|][0] == s[j] == a[j];
      }
    }
    ReplaceSkip(s, m, "", |a|);
    assert s[..|a|] == a;
    assert s[|a|..] == m + b;
    assert (m + b)[..|m|] == m && (m + b)[|m|..] == b;
    ReplaceAbsent(b, m, "");
  }
}
module NotationExamples {
  import opened Base
  import opened Strings
  import opened Assoc
  import opened Notation
  import opened NotationFacts

  lemma BattleshipAux() ensures AuxCost("battleship") == 8 {}
  lemma PointsT1() ensures WeaponPoints([(T, 1)]) == 16 {}

  lemma UtilT1UL1(s: string) requires s == "T1UL1" ensures ExtractUtility(s, "UL") == Extracted(1, "T1") {
    assert s == "T1" + ("UL" + ['1']) + "";
    OneDigitUtility("T1", "UL", '1', "");
    assert ParseNat(['1']) == 1;
  }

  lemma ScanT1() ensures ScanWeapons("T1", 0, []) == [(T, 1)] {
    var s := "T1";
    OneDigitToken(s, 0, T);
    assert ParseNat([s[1]]) == 1;
    ScanToken(s, 0, [], T, 1, 2);
    assert Put([], T, 1) == [(T, 1)];
  }

  /** The docstring's first example: `T1UL1` on a battleship is one titanic
      weapon and one large utility slot, 16 + 4 = 20 points, tier common. */
  lemma ExampleT1UL1(n: string, ship: string)
    requires n == "T1UL1" && ship == "battleship"
    ensures var d := ParseNotation(n, ship);
      d.weapons == [(T, 1)] && d.largeUtility == 1 && d.smallUtility == 0 && d.aux == 0
      && d.totalPoints == 20 && d.tier == Common
  {
    UtilT1UL1(n);
    Untagged("T1", "US");
    Untagged("T1", "AUX");
    ScanT1();
    BattleshipAux();
    PointsT1();
    TierRanges(20);
  }

  lemma UtilT2X1UL2(s: string) requires s == "T2X1UL2" ensures ExtractUtility(s, "UL") == Extracted(2, "T2X1") {
    assert s == "T2X1" + ("UL" + ['2']) + "";
    OneDigitUtility("T2X1", "UL", '2', "");
    assert ParseNat(['2']) == 2;
  }

  lemma TokensT2X1()
    ensures TokenAt("T2X1", 0) == Some((T, 2, 2)) && TokenAt("T2X1", 2) == Some((X, 1, 4))
  {
    var s := "T2X1";
    OneDigitToken(s, 0, T);
    assert ParseNat([s[1]]) == 2;
    OneDigitToken(s, 2, X);
    assert ParseNat([s[3]]) == 1;
  }

  lemma ScanT2X1() ensures ScanWeapons("T2X1", 0, []) == [(T, 2), (X, 1)] {
    TokensT2X1();
    ScanToken("T2X1", 0, [], T, 2, 2);
    assert Put([], T, 2) == [(T, 2)];
    ScanToken("T2X1", 2, [(T, 2)], X, 1, 4);
    assert Put([(T, 2)], X, 1) == [(T, 2), (X, 1)];
  }

  lemma PointsT2X1() ensures WeaponPoints([(T, 2), (X, 1)]) == 40 {}

  /** The docstring's second example: `T2X1UL2` is 2 * 16 + 8 + 2 * 4 = 48
      points, which the threshold table places in `ultra` (41-52), not in
      `ultimate` as the docstring says. */
  lemma ExampleT2X1UL2(n: string, ship: string)
    requires n == "T2X1UL2" && ship == "battleship"
    ensures var d := ParseNotation(n, ship);
      d.weapons == [(T, 2), (X, 1)] && d.largeUtility == 2 && d.smallUtility == 0 && d.aux == 0
      && d.totalPoints == 48 && d.tier == Ultra
  {
    UtilT2X1UL2(n);
    Untagged("T2X1", "US");
    Untagged("T2X1", "AUX");
    ScanT2X1();
    BattleshipAux();
    PointsT2X1();
    TierRanges(48);
  }

  lemma UtilUL1UL2(s: string) requires s == "UL1UL2" ensures ExtractUtility(s, "UL") == Extracted(1, "UL2") {
    assert s == "" + ("UL" + ['1']) + "UL2";
    forall j ensures !OccursAt("UL2", "UL" + ['1'], j) {
      if 0 <= j && j + 3 <= 3 { assert "UL2"[j..j + 3][2] != ("UL" + ['1'])[2]; }
    }
    OneDigitUtility("", "UL", '1', "UL2");
    assert ParseNat(['1']) == 1;
  }

  lemma NoUSInUL2() ensures ExtractUtility("UL2", "US") == Extracted(0, "UL2") {
    assert "UL2"[0..2][1] == 'L';
    assert !TaggedAt("UL2", "US", 0);
    assert SearchTagged("UL2", "US", 0) == None;
  }

  lemma TokenL2(s: string) requires s == "UL2" ensures TokenAt(s, 1) == Some((L, 2, 3)) {
    OneDigitToken(s, 1, L);
    assert ParseNat([s[2]]) == 2;
  }

  lemma ScanUL2(s: string) requires s == "UL2" ensures ScanWeapons(s, 0, []) == [(L, 2)] {
    ScanSkip(s, 0, []);
    TokenL2(s);
    ScanToken(s, 1, [], L, 2, 3);
    assert Put([], L, 2) == [(L, 2)];
  }

  lemma PointsL2() ensures WeaponPoints([(L, 2)]) == 8 {}

  /** Only the first `UL` token is read as utility; its text is deleted, and
      the second `UL2`, left in the string, is read as the weapon `L2`. */
  lemma ExampleRepeatedUtility(n: string, ship: string)
    requires n == "UL1UL2" && ship == "battleship"
    ensures var d := ParseNotation(n, ship);
      d.largeUtility == 1 && d.weapons == [(L, 2)] && d.totalPoints == 12
  {
    UtilUL1UL2(n);
    NoUSInUL2();
    Untagged("UL2", "AUX");
    ScanUL2("UL2");
    BattleshipAux();
    PointsL2();
  }

  lemma ScanT1T3() ensures ScanWeapons("T1T3", 0, []) == [(T, 3)] {
    var s := "T1T3";
    OneDigitToken(s, 0, T);
    assert ParseNat([s[1]]) == 1;
    ScanToken(s, 0, [], T, 1, 2);
    assert Put([], T, 1) == [(T, 1)];
    OneDigitToken(s, 2, T);
    assert ParseNat([s[3]]) == 3;
    ScanToken(s, 2, [(T, 1)], T, 3, 4);
    assert Put([(T, 1)], T, 3) == [(T, 3)];
  }

  lemma PointsT3() ensures WeaponPoints([(T, 3)]) == 48 {}

  /** A repeated weapon kind keeps its last count. */
  lemma ExampleRepeatedWeapon(n: string, ship: string)
    requires n == "T1T3" && ship == "battleship"
    ensures var d := ParseNotation(n, ship);
      d.weapons == [(T, 3)] && d.totalPoints == 48 && d.tier == Ultra
  {
    Untagged("T1T3", "UL");
    Untagged("T1T3", "US");
    Untagged("T1T3", "AUX");
    ScanT1T3();
    BattleshipAux();
    PointsT3();
    TierRanges(48);
  }
}

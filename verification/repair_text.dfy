/** The repairs of fix_section_errors.py that rewrite the text of a section
    file directly: re-tiering section keys (`fix_section_tiers`), renaming
    and deleting modifier assignments (`fix_modifiers`) and renaming tech
    references (`fix_tech_references`). */
module RepairText {
  import opened Base
  import opened Strings
  import opened Assoc
  import opened Seqs
  import opened Lines
  import opened Words
  import opened Fields
  import opened Notation
  import Emit

  // ---------------------------------------------------------------------------
  // fix_section_tiers

  /** VALID_TIERS: the upper-case tier words a key may carry. */
  const ValidTiers: set<string> := {"COMMON", "ADVANCED", "PRO", "ULTRA", "ULTIMATE"}

  /** A ship's entry in SHIP_BASE_POINTS, as the JSON loader stores it: a
      number, or a value that is not one (null, a string, a list). JSON
      `true` and `false` load as Python's 1 and 0. */
  datatype BasePoints = Number(value: real) | NotNumber

  /** The tier-fix message divides the total points by the ship's base
      points: that raises when they are zero or not a number. (A total past
      the float range raises too; the model does not bound totals.) */
  predicate Divides(b: BasePoints) {
    b.Number? && b.value != 0.0
  }

  /** The tier word a generated key carries for tier `t`. */
  function TierWord(t: Tier): (w: string)
    ensures w in ValidTiers && '_' !in w
  {
    match t
    case Common => "COMMON" case Advanced => "ADVANCED" case Pro => "PRO"
    case Ultra => "ULTRA" case Ultimate => "ULTIMATE"
  }

  /** Different tiers have different tier words. */
  lemma TierWordInjective(t: Tier, u: Tier)
    ensures TierWord(t) == TierWord(u) <==> t == u
  {
  }

  /** The tier word is the upper-cased tier name. */
  lemma TierWordIsUpper(t: Tier)
    ensures Upper(TierName(t)) == TierWord(t)
  {
    var n, w := TierName(t), TierWord(t);
    assert |Upper(n)| == |w|;
    forall i | 0 <= i < |w| ensures Upper(n)[i] == w[i] {
      assert Upper(n)[i] == UpperChar(n[i]);
    }
  }

  /** The first position at or after `i` holding a tier word. */
  function FirstTier(parts: seq<string>, i: nat): (r: Option<nat>)
    requires i <= |parts|
    ensures r.Some? ==> i <= r.value < |parts| && parts[r.value] in ValidTiers
    ensures forall k | i <= k < (if r.Some? then r.value else |parts|) :: parts[k] !in ValidTiers
    decreases |parts| - i
  {
    if i == |parts| then None
    else if parts[i] in ValidTiers then Some(i)
    else FirstTier(parts, i + 1)
  }

  /** The ship type a key names, given the position `t` of its tier word:
      the parts between "PBSS" and the slot first, then the parts between
      "PBSS" and the tier word; `None` when neither is a base ship type. */
  function KeyShip(parts: seq<string>, t: nat, base: map<string, BasePoints>): (r: Option<string>)
    requires 1 <= t <= |parts|
    ensures r.Some? ==> r.value in base
  {
    var short := Lower(Join(if t >= 2 then parts[1..t - 1] else [], "_"));
    if short in base then Some(short)
    else
      var long := Lower(Join(parts[1..t], "_"));
      if long in base then Some(long) else None
  }

  /** The inner `fix_key` of fix_section_tiers for a key: the replacement key
      when its tier word disagrees with the tier its notation scores, `None`
      when the key is left alone. `base` is SHIP_BASE_POINTS. A rewrite also
      builds its change message, which divides by the ship's base points;
      when that raises, the `except` swallows it and the key is left alone.
      The rewrite replaces every `_TIER_` of the key, as `str.replace` does. */
  function FixKey(key: string, base: map<string, BasePoints>): (r: Option<string>)
    ensures |Split(key, "_")| < 5 || Split(key, "_")[0] != "PBSS" ==> r.None?
    ensures FirstTier(Split(key, "_"), 0).None? ==> r.None?
    ensures r.Some? ==>
              var parts := Split(key, "_");
              var t := FirstTier(parts, 0).value;
              var ship := KeyShip(parts, t, base);
              ship.Some? && Divides(base[ship.value])
              && var correct := TierWord(ParseNotation(Join(parts[t + 1..], "_"), ship.value).tier);
                 correct != parts[t]
                 && r.value == ReplaceAll(key, "_" + parts[t] + "_", "_" + correct + "_")
  {
    var parts := Split(key, "_");
    if |parts| < 5 || parts[0] != "PBSS" then None
    else
      match FirstTier(parts, 0)
      case None => None
      case Some(t) =>
        assert t >= 1 by { assert parts[0] !in ValidTiers; }
        match KeyShip(parts, t, base)
        case None => None
        case Some(ship) =>
          var design := ParseNotation(Join(parts[t + 1..], "_"), ship);
          TierWordIsUpper(design.tier);
          var correct := Upper(TierName(design.tier));
          if correct != parts[t] && Divides(base[ship]) then
            Some(ReplaceAll(key, "_" + parts[t] + "_", "_" + correct + "_"))
          else None
  }

  /** Upper-casing never creates or removes an underscore. */
  lemma UpperUnderscore(s: string)
    ensures '_' in Upper(s) <==> '_' in s
  {
    if '_' in s {
      var i :| 0 <= i < |s| && s[i] == '_';
      assert Upper(s)[i] == '_';
    }
    if '_' in Upper(s) {
      var i :| 0 <= i < |Upper(s)| && Upper(s)[i] == '_';
      assert s[i] == '_';
    }
  }

  lemma Regroup<T>(x: seq<T>, y: seq<T>, b: T, w: T, z: seq<T>)
    ensures x + (y + ([b] + ([w] + z))) == x + y + [b, w] + z
  {
  }

  /** Splitting `PBSS_a_b_w_c` on "_" when neither `b` nor `w` holds one. */
  lemma SplitKeyShape(a: string, b: string, w: string, c: string)
    requires '_' !in b && '_' !in w
    ensures Split("PBSS" + "_" + (a + "_" + (b + "_" + (w + "_" + c))), "_")
            == ["PBSS"] + Split(a, "_") + [b, w] + Split(c, "_")
  {
    var tail2 := w + "_" + c;
    var tail1 := b + "_" + tail2;
    var tail0 := a + "_" + tail1;
    SplitNoSep(w, '_');
    SplitConcatFree(w, c, '_');
    SplitNoSep(b, '_');
    SplitConcatFree(b, tail2, '_');
    SplitConcat(a, tail1, '_');
    SplitNoSep("PBSS", '_');
    SplitConcatFree("PBSS", tail0, '_');
    var sa, sc := Split(a, "_"), Split(c, "_");
    Regroup(["PBSS"], sa, b, w, sc);
  }

  /** A generated key splits into "PBSS", the words of the ship type, the
      slot, the tier word and the words of the notation. */
  lemma GeneratedKeyParts(ship: string, slot: string, t: Tier, n: string)
    requires '_' !in slot
    ensures Split(Emit.MakeKey(ship, slot, t, n), "_")
            == ["PBSS"] + Split(Upper(ship), "_") + [Upper(slot), TierWord(t)] + Split(Upper(n), "_")
  {
    var a, b, w, c := Upper(ship), Upper(slot), TierWord(t), Upper(n);
    TierWordIsUpper(t);
    UpperUnderscore(slot);
    assert Emit.MakeKey(ship, slot, t, n) == "PBSS" + "_" + (a + "_" + (b + "_" + (w + "_" + c)));
    SplitKeyShape(a, b, w, c);
  }

  /** What re-tiering does to a key the generator wrote: it is left alone
      when its tier word is the tier the notation scores, and otherwise every
      `_TIER_` in it is replaced by the scored tier word. The ship type is
      read back from the key's first reading, since no word of it and not
      the slot is a tier word. */
  lemma GeneratedKeyFix(ship: string, slot: string, t: Tier, n: string, base: map<string, BasePoints>)
    requires ship in base
    requires forall i | 0 <= i < |ship| :: !IsUpperAscii(ship[i])
    requires '_' !in slot && Upper(slot) !in ValidTiers
    requires forall p | p in Split(Upper(ship), "_") :: p !in ValidTiers
    ensures var key, c := Emit.MakeKey(ship, slot, t, n), ParseNotation(Upper(n), ship).tier;
            FixKey(key, base)
            == if t == c || !Divides(base[ship]) then None
               else Some(ReplaceAll(key, "_" + TierWord(t) + "_", "_" + TierWord(c) + "_"))
  {
    var key := Emit.MakeKey(ship, slot, t, n);
    var ti := |Split(Upper(ship), "_")| + 2;
    GeneratedKeyReading(ship, slot, t, n, base);
    FixKeyAt(key, base, ti, TierWord(t), ship, Upper(n));
    var c := ParseNotation(Upper(n), ship).tier;
    TierWordInjective(t, c);
  }

  /** `fix_key` reads a key split into `parts` as naming the tier word `w`
      at part `ti`, the ship type `ship` and the notation `n`. */
  predicate ReadsAs(parts: seq<string>, base: map<string, BasePoints>, ti: nat, w: string, ship: string, n: string) {
    |parts| >= 5 && parts[0] == "PBSS" && FirstTier(parts, 0) == Some(ti) && parts[ti] == w
    && KeyShip(parts, ti, base) == Some(ship) && Join(parts[ti + 1..], "_") == n
  }

  /** `fix_key` on a key whose reading is base. */
  lemma FixKeyAt(key: string, base: map<string, BasePoints>, ti: nat, w: string, ship: string, n: string)
    requires ReadsAs(Split(key, "_"), base, ti, w, ship, n)
    ensures var c := TierWord(ParseNotation(n, ship).tier);
      FixKey(key, base) == if c == w || !Divides(base[ship]) then None else Some(ReplaceAll(key, "_" + w + "_", "_" + c + "_"))
  {
    TierWordIsUpper(ParseNotation(n, ship).tier);
  }

  /** How `fix_key` reads a key the generator wrote: the tier word follows
      the ship's words and the slot, the ship type is read back, and the rest
      is the upper-cased notation. */
  lemma GeneratedKeyReading(ship: string, slot: string, t: Tier, n: string, base: map<string, BasePoints>)
    requires ship in base
    requires forall i | 0 <= i < |ship| :: !IsUpperAscii(ship[i])
    requires '_' !in slot && Upper(slot) !in ValidTiers
    requires forall p | p in Split(Upper(ship), "_") :: p !in ValidTiers
    ensures ReadsAs(Split(Emit.MakeKey(ship, slot, t, n), "_"), base, |Split(Upper(ship), "_")| + 2, TierWord(t), ship, Upper(n))
  {
    var sa, sn := Split(Upper(ship), "_"), Split(Upper(n), "_");
    GeneratedKeyParts(ship, slot, t, n);
    JoinSplit(Upper(ship), "_");
    LowerUpper(ship);
    JoinSplit(Upper(n), "_");
    LayoutReading(Emit.MakeKey(ship, slot, t, n), sa, Upper(slot), TierWord(t), sn, base, ship, Upper(n));
  }

  /** The reading of a key whose parts are `PBSS`, the ship's words, the
      slot, the tier word and the notation's words. */
  lemma LayoutReading(key: string, sa: seq<string>, b: string, w: string, sn: seq<string>,
                      base: map<string, BasePoints>, ship: string, n: string)
    requires Split(key, "_") == ["PBSS"] + sa + [b, w] + sn && |sa| >= 1 && |sn| >= 1
    requires forall p | p in sa :: p !in ValidTiers
    requires b !in ValidTiers && w in ValidTiers
    requires Lower(Join(sa, "_")) == ship && ship in base && Join(sn, "_") == n
    ensures ReadsAs(Split(key, "_"), base, |sa| + 2, w, ship, n)
  {
    var parts := Split(key, "_");
    LayoutTier(parts, sa, b, w, sn);
    LayoutSlices(parts, sa, b, w, sn);
  }

  /** In such a layout the tier word is the first part that is one. */
  lemma LayoutTier(parts: seq<string>, sa: seq<string>, b: string, w: string, sn: seq<string>)
    requires parts == ["PBSS"] + sa + [b, w] + sn
    requires forall p | p in sa :: p !in ValidTiers
    requires b !in ValidTiers && w in ValidTiers
    ensures FirstTier(parts, 0) == Some(|sa| + 2)
  {
    var ti := |sa| + 2;
    assert parts[ti] == w;
    forall k | 0 <= k < ti ensures parts[k] !in ValidTiers {
      if 1 <= k <= |sa| { assert parts[k] == sa[k - 1]; }
    }
  }

  /** The ship's words and the notation's words sit between the fixed parts. */
  lemma LayoutSlices(parts: seq<string>, sa: seq<string>, b: string, w: string, sn: seq<string>)
    requires parts == ["PBSS"] + sa + [b, w] + sn
    ensures parts[0] == "PBSS" && parts[|sa| + 2] == w
    ensures parts[1..|sa| + 1] == sa && parts[|sa| + 3..] == sn
  {
  }

  /** Re-tiering a key the generator wrote leaves it alone exactly when the
      key's tier word is the tier its notation scores. */
  lemma GeneratedKeyStable(ship: string, slot: string, t: Tier, n: string, base: map<string, BasePoints>)
    requires ship in base
    requires forall i | 0 <= i < |ship| :: !IsUpperAscii(ship[i])
    requires '_' !in slot && Upper(slot) !in ValidTiers
    requires forall p | p in Split(Upper(ship), "_") :: p !in ValidTiers
    ensures FixKey(Emit.MakeKey(ship, slot, t, n), base).None?
            <==> t == ParseNotation(Upper(n), ship).tier || !Divides(base[ship])
  {
    GeneratedKeyFix(ship, slot, t, n, base);
  }

  /** An occurrence of `_x_` in `s`, for an `x` without underscores, makes
      `x` one of the pieces of `s.split("_")`. */
  lemma DelimitedIsPiece(s: string, x: string, j: nat)
    requires '_' !in x
    ensures OccursAt(s, "_" + x + "_", j) ==> x in Split(s, "_")
  {
    if OccursAt(s, "_" + x + "_", j) {
      var e := j + |x| + 2;
      var rest := s[e..];
      assert s == s[..j] + "_" + (x + "_" + rest) by {
        assert s[j..e] == "_" + x + "_";
        assert s == s[..j] + s[j..e] + rest;
      }
      SplitConcat(s[..j], x + "_" + rest, '_');
      SplitNoSep(x, '_');
      SplitConcatFree(x, rest, '_');
      assert Split(s, "_") == Split(s[..j], "_") + ([x] + Split(rest, "_"));
      assert Split(s, "_")[|Split(s[..j], "_")|] == x;
    }
  }

  /** A trailing underscore adds one empty piece. */
  lemma SplitTrailing(p: string)
    ensures Split(p + "_", "_") == Split(p, "_") + [""]
  {
    SplitConcat(p, "", '_');
    SplitNoSep("", '_');
    assert p + "_" + "" == p + "_";
  }

  /** A word that is not a piece of `p`, followed by an underscore, never
      appears as `_w_` in `p_`. */
  lemma NotPieceNoOccurrence(p: string, w: string, j: nat)
    requires '_' !in w && |w| > 0 && w !in Split(p, "_")
    ensures !OccursAt(p + "_", "_" + w + "_", j)
  {
    SplitTrailing(p);
    DelimitedIsPiece(p + "_", w, j);
  }

  /** No `_w_` starts before the last character of `q` in `q w_m`, where `q`
      ends in an underscore and has no `_w_` of its own. */
  lemma NoEarlyOccurrence(q: string, w: string, m: string, j: nat)
    requires '_' !in w && !OccursAt(q, "_" + w + "_", j)
    requires |q| > 0 && q[|q| - 1] == '_' && j < |q| - 1
    ensures !OccursAt(q + w + "_" + m, "_" + w + "_", j)
  {
    var pat := "_" + w + "_";
    var key := q + w + "_" + m;
    if j + |pat| <= |q| {
      assert key[j..j + |pat|] == q[j..j + |pat|];
    } else if j + |pat| <= |key| {
      var k := |q| - 1 - j;
      assert 1 <= k <= |w|;
      assert key[|q| - 1] == '_';
      assert pat[k] == w[k - 1];
      assert key[j..j + |pat|][k] != pat[k];
    }
  }

  /** Replacing `_w_` in `p_w_m`, where `w` is not a piece of `p` and `m` has
      no underscore, touches only the `_w_` that sits between them. */
  lemma ReplaceMiddle(p: string, w: string, x: string, m: string)
    requires '_' !in w && '_' !in m && |w| > 0
    requires w !in Split(p, "_")
    ensures ReplaceAll(p + "_" + w + "_" + m, "_" + w + "_", "_" + x + "_") == p + "_" + x + "_" + m
  {
    forall j: nat ensures !OccursAt(p + "_", "_" + w + "_", j) {
      NotPieceNoOccurrence(p, w, j);
    }
    ReplaceAfter(p, w, x, m);
  }

  /** The same, once `p_` is base to hold no `_w_`. */
  lemma ReplaceAfter(p: string, w: string, x: string, m: string)
    requires '_' !in w && '_' !in m && |w| > 0
    requires forall j: nat :: !OccursAt(p + "_", "_" + w + "_", j)
    ensures ReplaceAll(p + "_" + w + "_" + m, "_" + w + "_", "_" + x + "_") == p + "_" + x + "_" + m
  {
    var pat, rep := "_" + w + "_", "_" + x + "_";
    var key := p + "_" + w + "_" + m;
    Regroup5(p, "_", w, "_", m);
    Regroup5(p, "_", x, "_", m);
    assert key == p + (pat + m);
    assert key[..|p|] == p;
    assert key[|p|..] == pat + m;
    assert ReplaceAll(pat + m, pat, rep) == rep + m by {
      assert (pat + m)[..|pat|] == pat;
      assert (pat + m)[|pat|..] == m;
      NoUnderscoreNoOccurrence(m, w);
      ReplaceAbsent(m, pat, rep);
    }
    forall j | 0 <= j < |p| ensures !OccursAt(key, pat, j) {
      NoEarlyOccurrence(p + "_", w, m, j);
    }
    ReplaceSkip(key, pat, rep, |p|);
  }

  /** Text without an underscore holds no `_w_`. */
  lemma NoUnderscoreNoOccurrence(m: string, w: string)
    requires '_' !in m
    ensures forall j :: !OccursAt(m, "_" + w + "_", j)
  {
    forall j ensures !OccursAt(m, "_" + w + "_", j) {
      if 0 <= j && j + |w| + 2 <= |m| {
        assert m[j..j + |w| + 2][0] == m[j];
      }
    }
  }

  lemma Regroup5<T>(a: seq<T>, b: seq<T>, c: seq<T>, d: seq<T>, e: seq<T>)
    ensures a + b + c + d + e == a + (b + c + d) + e
  {
  }

  /** A generated key is its prefix up to the slot, then `_TIER_`, then the notation. */
  lemma MakeKeyShape(ship: string, slot: string, t: Tier, n: string)
    ensures Emit.MakeKey(ship, slot, t, n)
            == ("PBSS" + "_" + (Upper(ship) + "_" + Upper(slot))) + "_" + TierWord(t) + "_" + Upper(n)
  {
    TierWordIsUpper(t);
  }

  /** Re-tiering a generated key whose notation has no underscore rewrites it
      to the key the generator writes for the scored tier, and a second pass
      changes nothing. */
  lemma GeneratedKeyRetier(ship: string, slot: string, t: Tier, n: string, base: map<string, BasePoints>)
    requires ship in base
    requires forall i | 0 <= i < |ship| :: !IsUpperAscii(ship[i])
    requires '_' !in slot && Upper(slot) !in ValidTiers
    requires forall p | p in Split(Upper(ship), "_") :: p !in ValidTiers
    requires '_' !in n
    ensures var c := ParseNotation(Upper(n), ship).tier;
            FixKey(Emit.MakeKey(ship, slot, t, n), base)
            == (if t == c || !Divides(base[ship]) then None else Some(Emit.MakeKey(ship, slot, c, n)))
    ensures FixKey(Emit.MakeKey(ship, slot, ParseNotation(Upper(n), ship).tier, n), base).None?
  {
    var c := ParseNotation(Upper(n), ship).tier;
    GeneratedKeyFix(ship, slot, t, n, base);
    GeneratedKeyFix(ship, slot, c, n, base);
    if t != c {
      RewriteTierWord(ship, slot, t, c, n);
    }
  }

  /** Replacing the tier word of a generated key by another tier's word gives
      the key generated for that other tier. */
  lemma RewriteTierWord(ship: string, slot: string, t: Tier, c: Tier, n: string)
    requires '_' !in slot && Upper(slot) !in ValidTiers
    requires forall p | p in Split(Upper(ship), "_") :: p !in ValidTiers
    requires '_' !in n
    ensures ReplaceAll(Emit.MakeKey(ship, slot, t, n), "_" + TierWord(t) + "_", "_" + TierWord(c) + "_")
            == Emit.MakeKey(ship, slot, c, n)
  {
    var a, b := Upper(ship), Upper(slot);
    var p := "PBSS" + "_" + (a + "_" + b);
    UpperUnderscore(slot);
    UpperUnderscore(n);
    SplitNoSep(b, '_');
    SplitConcatFree(b, "", '_');
    SplitConcat(a, b, '_');
    SplitNoSep("PBSS", '_');
    SplitConcatFree("PBSS", a + "_" + b, '_');
    assert Split(p, "_") == ["PBSS"] + Split(a, "_") + [b];
    assert TierWord(t) !in Split(p, "_");
    MakeKeyShape(ship, slot, t, n);
    MakeKeyShape(ship, slot, c, n);
    ReplaceMiddle(p, TierWord(t), TierWord(c), Upper(n));
  }

  /** `key\s*=\s*"(PBSS_[^"]+)"` tried at `i`: the key and where the match
      ends. */
  function KeyMatchAt(s: string, i: nat): (r: Option<(string, nat)>)
    requires i <= |s|
    ensures r.Some? <==> MatchAt(Quoted("key"), s, i).Some? && StartsWith(MatchAt(Quoted("key"), s, i).value.0, "PBSS_")
                         && |MatchAt(Quoted("key"), s, i).value.0| > 5
    ensures r.Some? ==> r == MatchAt(Quoted("key"), s, i) && i < r.value.1 <= |s|
  {
    match MatchAt(Quoted("key"), s, i)
    case None => None
    case Some(m) => if |m.0| > 5 && StartsWith(m.0, "PBSS_") then Some(m) else None
  }

  /** fix_section_tiers from position `i`: every key match is replaced by
      `key = "<fixed key>"` when `FixKey` rewrites it and kept verbatim
      otherwise; the search resumes after each match. */
  function FixTiersFrom(s: string, base: map<string, BasePoints>, i: nat): (r: string)
    requires i <= |s|
    decreases |s| - i
  {
    if i == |s| then ""
    else
      match KeyMatchAt(s, i)
      case Some((key, e)) =>
        (match FixKey(key, base)
         case Some(fixed) => "key = " + Emit.Quote(fixed)
         case None => s[i..e])
        + FixTiersFrom(s, base, e)
      case None => [s[i]] + FixTiersFrom(s, base, i + 1)
  }

  function FixSectionTiers(s: string, base: map<string, BasePoints>): string {
    FixTiersFrom(s, base, 0)
  }

  /** A text none of whose section keys needs a new tier comes back unchanged. */
  lemma {:induction false} FixTiersUnchanged(s: string, base: map<string, BasePoints>, i: nat)
    requires i <= |s|
    requires forall j | i <= j < |s| && KeyMatchAt(s, j).Some? :: FixKey(KeyMatchAt(s, j).value.0, base).None?
    ensures FixTiersFrom(s, base, i) == s[i..]
    decreases |s| - i
  {
    if i < |s| {
      match KeyMatchAt(s, i)
      case Some((key, e)) =>
        assert FixTiersFrom(s, base, i) == s[i..e] + FixTiersFrom(s, base, e);
        FixTiersUnchanged(s, base, e);
        SliceSplit(s, i, e);
      case None =>
        assert FixTiersFrom(s, base, i) == [s[i]] + FixTiersFrom(s, base, i + 1);
        FixTiersUnchanged(s, base, i + 1);
        SliceCons(s, i);
    }
  }

  /** A key match whose key needs a new tier is rewritten to the fixed key:
      the text from `i` on starts with `key = "<fixed key>"`. */
  lemma FixTiersRewrites(s: string, base: map<string, BasePoints>, i: nat)
    requires i < |s| && KeyMatchAt(s, i).Some? && FixKey(KeyMatchAt(s, i).value.0, base).Some?
    ensures var fixed := FixKey(KeyMatchAt(s, i).value.0, base).value;
            StartsWith(FixTiersFrom(s, base, i), "key = " + Emit.Quote(fixed))
  {
    var m := KeyMatchAt(s, i).value;
    var fixed := FixKey(m.0, base).value;
    var head := "key = " + Emit.Quote(fixed);
    assert FixTiersFrom(s, base, i) == head + FixTiersFrom(s, base, m.1);
  }

  /** With an empty SHIP_BASE_POINTS no key names a ship type with base
      points, so re-tiering leaves every text as it is. */
  lemma NoBasePointsNoFix(s: string)
    ensures FixSectionTiers(s, map[]) == s
  {
    forall j | 0 <= j < |s| && KeyMatchAt(s, j).Some?
      ensures FixKey(KeyMatchAt(s, j).value.0, map[]).None?
    {
    }
    FixTiersUnchanged(s, map[], 0);
  }

  // ---------------------------------------------------------------------------
  // fix_modifiers: deleting an assignment

  /** The end of the line holding position `i`: its newline, or the end of
      the text. */
  function LineEnd(s: string, i: nat): (e: nat)
    requires i <= |s|
    ensures i <= e <= |s| && (e == |s| || s[e] == '\n')
    ensures forall k | i <= k < e :: s[k] != '\n'
    decreases |s| - i
  {
    if i == |s| || s[i] == '\n' then i else LineEnd(s, i + 1)
  }

  predicate LineStart(s: string, i: nat)
    requires i <= |s|
  {
    i == 0 || s[i - 1] == '\n'
  }

  /** `^\s*NAME\s*=\s*[\d.\-]+\s*#?.*$\n?` in MULTILINE mode tried at `i`:
      where the match ends. The regex engine's choices are all forced: every
      `\s*` and the number run are greedy and what follows them cannot start
      with what they consume. As `\s` includes the newline, the run after the
      number goes on through blank line ends into the next line, and `.*$`
      then takes that line as well. */
  function ModifierMatchAt(s: string, name: string, i: nat): (r: Option<nat>)
    requires i <= |s|
    ensures r.Some? ==> i < r.value <= |s|
  {
    if !LineStart(s, i) then None
    else
      match AfterAssign(s, name, SkipSpaces(s, i))
      case None => None
      case Some(v) =>
        var e := NumberEnd(s, v);
        if e == v then None
        else
          var t := LineEnd(s, SkipSpaces(s, e));
          Some(if t < |s| then t + 1 else t)
  }

  /** `re.sub(<that pattern>, "", s, flags=re.MULTILINE)` from position `i`,
      as the script has it. */
  function DeleteAsWrittenFrom(s: string, name: string, i: nat): string
    requires i <= |s|
    decreases |s| - i
  {
    if i == |s| then ""
    else
      match ModifierMatchAt(s, name, i)
      case Some(e) => DeleteAsWrittenFrom(s, name, e)
      case None => [s[i]] + DeleteAsWrittenFrom(s, name, i + 1)
  }

  function DeleteModifierAsWritten(s: string, name: string): string {
    DeleteAsWrittenFrom(s, name, 0)
  }

  /** The text both deletions are compared on: a modifier assignment on the
      line before a closing brace. */
  const BraceExample: string := "{\n  m = 1\n}"

  lemma BraceExampleNoMatchAtStart()
    ensures ModifierMatchAt(BraceExample, "m", 0).None?
  {
    assert SkipSpaces(BraceExample, 0) == 0;
    assert !OccursAt(BraceExample, "m", 0);
  }

  lemma BraceExampleMatch()
    ensures ModifierMatchAt(BraceExample, "m", 2) == Some(11)
  {
    var s := BraceExample;
    assert SkipSpaces(s, 2) == 4;
    assert OccursAt(s, "m", 4);
    assert SkipSpaces(s, 5) == 6;
    assert SkipSpaces(s, 7) == 8;
    assert AfterAssign(s, "m", 4) == Some(8);
    assert NumberEnd(s, 8) == 9;
    assert SkipSpaces(s, 9) == 10;
    assert LineEnd(s, 10) == 11;
  }

  /** Deleting a modifier that sits on the line before a closing brace
      deletes the brace as well: the whitespace run after the value crosses
      the newline. */
  lemma DeleteAsWrittenTakesNextLine()
    ensures DeleteModifierAsWritten(BraceExample, "m") == "{\n"
  {
    var s := BraceExample;
    BraceExampleNoMatchAtStart();
    BraceExampleMatch();
    assert !LineStart(s, 1);
    assert DeleteAsWrittenFrom(s, "m", 11) == "";
    assert DeleteAsWrittenFrom(s, "m", 2) == "";
    assert DeleteAsWrittenFrom(s, "m", 1) == "\n";
    assert DeleteAsWrittenFrom(s, "m", 0) == "{" + "\n";
  }

  /** A line that assigns a number to `name`: the start of the pattern above,
      read on one line, where `\s` can no longer reach past it. */
  predicate IsModifierLine(line: string, name: string) {
    ModifierMatchAt(line, name, 0).Some?
  }

  /** The lines that assign a number to `name`. */
  function Assigns(name: string): string -> bool {
    l => IsModifierLine(l, name)
  }

  /** The deletion the pattern means: drop every line that assigns a number to
      `name`, with its newline, and nothing else. */
  function DeleteModifier(s: string, name: string): string {
    KeepLines(Split(s, "\n"), Assigns(name))
  }

  lemma BraceExampleLines()
    ensures Split(BraceExample, "\n") == ["{", "  m = 1", "}"]
  {
    assert BraceExample == "{" + "\n" + ("  m = 1" + "\n" + "}");
    SplitNoSep("{", '\n');
    SplitNoSep("  m = 1", '\n');
    SplitNoSep("}", '\n');
    SplitConcatFree("  m = 1", "}", '\n');
    SplitConcatFree("{", "  m = 1" + "\n" + "}", '\n');
  }

  lemma BraceExampleModifierLine()
    ensures !IsModifierLine("{", "m") && IsModifierLine("  m = 1", "m") && !IsModifierLine("}", "m")
  {
    assert SkipSpaces("{", 0) == 0;
    assert SkipSpaces("}", 0) == 0;
    var l := "  m = 1";
    assert SkipSpaces(l, 0) == 2;
    assert OccursAt(l, "m", 2);
    assert SkipSpaces(l, 3) == 4;
    assert SkipSpaces(l, 5) == 6;
    assert AfterAssign(l, "m", 2) == Some(6);
    assert NumberEnd(l, 6) == 7;
  }

  /** The corrected deletion on the same text keeps the closing brace. */
  lemma DeleteModifierKeepsNextLine(s: string, name: string)
    requires s == BraceExample && name == "m"
    ensures DeleteModifier(s, name) == "{\n}"
  {
    assert "{" + "\n" + "}" == "{\n}";
    BraceExampleLines();
    BraceExampleModifierLine();
    KeepMiddleDropped("{", "  m = 1", "}", Assigns("m"));
  }

  /** The lines of the kept text: the kept lines in order, followed by an
      empty line when the text ended in a dropped line after a kept one. */
  lemma KeptTextLines(s: string, drop: string -> bool)
    ensures Split(KeepLines(Split(s, "\n"), drop), "\n") == KeptLinesOf(Split(s, "\n"), drop)
  {
    var lines := Split(s, "\n");
    SplitPiecesFree(s, '\n');
    assert forall k | 0 <= k < |lines| :: '\n' !in lines[k];
    KeptLinesSplit(lines, drop);
  }

  /** Keeping lines twice keeps nothing less, when the empty line is kept. */
  lemma KeepLinesIdempotent(s: string, drop: string -> bool)
    requires !drop("")
    ensures var r := KeepLines(Split(s, "\n"), drop);
            KeepLines(Split(r, "\n"), drop) == r
  {
    KeptTextLines(s, drop);
    KeepKeptLines(Split(s, "\n"), drop);
  }

  /** The empty line assigns nothing. */
  lemma EmptyLineKept(name: string)
    ensures !Assigns(name)("")
  {
    assert SkipSpaces("", 0) == 0;
  }

  /** A text without modifier lines for `name` is left as it is. */
  lemma DeleteModifierNoop(s: string, name: string)
    requires forall k | 0 <= k < |Split(s, "\n")| :: !IsModifierLine(Split(s, "\n")[k], name)
    ensures DeleteModifier(s, name) == s
  {
    KeepAllLines(s, Assigns(name));
  }

  /** The lines of the result are exactly the lines of `s` that do not assign
      a number to `name`, in their order (and an empty last line when the
      text ended in a deleted line after a kept one). */
  lemma DeleteModifierLines(s: string, name: string)
    ensures Split(DeleteModifier(s, name), "\n") == KeptLinesOf(Split(s, "\n"), Assigns(name))
  {
    KeptTextLines(s, Assigns(name));
  }

  /** Deleting twice deletes nothing more. */
  lemma DeleteModifierIdempotent(s: string, name: string)
    ensures DeleteModifier(DeleteModifier(s, name), name) == DeleteModifier(s, name)
  {
    EmptyLineKept(name);
    KeepLinesIdempotent(s, Assigns(name));
  }

  // ---------------------------------------------------------------------------
  // fix_modifiers: the replacement table

  /** No line of `s` assigns a number to `name`. */
  predicate NoModifierLine(s: string, name: string) {
    forall l | l in Split(s, "\n") :: !IsModifierLine(l, name)
  }

  /** Deleting `name` leaves no line that assigns it, and brings back no line
      that assigns another modifier. */
  lemma DeleteModifierClears(s: string, name: string, other: string)
    ensures NoModifierLine(DeleteModifier(s, name), name)
    ensures NoModifierLine(s, other) ==> NoModifierLine(DeleteModifier(s, name), other)
  {
    DeleteModifierLines(s, name);
    EmptyLineKept(name);
    EmptyLineKept(other);
    KeptLinesOfMember(Split(s, "\n"), Assigns(name));
  }

  /** Every modifier the table names has a non-empty name. */
  predicate NamedModifiers(reps: Assoc<string, Option<string>>) {
    forall i | 0 <= i < |reps| :: |reps[i].0| > 0
  }

  /** One rule of the table: no new name deletes the modifier's assignment
      lines, a new name replaces its whole-word occurrences. `asWritten`
      selects the deletion pattern as the script has it. */
  function FixModifier(s: string, name: string, rename: Option<string>, asWritten: bool): string
    requires |name| > 0
  {
    match rename
    case None => if asWritten then DeleteModifierAsWritten(s, name) else DeleteModifier(s, name)
    case Some(to) => RenameWord(s, name, to)
  }

  /** `fix_modifiers`: the rules applied in table order, each to the text the
      previous one left. */
  function FixModifiersWith(s: string, reps: Assoc<string, Option<string>>, asWritten: bool): string
    requires NamedModifiers(reps)
    decreases |reps|
  {
    if |reps| == 0 then s
    else FixModifiersWith(FixModifier(s, reps[0].0, reps[0].1, asWritten), reps[1..], asWritten)
  }

  /** The replacements with the deletion the pattern means. */
  function FixModifiers(s: string, reps: Assoc<string, Option<string>>): string
    requires NamedModifiers(reps)
  {
    FixModifiersWith(s, reps, false)
  }

  /** The replacements as the script has them. */
  function FixModifiersAsWritten(s: string, reps: Assoc<string, Option<string>>): string
    requires NamedModifiers(reps)
  {
    FixModifiersWith(s, reps, true)
  }

  /** A text in which no rule finds anything is left as it is. */
  lemma {:induction false} FixModifiersNoop(s: string, reps: Assoc<string, Option<string>>)
    requires NamedModifiers(reps)
    requires forall i | 0 <= i < |reps| ::
               if reps[i].1.None? then NoModifierLine(s, reps[i].0) else NoWholeWord(s, reps[i].0, false)
    ensures FixModifiers(s, reps) == s
    decreases |reps|
  {
    if |reps| > 0 {
      var name := reps[0].0;
      if reps[0].1.None? {
        assert NoModifierLine(s, name);
        forall k | 0 <= k < |Split(s, "\n")| ensures !IsModifierLine(Split(s, "\n")[k], name) {
          assert Split(s, "\n")[k] in Split(s, "\n");
        }
        DeleteModifierNoop(s, name);
      } else {
        RenameAbsent(s, name, reps[0].1.value, false);
      }
      assert FixModifier(s, name, reps[0].1, false) == s;
      FixModifiersNoop(s, reps[1..]);
    }
  }

  /** One deletion keeps every modifier in `gone` gone and adds `name` to them. */
  lemma DeleteKeepsGone(s: string, name: string, gone: seq<string>)
    requires forall k | 0 <= k < |gone| :: NoModifierLine(s, gone[k])
    ensures forall k | 0 <= k < |gone| :: NoModifierLine(DeleteModifier(s, name), gone[k])
    ensures NoModifierLine(DeleteModifier(s, name), name)
  {
    forall k | 0 <= k < |gone| ensures NoModifierLine(DeleteModifier(s, name), gone[k]) {
      DeleteModifierClears(s, name, gone[k]);
    }
    DeleteModifierClears(s, name, name);
  }

  /** A table of deletions only: afterwards no line assigns any modifier it
      names, and none that was gone already comes back. */
  lemma {:induction false} DeletionsClearFrom(s: string, reps: Assoc<string, Option<string>>, gone: seq<string>)
    requires NamedModifiers(reps)
    requires forall i | 0 <= i < |reps| :: reps[i].1.None?
    requires forall k | 0 <= k < |gone| :: NoModifierLine(s, gone[k])
    ensures forall k | 0 <= k < |gone| :: NoModifierLine(FixModifiers(s, reps), gone[k])
    ensures forall i | 0 <= i < |reps| :: NoModifierLine(FixModifiers(s, reps), reps[i].0)
    decreases |reps|
  {
    if |reps| > 0 {
      var name := reps[0].0;
      var next := DeleteModifier(s, name);
      assert FixModifier(s, name, reps[0].1, false) == next;
      assert FixModifiers(s, reps) == FixModifiers(next, reps[1..]);
      DeleteKeepsGone(s, name, gone);
      var gone' := gone + [name];
      DeletionsClearFrom(next, reps[1..], gone');
      var r := FixModifiers(s, reps);
      assert forall k | 0 <= k < |gone'| :: NoModifierLine(r, gone'[k]);
      forall k | 0 <= k < |gone| ensures NoModifierLine(r, gone[k]) {
        assert gone'[k] == gone[k];
      }
      forall i | 0 <= i < |reps| ensures NoModifierLine(r, reps[i].0) {
        if i == 0 {
          assert gone'[|gone|] == name;
        } else {
          assert reps[1..][i - 1] == reps[i];
        }
      }
    }
  }

  /** After a table of deletions no line assigns any modifier it names. */
  lemma DeletionsClear(s: string, reps: Assoc<string, Option<string>>)
    requires NamedModifiers(reps)
    requires forall i | 0 <= i < |reps| :: reps[i].1.None?
    ensures forall i | 0 <= i < |reps| :: NoModifierLine(FixModifiers(s, reps), reps[i].0)
  {
    DeletionsClearFrom(s, reps, []);
  }

  /** A rename followed by the rename back restores the text, when both names
      are words and the new one did not occur as a whole word. */
  lemma FixModifiersRenameBack(s: string, from: string, to: string)
    requires |from| > 0 && AllWordChars(from) && |to| > 0 && AllWordChars(to)
    requires NoWholeWord(s, to, false)
    ensures FixModifiers(s, [(from, Some(to)), (to, Some(from))]) == s
  {
    var reps := [(from, Some(to)), (to, Some(from))];
    var mid := RenameWord(s, from, to);
    RenameBack(s, from, to, false);
    assert FixModifier(s, from, Some(to), false) == mid;
    assert FixModifier(mid, to, Some(from), false) == s;
    assert reps[1..] == [(to, Some(from))];
    assert reps[1..][1..] == [];
    assert FixModifiersWith(s, reps, false) == FixModifiersWith(mid, reps[1..], false);
    assert FixModifiersWith(mid, reps[1..], false) == FixModifiersWith(s, reps[1..][1..], false);
  }

  /** On the brace example the script's deletion takes the closing brace with
      the modifier line, where the meant deletion keeps it. */
  lemma FixModifiersBraceExample()
    ensures FixModifiersAsWritten(BraceExample, [("m", None)]) == "{\n"
    ensures FixModifiers(BraceExample, [("m", None)]) == "{\n}"
  {
    DeleteAsWrittenTakesNextLine();
    DeleteModifierKeepsNextLine(BraceExample, "m");
  }

  // ---------------------------------------------------------------------------
  // fix_tech_references

  /** `fix_tech_references`: each old name replaced by its new one everywhere,
      in table order, each replacement on the text the previous one left. */
  function FixTechReferences(s: string, reps: Assoc<string, string>): string
    decreases |reps|
  {
    if |reps| == 0 then s else FixTechReferences(ReplaceAll(s, reps[0].0, reps[0].1), reps[1..])
  }

  /** The same table read through `str.split` and `str.join`. */
  function TechBySplit(s: string, reps: Assoc<string, string>): string
    requires forall i | 0 <= i < |reps| :: |reps[i].0| > 0
    decreases |reps|
  {
    if |reps| == 0 then s else TechBySplit(Join(Split(s, reps[0].0), reps[0].1), reps[1..])
  }

  /** Replacing agrees with splitting at the old name and joining with the new. */
  lemma {:induction false} FixTechIsSplitJoin(s: string, reps: Assoc<string, string>)
    requires forall i | 0 <= i < |reps| :: |reps[i].0| > 0
    ensures FixTechReferences(s, reps) == TechBySplit(s, reps)
    decreases |reps|
  {
    if |reps| > 0 {
      ReplaceIsSplitJoin(s, reps[0].0, reps[0].1);
      FixTechIsSplitJoin(Join(Split(s, reps[0].0), reps[0].1), reps[1..]);
    }
  }

  /** A text that mentions none of the old names is left as it is. */
  lemma {:induction false} FixTechNoop(s: string, reps: Assoc<string, string>)
    requires forall i | 0 <= i < |reps| :: |reps[i].0| > 0 && !Contains(s, reps[i].0)
    ensures FixTechReferences(s, reps) == s
    decreases |reps|
  {
    if |reps| > 0 {
      var pat := reps[0].0;
      forall j ensures !OccursAt(s, pat, j) {
        if 0 <= j <= |s| - |pat| {
          assert !OccursAt(s, pat, j);
        }
      }
      ReplaceAbsent(s, pat, reps[0].1);
      FixTechNoop(s, reps[1..]);
    }
  }

  /** Two tables in a row are one table: the rules are applied strictly one
      after the other. */
  lemma {:induction false} FixTechConcat(s: string, a: Assoc<string, string>, b: Assoc<string, string>)
    ensures FixTechReferences(s, a + b) == FixTechReferences(FixTechReferences(s, a), b)
    decreases |a|
  {
    if |a| > 0 {
      assert (a + b)[0] == a[0];
      assert (a + b)[1..] == a[1..] + b;
      FixTechConcat(ReplaceAll(s, a[0].0, a[0].1), a[1..], b);
    } else {
      assert a + b == b;
    }
  }
}

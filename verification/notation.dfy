/** The design notation compiler of generate_sections.py: weapon kinds and
    their point costs, the tier buckets, and `parse_notation`, which turns a
    string such as `T1UL1` or `X1L2UL3AUX2` into counts, a point total and a
    tier. */
module Notation {
  import opened Base
  import opened Strings
  import opened Assoc

  // ---------------------------------------------------------------------------
  // Weapon kinds and costs

  datatype WeaponKind = S | PD | M | G | L | HB | X | T | W

  /** Every weapon kind, in the order the alternation of the weapon pattern
      does not care about (the codes never share a first letter with a digit). */
  const AllKinds: seq<WeaponKind> := [S, PD, M, G, L, HB, X, T, W]

  /** The letters of a kind in a notation. */
  function Code(k: WeaponKind): (c: string)
    ensures 1 <= |c| <= 2 && !IsDigit(c[0])
  {
    match k
    case S => "S" case PD => "PD" case M => "M" case G => "G" case L => "L"
    case HB => "HB" case X => "X" case T => "T" case W => "W"
  }

  /** WEAPON_COSTS: points per unit of each kind. */
  function Cost(k: WeaponKind): nat {
    match k
    case S => 1 case PD => 1 case M => 2 case G => 2 case L => 4
    case HB => 4 case X => 8 case T => 16 case W => 0
  }

  /** UTILITY_COSTS. */
  const LargeUtilityCost: nat := 4
  const SmallUtilityCost: nat := 1

  /** The ship types SHIP_AUX_COST lists. */
  const AuxCostShips: set<string> := {
    "corvette", "frigate", "destroyer", "cruiser", "battleship", "titan",
    "juggernaut", "colossus", "star_eater"}

  /** SHIP_AUX_COST, with the default 4 of `.get(ship_type, 4)`. */
  function AuxCost(ship: string): (c: nat)
    ensures ship !in AuxCostShips ==> c == 4
    ensures c in {1, 2, 4, 8, 16, 32}
  {
    match ship
    case "corvette" => 1 case "frigate" => 1 case "destroyer" => 2
    case "cruiser" => 4 case "battleship" => 8 case "titan" => 16
    case "juggernaut" => 16 case "colossus" => 16 case "star_eater" => 32
    case _ => 4
  }

  // ---------------------------------------------------------------------------
  // Tiers

  datatype Tier = Common | Advanced | Pro | Ultra | Ultimate

  /** The lower-case tier name used in the design record. */
  function TierName(t: Tier): string {
    match t
    case Common => "common" case Advanced => "advanced" case Pro => "pro"
    case Ultra => "ultra" case Ultimate => "ultimate"
  }

  /** TIER_THRESHOLDS: (tier, min, max) in the order the loop visits them. */
  const Thresholds: seq<(Tier, int, int)> := [
    (Common, 0, 24), (Advanced, 25, 32), (Pro, 33, 40), (Ultra, 41, 52),
    (Ultimate, 53, 999)]

  predicate InBucket(total: int, i: nat)
    requires i < |Thresholds|
  {
    Thresholds[i].1 <= total <= Thresholds[i].2
  }

  /** The loop over the thresholds from index `i`: the first bucket holding
      `total`, if any. */
  function FirstBucket(total: int, i: nat): (r: Option<nat>)
    requires i <= |Thresholds|
    decreases |Thresholds| - i
    ensures r.Some? ==> i <= r.value < |Thresholds| && InBucket(total, r.value)
    ensures r.Some? ==> forall j | i <= j < r.value :: !InBucket(total, j)
    ensures r.None? ==> forall j | i <= j < |Thresholds| :: !InBucket(total, j)
  {
    if i == |Thresholds| then None
    else if Thresholds[i].1 <= total <= Thresholds[i].2 then Some(i)
    else FirstBucket(total, i + 1)
  }

  /** `tier = "common"` followed by the first matching bucket. */
  function TierOf(total: int): (t: Tier)
    ensures (exists i | 0 <= i < |Thresholds| :: InBucket(total, i)) ==>
              exists i | 0 <= i < |Thresholds| :: InBucket(total, i) && Thresholds[i].0 == t
    ensures (forall i | 0 <= i < |Thresholds| :: !InBucket(total, i)) ==> t == Common
  {
    match FirstBucket(total, 0)
    case Some(i) => Thresholds[i].0
    case None => Common
  }

  /** The buckets are pairwise disjoint, cover 0..999 and nothing else, so a
      total has at most one bucket and the loop's first match is that one. */
  lemma BucketsPartition(total: int)
    ensures forall i, j | 0 <= i < j < |Thresholds| :: !(InBucket(total, i) && InBucket(total, j))
    ensures (exists i | 0 <= i < |Thresholds| :: InBucket(total, i)) <==> 0 <= total <= 999
  {
    if 0 <= total <= 999 {
      if total <= 24 { assert InBucket(total, 0); }
      else if total <= 32 { assert InBucket(total, 1); }
      else if total <= 40 { assert InBucket(total, 2); }
      else if total <= 52 { assert InBucket(total, 3); }
      else { assert InBucket(total, 4); }
    }
  }

  /** The tier of every total, spelled out: the table's five ranges, and the
      default `common` for a total above 999 (no bucket matches it). */
  lemma TierRanges(total: nat)
    ensures TierOf(total) == Common <==> total <= 24 || total > 999
    ensures TierOf(total) == Advanced <==> 25 <= total <= 32
    ensures TierOf(total) == Pro <==> 33 <= total <= 40
    ensures TierOf(total) == Ultra <==> 41 <= total <= 52
    ensures TierOf(total) == Ultimate <==> 53 <= total <= 999
  {
    BucketsPartition(total);
    if total <= 24 { assert InBucket(total, 0); }
    else if total <= 32 { assert InBucket(total, 1); }
    else if total <= 40 { assert InBucket(total, 2); }
    else if total <= 52 { assert InBucket(total, 3); }
    else if total <= 999 { assert InBucket(total, 4); }
  }

  /** TIER_COST_MULT applied to the base cost 80, `int(80 * mult)`, as the
      integers the floating-point products truncate to. */
  function AlloyCost(t: Tier): (c: nat)
    ensures 80 <= c <= 128
  {
    match t
    case Common => 80 case Advanced => 88 case Pro => 100
    case Ultra => 112 case Ultimate => 128
  }

  // ---------------------------------------------------------------------------
  // Token scanners

  /** Length of the run of ASCII digits at `i` (the greedy `\d+`). */
  function DigitRun(s: string, i: nat): (n: nat)
    requires i <= |s|
    decreases |s| - i
    ensures i + n <= |s|
    ensures forall k | i <= k < i + n :: IsDigit(s[k])
    ensures i + n < |s| ==> !IsDigit(s[i + n])
  {
    if i < |s| && IsDigit(s[i]) then 1 + DigitRun(s, i + 1) else 0
  }

  /** The pattern `<tag>(\d+)` matches at `i`. */
  predicate TaggedAt(s: string, tag: string, i: nat) {
    i + |tag| < |s| && s[i..i + |tag|] == tag && IsDigit(s[i + |tag|])
  }

  /** `re.search(tag + r"(\d+)", s)` from position `from`: the leftmost match. */
  function SearchTagged(s: string, tag: string, from: nat): (r: Option<nat>)
    decreases |s| - from
    ensures r.Some? ==> from <= r.value && TaggedAt(s, tag, r.value)
    ensures forall j | from <= j && (r.None? || j < r.value) :: !TaggedAt(s, tag, j)
  {
    if from + |tag| >= |s| then None
    else if TaggedAt(s, tag, from) then Some(from)
    else SearchTagged(s, tag, from + 1)
  }

  /** Result of taking one utility token out of the working string. */
  datatype Extracted = Extracted(count: nat, rest: string)

  /** `m = re.search(tag + r"(\d+)", work)`; if it matches, its number is the
      count and every occurrence of the matched text is deleted from `work`. */
  function ExtractUtility(work: string, tag: string): Extracted {
    match SearchTagged(work, tag, 0)
    case None => Extracted(0, work)
    case Some(i) => TakeToken(work, i, i + |tag|)
  }

  /** The count of the token whose tag starts at `i` and whose digits start
      at `d`, and the working string with that token deleted. */
  function TakeToken(work: string, i: nat, d: nat): Extracted
    requires i <= d <= |work|
  {
    var j := d + DigitRun(work, d);
    Extracted(ParseNat(work[d..j]), ReplaceAll(work, work[i..j], ""))
  }

  /** The code of kind `k` followed by a digit starts at `i`. */
  predicate CodeAt(s: string, i: nat, k: WeaponKind) {
    i + |Code(k)| < |s| && s[i..i + |Code(k)|] == Code(k) && IsDigit(s[i + |Code(k)|])
  }

  /** The codes start with different letters. */
  lemma FirstLetters(k: WeaponKind, k': WeaponKind)
    requires Code(k)[0] == Code(k')[0]
    ensures k == k'
  {
  }

  /** At most one code, followed by a digit, stands at a position. */
  lemma CodesExclusive(s: string, i: nat)
    ensures forall k, k' | CodeAt(s, i, k) && CodeAt(s, i, k') :: k == k'
  {
    forall k, k' | CodeAt(s, i, k) && CodeAt(s, i, k') ensures k == k' {
      assert s[i..i + |Code(k)|][0] == s[i] == s[i..i + |Code(k')|][0];
      FirstLetters(k, k');
    }
  }

  /** The alternation `(PD|HB|T|X|L|M|S|G|W)` followed by `\d+` at position
      `i`; at most one kind can match at a position. */
  function KindAt(s: string, i: nat): (r: Option<WeaponKind>)
    ensures forall k :: r == Some(k) <==> CodeAt(s, i, k)
  {
    CodesExclusive(s, i);
    if CodeAt(s, i, PD) then Some(PD)
    else if CodeAt(s, i, HB) then Some(HB)
    else if CodeAt(s, i, T) then Some(T)
    else if CodeAt(s, i, X) then Some(X)
    else if CodeAt(s, i, L) then Some(L)
    else if CodeAt(s, i, M) then Some(M)
    else if CodeAt(s, i, S) then Some(S)
    else if CodeAt(s, i, G) then Some(G)
    else if CodeAt(s, i, W) then Some(W)
    else None
  }

  /** A weapon token at `i`: its kind, its count and the position after it. */
  function TokenAt(s: string, i: nat): (r: Option<(WeaponKind, nat, nat)>)
    ensures r.Some? ==> CodeAt(s, i, r.value.0) && i < r.value.2 <= |s|
  {
    match KindAt(s, i)
    case None => None
    case Some(k) =>
      var d := i + |Code(k)|;
      var e := d + DigitRun(s, d);
      Some((k, ParseNat(s[d..e]), e))
  }

  /** `for m in re.finditer(...): weapons[kind] = int(count)` from position
      `i`: each kind keeps its first position in the dict and its last count. */
  function ScanWeapons(s: string, i: nat, acc: Assoc<WeaponKind, nat>): (r: Assoc<WeaponKind, nat>)
    decreases |s| - i
  {
    if i >= |s| then acc
    else match TokenAt(s, i)
      case None => ScanWeapons(s, i + 1, acc)
      case Some((k, c, e)) => ScanWeapons(s, e, Put(acc, k, c))
  }

  /** The scan keeps the dict's keys unique. */
  lemma {:induction false} ScanUnique(s: string, i: nat, acc: Assoc<WeaponKind, nat>)
    requires UniqueKeys(acc)
    ensures UniqueKeys(ScanWeapons(s, i, acc))
    decreases |s| - i
  {
    if i < |s| {
      match TokenAt(s, i)
      case None => ScanUnique(s, i + 1, acc);
      case Some((k, c, e)) =>
        PutUnique(acc, k, c);
        ScanUnique(s, e, Put(acc, k, c));
    }
  }

  /** The weapon tokens `re.finditer` yields from position `i`, in order:
      each one's kind and count. */
  function Tokens(s: string, i: nat): (ts: seq<(WeaponKind, nat)>)
    decreases |s| - i
  {
    if i >= |s| then []
    else match TokenAt(s, i)
      case None => Tokens(s, i + 1)
      case Some((k, c, e)) => [(k, c)] + Tokens(s, e)
  }

  /** The count of the last token of kind `k` in `ts`; none when no token
      has that kind. */
  function LastCount(ts: seq<(WeaponKind, nat)>, k: WeaponKind): (r: Option<nat>)
    ensures r.None? <==> forall j | 0 <= j < |ts| :: ts[j].0 != k
    ensures r.Some? ==> exists j | 0 <= j < |ts| :: ts[j] == (k, r.value) && forall j' | j < j' < |ts| :: ts[j'].0 != k
    decreases |ts|
  {
    if |ts| == 0 then None
    else
      var rest := LastCount(ts[1..], k);
      assert forall j | 1 <= j < |ts| :: ts[j] == ts[1..][j - 1];
      if rest.Some? then
        assert exists j | 0 <= j < |ts| :: ts[j] == (k, rest.value) && forall j' | j < j' < |ts| :: ts[j'].0 != k by {
          var j :| 0 <= j < |ts[1..]| && ts[1..][j] == (k, rest.value) && forall j' | j < j' < |ts[1..]| :: ts[1..][j'].0 != k;
          assert ts[j + 1] == (k, rest.value);
        }
        rest
      else if ts[0].0 == k then Some(ts[0].1)
      else None
  }

  /** The weapon dict after the scan from `i`: a kind whose token is found
      holds the count of its last token, and any other kind keeps what `acc`
      held. */
  lemma {:induction false} ScanCounts(s: string, i: nat, acc: Assoc<WeaponKind, nat>, k: WeaponKind)
    ensures Get(ScanWeapons(s, i, acc), k) ==
              if LastCount(Tokens(s, i), k).Some? then LastCount(Tokens(s, i), k) else Get(acc, k)
    decreases |s| - i
  {
    if i < |s| {
      match TokenAt(s, i)
      case None =>
        NoTokenStep(s, i, acc);
        ScanCounts(s, i + 1, acc, k);
      case Some((k0, c0, e)) =>
        TokenStep(s, i, acc, k0, c0, e);
        ScanCounts(s, e, Put(acc, k0, c0), k);
        CountAfterToken(acc, k0, c0, Tokens(s, e), k, Get(ScanWeapons(s, e, Put(acc, k0, c0)), k));
    }
  }

  /** The scan and the token list at a position where a token matches. */
  lemma TokenStep(s: string, i: nat, acc: Assoc<WeaponKind, nat>, k: WeaponKind, c: nat, e: nat)
    requires i < |s| && TokenAt(s, i) == Some((k, c, e))
    ensures ScanWeapons(s, i, acc) == ScanWeapons(s, e, Put(acc, k, c))
    ensures Tokens(s, i) == [(k, c)] + Tokens(s, e)
  {
  }

  /** The scan and the token list at a position where no token matches. */
  lemma NoTokenStep(s: string, i: nat, acc: Assoc<WeaponKind, nat>)
    requires i < |s| && TokenAt(s, i).None?
    ensures ScanWeapons(s, i, acc) == ScanWeapons(s, i + 1, acc)
    ensures Tokens(s, i) == Tokens(s, i + 1)
  {
  }

  /** A count read after a token of kind `k0` and the tokens `ts` is the last
      count of the whole list, or what `acc` held. */
  lemma CountAfterToken(acc: Assoc<WeaponKind, nat>, k0: WeaponKind, c0: nat, ts: seq<(WeaponKind, nat)>, k: WeaponKind, g: Option<nat>)
    requires g == if LastCount(ts, k).Some? then LastCount(ts, k) else Get(Put(acc, k0, c0), k)
    ensures g == if LastCount([(k0, c0)] + ts, k).Some? then LastCount([(k0, c0)] + ts, k) else Get(acc, k)
  {
    LastCountCons(k0, c0, ts, k);
  }

  /** The last count after one more token in front. */
  lemma LastCountCons(k0: WeaponKind, c0: nat, ts: seq<(WeaponKind, nat)>, k: WeaponKind)
    ensures LastCount([(k0, c0)] + ts, k) ==
              if LastCount(ts, k).Some? then LastCount(ts, k) else if k0 == k then Some(c0) else None
  {
    assert ([(k0, c0)] + ts)[1..] == ts;
  }

  /** The scan of a whole text: a kind is a key of the dict exactly when a
      token of that kind is found, and its value is the last such token's
      count. */
  lemma WeaponsFromTokens(s: string, k: WeaponKind)
    ensures HasKey(ScanWeapons(s, 0, []), k) <==> exists j | 0 <= j < |Tokens(s, 0)| :: Tokens(s, 0)[j].0 == k
    ensures Get(ScanWeapons(s, 0, []), k) == LastCount(Tokens(s, 0), k)
  {
    ScanCounts(s, 0, [], k);
  }

  /** What is left of a notation once its UL, US and AUX tokens are taken
      out, in that order. */
  function WeaponText(notation: string): string {
    ExtractUtility(ExtractUtility(ExtractUtility(notation, "UL").rest, "US").rest, "AUX").rest
  }

  // ---------------------------------------------------------------------------
  // parse_notation

  /** ParsedDesign. */
  datatype Design = Design(
    notation: string,
    weapons: Assoc<WeaponKind, nat>,
    largeUtility: nat,
    smallUtility: nat,
    aux: nat,
    totalPoints: nat,
    tier: Tier)

  /** `sum(WEAPON_COSTS.get(w, 0) * c for w, c in weapons.items())`. */
  function WeaponPoints(ws: Assoc<WeaponKind, nat>): nat
    decreases |ws|
  {
    if |ws| == 0 then 0 else Cost(ws[0].0) * ws[0].1 + WeaponPoints(ws[1..])
  }

  /** The number of units of kind `k` (0 when the kind is absent). */
  function Count(ws: Assoc<WeaponKind, nat>, k: WeaponKind): nat {
    GetOr(ws, k, 0)
  }

  function UtilityPoints(largeUtility: nat, smallUtility: nat): nat {
    largeUtility * LargeUtilityCost + smallUtility * SmallUtilityCost
  }

  /** Parse a design notation for a ship type: utility tokens first (UL, then
      US, then AUX), then every weapon token of what is left. */
  function ParseNotation(notation: string, ship: string): (d: Design)
    ensures d.notation == notation
    ensures UniqueKeys(d.weapons)
    ensures forall k :: Get(d.weapons, k) == LastCount(Tokens(WeaponText(notation), 0), k)
    ensures d.tier == TierOf(d.totalPoints)
    ensures d.totalPoints ==
              WeaponPoints(d.weapons) + UtilityPoints(d.largeUtility, d.smallUtility)
              + d.aux * AuxCost(ship)
  {
    var ul := ExtractUtility(notation, "UL");
    var us := ExtractUtility(ul.rest, "US");
    var ax := ExtractUtility(us.rest, "AUX");
    var weapons := ScanWeapons(ax.rest, 0, []);
    ScanUnique(ax.rest, 0, []);
    assert ax.rest == WeaponText(notation);
    forall k ensures Get(weapons, k) == LastCount(Tokens(ax.rest, 0), k) {
      WeaponsFromTokens(ax.rest, k);
    }
    var total := WeaponPoints(weapons) + UtilityPoints(ul.count, us.count) + ax.count * AuxCost(ship);
    Design(notation, weapons, ul.count, us.count, ax.count, total, TierOf(total))
  }

  // ---------------------------------------------------------------------------
  // The point formula

  /** The point total of the weapons as a fixed formula over the nine kinds. */
  function KindPoints(ws: Assoc<WeaponKind, nat>): int {
    1 * Count(ws, S) + 1 * Count(ws, PD) + 2 * Count(ws, M)
    + 2 * Count(ws, G) + 4 * Count(ws, L) + 4 * Count(ws, HB)
    + 8 * Count(ws, X) + 16 * Count(ws, T) + 0 * Count(ws, W)
  }

  lemma CountCons(ws: Assoc<WeaponKind, nat>, k: WeaponKind)
    requires |ws| > 0 && !HasKey(ws[1..], ws[0].0)
    ensures Count(ws, k) == (if k == ws[0].0 then ws[0].1 else 0) + Count(ws[1..], k)
  {
  }

  /** Points of one more entry for a kind not yet present. */
  lemma KindPointsCons(ws: Assoc<WeaponKind, nat>)
    requires |ws| > 0 && !HasKey(ws[1..], ws[0].0)
    ensures KindPoints(ws) == Cost(ws[0].0) * ws[0].1 + KindPoints(ws[1..])
  {
    CountCons(ws, S); CountCons(ws, PD); CountCons(ws, M); CountCons(ws, G);
    CountCons(ws, L); CountCons(ws, HB); CountCons(ws, X); CountCons(ws, T);
    CountCons(ws, W);
    var c := ws[0].1;
    match ws[0].0
    case S => assert Cost(S) * c == 1 * c;
    case PD => assert Cost(PD) * c == 1 * c;
    case M => assert Cost(M) * c == 2 * c;
    case G => assert Cost(G) * c == 2 * c;
    case L => assert Cost(L) * c == 4 * c;
    case HB => assert Cost(HB) * c == 4 * c;
    case X => assert Cost(X) * c == 8 * c;
    case T => assert Cost(T) * c == 16 * c;
    case W => assert Cost(W) * c == 0;
  }

  /** Summing the dict's items is the per-kind formula, because a dict holds
      each kind at most once. */
  lemma {:induction false} WeaponPointsPerKind(ws: Assoc<WeaponKind, nat>)
    requires UniqueKeys(ws)
    ensures WeaponPoints(ws) == KindPoints(ws)
    decreases |ws|
  {
    if |ws| > 0 {
      var rest := ws[1..];
      assert UniqueKeys(rest);
      WeaponPointsPerKind(rest);
      assert !HasKey(rest, ws[0].0) by {
        forall i | 0 <= i < |rest| ensures rest[i].0 != ws[0].0 {
          assert rest[i] == ws[i + 1];
        }
      }
      KindPointsCons(ws);
    }
  }

  /** The point total of a parsed design: every weapon unit at its kind's cost
      (`W` costs nothing), 4 per large and 1 per small utility slot, and the
      ship's aux cost (4 for a ship type the table does not list) per aux slot. */
  lemma ParseTotal(notation: string, ship: string)
    ensures var d := ParseNotation(notation, ship);
      d.totalPoints == KindPoints(d.weapons) + 4 * d.largeUtility + 1 * d.smallUtility + d.aux * AuxCost(ship)
  {
    var d := ParseNotation(notation, ship);
    WeaponPointsPerKind(d.weapons);
    assert UtilityPoints(d.largeUtility, d.smallUtility) == 4 * d.largeUtility + 1 * d.smallUtility;
  }
}

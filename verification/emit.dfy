/** The section text `generate_section_template` writes for a parsed
    design, and the `design` command that produces one section per notation.

    Component slots are emitted kind by kind in a fixed order; the `i`-th
    unit of a kind (from 0) gets the slot number `i + 1`, its kind's template,
    and a locator taken round-robin from the category's locators (or made up
    from the kind's prefix when there are none). */
module Emit {
  import opened Base
  import opened Strings
  import opened Assoc
  import opened Seqs
  import opened Fields
  import opened Hierarchy
  import opened Notation
  import opened Resolve

  /** The order in which kinds get their component slots. */
  const EmitOrder: seq<WeaponKind> := [W, T, X, HB, L, M, G, S, PD]

  /** `weapon_to_slot_name` */
  function SlotBase(k: WeaponKind): string {
    match k
    case L => "LARGE_GUN"
    case M => "MEDIUM_GUN"
    case S => "SMALL_GUN"
    case PD => "PD"
    case G => "TORPEDO"
    case X => "EXTRA_LARGE"
    case T => "TITANIC"
    case HB => "STRIKE_CRAFT"
    case W => "PLANET_KILLER_GUN"
  }

  /** TEMPLATES */
  function Template(k: WeaponKind): string {
    match k
    case S => "small_turret"
    case PD => "point_defence_turret"
    case M => "medium_turret"
    case G => "medium_missile_turret"
    case L => "large_turret"
    case HB => "large_strike_craft"
    case X => "invisible_extra_large_fixed"
    case T => "invisible_titanic_fixed"
    case W => "invisible_planet_killer_fixed"
  }

  /** LOCATOR_PREFIX */
  function LocatorPrefix(k: WeaponKind): string {
    match k
    case S => "small_gun"
    case PD => "small_gun"
    case M => "medium_gun"
    case G => "medium_gun"
    case L => "large_gun"
    case HB => "strike_craft_locator"
    case X => "xl_gun"
    case T => "xl_gun"
    case W => "core"
  }

  /** One `component_slot` block. */
  datatype ComponentSlot = ComponentSlot(name: string, template: string, rotation: Option<int>, locator: string)

  /** `locator_map.get(loc_type, [])` for a kind. */
  function AvailableFor(m: LocatorMap, k: WeaponKind): seq<string> {
    if CategoryOf(k) in m then m[CategoryOf(k)] else []
  }

  /** The name of slot number `num` of kind `k`, e.g. `LARGE_GUN_03`. */
  function SlotName(k: WeaponKind, num: nat): string {
    SlotBase(k) + "_" + Pad2(num)
  }

  /** Strike-craft slots face alternately starboard and port. */
  function Rotation(k: WeaponKind, num: nat): Option<int> {
    if k == HB then Some(if num % 2 == 1 then 90 else -90) else None
  }

  /** The locator of unit `i` (from 0) of kind `k`. */
  function UnitLocator(k: WeaponKind, i: nat, avail: seq<string>): string {
    if |avail| > 0 then avail[i % |avail|] else LocatorPrefix(k) + "_" + Pad2(i + 1)
  }

  /** The slot of unit `i` (from 0) of kind `k`: it is numbered `i + 1`. */
  function UnitSlot(k: WeaponKind, i: nat, avail: seq<string>): ComponentSlot {
    ComponentSlot(SlotName(k, i + 1), Template(k), Rotation(k, i + 1), UnitLocator(k, i, avail))
  }

  /** The slots of the first `count` units of kind `k`. */
  function KindSlots(k: WeaponKind, count: nat, avail: seq<string>): (r: seq<ComponentSlot>)
    ensures |r| == count
    ensures forall i | 0 <= i < count :: r[i] == UnitSlot(k, i, avail)
  {
    seq(count, i requires 0 <= i < count => UnitSlot(k, i, avail))
  }

  /** The slots of every kind of `kinds`, in that order. */
  function SlotsOfKinds(d: Design, m: LocatorMap, kinds: seq<WeaponKind>): seq<ComponentSlot>
    decreases |kinds|
  {
    if |kinds| == 0 then []
    else
      var k := kinds[|kinds| - 1];
      SlotsOfKinds(d, m, kinds[..|kinds| - 1]) + KindSlots(k, Count(d.weapons, k), AvailableFor(m, k))
  }

  /** Every component slot of a design. */
  function Components(d: Design, m: LocatorMap): seq<ComponentSlot> {
    SlotsOfKinds(d, m, EmitOrder)
  }

  /** The place of a kind in `EmitOrder`. */
  function Position(k: WeaponKind): (p: nat)
    ensures p < |EmitOrder| && EmitOrder[p] == k
  {
    match k
    case W => 0 case T => 1 case X => 2 case HB => 3 case L => 4
    case M => 5 case G => 6 case S => 7 case PD => 8
  }

  /** `EmitOrder` lists each kind once, so a kind's place is where it is. */
  lemma PositionOf(j: nat)
    requires j < |EmitOrder|
    ensures Position(EmitOrder[j]) == j
  {
  }

  /** The inner loop of the component loop: the units of one kind, each
      numbered by bumping the counter of the kind's slot name. Starting from
      a counter without that name, unit `i` is numbered `i + 1`. */
  method EmitUnits(k: WeaponKind, count: nat, avail: seq<string>, counter0: map<string, nat>)
    returns (slots: seq<ComponentSlot>, counter: map<string, nat>)
    requires SlotBase(k) !in counter0
    ensures slots == KindSlots(k, count, avail)
    ensures counter == if count == 0 then counter0 else counter0[SlotBase(k) := count]
  {
    slots := [];
    counter := counter0;
    var base := SlotBase(k);
    for i := 0 to count
      invariant slots == KindSlots(k, i, avail)
      invariant counter == if i == 0 then counter0 else counter0[base := i]
    {
      var prev := if base in counter then counter[base] else 0;
      assert prev == i;
      counter := counter[base := prev + 1];
      var num := counter[base];
      var c := ComponentSlot(SlotName(k, num), Template(k), Rotation(k, num), UnitLocator(k, i, avail));
      KindSlotsStep(k, i, avail, num, c);
      slots := slots + [c];
    }
  }

  /** One more unit appends its slot. */
  lemma KindSlotsStep(k: WeaponKind, i: nat, avail: seq<string>, num: nat, c: ComponentSlot)
    requires num == i + 1
    requires c == ComponentSlot(SlotName(k, num), Template(k), Rotation(k, num), UnitLocator(k, i, avail))
    ensures KindSlots(k, i + 1, avail) == KindSlots(k, i, avail) + [c]
  {
    assert c == UnitSlot(k, i, avail);
    var a, b := KindSlots(k, i + 1, avail), KindSlots(k, i, avail) + [c];
    forall j | 0 <= j < |a| ensures a[j] == b[j] {
      if j < i {
        assert b[j] == KindSlots(k, i, avail)[j];
      }
    }
  }

  /** The component loop as written, with its per-name counter. Its result is
      the closed form `Components`: every kind has its own slot name, so the
      counter of a kind starts from nothing. */
  method EmitComponents(d: Design, m: LocatorMap) returns (slots: seq<ComponentSlot>)
    ensures slots == Components(d, m)
  {
    slots := [];
    var counter: map<string, nat> := map[];
    for j := 0 to |EmitOrder|
      invariant slots == SlotsOfKinds(d, m, EmitOrder[..j])
      invariant forall k :: SlotBase(k) in counter ==> Position(k) < j
    {
      var k := EmitOrder[j];
      PositionOf(j);
      assert EmitOrder[..j + 1][..j] == EmitOrder[..j];
      var count := Count(d.weapons, k);
      if count == 0 {
        continue;
      }
      var units;
      var before := counter;
      units, counter := EmitUnits(k, count, AvailableFor(m, k), counter);
      forall k' | SlotBase(k') in counter ensures Position(k') < j + 1 {
        if SlotBase(k') == SlotBase(k) { SlotBaseInjective(k', k); } else { assert SlotBase(k') in before; }
      }
      slots := slots + units;
    }
    assert EmitOrder[..|EmitOrder|] == EmitOrder;
  }

  // ---------------------------------------------------------------------------
  // Properties of the component slots

  /** The number of units of the kinds `kinds`. */
  function UnitsOf(ws: Assoc<WeaponKind, nat>, kinds: seq<WeaponKind>): nat
    decreases |kinds|
  {
    if |kinds| == 0 then 0 else UnitsOf(ws, kinds[..|kinds| - 1]) + Count(ws, kinds[|kinds| - 1])
  }

  lemma {:induction false} SlotsCount(d: Design, m: LocatorMap, kinds: seq<WeaponKind>)
    ensures |SlotsOfKinds(d, m, kinds)| == UnitsOf(d.weapons, kinds)
    decreases |kinds|
  {
    if |kinds| > 0 {
      SlotsCount(d, m, kinds[..|kinds| - 1]);
    }
  }

  /** Taking the first entry off a weapon list takes its count off the units
      of any list of distinct kinds that contains its kind. */
  lemma {:induction false} UnitsOfCons(ws: Assoc<WeaponKind, nat>, kinds: seq<WeaponKind>)
    requires |ws| > 0 && !HasKey(ws[1..], ws[0].0) && NoDup(kinds)
    ensures UnitsOf(ws, kinds) == (if ws[0].0 in kinds then ws[0].1 else 0) + UnitsOf(ws[1..], kinds)
    decreases |kinds|
  {
    if |kinds| > 0 {
      var init := kinds[..|kinds| - 1];
      var last := kinds[|kinds| - 1];
      assert NoDup(init);
      assert ws[0].0 in kinds <==> ws[0].0 in init || ws[0].0 == last by {
        assert kinds == init + [last];
      }
      assert last !in init;
      UnitsOfCons(ws, init);
      CountCons(ws, last);
    }
  }

  /** Summed over the emit order, the counts are the design's total units. */
  lemma {:induction false} UnitsPerKind(ws: Assoc<WeaponKind, nat>)
    requires UniqueKeys(ws)
    ensures UnitsOf(ws, EmitOrder) == SumCounts(ws)
    decreases |ws|
  {
    if |ws| == 0 {
      assert forall k :: Count(ws, k) == 0;
      ZeroUnits(ws, EmitOrder);
    } else {
      UniqueTail(ws);
      UnitsPerKind(ws[1..]);
      assert NoDup(EmitOrder);
      assert ws[0].0 in EmitOrder by { assert EmitOrder[Position(ws[0].0)] == ws[0].0; }
      UnitsOfCons(ws, EmitOrder);
    }
  }

  lemma {:induction false} ZeroUnits(ws: Assoc<WeaponKind, nat>, kinds: seq<WeaponKind>)
    requires forall k :: Count(ws, k) == 0
    ensures UnitsOf(ws, kinds) == 0
    decreases |kinds|
  {
    if |kinds| > 0 {
      ZeroUnits(ws, kinds[..|kinds| - 1]);
    }
  }

  /** One component slot per requested unit: the design's counts summed over
      its entries (each kind appears once in a parsed design). */
  lemma ComponentCount(d: Design, m: LocatorMap)
    requires UniqueKeys(d.weapons)
    ensures |Components(d, m)| == SumCounts(d.weapons)
  {
    SlotsCount(d, m, EmitOrder);
    UnitsPerKind(d.weapons);
  }

  /** The position of the last occurrence of `c` in `s`. */
  function LastIndexOf(s: string, c: char): (r: Option<nat>)
    ensures r.Some? ==> r.value < |s| && s[r.value] == c
    decreases |s|
  {
    if |s| == 0 then None
    else if s[|s| - 1] == c then Some(|s| - 1)
    else LastIndexOf(s[..|s| - 1], c)
  }

  /** The number has only digits, so the last underscore of a slot name is
      the one after its base. */
  lemma {:induction false} LastUnderscore(x: string, a: string)
    requires AllDigits(a)
    ensures LastIndexOf(x + "_" + a, '_') == Some(|x|)
    decreases |a|
  {
    if |a| > 0 {
      var s := x + "_" + a;
      assert s[..|s| - 1] == x + "_" + a[..|a| - 1];
      assert s[|s| - 1] == a[|a| - 1];
      LastUnderscore(x, a[..|a| - 1]);
    }
  }

  /** A slot name splits back into its base and its number. */
  lemma NameParts(x: string, a: string, y: string, b: string)
    requires AllDigits(a) && AllDigits(b)
    requires x + "_" + a == y + "_" + b
    ensures x == y && a == b
  {
    var s := x + "_" + a;
    LastUnderscore(x, a);
    LastUnderscore(y, b);
    assert x == s[..|x|] == y;
    assert a == s[|x| + 1..] == b;
  }

  /** Distinct kinds have distinct slot names. */
  lemma SlotBaseInjective(k1: WeaponKind, k2: WeaponKind)
    requires SlotBase(k1) == SlotBase(k2)
    ensures k1 == k2
  {
  }

  /** Two units get the same slot name only when they are the same unit of
      the same kind, so the names of a section's slots never clash. */
  lemma UnitNamesDistinct(k1: WeaponKind, i1: nat, k2: WeaponKind, i2: nat, a1: seq<string>, a2: seq<string>)
    requires UnitSlot(k1, i1, a1).name == UnitSlot(k2, i2, a2).name
    ensures k1 == k2 && i1 == i2
  {
    NameParts(SlotBase(k1), Pad2(i1 + 1), SlotBase(k2), Pad2(i2 + 1));
    SlotBaseInjective(k1, k2);
  }

  /** Strike-craft slots alternate between rotation 90 and -90, starting
      with 90; no other kind has a rotation. */
  lemma Rotations(k: WeaponKind, i: nat, avail: seq<string>)
    ensures UnitSlot(k, i, avail).rotation == if k == HB then Some(if i % 2 == 0 then 90 else -90) else None
  {
    assert (i + 1) % 2 == 1 <==> i % 2 == 0;
  }

  /** With locators for the category, the units use them in turn; without,
      unit `i` gets the kind's prefix numbered `i + 1`. */
  lemma RoundRobin(k: WeaponKind, i: nat, avail: seq<string>)
    ensures |avail| > 0 ==> UnitLocator(k, i, avail) in avail
    ensures |avail| > 0 ==> UnitLocator(k, i + |avail|, avail) == UnitLocator(k, i, avail)
    ensures |avail| == 0 ==> UnitLocator(k, i, avail) == LocatorPrefix(k) + "_" + Pad2(i + 1)
  {
    if |avail| > 0 {
      ModShift(i, |avail|);
    }
  }

  lemma ModShift(i: nat, n: nat)
    requires n > 0
    ensures (i + n) % n == i % n
  {
    var q, r := i / n, i % n;
    var q', r' := (i + n) / n, (i + n) % n;
    assert (q + 1 - q') * n == r' - r;
    if q + 1 - q' >= 1 {
      MulAtLeast(q + 1 - q', n);
    } else if q' - q - 1 >= 1 {
      MulAtLeast(q' - q - 1, n);
    }
  }

  lemma MulAtLeast(a: int, n: int)
    requires a >= 1 && n > 0
    ensures a * n >= n
  {
  }

  // ---------------------------------------------------------------------------
  // The section text

  /** `icon_map.get(slot, "GFX_ship_part_core_mid")` */
  function Icon(slot: string): string {
    match slot
    case "bow" => "GFX_ship_part_core_bow"
    case "stern" => "GFX_ship_part_core_stern"
    case _ => "GFX_ship_part_core_mid"
  }

  /** The AI tags: carriers for hangars, artillery for titan, XL or large
      guns, gunship for medium or small guns. */
  function AiTags(ws: Assoc<WeaponKind, nat>): (r: seq<string>)
    ensures "carrier" in r <==> Count(ws, HB) > 0
    ensures "artillery" in r <==> Count(ws, T) > 0 || Count(ws, X) > 0 || Count(ws, L) > 0
    ensures "gunship" in r <==> Count(ws, M) > 0 || Count(ws, S) > 0
    ensures |r| <= 3
  {
    (if Count(ws, HB) > 0 then ["carrier"] else [])
    + (if Count(ws, T) > 0 || Count(ws, X) > 0 || Count(ws, L) > 0 then ["artillery"] else [])
    + (if Count(ws, M) > 0 || Count(ws, S) > 0 then ["gunship"] else [])
  }

  /** A signed number as Python prints it. */
  function IntText(n: int): string {
    if n < 0 then "-" + NatToString(-n) else NatToString(n)
  }

  function Quote(s: string): string { "\"" + s + "\"" }

  function SlotLines(c: ComponentSlot): seq<string> {
    ["\tcomponent_slot = {", "\t\tname = " + Quote(c.name), "\t\ttemplate = " + Quote(c.template)]
    + (if c.rotation.Some? then ["\t\trotation = " + IntText(c.rotation.value)] else [])
    + ["\t\tlocatorname = " + Quote(c.locator), "\t}"]
  }

  function AllSlotLines(cs: seq<ComponentSlot>): seq<string>
    decreases |cs|
  {
    if |cs| == 0 then [] else SlotLines(cs[0]) + AllSlotLines(cs[1..])
  }

  function UtilityLines(d: Design): seq<string> {
    (if d.smallUtility > 0 then ["\tsmall_utility_slots = " + NatToString(d.smallUtility)] else [])
    + (if d.largeUtility > 0 then ["\tlarge_utility_slots = " + NatToString(d.largeUtility)] else [])
    + (if d.aux > 0 then ["\taux_utility_slots = " + NatToString(d.aux)] else [])
  }

  /** The lines of the section after the key line. */
  function BodyLines(ship: string, slot: string, entity: string, d: Design, m: LocatorMap): (r: seq<string>)
    ensures |r| > 0 && r[|r| - 1] == "}"
  {
    var tags := AiTags(d.weapons);
    ["\tship_size = " + ship, "\tfits_on_slot = " + slot, "\tshould_draw_components = yes",
     "\tentity = " + Quote(entity), "\ticon = " + Quote(Icon(slot))]
    + (if |tags| > 0 then ["\tai_tags = { " + Join(tags, " ") + " }"] else [])
    + ["\tai_weight = {", "\t\tfactor = 0", "\t}"]
    + AllSlotLines(Components(d, m))
    + UtilityLines(d)
    + ["\tresources = {", "\t\tcategory = ship_sections", "\t\tcost = {",
       "\t\t\talloys = " + NatToString(AlloyCost(d.tier)), "\t\t}", "\t}", "}"]
  }

  const HeaderLine: string := "ship_section_template = {"

  /** `generate_section_template` */
  function SectionText(key: string, ship: string, slot: string, entity: string, d: Design, m: LocatorMap): string {
    Join([HeaderLine, KeyLine(key)] + BodyLines(ship, slot, entity, d, m), "\n")
  }

  /** The key of a generated section: `PBSS_<SHIP>_<SLOT>_<TIER>_<NOTATION>`, upper-cased. */
  function MakeKey(ship: string, slot: string, t: Tier, notation: string): string {
    "PBSS_" + Upper(ship) + "_" + Upper(slot) + "_" + Upper(TierName(t)) + "_" + Upper(notation)
  }

  /** The line that carries the key. */
  function KeyLine(key: string): string { "\tkey = " + Quote(key) }

  lemma JoinTwo(a: string, b: string, rest: seq<string>, sep: string)
    requires |rest| > 0
    ensures Join([a, b] + rest, sep) == a + sep + b + sep + Join(rest, sep)
  {
    var p, q := [a, b] + rest, [b] + rest;
    assert p[0] == a && p[1..] == q && q[0] == b && q[1..] == rest;
    assert Join(q, sep) == b + sep + Join(rest, sep);
    assert Join(p, sep) == a + sep + Join(q, sep);
  }

  /** The text of a generated section starts with its header line and its key line. */
  lemma SectionTextStart(key: string, ship: string, slot: string, entity: string, d: Design, m: LocatorMap)
    ensures SectionText(key, ship, slot, entity, d, m) ==
      HeaderLine + "\n" + KeyLine(key) + "\n" + Join(BodyLines(ship, slot, entity, d, m), "\n")
  {
    JoinTwo(HeaderLine, KeyLine(key), BodyLines(ship, slot, entity, d, m), "\n");
  }

  /** Whatever follows the key line, the key is the first `key = "..."`
      assignment of the text. */
  lemma KeyAfterHeader(key: string, rest: string)
    requires |key| > 0 && '"' !in key
    ensures Search(Quoted("key"), HeaderLine + "\n" + KeyLine(key) + "\n" + rest) == Some(key)
  {
    var s := HeaderLine + "\n" + KeyLine(key) + "\n" + rest;
    var pre, tail := HeaderLine + "\n\t", "key = " + Quote(key) + "\n" + rest;
    assert 'k' !in pre;
    assert s == pre + tail;
    NoKeyIn(pre, tail);
    QuotedKeyAt(pre, key, rest);
    FirstMatch(Quoted("key"), s, |pre|);
  }

  /** A text whose prefix holds no `k` has no `key = "..."` match starting
      in that prefix. */
  lemma NoKeyIn(pre: string, tail: string)
    requires 'k' !in pre
    ensures forall i | 0 <= i < |pre| :: MatchAt(Quoted("key"), pre + tail, i).None?
  {
    var s := pre + tail;
    forall i | 0 <= i < |pre| ensures MatchAt(Quoted("key"), s, i).None? {
      assert s[i] == pre[i];
      assert !OccursAt(s, "key", i) by {
        if i + 3 <= |s| { assert s[i..i + 3][0] == s[i]; }
      }
    }
  }

  /** `key = "<key>"` right after a prefix matches there, with the key as
      its group. */
  lemma QuotedKeyAt(pre: string, key: string, rest: string)
    requires |key| > 0 && '"' !in key
    ensures MatchAt(Quoted("key"), pre + ("key = " + Quote(key) + "\n" + rest), |pre|) == Some((key, |pre| + 8 + |key|))
  {
    var s := pre + ("key = " + Quote(key) + "\n" + rest);
    var b := |pre|;
    assert s[b..b + 3] == "key";
    assert s[b + 3] == ' ' && s[b + 4] == '=' && s[b + 5] == ' ' && s[b + 6] == '"';
    assert SkipSpaces(s, b + 3) == b + 4;
    assert SkipSpaces(s, b + 5) == b + 6;
    assert AfterAssign(s, "key", b) == Some(b + 6);
    var q := b + 7 + |key|;
    assert s[b + 7..q] == key;
    assert s[q] == '"';
    forall j | b + 7 <= j < q ensures s[j] != '"' {
      assert s[j] == key[j - b - 7];
    }
    assert QuoteFrom(s, b + 7) == Some(q);
  }

  /** A match with no match before it is what the search finds. */
  lemma FirstMatch(p: Pattern, s: string, i: nat)
    requires i <= |s| && MatchAt(p, s, i).Some?
    requires forall j | 0 <= j < i :: MatchAt(p, s, j).None?
    ensures Search(p, s) == Some(MatchAt(p, s, i).value.0)
  {
    var f := SearchFrom(p, s, 0);
    assert f.Some?;
    assert f.value.start == i;
  }

  /** The key a section is generated with is the key the validator and the
      extractor read back from its text. */
  lemma KeyReadBack(key: string, ship: string, slot: string, entity: string, d: Design, m: LocatorMap)
    requires |key| > 0 && '"' !in key
    ensures Search(Quoted("key"), SectionText(key, ship, slot, entity, d, m)) == Some(key)
  {
    SectionTextStart(key, ship, slot, entity, d, m);
    KeyAfterHeader(key, Join(BodyLines(ship, slot, entity, d, m), "\n"));
  }

  // ---------------------------------------------------------------------------
  // The design command

  /** `cmd_design` without the file writing: `None` for an unknown ship type,
      otherwise one section text per notation for which an entity is found. */
  function DesignSections(v: VanillaData, ship: string, slot: string, notations: seq<string>): (r: Option<seq<string>>)
    ensures r.None? <==> !HasKey(v.shipTypes, ship)
    ensures r.Some? ==> |r.value| <= |notations|
  {
    if !HasKey(v.shipTypes, ship) then None
    else Some(SectionsFor(v.shipTypes, ship, slot, notations))
  }

  /** The sections for a list of notations, skipping those without an entity. */
  function SectionsFor(t: Tree, ship: string, slot: string, notations: seq<string>): (r: seq<string>)
    ensures |r| <= |notations|
    decreases |notations|
  {
    if |notations| == 0 then []
    else
      var n := notations[0];
      var d := ParseNotation(n, ship);
      var res := FindEntity(t, ship, slot, d.weapons);
      var rest := SectionsFor(t, ship, slot, notations[1..]);
      if !Truthy(res.entity) then rest
      else [SectionText(MakeKey(ship, slot, d.tier, n), ship, slot, res.entity.value, d, res.locators)] + rest
  }

  /** When the slot has entities (all named), every notation yields a
      section; when it has none, no notation does. */
  lemma {:induction false} EverySectionWritten(t: Tree, ship: string, slot: string, notations: seq<string>)
    requires NamedEntities(EntitiesOf(t, ship, slot))
    ensures |SectionsFor(t, ship, slot, notations)| == if |EntitiesOf(t, ship, slot)| > 0 then |notations| else 0
    decreases |notations|
  {
    if |notations| > 0 {
      var d := ParseNotation(notations[0], ship);
      FoundIffEntities(t, ship, slot, d.weapons);
      var es := EntitiesOf(t, ship, slot);
      EverySectionWritten(t, ship, slot, notations[1..]);
    }
  }
}

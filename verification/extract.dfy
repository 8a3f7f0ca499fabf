/** The extractor: cut `ship_section_template = { ... }` blocks out of a game
    file by brace counting, read each block's fields, and merge the records
    into the reference tree. */
module Extract {
  import opened Base
  import opened Strings
  import opened Assoc
  import opened Seqs
  import opened Fields
  import opened Hierarchy

  // ---------------------------------------------------------------------------
  // Brace depth

  /** Opening minus closing braces. */
  function Depth(t: string): int {
    CountChar(t, '{') - CountChar(t, '}')
  }

  lemma DepthSnoc(t: string, c: char)
    ensures Depth(t + [c]) == Depth(t) + (if c == '{' then 1 else if c == '}' then -1 else 0)
  {
    assert (t + [c])[..|t + [c]| - 1] == t;
  }

  /** `t` is a block: its depth is back at zero after its last character and
      positive after every shorter prefix. */
  predicate Closed(t: string) {
    |t| > 0 && Depth(t) == 0 && forall k | 0 < k < |t| :: Depth(t[..k]) > 0
  }

  /** A closed block that opens with a brace ends with the matching one. */
  lemma ClosedEnds(t: string)
    requires Closed(t) && t[0] == '{'
    ensures |t| >= 2 && t[|t| - 1] == '}'
  {
    var n := |t|;
    assert t[..1] == [] + [t[0]];
    DepthSnoc([], t[0]);
    assert t == t[..n - 1] + [t[n - 1]];
    DepthSnoc(t[..n - 1], t[n - 1]);
  }

  /** The scan of `extract_blocks` from the brace at `start`: the end of the
      block, or `None` when the depth never returns to zero. */
  method MatchBrace(s: string, start: nat) returns (end: Option<nat>)
    requires start < |s| && s[start] == '{'
    ensures end.Some? ==> start < end.value <= |s| && Closed(s[start..end.value])
    ensures end.None? ==> forall k | start < k <= |s| :: Depth(s[start..k]) > 0
  {
    var depth := 0;
    var i := start;
    while i < |s|
      invariant start <= i <= |s|
      invariant depth == Depth(s[start..i])
      invariant forall k | start < k <= i :: Depth(s[start..k]) > 0
    {
      DepthStep(s, start, i);
      if s[i] == '{' {
        depth := depth + 1;
      } else if s[i] == '}' {
        depth := depth - 1;
        if depth == 0 {
          ClosesAt(s, start, i);
          return Some(i + 1);
        }
      }
      i := i + 1;
    }
    return None;
  }

  /** One more character of the scan changes the depth by its brace. */
  lemma DepthStep(s: string, start: nat, i: nat)
    requires start <= i < |s|
    ensures Depth(s[start..i + 1]) == Depth(s[start..i]) + (if s[i] == '{' then 1 else if s[i] == '}' then -1 else 0)
  {
    assert s[start..i + 1] == s[start..i] + [s[i]];
    DepthSnoc(s[start..i], s[i]);
  }

  /** The scan stops at the first return to depth zero: a closed block. */
  lemma ClosesAt(s: string, start: nat, i: nat)
    requires start <= i < |s| && Depth(s[start..i + 1]) == 0
    requires forall k | start < k <= i :: Depth(s[start..k]) > 0
    ensures Closed(s[start..i + 1])
  {
    var t := s[start..i + 1];
    forall k | 0 < k < |t| ensures Depth(t[..k]) > 0 {
      assert t[..k] == s[start..start + k];
    }
  }

  // ---------------------------------------------------------------------------
  // Blocks

  /** Where `tag\s*=\s*\{` matches at `i`: the position of its brace. */
  function HeaderAt(s: string, tag: string, i: nat): (r: Option<nat>)
    requires i <= |s|
    ensures r.Some? ==> i < r.value < |s| && s[r.value] == '{'
  {
    match AfterAssign(s, tag, i)
    case Some(v) => if v < |s| && s[v] == '{' then Some(v) else None
    case None => None
  }

  /** The braces of the successive `re.finditer` matches from `from`; each
      search resumes after the brace. */
  function Headers(s: string, tag: string, from: nat): (hs: seq<nat>)
    requires from <= |s|
    ensures forall k | 0 <= k < |hs| :: from < hs[k] < |s| && s[hs[k]] == '{'
    ensures forall a, b | 0 <= a < b < |hs| :: hs[a] < hs[b]
    decreases |s| - from
  {
    if from == |s| then []
    else
      match HeaderAt(s, tag, from)
      case Some(b) => [b] + Headers(s, tag, b + 1)
      case None => Headers(s, tag, from + 1)
  }

  /** The block opened at `h` closes somewhere. */
  ghost predicate Closes(s: string, h: nat) {
    exists e | h < e <= |s| :: Closed(s[h..e])
  }

  /** The positions of `hs` whose blocks close, in order. */
  ghost function Closing(s: string, hs: seq<nat>): seq<nat>
    decreases |hs|
  {
    if |hs| == 0 then []
    else
      var h := hs[|hs| - 1];
      Closing(s, hs[..|hs| - 1]) + (if Closes(s, h) then [h] else [])
  }

  /** The kept positions are exactly the header positions whose blocks close. */
  lemma {:induction false} ClosingMembers(s: string, hs: seq<nat>, x: nat)
    ensures x in Closing(s, hs) <==> x in hs && Closes(s, x)
    decreases |hs|
  {
    if |hs| > 0 {
      var h := hs[|hs| - 1];
      assert hs == hs[..|hs| - 1] + [h];
      ClosingMembers(s, hs[..|hs| - 1], x);
    }
  }

  lemma ClosingStep(s: string, hs: seq<nat>, k: nat)
    requires k < |hs|
    ensures Closing(s, hs[..k + 1]) == Closing(s, hs[..k]) + (if Closes(s, hs[k]) then [hs[k]] else [])
  {
    assert hs[..k + 1][..k] == hs[..k];
  }

  lemma NeverCloses(s: string, h: nat)
    requires forall k | h < k <= |s| :: Depth(s[h..k]) > 0
    ensures !Closes(s, h)
  {
  }

  /** `b` is the closed block of `s` that starts at `h`. */
  predicate BlockAt(s: string, h: nat, b: string) {
    h + |b| <= |s| && b == s[h..h + |b|] && Closed(b)
  }

  /** `extract_blocks`: the text of every block whose header matches, from its
      opening brace to the brace that closes it; a block that never closes is
      dropped. `origins` are the blocks' starting positions. */
  method ExtractBlocks(s: string, tag: string) returns (blocks: seq<string>, origins: seq<nat>)
    ensures origins == Closing(s, Headers(s, tag, 0))
    ensures |blocks| == |origins|
    ensures forall k | 0 <= k < |blocks| :: BlockAt(s, origins[k], blocks[k])
  {
    var hs := Headers(s, tag, 0);
    blocks, origins := [], [];
    var k := 0;
    while k < |hs|
      invariant k <= |hs|
      invariant origins == Closing(s, hs[..k])
      invariant |blocks| == |origins|
      invariant forall j | 0 <= j < |blocks| :: BlockAt(s, origins[j], blocks[j])
    {
      var h := hs[k];
      ClosingStep(s, hs, k);
      var end := MatchBrace(s, h);
      if end.Some? {
        var e := end.value;
        var b := s[h..e];
        assert Closes(s, h) by { assert Closed(s[h..e]); }
        assert BlockAt(s, h, b);
        BlocksSnoc(s, blocks, origins, h, b);
        blocks, origins := blocks + [b], origins + [h];
      } else {
        NeverCloses(s, h);
      }
      k := k + 1;
    }
    assert hs[..|hs|] == hs;
  }

  /** Appending a block found at `h` keeps every block at its origin. */
  lemma BlocksSnoc(s: string, blocks: seq<string>, origins: seq<nat>, h: nat, b: string)
    requires |blocks| == |origins| && BlockAt(s, h, b)
    requires forall j | 0 <= j < |blocks| :: BlockAt(s, origins[j], blocks[j])
    ensures forall j | 0 <= j < |blocks| + 1 :: BlockAt(s, (origins + [h])[j], (blocks + [b])[j])
  {
  }

  /** Every extracted block opens with the header's brace and ends with the
      brace that closes it. */
  lemma BlocksBraced(s: string, tag: string, origins: seq<nat>, blocks: seq<string>)
    requires origins == Closing(s, Headers(s, tag, 0))
    requires |blocks| == |origins|
    requires forall k | 0 <= k < |blocks| :: BlockAt(s, origins[k], blocks[k])
    ensures forall k | 0 <= k < |blocks| :: |blocks[k]| >= 2 && blocks[k][0] == '{' && blocks[k][|blocks[k]| - 1] == '}'
  {
    forall k | 0 <= k < |blocks|
      ensures |blocks[k]| >= 2 && blocks[k][0] == '{' && blocks[k][|blocks[k]| - 1] == '}'
    {
      assert origins[k] in origins;
      ClosingMembers(s, Headers(s, tag, 0), origins[k]);
      assert blocks[k][0] == s[origins[k]];
      ClosedEnds(blocks[k]);
    }
  }

  // ---------------------------------------------------------------------------
  // Records

  /** The fields the extractor reads from one block. */
  datatype TemplateRecord = TemplateRecord(
    key: Option<string>,
    shipSize: Option<string>,
    slot: Option<string>,
    entity: Option<string>,
    locators: seq<string>,
    templates: seq<string>)

  /** One block's fields. Locators and templates are every quoted value, with
      repeats dropped and first occurrences kept in order. */
  function ParseBlock(block: string): (r: TemplateRecord)
    ensures NoDup(r.locators) && NoDup(r.templates)
    ensures forall l :: l in r.locators <==> l in FindAll(Quoted("locatorname"), block)
    ensures forall l :: l in r.templates <==> l in FindAll(Quoted("template"), block)
    ensures r.key.Some? ==> |r.key.value| > 0
  {
    TemplateRecord(
      Search(Quoted("key"), block),
      Search(Bare("ship_size"), block),
      Search(MaybeQuoted("fits_on_slot"), block),
      Search(Quoted("entity"), block),
      Dedup(FindAll(Quoted("locatorname"), block)),
      Dedup(FindAll(Quoted("template"), block)))
  }

  /** The records of the blocks that have a key, in block order. */
  function KeyedRecords(blocks: seq<string>): (rs: seq<TemplateRecord>)
    ensures |rs| <= |blocks|
    ensures forall r | r in rs :: Truthy(r.key) && NoDup(r.locators) && NoDup(r.templates)
    ensures forall b | b in blocks && ParseBlock(b).key.Some? :: ParseBlock(b) in rs
    ensures forall r | r in rs :: exists b | b in blocks :: r == ParseBlock(b)
    decreases |blocks|
  {
    if |blocks| == 0 then []
    else
      var r := ParseBlock(blocks[0]);
      var rest := KeyedRecords(blocks[1..]);
      KeyedCons(blocks, r, rest);
      (if r.key.Some? then [r] else []) + rest
  }

  /** The keyed records of the blocks after the first, preceded by the first
      block's record when it has a key, are the keyed records of all blocks. */
  lemma KeyedCons(blocks: seq<string>, r: TemplateRecord, rest: seq<TemplateRecord>)
    requires |blocks| > 0 && r == ParseBlock(blocks[0])
    requires |rest| <= |blocks[1..]|
    requires forall x | x in rest :: Truthy(x.key) && NoDup(x.locators) && NoDup(x.templates)
    requires forall b | b in blocks[1..] && ParseBlock(b).key.Some? :: ParseBlock(b) in rest
    requires forall x | x in rest :: exists b | b in blocks[1..] :: x == ParseBlock(b)
    ensures var rs := (if r.key.Some? then [r] else []) + rest;
      |rs| <= |blocks| &&
      (forall x | x in rs :: Truthy(x.key) && NoDup(x.locators) && NoDup(x.templates)) &&
      (forall b | b in blocks && ParseBlock(b).key.Some? :: ParseBlock(b) in rs) &&
      (forall x | x in rs :: exists b | b in blocks :: x == ParseBlock(b))
  {
    assert forall b | b in blocks :: b == blocks[0] || b in blocks[1..];
    assert blocks[0] in blocks;
  }

  /** `parse_section_template`: the records of the keyed blocks among the
      `ship_section_template` blocks of `content`, in order. `blocks` are all
      those blocks, each at the position of its header's brace. */
  method ParseSectionTemplate(content: string) returns (records: seq<TemplateRecord>, blocks: seq<string>)
    ensures var origins := Closing(content, Headers(content, "ship_section_template", 0));
      |blocks| == |origins| && forall k | 0 <= k < |blocks| :: BlockAt(content, origins[k], blocks[k])
    ensures records == KeyedRecords(blocks)
    ensures forall r | r in records :: Truthy(r.key) && NoDup(r.locators) && NoDup(r.templates)
  {
    var origins;
    blocks, origins := ExtractBlocks(content, "ship_section_template");
    records := KeyedRecords(blocks);
  }

  // ---------------------------------------------------------------------------
  // Merging records into the tree

  /** The ship type, slot and entity a record is filed under (entity present). */
  function ShipOf(r: TemplateRecord): string { r.shipSize.GetOr("unknown") }

  function SlotOf(r: TemplateRecord): string { r.slot.GetOr("mid") }

  /** The record's locators and templates appended to an entity's lists,
      skipping those already there. */
  function MergeEntity(ed: EntityData, r: TemplateRecord): EntityData {
    EntityData(AppendNew(ed.locators, r.locators), AppendNew(ed.templates, r.templates))
  }

  /** The record merged into its slot: its key is added once, its entity
      created if new and merged. */
  function MergeSlot(sl: SlotData, r: TemplateRecord): SlotData
    requires r.entity.Some?
  {
    var keys := if Truthy(r.key) && r.key.value !in sl.sectionKeys then sl.sectionKeys + [r.key.value] else sl.sectionKeys;
    var ed := Get(sl.entities, r.entity.value).GetOr(EntityData([], []));
    SlotData(Put(sl.entities, r.entity.value, MergeEntity(ed, r)), keys)
  }

  /** The record merged into its ship type: the slot is created if new. */
  function MergeShip(sd: ShipData, r: TemplateRecord): ShipData
    requires r.entity.Some?
  {
    ShipData(Put(sd.slots, SlotOf(r), MergeSlot(Get(sd.slots, SlotOf(r)).GetOr(SlotData([], [])), r)), sd.description)
  }

  /** `build_hierarchy`'s loop body for one record. */
  function AddRecord(t: Tree, r: TemplateRecord): Tree {
    if !Truthy(r.entity) then t
    else Put(t, ShipOf(r), MergeShip(Get(t, ShipOf(r)).GetOr(ShipData([], "")), r))
  }

  /** No merged list of the tree has a repeat. */
  predicate ListsNoDup(t: Tree) {
    forall x | x in t :: SlotListsNoDup(x.1.slots)
  }

  predicate SlotListsNoDup(ss: Assoc<string, SlotData>) {
    forall y | y in ss :: NoDup(y.1.sectionKeys) && EntityListsNoDup(y.1.entities)
  }

  predicate EntityListsNoDup(es: Assoc<string, EntityData>) {
    forall z | z in es :: NoDup(z.1.locators) && NoDup(z.1.templates)
  }

  lemma PutEntity(es: Assoc<string, EntityData>, e: string, d: EntityData)
    requires UniqueKeys(es) && EntityListsNoDup(es) && NoDup(d.locators) && NoDup(d.templates)
    ensures UniqueKeys(Put(es, e, d)) && EntityListsNoDup(Put(es, e, d))
  {
    PutUnique(es, e, d);
    PutMembers(es, e, d);
  }

  lemma PutSlot(ss: Assoc<string, SlotData>, slot: string, sl: SlotData)
    requires SlotsWellFormed(ss) && SlotListsNoDup(ss)
    requires UniqueKeys(sl.entities) && NoDup(sl.sectionKeys) && EntityListsNoDup(sl.entities)
    ensures SlotsWellFormed(Put(ss, slot, sl)) && SlotListsNoDup(Put(ss, slot, sl))
  {
    PutUnique(ss, slot, sl);
    PutMembers(ss, slot, sl);
  }

  lemma PutShip(t: Tree, ship: string, sd: ShipData)
    requires WellFormed(t) && ListsNoDup(t)
    requires SlotsWellFormed(sd.slots) && SlotListsNoDup(sd.slots)
    ensures WellFormed(Put(t, ship, sd)) && ListsNoDup(Put(t, ship, sd))
  {
    PutUnique(t, ship, sd);
    PutMembers(t, ship, sd);
  }

  lemma MergeSlotOk(sl: SlotData, r: TemplateRecord)
    requires r.entity.Some?
    requires UniqueKeys(sl.entities) && NoDup(sl.sectionKeys) && EntityListsNoDup(sl.entities)
    ensures var m := MergeSlot(sl, r); UniqueKeys(m.entities) && NoDup(m.sectionKeys) && EntityListsNoDup(m.entities)
  {
    var ed := Get(sl.entities, r.entity.value).GetOr(EntityData([], []));
    if HasKey(sl.entities, r.entity.value) { GetIn(sl.entities, r.entity.value); }
    PutEntity(sl.entities, r.entity.value, MergeEntity(ed, r));
  }

  lemma MergeShipOk(sd: ShipData, r: TemplateRecord)
    requires r.entity.Some?
    requires SlotsWellFormed(sd.slots) && SlotListsNoDup(sd.slots)
    ensures SlotsWellFormed(MergeShip(sd, r).slots) && SlotListsNoDup(MergeShip(sd, r).slots)
  {
    var sl := Get(sd.slots, SlotOf(r)).GetOr(SlotData([], []));
    if HasKey(sd.slots, SlotOf(r)) { GetIn(sd.slots, SlotOf(r)); }
    MergeSlotOk(sl, r);
    PutSlot(sd.slots, SlotOf(r), MergeSlot(sl, r));
  }

  lemma AddRecordWellFormed(t: Tree, r: TemplateRecord)
    requires WellFormed(t) && ListsNoDup(t)
    ensures WellFormed(AddRecord(t, r)) && ListsNoDup(AddRecord(t, r))
  {
    if Truthy(r.entity) {
      var sd := Get(t, ShipOf(r)).GetOr(ShipData([], ""));
      if HasKey(t, ShipOf(r)) { GetIn(t, ShipOf(r)); }
      MergeShipOk(sd, r);
      PutShip(t, ShipOf(r), MergeShip(sd, r));
    }
  }

  /** After a record is merged, the tree's data for every (ship, slot, entity)
      is the merged entry for the record's own triple and unchanged for every
      other one. */
  lemma LookupAfterAdd(t: Tree, r: TemplateRecord, ship: string, slot: string, e: string)
    requires Truthy(r.entity)
    ensures var ed := Lookup(t, ShipOf(r), SlotOf(r), r.entity.value).GetOr(EntityData([], []));
      Lookup(AddRecord(t, r), ship, slot, e) ==
        if (ship, slot, e) == (ShipOf(r), SlotOf(r), r.entity.value)
        then Some(EntityData(AppendNew(ed.locators, r.locators), AppendNew(ed.templates, r.templates)))
        else Lookup(t, ship, slot, e)
  {
    EntitiesAfterAdd(t, r, ship, slot);
  }

  /** After a record is merged, the entities of its own (ship, slot) pair are
      the merged slot's, and every other pair's are unchanged. */
  lemma EntitiesAfterAdd(t: Tree, r: TemplateRecord, ship: string, slot: string)
    requires Truthy(r.entity)
    ensures var sl := Get(SlotsOf(t, ShipOf(r)), SlotOf(r)).GetOr(SlotData([], []));
      EntitiesOf(AddRecord(t, r), ship, slot) ==
        if (ship, slot) == (ShipOf(r), SlotOf(r)) then MergeSlot(sl, r).entities
        else EntitiesOf(t, ship, slot)
  {
    SlotsAfterAdd(t, r, ship);
  }

  /** After a record is merged, its ship type's slots are the merged ship's,
      and every other ship type's are unchanged. */
  lemma SlotsAfterAdd(t: Tree, r: TemplateRecord, ship: string)
    requires Truthy(r.entity)
    ensures SlotsOf(AddRecord(t, r), ship) ==
      if ship == ShipOf(r) then MergeShip(Get(t, ShipOf(r)).GetOr(ShipData([], "")), r).slots
      else SlotsOf(t, ship)
  {
  }

  /** `build_hierarchy`: records without an entity are skipped, a missing ship
      type files the record under "unknown" and a missing slot under "mid";
      the record's locators and templates join the entity's lists after the
      ones already there. */
  lemma AddRecordEffect(t: Tree, r: TemplateRecord, ship: string, slot: string, e: string)
    ensures !Truthy(r.entity) ==> AddRecord(t, r) == t
    ensures Truthy(r.entity) ==>
      var d := Lookup(AddRecord(t, r), ShipOf(r), SlotOf(r), r.entity.value);
      d.Some? && (forall l | l in r.locators :: l in d.value.locators)
      && (forall m | m in r.templates :: m in d.value.templates)
    ensures Truthy(r.entity) && Lookup(t, ship, slot, e).Some? ==>
      var before := Lookup(t, ship, slot, e).value;
      var after := Lookup(AddRecord(t, r), ship, slot, e);
      after.Some? && before.locators <= after.value.locators && before.templates <= after.value.templates
  {
    if Truthy(r.entity) {
      LookupAfterAdd(t, r, ship, slot, e);
      LookupAfterAdd(t, r, ShipOf(r), SlotOf(r), r.entity.value);
    }
  }

  /** `build_hierarchy` over the records in order. */
  function BuildHierarchy(rs: seq<TemplateRecord>): (t: Tree)
    ensures WellFormed(t) && ListsNoDup(t)
    decreases |rs|
  {
    if |rs| == 0 then []
    else
      var t := BuildHierarchy(rs[..|rs| - 1]);
      AddRecordWellFormed(t, rs[|rs| - 1]);
      AddRecord(t, rs[|rs| - 1])
  }

  // ---------------------------------------------------------------------------
  // Constant tables

  const ValidShipModifiers: seq<string> := [
    "ship_weapon_damage", "ship_weapon_range_mult", "ship_fire_rate_mult",
    "ship_accuracy_add", "ship_tracking_add", "ship_hull_add", "ship_hull_mult",
    "ship_armor_add", "ship_armor_mult", "ship_shield_add", "ship_shield_mult",
    "ship_evasion_add", "ship_evasion_mult", "ship_speed_mult",
    "ship_hull_regen_add_perc", "ship_armor_regen_add_perc", "ship_shield_regen_add_perc",
    "ship_sensor_range_add", "ship_hyperlane_range_add", "ship_repair_hull_mult",
    "ship_repair_armor_mult"]

  const ModifierReplacements: Assoc<string, Option<string>> := [
    ("ship_weapon_damage_mult", Some("ship_weapon_damage")),
    ("fleet_command_limit_add", None),
    ("ship_repair_mult", Some("ship_repair_hull_mult")),
    ("sensor_range_mult", Some("ship_sensor_range_add"))]

  const TechReplacements: Assoc<string, string> := [
    ("tech_railguns_1", "tech_mass_drivers_2"),
    ("tech_railguns_2", "tech_mass_drivers_3"),
    ("tech_railguns_3", "tech_mass_drivers_4")]

  const CommonPrerequisites: seq<string> := [
    "tech_corvettes", "tech_destroyers", "tech_cruisers", "tech_battleships",
    "tech_titans", "tech_colossus", "tech_juggernaut",
    "tech_lasers_1", "tech_lasers_2", "tech_lasers_3",
    "tech_mass_drivers_1", "tech_mass_drivers_2", "tech_mass_drivers_3",
    "tech_mass_drivers_4", "tech_mass_drivers_5",
    "tech_torpedoes_1", "tech_torpedoes_2", "tech_torpedoes_3",
    "tech_energy_torpedoes_1", "tech_energy_torpedoes_2",
    "tech_strike_craft_1", "tech_strike_craft_2", "tech_strike_craft_3",
    "tech_plasma_1", "tech_plasma_2", "tech_plasma_3",
    "tech_disruptors_1", "tech_disruptors_2", "tech_disruptors_3",
    "tech_nanocomposite_materials", "tech_bio_reactor", "tech_hive_node"]

  /** `extract_modifiers` */
  function ExtractModifiers(): ModifierTables {
    ModifierTables(ValidShipModifiers, ModifierReplacements)
  }

  /** `extract_technologies` */
  function ExtractTechnologies(): TechTables {
    TechTables(TechReplacements, CommonPrerequisites)
  }

  /** Every replacement the modifier table offers is a valid modifier. */
  lemma ModifierReplacementsValid()
    ensures forall i | 0 <= i < |ExtractModifiers().invalidToValid| ::
      ExtractModifiers().invalidToValid[i].1.Some? ==> ExtractModifiers().invalidToValid[i].1.value in ExtractModifiers().valid
  {
    assert ValidShipModifiers[0] == "ship_weapon_damage";
    assert ValidShipModifiers[19] == "ship_repair_hull_mult";
    assert ValidShipModifiers[17] == "ship_sensor_range_add";
  }

  /** Every replacement technology is a common prerequisite. */
  lemma TechReplacementsValid()
    ensures forall i | 0 <= i < |ExtractTechnologies().invalidToValid| ::
      ExtractTechnologies().invalidToValid[i].1 in ExtractTechnologies().commonPrerequisites
  {
    assert CommonPrerequisites[11] == "tech_mass_drivers_2";
    assert CommonPrerequisites[12] == "tech_mass_drivers_3";
    assert CommonPrerequisites[13] == "tech_mass_drivers_4";
  }
}

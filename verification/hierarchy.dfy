/** The reference tree the extractor writes and the other scripts read:
    ship type -> slot -> entity -> locators (and component templates). Every
    level is an insertion-ordered dict. */
module Hierarchy {
  import opened Base
  import opened Assoc

  datatype EntityData = EntityData(locators: seq<string>, templates: seq<string>)

  datatype SlotData = SlotData(entities: Assoc<string, EntityData>, sectionKeys: seq<string>)

  datatype ShipData = ShipData(slots: Assoc<string, SlotData>, description: string)

  type Tree = Assoc<string, ShipData>

  /** The modifier tables: the valid names, and each known-bad name with its
      replacement (`None`: the modifier is to be removed). */
  datatype ModifierTables = ModifierTables(valid: seq<string>, invalidToValid: Assoc<string, Option<string>>)

  /** The technology tables: each known-bad name with its replacement, and the
      prerequisites section templates commonly use. */
  datatype TechTables = TechTables(invalidToValid: Assoc<string, string>, commonPrerequisites: seq<string>)

  /** The whole extracted reference file. */
  datatype VanillaData = VanillaData(shipTypes: Tree, modifiers: ModifierTables, technologies: TechTables)

  /** Every level has unique keys, as the JSON objects the tree is read from do. */
  predicate WellFormed(t: Tree) {
    UniqueKeys(t) && forall x | x in t :: SlotsWellFormed(x.1.slots)
  }

  predicate SlotsWellFormed(ss: Assoc<string, SlotData>) {
    UniqueKeys(ss) && forall y | y in ss :: UniqueKeys(y.1.entities)
  }

  /** `tree.get(ship, {}).get("slots", {})` */
  function SlotsOf(t: Tree, ship: string): Assoc<string, SlotData> {
    match Get(t, ship)
    case None => []
    case Some(sd) => sd.slots
  }

  /** `slots.get(slot, {}).get("entities", {})` */
  function EntitiesIn(ss: Assoc<string, SlotData>, slot: string): Assoc<string, EntityData> {
    match Get(ss, slot)
    case None => []
    case Some(sl) => sl.entities
  }

  /** The entities of a (ship, slot) pair, `{}` when either is missing. */
  function EntitiesOf(t: Tree, ship: string, slot: string): Assoc<string, EntityData> {
    EntitiesIn(SlotsOf(t, ship), slot)
  }

  /** The data stored for one entity of one (ship, slot) pair. */
  function Lookup(t: Tree, ship: string, slot: string, entity: string): Option<EntityData> {
    Get(EntitiesOf(t, ship, slot), entity)
  }

  /** One visit of the innermost body of the `for ship / for slot / for entity` loops. */
  datatype Placement = Placement(ship: string, slot: string, entity: string, data: EntityData)

  function EntityPlacements(ship: string, slot: string, es: Assoc<string, EntityData>): seq<Placement>
    decreases |es|
  {
    if |es| == 0 then []
    else [Placement(ship, slot, es[0].0, es[0].1)] + EntityPlacements(ship, slot, es[1..])
  }

  function SlotPlacements(ship: string, ss: Assoc<string, SlotData>): seq<Placement>
    decreases |ss|
  {
    if |ss| == 0 then []
    else EntityPlacements(ship, ss[0].0, ss[0].1.entities) + SlotPlacements(ship, ss[1..])
  }

  /** The placements in the order the nested loops visit them. */
  function Placements(t: Tree): seq<Placement>
    decreases |t|
  {
    if |t| == 0 then [] else SlotPlacements(t[0].0, t[0].1.slots) + Placements(t[1..])
  }

  lemma {:induction false} EntityPlacementsIn(ship: string, slot: string, es: Assoc<string, EntityData>, p: Placement)
    ensures p in EntityPlacements(ship, slot, es) <==> p.ship == ship && p.slot == slot && (p.entity, p.data) in es
    decreases |es|
  {
    if |es| > 0 {
      EntityPlacementsIn(ship, slot, es[1..], p);
      assert es == [es[0]] + es[1..];
    }
  }

  lemma {:induction false} SlotPlacementsIn(ship: string, ss: Assoc<string, SlotData>, p: Placement)
    requires SlotsWellFormed(ss)
    ensures p in SlotPlacements(ship, ss) <==> p.ship == ship && Get(EntitiesIn(ss, p.slot), p.entity) == Some(p.data)
    decreases |ss|
  {
    if |ss| > 0 {
      UniqueTail(ss);
      assert ss[0] in ss;
      SlotPlacementsIn(ship, ss[1..], p);
      EntityPlacementsIn(ship, ss[0].0, ss[0].1.entities, p);
      InIffGet(ss[0].1.entities, p.entity, p.data);
      if p.slot != ss[0].0 {
        assert EntitiesIn(ss, p.slot) == EntitiesIn(ss[1..], p.slot);
      }
    }
  }

  /** A placement is visited exactly when the tree stores that entity's data
      under that ship and slot. */
  lemma {:induction false} PlacementsIn(t: Tree, p: Placement)
    requires WellFormed(t)
    ensures p in Placements(t) <==> Lookup(t, p.ship, p.slot, p.entity) == Some(p.data)
    decreases |t|
  {
    if |t| > 0 {
      UniqueTail(t);
      assert t[0] in t;
      PlacementsIn(t[1..], p);
      SlotPlacementsIn(t[0].0, t[0].1.slots, p);
      if p.ship != t[0].0 {
        assert SlotsOf(t, p.ship) == SlotsOf(t[1..], p.ship);
      }
    }
  }
}

/** The lookup tables the validator and the repairer build from the reference
    tree. Both scripts build the same tables (the validator in one function,
    the repairer in one function per table); they are modelled once. Every
    table except the per-ship ones is a fold over the placements, in the order
    the nested loops visit them. */
module Index {
  import opened Base
  import opened Assoc
  import opened Seqs
  import opened Hierarchy

  /** Some visit is of entity `e`. */
  predicate Mentioned(ps: seq<Placement>, e: string) {
    exists i | 0 <= i < |ps| :: ps[i].entity == e
  }

  /** `[(p.ship, p.slot) for p in ps if p.entity == e]` */
  function ContextsOf(ps: seq<Placement>, e: string): seq<(string, string)>
    decreases |ps|
  {
    if |ps| == 0 then []
    else
      var p := ps[|ps| - 1];
      ContextsOf(ps[..|ps| - 1], e) + (if p.entity == e then [(p.ship, p.slot)] else [])
  }

  lemma {:induction false} ContextsOfIn(ps: seq<Placement>, e: string, c: (string, string))
    ensures c in ContextsOf(ps, e) <==> exists i | 0 <= i < |ps| :: ps[i].entity == e && (ps[i].ship, ps[i].slot) == c
    decreases |ps|
  {
    if |ps| > 0 {
      var q := ps[..|ps| - 1];
      ContextsOfIn(q, e, c);
      forall i | 0 <= i < |q| ensures q[i] == ps[i] { }
    }
  }

  lemma {:induction false} ContextsOfEmpty(ps: seq<Placement>, e: string)
    ensures ContextsOf(ps, e) == [] <==> !Mentioned(ps, e)
    decreases |ps|
  {
    if |ps| > 0 {
      var q := ps[..|ps| - 1];
      ContextsOfEmpty(q, e);
      forall i | 0 <= i < |q| ensures q[i] == ps[i] { }
    }
  }

  /** `entity_to_ship_slot`: on first sight an entity gets an empty list, and
      every visit appends its (ship, slot). */
  function EntityToShipSlot(ps: seq<Placement>): (m: map<string, seq<(string, string)>>)
    ensures forall e :: e in m <==> Mentioned(ps, e)
    ensures forall e | e in m :: m[e] == ContextsOf(ps, e)
    decreases |ps|
  {
    if |ps| == 0 then map[]
    else
      var q := ps[..|ps| - 1];
      var m := EntityToShipSlot(q);
      var p := ps[|ps| - 1];
      forall e ensures Mentioned(ps, e) <==> Mentioned(q, e) || e == p.entity {
        forall i | 0 <= i < |q| ensures q[i] == ps[i] { }
      }
      ContextsOfEmpty(q, p.entity);
      m[p.entity := (if p.entity in m then m[p.entity] else []) + [(p.ship, p.slot)]]
  }

  /** The locators of every visit of `e`, as one set. */
  function LocatorsOf(ps: seq<Placement>, e: string): set<string>
    decreases |ps|
  {
    if |ps| == 0 then {}
    else
      var p := ps[|ps| - 1];
      LocatorsOf(ps[..|ps| - 1], e) + (if p.entity == e then set l | l in p.data.locators else {})
  }

  lemma {:induction false} LocatorsOfIn(ps: seq<Placement>, e: string, l: string)
    ensures l in LocatorsOf(ps, e) <==> exists i | 0 <= i < |ps| :: ps[i].entity == e && l in ps[i].data.locators
    decreases |ps|
  {
    if |ps| > 0 {
      var q := ps[..|ps| - 1];
      LocatorsOfIn(q, e, l);
      forall i | 0 <= i < |q| ensures q[i] == ps[i] { }
    }
  }

  /** `entity_locators`: on first sight an entity gets an empty set, and every
      visit adds its locators. */
  function EntityLocators(ps: seq<Placement>): (m: map<string, set<string>>)
    ensures forall e :: e in m <==> Mentioned(ps, e)
    ensures forall e | e in m :: m[e] == LocatorsOf(ps, e)
    decreases |ps|
  {
    if |ps| == 0 then map[]
    else
      var q := ps[..|ps| - 1];
      var m := EntityLocators(q);
      var p := ps[|ps| - 1];
      forall e ensures Mentioned(ps, e) <==> Mentioned(q, e) || e == p.entity {
        forall i | 0 <= i < |q| ensures q[i] == ps[i] { }
      }
      assert p.entity !in m ==> LocatorsOf(q, p.entity) == {} by {
        if p.entity !in m {
          forall l ensures l !in LocatorsOf(q, p.entity) { LocatorsOfIn(q, p.entity, l); }
        }
      }
      m[p.entity := (if p.entity in m then m[p.entity] else {}) + set l | l in p.data.locators]
  }

  /** `[p.entity for p in ps if l in p.data.locators]` */
  function HoldersOf(ps: seq<Placement>, l: string): seq<string>
    decreases |ps|
  {
    if |ps| == 0 then []
    else
      var p := ps[|ps| - 1];
      HoldersOf(ps[..|ps| - 1], l) + (if l in p.data.locators then [p.entity] else [])
  }

  /** The list of locator `l` after a visit of entity `e` that has `l` exactly when `has`. */
  function Recorded(m: map<string, seq<string>>, l: string, e: string, has: bool): seq<string> {
    var cur := if l in m then m[l] else [];
    if has && e !in cur then cur + [e] else cur
  }

  /** One visit of the reverse-lookup loop: every locator of the visit records
      the entity unless it already has it (the table is a `defaultdict(list)`). */
  function AddHolder(m: map<string, seq<string>>, locs: seq<string>, e: string): (r: map<string, seq<string>>)
    ensures forall l :: l in r <==> l in m || l in locs
    ensures forall l | l in r :: r[l] == Recorded(m, l, e, l in locs)
    decreases |locs|
  {
    if |locs| == 0 then m
    else
      var l := locs[0];
      var cur := if l in m then m[l] else [];
      assert locs == [l] + locs[1..];
      AddHolder(m[l := if e in cur then cur else cur + [e]], locs[1..], e)
  }

  /** `build_locator_entity_map`: for each locator, the entities that have it,
      first occurrences in visiting order. */
  function LocatorEntities(ps: seq<Placement>): (m: map<string, seq<string>>)
    ensures forall l :: l in m <==> HoldersOf(ps, l) != []
    ensures forall l | l in m :: m[l] == Dedup(HoldersOf(ps, l))
    decreases |ps|
  {
    if |ps| == 0 then map[]
    else
      var q := ps[..|ps| - 1];
      var m := LocatorEntities(q);
      var p := ps[|ps| - 1];
      var r := AddHolder(m, p.data.locators, p.entity);
      assert ps == q + [p];
      forall l ensures l in r <==> HoldersOf(ps, l) != [] {
        assert HoldersOf(ps, l) == HoldersOf(q, l) + (if l in p.data.locators then [p.entity] else []);
      }
      forall l | l in r ensures r[l] == Dedup(HoldersOf(ps, l)) {
        HoldersStep(q, p, m, l);
      }
      r
  }

  lemma HoldersStep(q: seq<Placement>, p: Placement, m: map<string, seq<string>>, l: string)
    requires forall l :: l in m <==> HoldersOf(q, l) != []
    requires forall l | l in m :: m[l] == Dedup(HoldersOf(q, l))
    ensures Recorded(m, l, p.entity, l in p.data.locators) == Dedup(HoldersOf(q + [p], l))
  {
    var ps := q + [p];
    assert ps[..|ps| - 1] == q;
    var cur := if l in m then m[l] else [];
    assert cur == Dedup(HoldersOf(q, l));
    if l in p.data.locators {
      assert HoldersOf(ps, l) == HoldersOf(q, l) + [p.entity];
      AppendNewSnoc([], HoldersOf(q, l), p.entity);
    } else {
      assert HoldersOf(ps, l) == HoldersOf(q, l);
    }
  }

  /** The lookup tables. */
  datatype Index = Index(
    shipTypes: set<string>,
    shipSlots: map<string, seq<string>>,
    slotEntities: map<string, map<string, seq<string>>>,
    entityLocators: map<string, set<string>>,
    entityToShipSlot: map<string, seq<(string, string)>>,
    locatorEntities: map<string, seq<string>>,
    validModifiers: set<string>,
    invalidModifiers: Assoc<string, Option<string>>,
    invalidTechs: set<string>,
    techReplacements: Assoc<string, string>)

  /** `ship_slots` / `build_valid_slots`: each ship's slot names in order. */
  function ShipSlots(t: Tree): map<string, seq<string>> {
    map s | s in Keys(t) :: Keys(SlotsOf(t, s))
  }

  /** `slot_entities` / `build_ship_slot_entities`: the entity names of every
      (ship, slot) pair in order. */
  function SlotEntities(t: Tree): map<string, map<string, seq<string>>> {
    map s | s in Keys(t) :: map sl | sl in Keys(SlotsOf(t, s)) :: Keys(EntitiesOf(t, s, sl))
  }

  /** `build_hierarchy_lookups`, together with the repairer's builders. */
  function BuildIndex(v: VanillaData): Index {
    var ps := Placements(v.shipTypes);
    Index(
      (set s | s in Keys(v.shipTypes)),
      ShipSlots(v.shipTypes),
      SlotEntities(v.shipTypes),
      EntityLocators(ps),
      EntityToShipSlot(ps),
      LocatorEntities(ps),
      (set m | m in v.modifiers.valid),
      v.modifiers.invalidToValid,
      (set k | k in Keys(v.technologies.invalidToValid)),
      v.technologies.invalidToValid)
  }

  /** `slot_entities.get(ship, {}).get(slot, [])` */
  function EntitiesFor(idx: Index, ship: string, slot: string): seq<string> {
    if ship in idx.slotEntities && slot in idx.slotEntities[ship] then idx.slotEntities[ship][slot] else []
  }

  /** `entity_locators.get(entity, set())` */
  function LocatorsFor(idx: Index, entity: string): set<string> {
    if entity in idx.entityLocators then idx.entityLocators[entity] else {}
  }

  /** The slot-entity table read through its getter is the tree's entity list. */
  lemma EntitiesForTree(v: VanillaData, ship: string, slot: string)
    ensures EntitiesFor(BuildIndex(v), ship, slot) == Keys(EntitiesOf(v.shipTypes, ship, slot))
  {
    var t := v.shipTypes;
    KeysIn(t, ship);
    KeysIn(SlotsOf(t, ship), slot);
  }

  /** The two tables agree: an entity is listed for a (ship, slot) pair exactly
      when that pair is among the entity's contexts. */
  lemma ContextsAgree(v: VanillaData, ship: string, slot: string, e: string)
    requires WellFormed(v.shipTypes)
    ensures var idx := BuildIndex(v);
      e in EntitiesFor(idx, ship, slot) <==>
      (e in idx.entityToShipSlot && (ship, slot) in idx.entityToShipSlot[e])
  {
    var t := v.shipTypes;
    var ps := Placements(t);
    EntitiesForTree(v, ship, slot);
    KeysIn(EntitiesOf(t, ship, slot), e);
    ContextsOfIn(ps, e, (ship, slot));
    ContextsOfEmpty(ps, e);
    if e in Keys(EntitiesOf(t, ship, slot)) {
      var d := Lookup(t, ship, slot, e).value;
      PlacementsIn(t, Placement(ship, slot, e, d));
      var i :| 0 <= i < |ps| && ps[i] == Placement(ship, slot, e, d);
      assert ps[i].entity == e && (ps[i].ship, ps[i].slot) == (ship, slot);
    }
    if e in EntityToShipSlot(ps) && (ship, slot) in EntityToShipSlot(ps)[e] {
      var i :| 0 <= i < |ps| && ps[i].entity == e && (ps[i].ship, ps[i].slot) == (ship, slot);
      assert ps[i] in ps;
      PlacementsIn(t, ps[i]);
    }
  }

  /** `entity_locators[e]` is the union of `e`'s locators over every (ship,
      slot) pair that lists it. */
  lemma LocatorsAreUnion(v: VanillaData, e: string, l: string)
    requires WellFormed(v.shipTypes)
    ensures var idx := BuildIndex(v);
      l in LocatorsFor(idx, e) <==>
      exists ship, slot, d :: Lookup(v.shipTypes, ship, slot, e) == Some(d) && l in d.locators
  {
    var t := v.shipTypes;
    var ps := Placements(t);
    LocatorsOfIn(ps, e, l);
    if l in LocatorsFor(BuildIndex(v), e) {
      var i :| 0 <= i < |ps| && ps[i].entity == e && l in ps[i].data.locators;
      assert ps[i] in ps;
      PlacementsIn(t, ps[i]);
    }
    if exists ship, slot, d :: Lookup(t, ship, slot, e) == Some(d) && l in d.locators {
      var ship, slot, d :| Lookup(t, ship, slot, e) == Some(d) && l in d.locators;
      PlacementsIn(t, Placement(ship, slot, e, d));
      var i :| 0 <= i < |ps| && ps[i] == Placement(ship, slot, e, d);
      assert ps[i].entity == e && l in ps[i].data.locators;
      ContextsOfEmpty(ps, e);
    }
  }

  /** The entity-locator and entity-context tables have the same keys: the
      entities the tree mentions anywhere. */
  lemma SameEntities(v: VanillaData, e: string)
    ensures var idx := BuildIndex(v);
      e in idx.entityLocators <==> e in idx.entityToShipSlot
  {
  }
}

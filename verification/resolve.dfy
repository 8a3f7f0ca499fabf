/** `find_entity_for_design`: choosing the entity a generated section uses
    for a (ship, slot) pair, and the locators each weapon category gets.

    The loop visits the slot's entities in order and
      - returns at once with the first entity that has a universal locator,
      - otherwise keeps the first entity of highest score among those that
        can carry every requested weapon kind,
      - and, as a fallback, the first entity with the most locators. */
module Resolve {
  import opened Base
  import opened Strings
  import opened Assoc
  import opened Seqs
  import opened Select
  import opened Hierarchy
  import opened Notation

  /** The keys of a locator map. */
  datatype Category = LargeGun | MediumGun | SmallGun | XlGun | StrikeCraft | PlanetKiller | All

  type LocatorMap = map<Category, seq<string>>

  /** The six weapon categories (every key but `All`). */
  const WeaponCategories: set<Category> := {LargeGun, MediumGun, SmallGun, XlGun, StrikeCraft, PlanetKiller}

  /** The substring a locator of a weapon category contains. */
  function CategoryText(c: Category): string {
    match c
    case LargeGun => "large_gun"
    case MediumGun => "medium_gun"
    case SmallGun => "small_gun"
    case XlGun => "xl_gun"
    case StrikeCraft => "strike_craft"
    case PlanetKiller => "planet_killer"
    case All => "all"
  }

  /** The map from weapon kinds to locator categories (both functions use the same one). */
  function CategoryOf(k: WeaponKind): (c: Category)
    ensures c in WeaponCategories
  {
    match k
    case L => LargeGun
    case M => MediumGun
    case S => SmallGun
    case PD => SmallGun
    case G => MediumGun
    case X => XlGun
    case T => XlGun
    case HB => StrikeCraft
    case W => PlanetKiller
  }

  /** A locator any weapon can use: a fixed list of names, or one naming a
      turret or a planet killer. */
  predicate IsUniversal(loc: string) {
    loc in {"turret_01", "weapon_01", "weapon_02", "root", "core"}
    || Contains(loc, "turret_") || Contains(loc, "planet_killer")
  }

  /** The first universal locator of a list. */
  function FirstUniversal(locs: seq<string>): (r: Option<string>)
    ensures r.None? <==> forall i | 0 <= i < |locs| :: !IsUniversal(locs[i])
    ensures r.Some? ==> IsUniversal(r.value) && exists i | 0 <= i < |locs| :: locs[i] == r.value && forall j | 0 <= j < i :: !IsUniversal(locs[j])
    decreases |locs|
  {
    if |locs| == 0 then None
    else if IsUniversal(locs[0]) then Some(locs[0])
    else
      var r := FirstUniversal(locs[1..]);
      assert forall i | 1 <= i < |locs| :: locs[i] == locs[1..][i - 1];
      r
  }

  /** A universal locator is never the empty string, so `if universal_loc:`
      is the same as "one was found". */
  lemma UniversalNonEmpty(loc: string)
    requires IsUniversal(loc)
    ensures |loc| > 0
  {
  }

  /** Whether a locator counts for a category: by substring, and for planet
      killers also the names `core` and `root`. */
  predicate InCategory(l: string, c: Category) {
    Contains(l, CategoryText(c)) || (c == PlanetKiller && (l == "core" || l == "root"))
  }

  /** `[l for l in locators if <l is of category c>]` */
  function OfCategory(locs: seq<string>, c: Category): seq<string> {
    Filter((l: string) => InCategory(l, c), locs)
  }

  function Available(locs: seq<string>, c: Category): nat {
    |OfCategory(locs, c)|
  }

  /** Support of a weapon list by an entity's locators: whether every kind
      with a positive count has a locator of its category, and the score --
      ten per unit when the category covers the count, otherwise one per
      available locator. */
  function Support(ws: Assoc<WeaponKind, nat>, locs: seq<string>): (r: (bool, nat))
    ensures r.0 <==> forall i | 0 <= i < |ws| :: ws[i].1 == 0 || Available(locs, CategoryOf(ws[i].0)) > 0
    ensures r.1 <= 10 * SumCounts(ws)
    decreases |ws|
  {
    if |ws| == 0 then (true, 0)
    else
      var (k, count) := ws[0];
      var rest := Support(ws[1..], locs);
      var a := Available(locs, CategoryOf(k));
      assert forall i | 1 <= i < |ws| :: ws[i] == ws[1..][i - 1];
      if a >= count then (rest.0, rest.1 + count * 10)
      else if a > 0 then (rest.0, rest.1 + a)
      else (false, rest.1)
  }

  /** The total number of requested units. */
  function SumCounts(ws: Assoc<WeaponKind, nat>): nat
    decreases |ws|
  {
    if |ws| == 0 then 0 else ws[0].1 + SumCounts(ws[1..])
  }

  /** When every category covers its count, the score is ten per requested unit. */
  lemma {:induction false} FullSupportScore(ws: Assoc<WeaponKind, nat>, locs: seq<string>)
    requires forall i | 0 <= i < |ws| :: Available(locs, CategoryOf(ws[i].0)) >= ws[i].1
    ensures Support(ws, locs) == (true, 10 * SumCounts(ws))
    decreases |ws|
  {
    if |ws| > 0 {
      assert forall i | 1 <= i < |ws| :: ws[i] == ws[1..][i - 1];
      FullSupportScore(ws[1..], locs);
    }
  }

  /** The score the best-match comparison sees: -1 for an entity that cannot
      carry the weapons, which never beats the initial best score of -1. */
  function Score(ws: Assoc<WeaponKind, nat>, locs: seq<string>): int {
    var (can, score) := Support(ws, locs);
    if can then score else -1
  }

  /** Every weapon category mapped to the one universal locator. */
  function UniversalMap(loc: string): (m: LocatorMap)
    ensures m.Keys == WeaponCategories
    ensures forall c | c in m :: m[c] == [loc]
  {
    map c | c in WeaponCategories :: [loc]
  }

  /** Every weapon category mapped to the entity's locators of that category. */
  function CategoryMap(locs: seq<string>): (m: LocatorMap)
    ensures m.Keys == WeaponCategories
    ensures forall c, l | c in m :: l in m[c] <==> l in locs && InCategory(l, c)
  {
    map c | c in WeaponCategories :: OfCategory(locs, c)
  }

  /** The fallback map: `All` holds every locator, small guns may use all of
      them, and every other category the first one (`root` if there is none). */
  function FallbackMap(locs: seq<string>): (m: LocatorMap)
    ensures m.Keys == WeaponCategories + {All}
    ensures m[All] == locs
    ensures |locs| > 0 ==> m[SmallGun] == locs
    ensures forall c | c in m && c != All && c != SmallGun :: m[c] == [if |locs| > 0 then locs[0] else "root"]
    ensures |locs| == 0 ==> m[SmallGun] == ["root"]
  {
    var first := if |locs| > 0 then locs[0] else "root";
    map[All := locs, LargeGun := [first], MediumGun := [first],
        SmallGun := if |locs| > 0 then locs else [first],
        XlGun := [first], StrikeCraft := [first], PlanetKiller := [first]]
  }

  /** The result: the chosen entity (if any) and its locator map. */
  datatype Resolution = Resolution(entity: Option<string>, locators: LocatorMap)

  /** The loop's variables between iterations. */
  datatype ScanState = ScanState(
    best: Option<string>, bestScore: int, bestMap: LocatorMap,
    fallback: Option<string>, fallbackMap: LocatorMap)

  /** `fallback_locators.get("all", [])` */
  function AllOf(m: LocatorMap): seq<string> {
    if All in m then m[All] else []
  }

  /** The loop over the entities from position `i`, as written: the fallback
      update, the early return on a universal locator, the best-score update,
      and after the loop the fallback when no best entity was found. */
  function Scan(es: Assoc<string, EntityData>, ws: Assoc<WeaponKind, nat>, i: nat, st: ScanState): Resolution
    requires i <= |es|
    decreases |es| - i
  {
    if i == |es| then
      if !Truthy(st.best) && Truthy(st.fallback) then Resolution(st.fallback, st.fallbackMap)
      else Resolution(st.best, st.bestMap)
    else
      var name := es[i].0;
      var locs := es[i].1.locators;
      var st1 := TrackFallback(st, name, locs);
      match FirstUniversal(locs)
      case Some(u) => Resolution(Some(name), UniversalMap(u))
      case None => Scan(es, ws, i + 1, TrackBest(st1, ws, name, locs))
  }

  /** The fallback update: the first entity, or one with more locators than
      the fallback's `"all"` list. */
  function TrackFallback(st: ScanState, name: string, locs: seq<string>): ScanState {
    if !Truthy(st.fallback) || |locs| > |AllOf(st.fallbackMap)| then
      st.(fallback := Some(name), fallbackMap := FallbackMap(locs))
    else st
  }

  /** The best-score update: an entity that can serve the design with a
      higher score than the best so far. */
  function TrackBest(st: ScanState, ws: Assoc<WeaponKind, nat>, name: string, locs: seq<string>): ScanState {
    var (can, score) := Support(ws, locs);
    if can && score > st.bestScore then
      st.(best := Some(name), bestScore := score, bestMap := CategoryMap(locs))
    else st
  }

  /** `find_entity_for_design` on the tree. */
  function FindEntity(t: Tree, ship: string, slot: string, ws: Assoc<WeaponKind, nat>): Resolution {
    var es := EntitiesOf(t, ship, slot);
    if |es| == 0 then Resolution(None, map[])
    else Scan(es, ws, 0, ScanState(None, -1, map[], None, map[]))
  }

  // ---------------------------------------------------------------------------
  // The selection, stated without the loop

  function Scores(es: Assoc<string, EntityData>, ws: Assoc<WeaponKind, nat>): (r: seq<int>)
    ensures |r| == |es|
  {
    seq(|es|, i requires 0 <= i < |es| => Score(ws, es[i].1.locators))
  }

  function Sizes(es: Assoc<string, EntityData>): (r: seq<int>)
    ensures |r| == |es|
  {
    seq(|es|, i requires 0 <= i < |es| => |es[i].1.locators|)
  }

  /** The first entity at or after `i` with a universal locator. */
  function FirstUniversalEntity(es: Assoc<string, EntityData>, i: nat): (r: Option<nat>)
    requires i <= |es|
    ensures r.Some? ==> i <= r.value < |es| && FirstUniversal(es[r.value].1.locators).Some?
    ensures forall j | i <= j < (if r.Some? then r.value else |es|) :: FirstUniversal(es[j].1.locators).None?
    decreases |es| - i
  {
    if i == |es| then None
    else if FirstUniversal(es[i].1.locators).Some? then Some(i)
    else FirstUniversalEntity(es, i + 1)
  }

  /** The answer once no universal locator was met: the best-scoring entity,
      else the fallback, else nothing. */
  function Final(es: Assoc<string, EntityData>, best: Option<nat>, fallback: Option<nat>): Resolution
    requires best.Some? ==> best.value < |es|
    requires fallback.Some? ==> fallback.value < |es|
  {
    if best.Some? then Resolution(Some(es[best.value].0), CategoryMap(es[best.value].1.locators))
    else if fallback.Some? then Resolution(Some(es[fallback.value].0), FallbackMap(es[fallback.value].1.locators))
    else Resolution(None, map[])
  }

  /** The loop state that corresponds to best index `b` and fallback index `f`. */
  function StateOf(es: Assoc<string, EntityData>, ws: Assoc<WeaponKind, nat>, b: Option<nat>, f: Option<nat>): ScanState
    requires b.Some? ==> b.value < |es|
    requires f.Some? ==> f.value < |es|
  {
    ScanState(
      if b.Some? then Some(es[b.value].0) else None,
      if b.Some? then Score(ws, es[b.value].1.locators) else -1,
      if b.Some? then CategoryMap(es[b.value].1.locators) else map[],
      if f.Some? then Some(es[f.value].0) else None,
      if f.Some? then FallbackMap(es[f.value].1.locators) else map[])
  }

  /** Entity names are non-empty (the extractor only records truthy names). */
  predicate NamedEntities(es: Assoc<string, EntityData>) {
    forall i | 0 <= i < |es| :: |es[i].0| > 0
  }

  /** The next best and fallback indices after visiting entity `i`. */
  function NextBest(sc: seq<int>, i: nat, b: Option<nat>): Option<nat>
    requires i < |sc| && (b.Some? ==> b.value < |sc|)
  {
    if sc[i] > (if b.Some? then sc[b.value] else -1) then Some(i) else b
  }

  /** One iteration without a universal locator moves the loop state exactly
      as the two first-maximum selections move their indices. */
  lemma ScanStep(es: Assoc<string, EntityData>, ws: Assoc<WeaponKind, nat>, i: nat, b: Option<nat>, f: Option<nat>)
    requires NamedEntities(es) && i < |es| && FirstUniversal(es[i].1.locators).None?
    requires b.Some? ==> b.value < |es|
    requires f.Some? ==> f.value < |es|
    ensures Scan(es, ws, i, StateOf(es, ws, b, f)) ==
      Scan(es, ws, i + 1, StateOf(es, ws, NextBest(Scores(es, ws), i, b), NextBest(Sizes(es), i, f)))
  {
    var name, locs := es[i].0, es[i].1.locators;
    var nb, nf := NextBest(Scores(es, ws), i, b), NextBest(Sizes(es), i, f);
    FallbackTracked(es, ws, i, b, f);
    BestTracked(es, ws, i, b, nf);
    assert Scan(es, ws, i, StateOf(es, ws, b, f))
      == Scan(es, ws, i + 1, TrackBest(TrackFallback(StateOf(es, ws, b, f), name, locs), ws, name, locs));
  }

  /** The fallback update moves the fallback index to the first entity with
      the most locators. */
  lemma FallbackTracked(es: Assoc<string, EntityData>, ws: Assoc<WeaponKind, nat>, i: nat, b: Option<nat>, f: Option<nat>)
    requires NamedEntities(es) && i < |es|
    requires b.Some? ==> b.value < |es|
    requires f.Some? ==> f.value < |es|
    ensures TrackFallback(StateOf(es, ws, b, f), es[i].0, es[i].1.locators) == StateOf(es, ws, b, NextBest(Sizes(es), i, f))
  {
    assert Sizes(es)[i] == |es[i].1.locators|;
    assert f.Some? ==> Sizes(es)[f.value] == |es[f.value].1.locators|;
    assert f.Some? ==> AllOf(FallbackMap(es[f.value].1.locators)) == es[f.value].1.locators;
  }

  /** The best-score update moves the best index to the first entity with the
      highest score. */
  lemma BestTracked(es: Assoc<string, EntityData>, ws: Assoc<WeaponKind, nat>, i: nat, b: Option<nat>, f: Option<nat>)
    requires i < |es|
    requires b.Some? ==> b.value < |es|
    requires f.Some? ==> f.value < |es|
    ensures TrackBest(StateOf(es, ws, b, f), ws, es[i].0, es[i].1.locators) == StateOf(es, ws, NextBest(Scores(es, ws), i, b), f)
  {
    assert Scores(es, ws)[i] == Score(ws, es[i].1.locators);
    assert b.Some? ==> Scores(es, ws)[b.value] == Score(ws, es[b.value].1.locators);
  }

  /** What the loop returns from position `i`, in the index view: the first
      universal entity from `i` on, else the outcome of the two selections
      continued from `b` and `f`. */
  function Predicted(es: Assoc<string, EntityData>, ws: Assoc<WeaponKind, nat>, i: nat, b: Option<nat>, f: Option<nat>): Resolution
    requires i <= |es|
    requires FirstMaxOf(Scores(es, ws), i, -1, b) && FirstMaxOf(Sizes(es), i, -1, f)
  {
    match FirstUniversalEntity(es, i)
    case Some(u) => Resolution(Some(es[u].0), UniversalMap(FirstUniversal(es[u].1.locators).value))
    case None => Final(es,
      ArgMaxFrom(Scores(es, ws), i, -1, b, if b.Some? then Scores(es, ws)[b.value] else -1),
      ArgMaxFrom(Sizes(es), i, -1, f, if f.Some? then Sizes(es)[f.value] else -1))
  }

  lemma PredictedStep(es: Assoc<string, EntityData>, ws: Assoc<WeaponKind, nat>, i: nat, b: Option<nat>, f: Option<nat>)
    requires i < |es| && FirstUniversal(es[i].1.locators).None?
    requires FirstMaxOf(Scores(es, ws), i, -1, b) && FirstMaxOf(Sizes(es), i, -1, f)
    requires FirstMaxOf(Scores(es, ws), i + 1, -1, NextBest(Scores(es, ws), i, b))
    requires FirstMaxOf(Sizes(es), i + 1, -1, NextBest(Sizes(es), i, f))
    ensures Predicted(es, ws, i, b, f) == Predicted(es, ws, i + 1, NextBest(Scores(es, ws), i, b), NextBest(Sizes(es), i, f))
  {
  }

  /** After the last entity the loop returns the best entity, else the fallback. */
  lemma ScanEnd(es: Assoc<string, EntityData>, ws: Assoc<WeaponKind, nat>, b: Option<nat>, f: Option<nat>)
    requires NamedEntities(es)
    requires FirstMaxOf(Scores(es, ws), |es|, -1, b) && FirstMaxOf(Sizes(es), |es|, -1, f)
    ensures Scan(es, ws, |es|, StateOf(es, ws, b, f)) == Predicted(es, ws, |es|, b, f)
  {
  }

  /** An entity with a universal locator ends the loop. */
  lemma ScanUniversal(es: Assoc<string, EntityData>, ws: Assoc<WeaponKind, nat>, i: nat, b: Option<nat>, f: Option<nat>)
    requires i < |es| && FirstUniversal(es[i].1.locators).Some?
    requires FirstMaxOf(Scores(es, ws), i, -1, b) && FirstMaxOf(Sizes(es), i, -1, f)
    ensures Scan(es, ws, i, StateOf(es, ws, b, f)) == Predicted(es, ws, i, b, f)
  {
  }

  /** `NextBest` keeps the first-maximum invariant. */
  lemma NextBestStep(sc: seq<int>, i: nat, b: Option<nat>)
    requires i < |sc| && FirstMaxOf(sc, i, -1, b)
    ensures FirstMaxOf(sc, i + 1, -1, NextBest(sc, i, b))
  {
    FirstMaxStep(sc, i, -1, b);
  }

  /** One entity without a universal locator: if the loop agrees with the
      index view from the next position on, it agrees from this one. */
  lemma ScanThenPredicted(es: Assoc<string, EntityData>, ws: Assoc<WeaponKind, nat>, i: nat, b: Option<nat>, f: Option<nat>)
    requires NamedEntities(es) && i < |es| && FirstUniversal(es[i].1.locators).None?
    requires FirstMaxOf(Scores(es, ws), i, -1, b) && FirstMaxOf(Sizes(es), i, -1, f)
    requires FirstMaxOf(Scores(es, ws), i + 1, -1, NextBest(Scores(es, ws), i, b))
    requires FirstMaxOf(Sizes(es), i + 1, -1, NextBest(Sizes(es), i, f))
    requires Scan(es, ws, i + 1, StateOf(es, ws, NextBest(Scores(es, ws), i, b), NextBest(Sizes(es), i, f)))
      == Predicted(es, ws, i + 1, NextBest(Scores(es, ws), i, b), NextBest(Sizes(es), i, f))
    ensures Scan(es, ws, i, StateOf(es, ws, b, f)) == Predicted(es, ws, i, b, f)
  {
    ScanStep(es, ws, i, b, f);
    PredictedStep(es, ws, i, b, f);
  }

  /** The loop from position `i` computes what the index view predicts. */
  lemma {:induction false} ScanFrom(es: Assoc<string, EntityData>, ws: Assoc<WeaponKind, nat>, i: nat, b: Option<nat>, f: Option<nat>)
    requires NamedEntities(es) && i <= |es|
    requires FirstMaxOf(Scores(es, ws), i, -1, b) && FirstMaxOf(Sizes(es), i, -1, f)
    ensures Scan(es, ws, i, StateOf(es, ws, b, f)) == Predicted(es, ws, i, b, f)
    decreases |es| - i
  {
    if i == |es| {
      ScanEnd(es, ws, b, f);
    } else if FirstUniversal(es[i].1.locators).Some? {
      ScanUniversal(es, ws, i, b, f);
    } else {
      NextBestStep(Scores(es, ws), i, b);
      NextBestStep(Sizes(es), i, f);
      ScanFrom(es, ws, i + 1, NextBest(Scores(es, ws), i, b), NextBest(Sizes(es), i, f));
      ScanThenPredicted(es, ws, i, b, f);
    }
  }

  /** `find_entity_for_design` chooses, among the slot's entities:
      the first with a universal locator, mapping every category to it;
      otherwise the first of highest score among those that can carry the
      weapons, with its locators by category; otherwise the first with the
      most locators, with the fallback map; and nothing only when the slot
      has no entities. */
  lemma FindEntitySpec(t: Tree, ship: string, slot: string, ws: Assoc<WeaponKind, nat>)
    requires NamedEntities(EntitiesOf(t, ship, slot))
    ensures var es := EntitiesOf(t, ship, slot);
      FindEntity(t, ship, slot, ws) ==
        if |es| == 0 then Resolution(None, map[])
        else match FirstUniversalEntity(es, 0)
          case Some(u) => Resolution(Some(es[u].0), UniversalMap(FirstUniversal(es[u].1.locators).value))
          case None => Final(es, FirstMax(Scores(es, ws), -1), FirstMax(Sizes(es), -1))
  {
    var es := EntitiesOf(t, ship, slot);
    if |es| > 0 {
      ScanFrom(es, ws, 0, None, None);
      assert Predicted(es, ws, 0, None, None) ==
        match FirstUniversalEntity(es, 0)
        case Some(u) => Resolution(Some(es[u].0), UniversalMap(FirstUniversal(es[u].1.locators).value))
        case None => Final(es, FirstMax(Scores(es, ws), -1), FirstMax(Sizes(es), -1));
    }
  }

  /** An entity is chosen exactly when the slot has entities. */
  lemma FoundIffEntities(t: Tree, ship: string, slot: string, ws: Assoc<WeaponKind, nat>)
    requires NamedEntities(EntitiesOf(t, ship, slot))
    ensures FindEntity(t, ship, slot, ws).entity.Some? <==> |EntitiesOf(t, ship, slot)| > 0
    ensures Truthy(FindEntity(t, ship, slot, ws).entity) <==> |EntitiesOf(t, ship, slot)| > 0
  {
    var es := EntitiesOf(t, ship, slot);
    FindEntitySpec(t, ship, slot, ws);
    if |es| > 0 {
      assert Sizes(es)[0] > -1;
    }
  }
}

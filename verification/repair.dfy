/** The section repairer's record-level rules: slot-name normalisation, the
    three entity pickers, the locator mapping, and the four-strategy repair
    of one section, all read against the lookup tables of module Index.

    A section is abstracted to the fields the repairer reads from it; the
    textual substitutions it performs become updates of those fields. */
module Repair {
  import opened Base
  import opened Strings
  import opened Seqs
  import opened Select
  import opened Fields
  import opened Hierarchy
  import opened Index

  // ---------------------------------------------------------------------------
  // normalize_slot_name

  /** The common misnamings of the middle slot. */
  function SlotAlias(slot: string): Option<string> {
    if slot in {"ship", "core", "section", "main"} then Some("mid") else None
  }

  /** A slot valid for the ship is kept; otherwise its alias when that is
      valid, otherwise the ship's first slot; a ship without slots keeps
      whatever it has. */
  function NormalizeSlotName(slot: string, ship: string, validSlots: map<string, seq<string>>): (r: string)
    ensures ship in validSlots && slot in validSlots[ship] ==> r == slot
    ensures ship in validSlots && |validSlots[ship]| > 0 ==> r in validSlots[ship]
    ensures ship !in validSlots || |validSlots[ship]| == 0 ==> r == slot
    ensures r != slot && SlotAlias(slot).Some? && SlotAlias(slot).value in validSlots[ship] ==> r == SlotAlias(slot).value
    ensures r != slot && (SlotAlias(slot).None? || SlotAlias(slot).value !in validSlots[ship]) ==> r == validSlots[ship][0]
  {
    if ship in validSlots && slot in validSlots[ship] then slot
    else if SlotAlias(slot).Some? && ship in validSlots && SlotAlias(slot).value in validSlots[ship] then SlotAlias(slot).value
    else if ship in validSlots && |validSlots[ship]| > 0 then validSlots[ship][0]
    else slot
  }

  /** Normalising twice is normalising once. */
  lemma NormalizeIdempotent(slot: string, ship: string, validSlots: map<string, seq<string>>)
    ensures var once := NormalizeSlotName(slot, ship, validSlots);
      NormalizeSlotName(once, ship, validSlots) == once
  {
  }

  // ---------------------------------------------------------------------------
  // Picking an entity by its number of locators

  /** `len(entity_locators.get(e, set()))` for each entity. */
  function LocatorCounts(es: seq<string>, idx: Index): (r: seq<int>)
    ensures |r| == |es|
    ensures forall i | 0 <= i < |es| :: r[i] == |LocatorsFor(idx, es[i])|
  {
    seq(|es|, i requires 0 <= i < |es| => |LocatorsFor(idx, es[i])|)
  }

  /** The selection loop of `get_valid_entity_for_slot` and
      `find_default_entity` (best count starting at 0, strict comparison):
      the first entity with the most locators, none when all have none. */
  function MostLocators(es: seq<string>, idx: Index): (r: Option<string>)
    ensures r.None? <==> forall e | e in es :: LocatorsFor(idx, e) == {}
    ensures r.Some? ==> r.value in es && LocatorsFor(idx, r.value) != {}
    ensures r.Some? ==> forall e | e in es :: |LocatorsFor(idx, e)| <= |LocatorsFor(idx, r.value)|
    ensures r.Some? ==> exists i | 0 <= i < |es| :: (es[i] == r.value &&
      forall j | 0 <= j < i :: |LocatorsFor(idx, es[j])| < |LocatorsFor(idx, es[i])|)
  {
    var counts := LocatorCounts(es, idx);
    match FirstMax(counts, 0)
    case None =>
      assert forall e | e in es :: LocatorsFor(idx, e) == {} by {
        forall e | e in es ensures LocatorsFor(idx, e) == {} {
          var i :| 0 <= i < |es| && es[i] == e;
          assert counts[i] <= 0;
        }
      }
      None
    case Some(b) =>
      assert forall e | e in es :: |LocatorsFor(idx, e)| <= |LocatorsFor(idx, es[b])| by {
        forall e | e in es ensures |LocatorsFor(idx, e)| <= |LocatorsFor(idx, es[b])| {
          var i :| 0 <= i < |es| && es[i] == e;
          assert counts[i] <= counts[b];
        }
      }
      assert counts[b] > 0;
      Some(es[b])
  }

  /** `get_valid_entity_for_slot`: the entity of the (ship, slot) pair with the
      most locators. Its three early returns are the cases where the pair
      has no entity, which the selection answers the same way. */
  function GetValidEntityForSlot(idx: Index, ship: string, slot: string): (r: Option<string>)
    ensures r == MostLocators(EntitiesFor(idx, ship, slot), idx)
    ensures r.Some? ==> r.value in EntitiesFor(idx, ship, slot) && LocatorsFor(idx, r.value) != {}
  {
    if ship !in idx.slotEntities then None
    else if slot !in idx.slotEntities[ship] then None
    else
      var es := idx.slotEntities[ship][slot];
      if |es| == 0 then None else MostLocators(es, idx)
  }

  /** The slots `find_default_entity` tries, in order. */
  function SlotAlternatives(slot: string): (r: seq<string>)
    ensures |r| > 0 && r[0] == slot
  {
    [slot] + (if slot == "core" then ["mid", "bow", "stern"] else if slot == "mid" then ["core"] else [])
  }

  /** The entity list of the first alternative that has a non-empty one. */
  function FirstCandidates(slots: map<string, seq<string>>, alts: seq<string>): (r: seq<string>)
    ensures r == [] <==> forall k | 0 <= k < |alts| :: alts[k] !in slots || slots[alts[k]] == []
    ensures r != [] ==> exists k | 0 <= k < |alts| :: (alts[k] in slots && slots[alts[k]] == r &&
      forall j | 0 <= j < k :: alts[j] !in slots || slots[alts[j]] == [])
    decreases |alts|
  {
    if |alts| == 0 then []
    else if alts[0] in slots && slots[alts[0]] != [] then slots[alts[0]]
    else
      var r := FirstCandidates(slots, alts[1..]);
      CandidatesShift(slots, alts, r);
      r
  }

  /** Candidates found in the tail of `alts`, after a head slot without
      entities, are the first ones found in `alts`. */
  lemma CandidatesShift(slots: map<string, seq<string>>, alts: seq<string>, r: seq<string>)
    requires |alts| > 0 && (alts[0] !in slots || slots[alts[0]] == [])
    requires r == [] <==> forall k | 0 <= k < |alts[1..]| :: alts[1..][k] !in slots || slots[alts[1..][k]] == []
    requires r != [] ==> exists k | 0 <= k < |alts[1..]| :: (alts[1..][k] in slots && slots[alts[1..][k]] == r &&
      forall j | 0 <= j < k :: alts[1..][j] !in slots || slots[alts[1..][j]] == [])
    ensures r == [] <==> forall k | 0 <= k < |alts| :: alts[k] !in slots || slots[alts[k]] == []
    ensures r != [] ==> exists k | 0 <= k < |alts| :: (alts[k] in slots && slots[alts[k]] == r &&
      forall j | 0 <= j < k :: alts[j] !in slots || slots[alts[j]] == [])
  {
    assert forall k | 1 <= k < |alts| :: alts[k] == alts[1..][k - 1];
    if r != [] {
      var k :| 0 <= k < |alts[1..]| && alts[1..][k] in slots && slots[alts[1..][k]] == r &&
        forall j | 0 <= j < k :: alts[1..][j] !in slots || slots[alts[1..][j]] == [];
      assert alts[k + 1] in slots && slots[alts[k + 1]] == r;
    }
  }

  /** `find_default_entity`: like `get_valid_entity_for_slot`, but a slot
      without entities falls back to related slots (core to mid, bow, stern;
      mid to core). */
  function FindDefaultEntity(idx: Index, ship: string, slot: string): (r: Option<string>)
    ensures r.Some? ==> LocatorsFor(idx, r.value) != {}
    ensures r.Some? ==> exists alt | alt in SlotAlternatives(slot) :: r.value in EntitiesFor(idx, ship, alt)
  {
    if ship !in idx.slotEntities then None
    else
      var alts := SlotAlternatives(slot);
      var candidates := FirstCandidates(idx.slotEntities[ship], alts);
      if candidates == [] then None
      else
        var r := MostLocators(candidates, idx);
        assert r.Some? ==> exists alt | alt in alts :: r.value in EntitiesFor(idx, ship, alt) by {
          if r.Some? {
            var k :| 0 <= k < |alts| && alts[k] in idx.slotEntities[ship] && idx.slotEntities[ship][alts[k]] == candidates;
            assert r.value in EntitiesFor(idx, ship, alts[k]);
          }
        }
        r
  }

  /** When the section's own slot has entities, the default entity is the one
      `get_valid_entity_for_slot` picks. */
  lemma DefaultPrefersOwnSlot(idx: Index, ship: string, slot: string)
    requires EntitiesFor(idx, ship, slot) != []
    ensures FindDefaultEntity(idx, ship, slot) == GetValidEntityForSlot(idx, ship, slot)
  {
  }

  /** A `core` slot without entities borrows the entities of `mid` when it has some. */
  lemma DefaultCoreFallsBackToMid(idx: Index, ship: string)
    requires EntitiesFor(idx, ship, "core") == [] && EntitiesFor(idx, ship, "mid") != []
    ensures FindDefaultEntity(idx, ship, "core") == MostLocators(EntitiesFor(idx, ship, "mid"), idx)
  {
    var alts := SlotAlternatives("core");
    assert alts == ["core", "mid", "bow", "stern"];
    assert ship in idx.slotEntities;
    var slots := idx.slotEntities[ship];
    assert alts[0] !in slots || slots[alts[0]] == [];
    assert FirstCandidates(slots, alts) == FirstCandidates(slots, alts[1..]);
  }

  // ---------------------------------------------------------------------------
  // find_best_entity

  /** The naming stem of an entity: the text before the first underscore
      once `_entity` is removed. */
  function BasePattern(entity: string): string {
    Split(ReplaceAll(entity, "_entity", ""), "_")[0]
  }

  /** An entity's standing in `find_best_entity`: the number of needed
      locators plus 5 for a similar name, or 0 when the entity has no
      locators or misses a needed one (such an entity is never taken, and a
      score of 0 never beats the initial best score of 0). */
  function BestScore(idx: Index, needed: set<string>, base: string, e: string): int {
    var locs := LocatorsFor(idx, e);
    if locs == {} || !(needed <= locs) then 0
    else |needed * locs| + (if Contains(e, base) then 5 else 0)
  }

  function BestScores(idx: Index, needed: set<string>, base: string, es: seq<string>): (r: seq<int>)
    ensures |r| == |es|
    ensures forall i | 0 <= i < |es| :: r[i] == BestScore(idx, needed, base, es[i])
  {
    seq(|es|, i requires 0 <= i < |es| => BestScore(idx, needed, base, es[i]))
  }

  /** Candidate `b` is the one the strict-`>` loop keeps: it scores above 0,
      no candidate scores more, and every earlier candidate scores less. */
  predicate FirstTop(idx: Index, needed: set<string>, base: string, cs: seq<string>, b: nat)
    requires b < |cs|
  {
    BestScore(idx, needed, base, cs[b]) > 0
    && (forall j | 0 <= j < |cs| :: BestScore(idx, needed, base, cs[j]) <= BestScore(idx, needed, base, cs[b]))
    && (forall j | 0 <= j < b :: BestScore(idx, needed, base, cs[j]) < BestScore(idx, needed, base, cs[b]))
  }

  /** `find_best_entity`: the first candidate of the (ship, slot) pair that
      has every needed locator and scores highest, unless that is the
      current entity. */
  function FindBestEntity(needed: set<string>, current: string, ship: string, slot: string, idx: Index): (r: Option<string>)
    ensures EntitiesFor(idx, ship, slot) == [] ==> r.None?
    ensures r.Some? ==> r.value in EntitiesFor(idx, ship, slot) && r.value != current
    ensures r.Some? ==> LocatorsFor(idx, r.value) != {} && needed <= LocatorsFor(idx, r.value)
    ensures r.Some? ==> forall e | e in EntitiesFor(idx, ship, slot) ::
      BestScore(idx, needed, BasePattern(current), e) <= BestScore(idx, needed, BasePattern(current), r.value)
    ensures r.None? && current !in EntitiesFor(idx, ship, slot) ==>
      forall e | e in EntitiesFor(idx, ship, slot) :: BestScore(idx, needed, BasePattern(current), e) == 0
    ensures r.Some? ==> exists b | 0 <= b < |EntitiesFor(idx, ship, slot)| ::
      EntitiesFor(idx, ship, slot)[b] == r.value && FirstTop(idx, needed, BasePattern(current), EntitiesFor(idx, ship, slot), b)
    ensures r.None? ==>
      (forall e | e in EntitiesFor(idx, ship, slot) :: BestScore(idx, needed, BasePattern(current), e) == 0)
      || exists b | 0 <= b < |EntitiesFor(idx, ship, slot)| ::
        EntitiesFor(idx, ship, slot)[b] == current && FirstTop(idx, needed, BasePattern(current), EntitiesFor(idx, ship, slot), b)
  {
    var candidates := EntitiesFor(idx, ship, slot);
    if candidates == [] then None
    else
      var base := BasePattern(current);
      var scores := BestScores(idx, needed, base, candidates);
      match FirstMax(scores, 0)
      case None =>
        assert forall e | e in candidates :: BestScore(idx, needed, base, e) == 0 by {
          forall e | e in candidates ensures BestScore(idx, needed, base, e) == 0 {
            var i :| 0 <= i < |candidates| && candidates[i] == e;
            assert scores[i] <= 0;
          }
        }
        None
      case Some(b) =>
        assert forall e | e in candidates :: BestScore(idx, needed, base, e) <= scores[b] by {
          forall e | e in candidates ensures BestScore(idx, needed, base, e) <= scores[b] {
            var i :| 0 <= i < |candidates| && candidates[i] == e;
            assert scores[i] <= scores[b];
          }
        }
        assert scores[b] > 0;
        assert FirstTop(idx, needed, base, candidates, b);
        if candidates[b] != current then Some(candidates[b]) else None
  }

  /** The converse: when candidate `b` is the loop's first top scorer, the
      result is that candidate, or nothing when it is the current entity. */
  lemma BestEntityChoice(needed: set<string>, current: string, ship: string, slot: string, idx: Index, b: nat)
    requires b < |EntitiesFor(idx, ship, slot)|
    requires FirstTop(idx, needed, BasePattern(current), EntitiesFor(idx, ship, slot), b)
    ensures var c := EntitiesFor(idx, ship, slot)[b];
      FindBestEntity(needed, current, ship, slot, idx) == if c == current then None else Some(c)
  {
    var cs := EntitiesFor(idx, ship, slot);
    var scores := BestScores(idx, needed, BasePattern(current), cs);
    FirstMaxUnique(scores, 0, b);
  }

  // ---------------------------------------------------------------------------
  // get_locator_mapping

  /** `size_map`: for a needed locator naming a size, the substrings to look
      for in the valid locators, most preferred first. */
  const SizeMap: seq<(string, seq<string>)> := [
    ("xl_gun", ["large_gun", "extra_large", "xl_gun"]),
    ("extra_large", ["xl_gun", "large_gun", "extra_large"]),
    ("large_gun", ["large_gun", "xl_gun", "medium_gun"]),
    ("medium_gun", ["medium_gun", "large_gun", "small_gun"]),
    ("small_gun", ["small_gun", "medium_gun", "point_defence"]),
    ("main_body", ["root", "core", "weapon_01"]),
    ("weapon", ["weapon_01", "weapon_02", "root"])
  ]

  /** The preferences of the first size key the locator contains; only that
      one key is tried. */
  function SizePreferences(needed: string, table: seq<(string, seq<string>)>): (r: Option<seq<string>>)
    ensures r.None? <==> forall k | 0 <= k < |table| :: !Contains(needed, table[k].0)
    ensures r.Some? ==> exists k | 0 <= k < |table| :: (Contains(needed, table[k].0) && r.value == table[k].1 &&
      forall j | 0 <= j < k :: !Contains(needed, table[j].0))
    decreases |table|
  {
    if |table| == 0 then None
    else if Contains(needed, table[0].0) then Some(table[0].1)
    else
      var r := SizePreferences(needed, table[1..]);
      assert forall k | 1 <= k < |table| :: table[k] == table[1..][k - 1];
      assert r.Some? ==> exists k | 0 <= k < |table| :: (Contains(needed, table[k].0) && r.value == table[k].1 &&
        forall j | 0 <= j < k :: !Contains(needed, table[j].0)) by {
        if r.Some? {
          var k :| 0 <= k < |table[1..]| && Contains(needed, table[1..][k].0) && r.value == table[1..][k].1 &&
            forall j | 0 <= j < k :: !Contains(needed, table[1..][j].0);
          assert Contains(needed, table[k + 1].0) && r.value == table[k + 1].1;
        }
      }
      r
  }

  /** The first valid locator in sorted order that contains `pref`. */
  function FirstContaining(valid: set<string>, pref: string): (r: Option<string>)
    ensures r.None? <==> forall v | v in valid :: !Contains(v, pref)
    ensures r.Some? ==> r.value in valid && Contains(r.value, pref)
    ensures r.Some? ==> forall v | v in valid && Contains(v, pref) :: LexLe(r.value, v)
  {
    var c := set v | v in valid && Contains(v, pref);
    assert forall v | v in valid && Contains(v, pref) :: v in c;
    if c == {} then None else Some(Least(c))
  }

  /** The first preference some valid locator contains, and that locator. */
  function FirstPreferred(valid: set<string>, prefs: seq<string>): (r: Option<string>)
    ensures r.None? <==> forall k | 0 <= k < |prefs| :: FirstContaining(valid, prefs[k]).None?
    ensures r.Some? ==> exists k | 0 <= k < |prefs| :: (r == FirstContaining(valid, prefs[k]) &&
      forall j | 0 <= j < k :: FirstContaining(valid, prefs[j]).None?)
    decreases |prefs|
  {
    if |prefs| == 0 then None
    else if FirstContaining(valid, prefs[0]).Some? then FirstContaining(valid, prefs[0])
    else
      var r := FirstPreferred(valid, prefs[1..]);
      PreferredShift(valid, prefs, r);
      r
  }

  /** A preference found in the tail of `prefs`, after a head that no valid
      locator contains, is the first one found in `prefs`. */
  lemma PreferredShift(valid: set<string>, prefs: seq<string>, r: Option<string>)
    requires |prefs| > 0 && FirstContaining(valid, prefs[0]).None?
    requires r.None? <==> forall k | 0 <= k < |prefs[1..]| :: FirstContaining(valid, prefs[1..][k]).None?
    requires r.Some? ==> exists k | 0 <= k < |prefs[1..]| :: (r == FirstContaining(valid, prefs[1..][k]) &&
      forall j | 0 <= j < k :: FirstContaining(valid, prefs[1..][j]).None?)
    ensures r.None? <==> forall k | 0 <= k < |prefs| :: FirstContaining(valid, prefs[k]).None?
    ensures r.Some? ==> exists k | 0 <= k < |prefs| :: (r == FirstContaining(valid, prefs[k]) &&
      forall j | 0 <= j < k :: FirstContaining(valid, prefs[j]).None?)
  {
    assert forall k | 1 <= k < |prefs| :: prefs[k] == prefs[1..][k - 1];
    if r.Some? {
      var k :| 0 <= k < |prefs[1..]| && r == FirstContaining(valid, prefs[1..][k]) &&
        forall j | 0 <= j < k :: FirstContaining(valid, prefs[1..][j]).None?;
      assert r == FirstContaining(valid, prefs[k + 1]);
    }
  }

  /** The replacement of one invalid locator: the preferred match for its
      size, else the least valid locator. */
  function Replacement(needed: string, valid: set<string>): (r: string)
    requires valid != {}
    ensures r in valid
    ensures SizePreferences(needed, SizeMap).None? ==> r == Least(valid)
  {
    var best := match SizePreferences(needed, SizeMap)
      case None => None
      case Some(prefs) => FirstPreferred(valid, prefs);
    if best.Some? then best.value else Least(valid)
  }

  /** `get_locator_mapping`: every needed locator that is not valid is mapped
      to a valid one; nothing at all when no locator is valid. */
  function GetLocatorMapping(needed: set<string>, valid: set<string>): (m: map<string, string>)
    ensures valid == {} ==> m == map[]
    ensures valid != {} ==> m.Keys == needed - valid
    ensures forall n | n in m :: m[n] in valid && n !in valid
  {
    if valid == {} then map[]
    else map n | n in needed && n !in valid :: Replacement(n, valid)
  }

  /** A locator without a size key goes to the least valid locator; one with
      a size key goes to the least valid locator containing its most
      preferred substring that some valid locator contains. */
  lemma MappingChoice(needed: set<string>, valid: set<string>, n: string)
    requires n in needed && n !in valid && valid != {}
    ensures var m := GetLocatorMapping(needed, valid);
      n in m &&
      (SizePreferences(n, SizeMap).None? ==> m[n] == Least(valid)) &&
      (SizePreferences(n, SizeMap).Some? && FirstPreferred(valid, SizePreferences(n, SizeMap).value).Some? ==>
         m[n] == FirstPreferred(valid, SizePreferences(n, SizeMap).value).value)
  {
  }

  /** `{to if l == from else l for l in locs}`: one `re.sub` of a locator line. */
  function Rename(locs: set<string>, from: string, to: string): (r: set<string>)
    ensures forall l :: l in r <==> (l in locs && l != from) || (l == to && from in locs)
  {
    set l | l in locs :: if l == from then to else l
  }

  /** All replacements of a mapping made at once. */
  function ApplyMapping(locs: set<string>, m: map<string, string>): (r: set<string>)
    ensures forall l :: l in r <==> (l in locs && l !in m) || exists o | o in locs && o in m :: m[o] == l
  {
    set l | l in locs :: if l in m then m[l] else l
  }

  /** The replacements made one after the other, in the order `keys`. */
  function ApplyInOrder(locs: set<string>, keys: seq<string>, m: map<string, string>): set<string>
    requires forall k | k in keys :: k in m
    decreases |keys|
  {
    if |keys| == 0 then locs else ApplyInOrder(Rename(locs, keys[0], m[keys[0]]), keys[1..], m)
  }

  /** No replacement is itself replaced later. */
  predicate Closed(m: map<string, string>) {
    forall k | k in m :: m[k] !in m
  }

  /** Replacing one locator line after the other, in any order, gives the
      same set of locators as replacing them all at once, because no value
      of the mapping is one of its keys. */
  lemma {:induction false} InOrderIsAtOnce(locs: set<string>, keys: seq<string>, m: map<string, string>)
    requires NoDup(keys) && (forall k | k in keys :: k in m) && Closed(m)
    ensures ApplyInOrder(locs, keys, m) == ApplyMapping(locs, map k | k in keys :: m[k])
    decreases |keys|
  {
    var sub := map k | k in keys :: m[k];
    if |keys| == 0 {
      assert sub == map[];
    } else {
      var k0 := keys[0];
      var rest := keys[1..];
      var subRest := map k | k in rest :: m[k];
      assert NoDup(rest);
      assert k0 !in rest;
      InOrderIsAtOnce(Rename(locs, k0, m[k0]), rest, m);
      var lhs := ApplyMapping(Rename(locs, k0, m[k0]), subRest);
      var rhs := ApplyMapping(locs, sub);
      forall l | l in lhs ensures l in rhs {
        if l in Rename(locs, k0, m[k0]) && l !in subRest {
          if l == m[k0] && k0 in locs {
            assert sub[k0] == l;
          } else {
            assert l in locs && l != k0;
            assert l !in sub;
          }
        } else {
          var o :| o in Rename(locs, k0, m[k0]) && o in subRest && subRest[o] == l;
          assert o != m[k0];
          assert o in locs && sub[o] == l;
        }
      }
      forall l | l in rhs ensures l in lhs {
        if l in locs && l !in sub {
          assert l in Rename(locs, k0, m[k0]) && l !in subRest;
        } else {
          var o :| o in locs && o in sub && sub[o] == l;
          if o == k0 {
            assert m[k0] in Rename(locs, k0, m[k0]);
            assert m[k0] !in subRest;
          } else {
            assert o in Rename(locs, k0, m[k0]) && o in subRest;
          }
        }
      }
    }
  }

  /** The locator mapping never maps onto one of its own keys. */
  lemma MappingClosed(needed: set<string>, valid: set<string>)
    ensures Closed(GetLocatorMapping(needed, valid))
  {
  }

  // ---------------------------------------------------------------------------
  // is_entity_valid_for_context

  /** An entity fits a (ship, slot) pair when the pair is among its contexts
      or the pair lists it. */
  function IsEntityValidForContext(e: string, ship: string, slot: string, idx: Index): (r: bool)
    ensures e !in idx.entityToShipSlot ==> !r
    ensures e in idx.entityToShipSlot && (ship, slot) in idx.entityToShipSlot[e] ==> r
  {
    if e !in idx.entityToShipSlot then false
    else if (ship, slot) in idx.entityToShipSlot[e] then true
    else e in EntitiesFor(idx, ship, slot)
  }

  /** On the tables built from a well-formed tree, the two tests are the same
      test: an entity fits exactly the pairs that list it. */
  lemma ValidContextIff(v: VanillaData, e: string, ship: string, slot: string)
    requires WellFormed(v.shipTypes)
    ensures IsEntityValidForContext(e, ship, slot, BuildIndex(v)) <==> e in EntitiesFor(BuildIndex(v), ship, slot)
  {
    ContextsAgree(v, ship, slot, e);
  }

  // ---------------------------------------------------------------------------
  // extract_section_data and fix_section

  /** What the repairer reads from a section. */
  datatype SectionData = SectionData(
    key: Option<string>,
    entity: Option<string>,
    shipSize: Option<string>,
    slot: Option<string>,
    locators: set<string>)

  /** `extract_section_data` */
  function ExtractSectionData(text: string): (d: SectionData)
    ensures forall l | l in d.locators :: l in FindAll(Quoted("locatorname"), text)
    ensures d.entity.Some? ==> |d.entity.value| > 0 && '"' !in d.entity.value
    ensures d.shipSize.Some? ==> AllWordChars(d.shipSize.value)
  {
    var e := Search(Quoted("entity"), text);
    var sz := Search(Bare("ship_size"), text);
    assert e.Some? ==> |e.value| > 0 && '"' !in e.value by {
      if e.Some? {
        var i :| 0 <= i <= |text| && MatchAt(Quoted("entity"), text, i).Some? && MatchAt(Quoted("entity"), text, i).value.0 == e.value;
      }
    }
    assert sz.Some? ==> AllWordChars(sz.value) by {
      if sz.Some? {
        var i :| 0 <= i <= |text| && MatchAt(Bare("ship_size"), text, i).Some? && MatchAt(Bare("ship_size"), text, i).value.0 == sz.value;
      }
    }
    SectionData(
      Search(Quoted("key"), text),
      e,
      sz,
      Search(Bare("fits_on_slot"), text),
      set l | l in FindAll(Quoted("locatorname"), text))
  }

  /** A change `fix_section` reports. */
  datatype Change =
    | WrongContext(from: string, to: string)
    | ReplacedUnknown(from: string, to: string)
    | ChangedEntity(from: string, to: string)
    | MappedLocators(mapping: map<string, string>)

  /** Strategy 0: an entity that does not fit the (ship, slot) pair is
      replaced by the pair's entity with the most locators. */
  function ContextStep(entity: string, ship: string, slot: string, idx: Index): (r: (string, seq<Change>))
    ensures r.0 == entity || (r.0 in EntitiesFor(idx, ship, slot) && LocatorsFor(idx, r.0) != {})
  {
    if IsEntityValidForContext(entity, ship, slot, idx) then (entity, [])
    else
      match GetValidEntityForSlot(idx, ship, slot)
      case Some(c) => if |c| > 0 then (c, [WrongContext(entity, c)]) else (entity, [])
      case None => (entity, [])
  }

  /** Strategy 1: an entity the tables do not know is replaced by a default
      entity of the pair or of a related slot. */
  function UnknownStep(entity: string, ship: string, slot: string, idx: Index): (r: (string, seq<Change>))
    ensures r.0 == entity || (LocatorsFor(idx, r.0) != {} && exists alt | alt in SlotAlternatives(slot) :: r.0 in EntitiesFor(idx, ship, alt))
    ensures entity in idx.entityLocators ==> r == (entity, [])
    ensures r.0 != entity ==> r.0 in idx.entityLocators
  {
    if entity in idx.entityLocators then (entity, [])
    else
      match FindDefaultEntity(idx, ship, slot)
      case Some(d) => if |d| > 0 then (d, [ReplacedUnknown(entity, d)]) else (entity, [])
      case None => (entity, [])
  }

  /** Strategies 2 and 3 for an entity already settled: keep everything when
      all locators are valid, otherwise move to a candidate that has them
      all, otherwise map the invalid ones onto valid ones. */
  function LocatorStep(needed: set<string>, entity: string, ship: string, slot: string, idx: Index): (r: (string, set<string>, seq<Change>))
    ensures LocatorsFor(idx, r.0) != {} ==> r.1 <= LocatorsFor(idx, r.0)
    ensures r.0 == entity || (r.0 in EntitiesFor(idx, ship, slot) && LocatorsFor(idx, r.0) != {})
    ensures needed <= LocatorsFor(idx, entity) ==> r == (entity, needed, [])
  {
    var valid := LocatorsFor(idx, entity);
    if needed == {} then (entity, needed, [])
    else
      var invalid := needed - valid;
      if invalid == {} then
        assert needed <= valid by {
          forall l | l in needed ensures l in valid {
            assert l !in invalid;
          }
        }
        (entity, needed, [])
      else
        match FindBestEntity(needed, entity, ship, slot, idx)
        case Some(b) =>
          if |b| > 0 then (b, needed, [ChangedEntity(entity, b)])
          else MapLocators(needed, invalid, valid, entity)
        case None => MapLocators(needed, invalid, valid, entity)
  }

  /** Strategy 3: the invalid locators renamed through `get_locator_mapping`. */
  function MapLocators(needed: set<string>, invalid: set<string>, valid: set<string>, entity: string): (r: (string, set<string>, seq<Change>))
    requires invalid == needed - valid
    ensures r.0 == entity
    ensures valid != {} ==> r.1 <= valid
    ensures valid == {} ==> r.1 == needed
  {
    if valid == {} then (entity, needed, [])
    else
      var m := GetLocatorMapping(invalid, valid);
      (entity, ApplyMapping(needed, m), [MappedLocators(m)])
  }

  /** `fix_section` on the section's record: the repaired record and the
      changes, in the order they are made. */
  function FixSection(s: SectionData, idx: Index): (r: (SectionData, seq<Change>))
    ensures !Truthy(s.entity) ==> r == (s, [])
    ensures r.0.key == s.key && r.0.shipSize == s.shipSize && r.0.slot == s.slot
    ensures Truthy(s.entity) ==> r.0.entity.Some?
    ensures Truthy(s.entity) && LocatorsFor(idx, r.0.entity.value) != {} ==>
      r.0.locators <= LocatorsFor(idx, r.0.entity.value)
    ensures Truthy(s.entity) && r.0.entity != s.entity ==>
      LocatorsFor(idx, r.0.entity.value) != {} &&
      exists alt | alt in SlotAlternatives(s.slot.GetOr("mid")) :: r.0.entity.value in EntitiesFor(idx, s.shipSize.GetOr(""), alt)
  {
    if !Truthy(s.entity) then (s, [])
    else
      var entity := s.entity.value;
      var ship := s.shipSize.GetOr("");
      var slot := s.slot.GetOr("mid");
      var (e0, c0) := ContextStep(entity, ship, slot, idx);
      var (e1, c1) := UnknownStep(e0, ship, slot, idx);
      var (e2, locs, c2) := LocatorStep(s.locators, e1, ship, slot, idx);
      assert e2 == e1 || e2 in EntitiesFor(idx, ship, slot);
      assert slot in SlotAlternatives(slot);
      (s.(entity := Some(e2), locators := locs), c0 + c1 + c2)
  }

  /** A section whose entity fits its (ship, slot) pair, is known, and whose
      locators are all valid for it comes out unchanged. */
  lemma FixSectionStable(s: SectionData, idx: Index)
    requires Truthy(s.entity)
    requires IsEntityValidForContext(s.entity.value, s.shipSize.GetOr(""), s.slot.GetOr("mid"), idx)
    requires s.entity.value in idx.entityLocators
    requires s.locators <= LocatorsFor(idx, s.entity.value)
    ensures FixSection(s, idx) == (s, [])
  {
    var entity, ship, slot := s.entity.value, s.shipSize.GetOr(""), s.slot.GetOr("mid");
    assert ContextStep(entity, ship, slot, idx) == (entity, []);
    assert UnknownStep(entity, ship, slot, idx) == (entity, []);
    assert LocatorStep(s.locators, entity, ship, slot, idx) == (entity, s.locators, []);
    assert s.(entity := Some(entity), locators := s.locators) == s;
    var r := FixSection(s, idx);
    assert r.1 == [];
    assert r.0 == s;
  }
}

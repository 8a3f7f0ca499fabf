/** The validator: it cuts a section-template file into sections line by
    line, reads each section's fields, and checks them against the lookup
    tables -- ship type, slot, entity and locators (the hierarchy checks, all
    warnings except the locator one), then modifiers and technologies
    (errors). Nothing is modified; the result is a list of issues. */
module Validate {
  import opened Base
  import opened Strings
  import opened Assoc
  import opened Seqs
  import opened Fields
  import opened Hierarchy
  import opened Index
  import Extract

  // ---------------------------------------------------------------------------
  // Cutting a file into sections

  /** A line that opens a section: it mentions `ship_section_template`, an
      `=` and a `{`. */
  predicate IsHeaderLine(line: string) {
    Contains(line, "ship_section_template") && '=' in line && '{' in line
  }

  /** The brace balance of a run of lines, counted line by line. */
  function SumDepth(ls: seq<string>): int
    decreases |ls|
  {
    if |ls| == 0 then 0 else Extract.Depth(ls[0]) + SumDepth(ls[1..])
  }

  lemma {:induction false} SumDepthSnoc(ls: seq<string>, x: string)
    ensures SumDepth(ls + [x]) == SumDepth(ls) + Extract.Depth(x)
    decreases |ls|
  {
    if |ls| == 0 {
      assert ([x])[1..] == [];
    } else {
      assert (ls + [x])[0] == ls[0];
      assert (ls + [x])[1..] == ls[1..] + [x];
      SumDepthSnoc(ls[1..], x);
    }
  }

  lemma DepthConcat(a: string, b: string)
    ensures Extract.Depth(a + b) == Extract.Depth(a) + Extract.Depth(b)
  {
    CountCharConcat(a, b, '{');
    CountCharConcat(a, b, '}');
  }

  /** Counting line by line gives the balance of the joined block: the
      newlines added by the join carry no braces. */
  lemma {:induction false} SumDepthJoin(ls: seq<string>)
    ensures SumDepth(ls) == Extract.Depth(Join(ls, "\n"))
    decreases |ls|
  {
    if |ls| == 1 {
      assert ls[1..] == [];
    } else if |ls| > 1 {
      SumDepthJoin(ls[1..]);
      DepthConcat(ls[0] + "\n", Join(ls[1..], "\n"));
      DepthConcat(ls[0], "\n");
    }
  }

  /** The inner loop of `extract_sections`: starting after the header line
      `h`, lines are taken while some remain and the balance stays positive.
      The result is where the section ends. */
  function BlockEnd(lines: seq<string>, h: nat, i: nat, depth: int): (r: nat)
    requires h < i <= |lines| && depth == SumDepth(lines[h..i])
    requires forall k | h < k < i :: SumDepth(lines[h..k]) > 0
    ensures i <= r <= |lines|
    ensures forall k | h < k < r :: SumDepth(lines[h..k]) > 0
    ensures r == |lines| || SumDepth(lines[h..r]) <= 0
    decreases |lines| - i
  {
    if i < |lines| && depth > 0 then
      assert lines[h..i + 1] == lines[h..i] + [lines[i]];
      SumDepthSnoc(lines[h..i], lines[i]);
      BlockEnd(lines, h, i + 1, depth + Extract.Depth(lines[i]))
    else i
  }

  /** The shape of a section's lines: every proper prefix is still open, and
      the whole is closed unless the file ran out first. */
  predicate BlockShape(ls: seq<string>, atEnd: bool) {
    |ls| >= 1 && (forall k | 1 <= k < |ls| :: SumDepth(ls[..k]) > 0) && (atEnd || SumDepth(ls) <= 0)
  }

  /** A value found on a line, with its 1-based line number. */
  datatype Located = Located(line: nat, value: string)

  /** One parsed section: its first line number, its lines, the fields read
      from the whole block, and the per-line findings. */
  datatype SectionInfo = SectionInfo(
    startLine: nat,
    lines: seq<string>,
    key: Option<string>,
    entity: Option<string>,
    shipSize: Option<string>,
    slot: Option<string>,
    locators: seq<Located>,
    modifiers: seq<Located>,
    techs: seq<Located>)

  /** The values `vs` found on one line, tagged with its number. */
  function Tag(line: nat, vs: seq<string>): (r: seq<Located>)
    ensures forall x :: x in r <==> x.line == line && x.value in vs
  {
    var r := seq(|vs|, k requires 0 <= k < |vs| => Located(line, vs[k]));
    assert forall v | v in vs :: Located(line, v) in r by {
      forall v | v in vs ensures Located(line, v) in r {
        var k :| 0 <= k < |vs| && vs[k] == v;
        assert r[k] == Located(line, v);
      }
    }
    r
  }

  /** The values `f` finds on each line, tagged with line numbers counted from `start`. */
  function PerLine(ls: seq<string>, start: nat, f: string -> seq<string>): (r: seq<Located>)
    ensures forall x | x in r :: start <= x.line < start + |ls| && x.value in f(ls[x.line - start])
    ensures forall j, v | 0 <= j < |ls| && v in f(ls[j]) :: Located(start + j, v) in r
    decreases |ls|
  {
    if |ls| == 0 then []
    else
      var rest := PerLine(ls[1..], start + 1, f);
      var here := Tag(start, f(ls[0]));
      var r := here + rest;
      forall x | x in r ensures start <= x.line < start + |ls| && x.value in f(ls[x.line - start]) {
        if x in rest {
          assert ls[1..][x.line - (start + 1)] == ls[x.line - start];
        }
      }
      forall j, v | 0 <= j < |ls| && v in f(ls[j]) ensures Located(start + j, v) in r {
        if j > 0 {
          assert ls[1..][j - 1] == ls[j];
        }
      }
      r
  }

  function AsList(o: Option<string>): seq<string> {
    if o.Some? then [o.value] else []
  }

  /** The locator a line names, if any. */
  function LineLocator(line: string): seq<string> {
    AsList(Search(Quoted("locatorname"), line))
  }

  /** The first numeric assignment on a line, kept when its name contains `ship_`. */
  function LineModifier(line: string): seq<string> {
    var m := Search(Assignment, line);
    if m.Some? && Contains(m.value, "ship_") then [m.value] else []
  }

  /** Every quoted technology name on a line. */
  function LineTechs(line: string): seq<string> {
    FindAll(TechRef, line)
  }

  /** The field reads of `extract_sections` for one section starting at
      line `start` (1-based). */
  function ParseSection(start: nat, ls: seq<string>): SectionInfo {
    var block := Join(ls, "\n");
    SectionInfo(
      start, ls,
      Search(Quoted("key"), block),
      Search(Quoted("entity"), block),
      Search(Bare("ship_size"), block),
      Search(Bare("fits_on_slot"), block),
      PerLine(ls, start, LineLocator),
      PerLine(ls, start, LineModifier),
      PerLine(ls, start, LineTechs))
  }

  /** Where the `k`-th section lies in the file: 0-based first and last+1 line. */
  function First(s: SectionInfo): int { s.startLine - 1 }
  function Past(s: SectionInfo): int { s.startLine - 1 + |s.lines| }

  /** Section `s` is cut out of `lines` as the loop cuts it: it starts with
      a header line and has the block shape. */
  predicate Placed(lines: seq<string>, s: SectionInfo) {
    0 <= First(s) < Past(s) <= |lines| && s.lines == lines[First(s)..Past(s)] &&
    IsHeaderLine(s.lines[0]) && BlockShape(s.lines, Past(s) == |lines|)
  }

  /** The lines from a header up to where `BlockEnd` stops have the block shape. */
  lemma CutShape(lines: seq<string>, i: nat, e: nat)
    requires i < e <= |lines|
    requires forall k | i < k < e :: SumDepth(lines[i..k]) > 0
    requires e == |lines| || SumDepth(lines[i..e]) <= 0
    ensures BlockShape(lines[i..e], e == |lines|)
  {
    var ls := lines[i..e];
    forall k | 1 <= k < |ls| ensures SumDepth(ls[..k]) > 0 {
      assert ls[..k] == lines[i..i + k];
    }
  }

  /** The header at `i` and the lines its section takes. */
  function SectionAt(lines: seq<string>, i: nat): (s: SectionInfo)
    requires i < |lines| && IsHeaderLine(lines[i])
    ensures Placed(lines, s) && First(s) == i
  {
    assert lines[i..i + 1] == [lines[i]];
    assert lines[i..i + 1][1..] == [];
    var e := BlockEnd(lines, i, i + 1, Extract.Depth(lines[i]));
    CutShape(lines, i, e);
    var s := ParseSection(i + 1, lines[i..e]);
    ParsedLines(i + 1, lines[i..e]);
    CutPlaced(lines, i, e, s);
    s
  }

  /** A section holding the lines from a header to where its block ends is
      placed there. */
  lemma CutPlaced(lines: seq<string>, i: nat, e: nat, s: SectionInfo)
    requires i < e <= |lines| && IsHeaderLine(lines[i]) && BlockShape(lines[i..e], e == |lines|)
    requires s.lines == lines[i..e] && s.startLine == i + 1
    ensures Placed(lines, s) && First(s) == i
  {
  }

  /** Parsing keeps a section's lines and its first line number. */
  lemma ParsedLines(start: nat, ls: seq<string>)
    ensures ParseSection(start, ls).lines == ls && ParseSection(start, ls).startLine == start
  {
  }

  /** The outer loop of `extract_sections` from line index `i`. */
  function SectionsFrom(lines: seq<string>, i: nat): (r: seq<SectionInfo>)
    requires i <= |lines|
    ensures forall k | 0 <= k < |r| :: i <= First(r[k]) && Placed(lines, r[k])
    ensures forall a, b | 0 <= a < b < |r| :: Past(r[a]) <= First(r[b])
    decreases |lines| - i
  {
    if i == |lines| then []
    else if IsHeaderLine(lines[i]) then
      var s := SectionAt(lines, i);
      var rest := SectionsFrom(lines, Past(s));
      ConsPlaced(lines, i, s, rest);
      ConsOrdered(s, rest);
      [s] + rest
    else SectionsFrom(lines, i + 1)
  }

  /** Putting a section placed at or after `i` in front of sections placed
      after it keeps every section placed at or after `i`. */
  lemma ConsPlaced(lines: seq<string>, i: nat, s: SectionInfo, rest: seq<SectionInfo>)
    requires i <= First(s) && Placed(lines, s)
    requires forall k | 0 <= k < |rest| :: Past(s) <= First(rest[k]) && Placed(lines, rest[k])
    ensures forall k | 0 <= k < |[s] + rest| :: i <= First(([s] + rest)[k]) && Placed(lines, ([s] + rest)[k])
  {
    var r := [s] + rest;
    forall k | 0 <= k < |r| ensures i <= First(r[k]) && Placed(lines, r[k]) {
      if k > 0 { assert r[k] == rest[k - 1]; }
    }
  }

  /** Putting a section in front of ordered sections that all start after
      it ends keeps them ordered. */
  lemma ConsOrdered(s: SectionInfo, rest: seq<SectionInfo>)
    requires forall k | 0 <= k < |rest| :: Past(s) <= First(rest[k])
    requires forall a, b | 0 <= a < b < |rest| :: Past(rest[a]) <= First(rest[b])
    ensures forall a, b | 0 <= a < b < |[s] + rest| :: Past(([s] + rest)[a]) <= First(([s] + rest)[b])
  {
    var r := [s] + rest;
    forall a, b | 0 <= a < b < |r| ensures Past(r[a]) <= First(r[b]) {
      assert r[b] == rest[b - 1];
      if a > 0 { assert r[a] == rest[a - 1]; }
    }
  }

  /** Line index `j` lies inside one of the sections `rs`. */
  predicate Covered(rs: seq<SectionInfo>, j: int) {
    exists k | 0 <= k < |rs| :: First(rs[k]) <= j < Past(rs[k])
  }

  /** A line inside a later section stays covered when a section is put in front. */
  lemma CoveredCons(s: SectionInfo, rest: seq<SectionInfo>, j: int)
    requires Covered(rest, j)
    ensures Covered([s] + rest, j)
  {
    var k :| 0 <= k < |rest| && First(rest[k]) <= j < Past(rest[k]);
    assert ([s] + rest)[k + 1] == rest[k];
  }

  /** Every header line opens a section or lies inside one: no section is
      silently skipped. */
  lemma {:induction false} HeadersCovered(lines: seq<string>, i: nat, j: nat)
    requires i <= j < |lines| && IsHeaderLine(lines[j])
    ensures Covered(SectionsFrom(lines, i), j)
    decreases |lines| - i
  {
    if !IsHeaderLine(lines[i]) {
      HeadersCovered(lines, i + 1, j);
    } else {
      var s := SectionAt(lines, i);
      var e := Past(s);
      assert SectionsFrom(lines, i) == [s] + SectionsFrom(lines, e);
      if j >= e {
        HeadersCovered(lines, e, j);
        CoveredCons(s, SectionsFrom(lines, e), j);
      } else {
        assert ([s] + SectionsFrom(lines, e))[0] == s;
      }
    }
  }

  /** `extract_sections`. */
  function ExtractSections(content: string): seq<SectionInfo> {
    SectionsFrom(Split(content, "\n"), 0)
  }

  // ---------------------------------------------------------------------------
  // Checking one section

  datatype Severity = Error | Warning

  datatype IssueKind =
    | UnknownShipType(ship: string)
    | InvalidSlot(slot: string, valid: seq<string>)
    | WrongEntityContext(entity: string, expected: seq<(string, string)>)
    | UnknownEntity(entity: string)
    | InvalidLocator(entity: string, locator: string)
    | InvalidModifier(modifier: string, replacement: Option<string>)
    | InvalidTech(tech: string)

  /** The four hierarchy checks other than the locator check report warnings. */
  predicate IsHierarchyWarning(k: IssueKind) {
    k.UnknownShipType? || k.InvalidSlot? || k.WrongEntityContext? || k.UnknownEntity?
  }

  predicate IsEntityIssue(k: IssueKind) {
    k.WrongEntityContext? || k.UnknownEntity?
  }

  datatype Issue = Issue(line: nat, kind: IssueKind, severity: Severity)

  /** `ship_slots.get(ship, [])` */
  function SlotsFor(idx: Index, ship: string): seq<string> {
    if ship in idx.shipSlots then idx.shipSlots[ship] else []
  }

  /** `entity_to_ship_slot.get(entity, [])` */
  function ContextsFor(idx: Index, entity: string): seq<(string, string)> {
    if entity in idx.entityToShipSlot then idx.entityToShipSlot[entity] else []
  }

  /** Check 1: a named ship type must be known. */
  function ShipCheck(idx: Index, s: SectionInfo): (r: seq<Issue>)
    ensures |r| <= 1
    ensures forall x | x in r :: x.kind.UnknownShipType? && x.severity == Warning && x.line == s.startLine
  {
    var ship := s.shipSize.GetOr("");
    if ship != "" && ship !in idx.shipTypes then [Issue(s.startLine, UnknownShipType(ship), Warning)] else []
  }

  /** Check 2: a named slot must be one of the ship's, when the ship lists any. */
  function SlotCheck(idx: Index, s: SectionInfo): (r: seq<Issue>)
    ensures |r| <= 1
    ensures forall x | x in r :: x.kind.InvalidSlot? && x.severity == Warning && x.line == s.startLine
  {
    var ship := s.shipSize.GetOr("");
    var slot := s.slot.GetOr("");
    var valid := SlotsFor(idx, ship);
    if ship != "" && slot != "" && valid != [] && slot !in valid then
      [Issue(s.startLine, InvalidSlot(slot, valid), Warning)]
    else []
  }

  /** Check 3: the entity must be listed for the ship and slot, or at least
      exist. */
  function EntityCheck(idx: Index, s: SectionInfo): (r: seq<Issue>)
    ensures |r| <= 1
    ensures forall x | x in r :: IsEntityIssue(x.kind) && x.severity == Warning && x.line == s.startLine
  {
    var entity := s.entity.GetOr("");
    var ship := s.shipSize.GetOr("");
    var slot := s.slot.GetOr("");
    if entity != "" && ship != "" && slot != "" then
      var valid := EntitiesFor(idx, ship, slot);
      if valid != [] && entity !in valid then
        if entity in idx.entityLocators then
          [Issue(s.startLine, WrongEntityContext(entity, ContextsFor(idx, entity)), Warning)]
        else [Issue(s.startLine, UnknownEntity(entity), Warning)]
      else []
    else if entity != "" && entity !in idx.entityLocators then
      [Issue(s.startLine, UnknownEntity(entity), Warning)]
    else []
  }

  /** One error per listed locator the entity does not have; nothing when
      the entity has no locators at all. */
  function LocatorIssues(entity: string, valid: set<string>, locs: seq<Located>): (r: seq<Issue>)
    ensures forall x :: x in r <==> (valid != {} && exists l | l in locs :: l.value !in valid && x == Issue(l.line, InvalidLocator(entity, l.value), Error))
    decreases |locs|
  {
    if |locs| == 0 then []
    else
      var l := locs[0];
      var rest := LocatorIssues(entity, valid, locs[1..]);
      assert forall m | m in locs :: m == l || m in locs[1..];
      (if valid != {} && l.value !in valid then [Issue(l.line, InvalidLocator(entity, l.value), Error)] else []) + rest
  }

  /** Check 4: the locators of a known entity. */
  function LocatorCheck(idx: Index, s: SectionInfo): (r: seq<Issue>)
    ensures forall x | x in r :: x.kind.InvalidLocator? && x.severity == Error
  {
    var entity := s.entity.GetOr("");
    if entity != "" && entity in idx.entityLocators then
      LocatorIssues(entity, idx.entityLocators[entity], s.locators)
    else []
  }

  /** The replacement the message names: a non-empty one, or none ("remove it"). */
  function ReplacementOf(idx: Index, m: string): Option<string>
    requires HasKey(idx.invalidModifiers, m)
  {
    var rep := Get(idx.invalidModifiers, m).value;
    if Truthy(rep) then rep else None
  }

  /** One error per extracted modifier that the invalid table lists. */
  function ModifierIssues(idx: Index, mods: seq<Located>): (r: seq<Issue>)
    ensures forall x :: x in r <==> (exists l | l in mods :: HasKey(idx.invalidModifiers, l.value) && x == Issue(l.line, InvalidModifier(l.value, ReplacementOf(idx, l.value)), Error))
    decreases |mods|
  {
    if |mods| == 0 then []
    else
      var l := mods[0];
      var rest := ModifierIssues(idx, mods[1..]);
      assert forall m | m in mods :: m == l || m in mods[1..];
      (if HasKey(idx.invalidModifiers, l.value) then [Issue(l.line, InvalidModifier(l.value, ReplacementOf(idx, l.value)), Error)] else []) + rest
  }

  /** One error per extracted technology that the invalid table lists. */
  function TechIssues(idx: Index, techs: seq<Located>): (r: seq<Issue>)
    ensures forall x :: x in r <==> (exists l | l in techs :: l.value in idx.invalidTechs && x == Issue(l.line, InvalidTech(l.value), Error))
    decreases |techs|
  {
    if |techs| == 0 then []
    else
      var l := techs[0];
      var rest := TechIssues(idx, techs[1..]);
      assert forall m | m in techs :: m == l || m in techs[1..];
      (if l.value in idx.invalidTechs then [Issue(l.line, InvalidTech(l.value), Error)] else []) + rest
  }

  /** The issues `validate_file` reports for one section, in its order. */
  function ValidateSection(idx: Index, s: SectionInfo): (r: seq<Issue>)
    ensures forall x | x in r :: x.severity == Warning <==> IsHierarchyWarning(x.kind)
    ensures forall x | x in r && x.severity == Warning :: x.line == s.startLine
  {
    var r := ShipCheck(idx, s) + SlotCheck(idx, s) + EntityCheck(idx, s) + LocatorCheck(idx, s)
      + ModifierIssues(idx, s.modifiers) + TechIssues(idx, s.techs);
    assert forall x | x in ModifierIssues(idx, s.modifiers) :: x.kind.InvalidModifier? && x.severity == Error;
    assert forall x | x in TechIssues(idx, s.techs) :: x.kind.InvalidTech? && x.severity == Error;
    r
  }

  /** The check that can produce an issue of kind `k`. */
  function PartFor(idx: Index, s: SectionInfo, k: IssueKind): seq<Issue> {
    match k
    case UnknownShipType(_) => ShipCheck(idx, s)
    case InvalidSlot(_, _) => SlotCheck(idx, s)
    case WrongEntityContext(_, _) => EntityCheck(idx, s)
    case UnknownEntity(_) => EntityCheck(idx, s)
    case InvalidLocator(_, _) => LocatorCheck(idx, s)
    case InvalidModifier(_, _) => ModifierIssues(idx, s.modifiers)
    case InvalidTech(_) => TechIssues(idx, s.techs)
  }

  /** An issue is in a section's report exactly when the check for its kind raised it. */
  lemma InSection(idx: Index, s: SectionInfo, x: Issue)
    ensures x in ValidateSection(idx, s) <==> x in PartFor(idx, s, x.kind)
  {
    var a, b, c := ShipCheck(idx, s), SlotCheck(idx, s), EntityCheck(idx, s);
    var d, e, f := LocatorCheck(idx, s), ModifierIssues(idx, s.modifiers), TechIssues(idx, s.techs);
    assert ValidateSection(idx, s) == a + b + c + d + e + f;
    assert x in e ==> x.kind.InvalidModifier?;
    assert x in f ==> x.kind.InvalidTech?;
    InOnePart(x, a, b, c, d, e, f, PartFor(idx, s, x.kind));
  }

  /** Six reports, each raising only its own kinds: an issue is in their
      concatenation exactly when it is in the report for its kind. */
  lemma InOnePart(x: Issue, a: seq<Issue>, b: seq<Issue>, c: seq<Issue>, d: seq<Issue>, e: seq<Issue>, f: seq<Issue>, p: seq<Issue>)
    requires x in a ==> x.kind.UnknownShipType?
    requires x in b ==> x.kind.InvalidSlot?
    requires x in c ==> IsEntityIssue(x.kind)
    requires x in d ==> x.kind.InvalidLocator?
    requires x in e ==> x.kind.InvalidModifier?
    requires x in f ==> x.kind.InvalidTech?
    requires p == match x.kind
      case UnknownShipType(_) => a
      case InvalidSlot(_, _) => b
      case WrongEntityContext(_, _) => c
      case UnknownEntity(_) => c
      case InvalidLocator(_, _) => d
      case InvalidModifier(_, _) => e
      case InvalidTech(_) => f
    ensures x in a + b + c + d + e + f <==> x in p
  {
  }

  /** `validate_file` on a file's text (file names and message texts are not modelled). */
  function ValidateContent(idx: Index, content: string): seq<Issue> {
    ValidateAll(idx, ExtractSections(content))
  }

  function ValidateAll(idx: Index, ss: seq<SectionInfo>): (r: seq<Issue>)
    ensures forall x | x in r :: x.severity == Warning <==> IsHierarchyWarning(x.kind)
    decreases |ss|
  {
    if |ss| == 0 then [] else ValidateSection(idx, ss[0]) + ValidateAll(idx, ss[1..])
  }

  /** `ValidationResult.errors` */
  function Errors(issues: seq<Issue>): seq<Issue> {
    Filter((x: Issue) => x.severity == Error, issues)
  }

  /** `ValidationResult.warnings` */
  function Warnings(issues: seq<Issue>): seq<Issue> {
    Filter((x: Issue) => x.severity == Warning, issues)
  }

  // ---------------------------------------------------------------------------
  // What the checks promise

  /** Errors and warnings split the issues: every issue is counted exactly once. */
  lemma {:induction false} ErrorsWarningsSplit(issues: seq<Issue>)
    ensures |Errors(issues)| + |Warnings(issues)| == |issues|
    ensures forall x | x in issues :: (x in Errors(issues)) != (x in Warnings(issues))
    decreases |issues|
  {
    if |issues| > 0 {
      ErrorsWarningsSplit(issues[1..]);
    }
  }

  /** The ship type is reported exactly when it is named but not a known ship type. */
  lemma ShipWarningIff(idx: Index, s: SectionInfo, ship: string)
    ensures Issue(s.startLine, UnknownShipType(ship), Warning) in ValidateSection(idx, s) <==>
      s.shipSize == Some(ship) && ship != "" && ship !in idx.shipTypes
  {
    InSection(idx, s, Issue(s.startLine, UnknownShipType(ship), Warning));
  }

  /** The slot is reported exactly when ship and slot are named, the ship has
      a non-empty slot list, and the slot is not on it. An unknown ship type
      therefore never also gets a slot warning. */
  lemma SlotWarningIff(idx: Index, s: SectionInfo, slot: string, valid: seq<string>)
    ensures Issue(s.startLine, InvalidSlot(slot, valid), Warning) in ValidateSection(idx, s) <==>
      Truthy(s.shipSize) && s.slot == Some(slot) && slot != "" &&
      valid == SlotsFor(idx, s.shipSize.value) && valid != [] && slot !in valid
  {
    InSection(idx, s, Issue(s.startLine, InvalidSlot(slot, valid), Warning));
  }

  /** Filtering a list none of whose elements qualify leaves nothing. */
  lemma FilterNone<T(!new)>(p: T -> bool, xs: seq<T>)
    requires forall x | x in xs :: !p(x)
    ensures Filter(p, xs) == []
  {
    if Filter(p, xs) != [] {
      assert Filter(p, xs)[0] in Filter(p, xs);
    }
  }

  /** At most one entity issue per section. */
  lemma AtMostOneEntityIssue(idx: Index, s: SectionInfo)
    ensures |Filter((x: Issue) => IsEntityIssue(x.kind), ValidateSection(idx, s))| <= 1
  {
    var p := (x: Issue) => IsEntityIssue(x.kind);
    var a := ShipCheck(idx, s);
    var b := SlotCheck(idx, s);
    var c := EntityCheck(idx, s);
    var d := LocatorCheck(idx, s);
    var e := ModifierIssues(idx, s.modifiers);
    var f := TechIssues(idx, s.techs);
    assert forall y | y in e :: y.kind.InvalidModifier?;
    assert forall y | y in f :: y.kind.InvalidTech?;
    FilterNone(p, a);
    FilterNone(p, b);
    FilterNone(p, d);
    FilterNone(p, e);
    FilterNone(p, f);
    FilterOnlyThird(p, a, b, c, d, e, f);
  }

  /** Of six concatenated parts, only the third keeps anything. */
  lemma FilterOnlyThird<T(!new)>(p: T -> bool, a: seq<T>, b: seq<T>, c: seq<T>, d: seq<T>, e: seq<T>, f: seq<T>)
    requires Filter(p, a) == [] && Filter(p, b) == [] && Filter(p, d) == []
    requires Filter(p, e) == [] && Filter(p, f) == []
    ensures Filter(p, a + b + c + d + e + f) == Filter(p, c)
  {
    FilterConcat(p, a, b);
    FilterConcat(p, a + b, c);
    FilterConcat(p, a + b + c, d);
    FilterConcat(p, a + b + c + d, e);
    FilterConcat(p, a + b + c + d + e, f);
  }

  /** With tables built from a well-formed tree, a wrong-context warning means
      the entity is placed somewhere, just not under this ship and slot, and
      the warning lists exactly where it is placed. */
  lemma WrongContextMeans(v: VanillaData, s: SectionInfo, e: string, expected: seq<(string, string)>)
    requires WellFormed(v.shipTypes)
    requires Issue(s.startLine, WrongEntityContext(e, expected), Warning) in ValidateSection(BuildIndex(v), s)
    ensures s.entity == Some(e) && Truthy(s.shipSize) && Truthy(s.slot)
    ensures e in BuildIndex(v).entityToShipSlot && expected == BuildIndex(v).entityToShipSlot[e]
    ensures expected != [] && (s.shipSize.value, s.slot.value) !in expected
  {
    var idx := BuildIndex(v);
    InSection(idx, s, Issue(s.startLine, WrongEntityContext(e, expected), Warning));
    WrongContextRaised(idx, s, e, expected);
    ContextsAgree(v, s.shipSize.value, s.slot.value, e);
    SameEntities(v, e);
    ContextsOfEmpty(Placements(v.shipTypes), e);
  }

  /** What a wrong-context warning says about any index: the entity, ship and
      slot are named, the pair lists other entities, and the warning carries
      the entity's recorded contexts. */
  lemma WrongContextRaised(idx: Index, s: SectionInfo, e: string, expected: seq<(string, string)>)
    requires Issue(s.startLine, WrongEntityContext(e, expected), Warning) in EntityCheck(idx, s)
    ensures s.entity == Some(e) && Truthy(s.shipSize) && Truthy(s.slot)
    ensures e in idx.entityLocators && expected == ContextsFor(idx, e)
    ensures EntitiesFor(idx, s.shipSize.value, s.slot.value) != []
    ensures e !in EntitiesFor(idx, s.shipSize.value, s.slot.value)
  {
  }

  /** With tables built from a well-formed tree, a wrong-context warning is
      raised exactly for a named entity that the tree places somewhere, when
      ship and slot are named and their pair lists other entities only; the
      warning carries every (ship, slot) pair the tree places the entity in,
      in visiting order. */
  lemma WrongContextIff(v: VanillaData, s: SectionInfo, e: string, expected: seq<(string, string)>)
    requires WellFormed(v.shipTypes)
    ensures Issue(s.startLine, WrongEntityContext(e, expected), Warning) in ValidateSection(BuildIndex(v), s) <==>
      s.entity == Some(e) && e != "" && Truthy(s.shipSize) && Truthy(s.slot)
      && Mentioned(Placements(v.shipTypes), e)
      && EntitiesFor(BuildIndex(v), s.shipSize.value, s.slot.value) != []
      && e !in EntitiesFor(BuildIndex(v), s.shipSize.value, s.slot.value)
      && expected == ContextsOf(Placements(v.shipTypes), e)
  {
    var idx := BuildIndex(v);
    InSection(idx, s, Issue(s.startLine, WrongEntityContext(e, expected), Warning));
    WrongContextRaisedIff(idx, s, e, expected);
    SameEntities(v, e);
    assert e in idx.entityToShipSlot <==> Mentioned(Placements(v.shipTypes), e);
  }

  /** What raises a wrong-context warning, for any index: the entity, ship
      and slot are named, the pair lists entities but not this one, and the
      entity has a locator entry; the warning carries its recorded contexts. */
  lemma WrongContextRaisedIff(idx: Index, s: SectionInfo, e: string, expected: seq<(string, string)>)
    ensures Issue(s.startLine, WrongEntityContext(e, expected), Warning) in EntityCheck(idx, s) <==>
      s.entity == Some(e) && e != "" && Truthy(s.shipSize) && Truthy(s.slot)
      && EntitiesFor(idx, s.shipSize.value, s.slot.value) != []
      && e !in EntitiesFor(idx, s.shipSize.value, s.slot.value)
      && e in idx.entityLocators && expected == ContextsFor(idx, e)
  {
  }

  /** With tables built from a well-formed tree, an unknown-entity warning is
      raised exactly for a named entity placed nowhere in the tree -- except
      when ship and slot are both named and that pair lists no entities, in
      which case it goes unreported. */
  lemma UnknownEntityIff(v: VanillaData, s: SectionInfo, e: string)
    requires WellFormed(v.shipTypes)
    ensures Issue(s.startLine, UnknownEntity(e), Warning) in ValidateSection(BuildIndex(v), s) <==>
      s.entity == Some(e) && e != "" && !Mentioned(Placements(v.shipTypes), e) &&
      !(Truthy(s.shipSize) && Truthy(s.slot) && EntitiesFor(BuildIndex(v), s.shipSize.value, s.slot.value) == [])
  {
    var idx := BuildIndex(v);
    InSection(idx, s, Issue(s.startLine, UnknownEntity(e), Warning));
    UnknownRaised(idx, s, e);
    assert e in idx.entityLocators <==> Mentioned(Placements(v.shipTypes), e);
    if Truthy(s.shipSize) && Truthy(s.slot) && e in EntitiesFor(idx, s.shipSize.value, s.slot.value) {
      ContextsAgree(v, s.shipSize.value, s.slot.value, e);
      SameEntities(v, e);
    }
  }

  /** What an unknown-entity warning says about any index: the entity is
      named, has no locator entry, and the ship and slot do not both name a
      pair whose list is empty or holds it. */
  lemma UnknownRaised(idx: Index, s: SectionInfo, e: string)
    ensures Issue(s.startLine, UnknownEntity(e), Warning) in EntityCheck(idx, s) <==>
      s.entity == Some(e) && e != "" && e !in idx.entityLocators &&
      !(Truthy(s.shipSize) && Truthy(s.slot) &&
        (EntitiesFor(idx, s.shipSize.value, s.slot.value) == [] || e in EntitiesFor(idx, s.shipSize.value, s.slot.value)))
  {
  }

  /** A locator error is raised exactly for each listed locator line whose
      locator the (known, locator-bearing) entity does not have. */
  lemma LocatorErrorIff(idx: Index, s: SectionInfo, line: nat, e: string, loc: string)
    ensures Issue(line, InvalidLocator(e, loc), Error) in ValidateSection(idx, s) <==>
      s.entity == Some(e) && e != "" && e in idx.entityLocators && idx.entityLocators[e] != {} &&
      Located(line, loc) in s.locators && loc !in idx.entityLocators[e]
  {
    InSection(idx, s, Issue(line, InvalidLocator(e, loc), Error));
  }

  /** A modifier error is raised exactly for each extracted modifier the
      invalid table lists, naming its replacement when there is one. */
  lemma ModifierErrorIff(idx: Index, s: SectionInfo, line: nat, m: string, rep: Option<string>)
    ensures Issue(line, InvalidModifier(m, rep), Error) in ValidateSection(idx, s) <==>
      Located(line, m) in s.modifiers && HasKey(idx.invalidModifiers, m) && rep == ReplacementOf(idx, m)
  {
    InSection(idx, s, Issue(line, InvalidModifier(m, rep), Error));
  }

  /** A technology error is raised exactly for each extracted technology the
      invalid table lists. */
  lemma TechErrorIff(idx: Index, s: SectionInfo, line: nat, t: string)
    ensures Issue(line, InvalidTech(t), Error) in ValidateSection(idx, s) <==>
      Located(line, t) in s.techs && t in idx.invalidTechs
  {
    InSection(idx, s, Issue(line, InvalidTech(t), Error));
  }

  /** A parsed section's modifiers are the first numeric assignment of their
      own line, and only ever a `ship_` name. */
  lemma ModifiersParsed(start: nat, ls: seq<string>, x: Located)
    ensures x in ParseSection(start, ls).modifiers <==>
      start <= x.line < start + |ls| && Contains(x.value, "ship_") && Search(Assignment, ls[x.line - start]) == Some(x.value)
  {
    ModifiersOf(start, ls);
    PerLineIn(ls, start, LineModifier, x);
    if start <= x.line < start + |ls| {
      var line := ls[x.line - start];
      assert x.value in LineModifier(line) <==> Contains(x.value, "ship_") && Search(Assignment, line) == Some(x.value);
    }
  }

  lemma ModifiersOf(start: nat, ls: seq<string>)
    ensures ParseSection(start, ls).modifiers == PerLine(ls, start, LineModifier)
  {
  }

  /** A parsed section's locators are exactly the `locatorname` each line names. */
  lemma LocatorsParsed(start: nat, ls: seq<string>, x: Located)
    ensures x in ParseSection(start, ls).locators <==>
      start <= x.line < start + |ls| && Search(Quoted("locatorname"), ls[x.line - start]) == Some(x.value)
  {
    PerLineIn(ls, start, LineLocator, x);
    if start <= x.line < start + |ls| {
      var line := ls[x.line - start];
      assert x.value in LineLocator(line) <==> Search(Quoted("locatorname"), line) == Some(x.value);
    }
  }

  /** A parsed section's technologies are quoted `tech_` names of their line. */
  lemma TechsParsed(start: nat, ls: seq<string>, x: Located)
    requires x in ParseSection(start, ls).techs
    ensures start <= x.line < start + |ls| && x.value in FindAll(TechRef, ls[x.line - start])
    ensures |x.value| > 5 && x.value[..5] == "tech_"
  {
    PerLineIn(ls, start, LineTechs, x);
    TechNames(ls[x.line - start], x.value);
  }

  lemma PerLineIn(ls: seq<string>, start: nat, f: string -> seq<string>, x: Located)
    ensures x in PerLine(ls, start, f) <==> start <= x.line < start + |ls| && x.value in f(ls[x.line - start])
  {
    if start <= x.line < start + |ls| && x.value in f(ls[x.line - start]) {
      assert x == Located(start + (x.line - start), x.value);
    }
  }
}

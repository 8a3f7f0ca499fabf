# Perfectly Balanced Ship Sections — a Dafny model of the section scripts

The project is a Stellaris mod. Its Python scripts write, check and repair the
ship section templates of the game. This Dafny project models the logic of
four of them:

- **Extractor** (`scripts/extract_vanilla_data.py`). It cuts
  `ship_section_template = { ... }` blocks out of the game files by brace
  counting, reads each block's key, ship size, slot, entity, locators and
  templates, and merges the records into the reference tree
  ship type → slot → entity → locators. The tree's dicts keep insertion order.
  It also writes fixed tables of valid and replaced modifiers and technologies.
- **Generator** (`scripts/generate_sections.py`).
  - It compiles a design notation such as `T1UL1` or `X1L2UL3AUX2` into weapon
    counts, a point total and a tier.
  - It picks the entity a section uses, and a locator list per weapon category.
  - It writes the section text: the key `PBSS_<SHIP>_<SLOT>_<TIER>_<NOTATION>`,
    component slots numbered per kind, AI tags, utility slots and the alloy
    cost of the tier.
- **Validator** (`scripts/validate_sections.py`). It cuts a section file into
  sections line by line, reads their fields, and reports:
  - as warnings: an unknown ship type, a slot the ship does not have, and an
    entity that is unknown or in the wrong context;
  - as errors: locators the entity does not have, modifiers listed as invalid,
    and technologies listed as invalid.
- **Repairer** (`scripts/fix_section_errors.py`).
  - It re-tiers section keys whose tier word disagrees with the tier their
    notation scores.
  - It deletes or renames invalid modifiers and renames invalid technology
    references.
  - It repairs each section's entity and locators with four ordered
    strategies: wrong context, unknown entity, a better entity, and locator
    mapping.

## How the model is laid out

- `Base`, `Strings`, `Assoc`, `Seqs`, `Select`, `Lines` and `Words` hold the
  Python idioms the scripts lean on:
  - `str.split`, `str.join`, `str.replace`, `sorted(...)[0]`;
  - insertion-ordered dicts, kept as association lists;
  - "append unless present";
  - the strict-`>` selection loop;
  - line-wise deletion;
  - `\b...\b` whole-word substitution.
- `Fields` writes out every regular expression the scripts apply to section
  text as a scanner for that one pattern. `re.search` becomes `Search` and
  `re.finditer` becomes `FindAll`.
- `Hierarchy` is the reference tree. `Extract` is the extractor. `Index` holds
  the lookup tables the validator and the repairer build from the tree.
- `Notation` and `NotationFacts` are the notation compiler and worked examples
  of it. `Resolve` is the entity choice for a design. `Emit` is the section
  text and the `design` command.
- `Validate` is the validator. `Repair` holds the record-level repairs.
  `RepairText` holds the repairs that rewrite text: tiers, modifiers and
  technologies.

Inputs the scripts read from disk are parameters of the model:

- the reference tree (`VanillaData`);
- the table of ship base points (`base`, `SHIP_BASE_POINTS` as loaded);
- the replacement tables;
- the text of a section file.

## Model

| member | source | states |
|---|---|---|
| Assoc.Put | scripts/extract_vanilla_data.py:111-126 | After `d[k] = v`, `k` maps to `v` and every other key keeps its value. |
| Assoc.PutKeys | scripts/extract_vanilla_data.py:111-126 | A dict assignment keeps the key order. An existing key stays in place and a new key is appended last. |
| Assoc.PutUnique | scripts/extract_vanilla_data.py:111-126 | A dict assignment keeps keys unique. |
| Assoc.ToMap | scripts/validate_sections.py:109-111 | An ordered dict read as a map has exactly the dict's keys, each with the value `get` returns. |
| Seqs.AppendNew | scripts/extract_vanilla_data.py:128-142 | The merge loop "append unless already present" keeps the old list as a prefix. It adds exactly the new elements and never creates a repeat. |
| Seqs.AppendNewSnoc | scripts/extract_vanilla_data.py:132-134 | Seen from its last step, the merge loop appends an element exactly when it is new. |
| Seqs.Dedup | scripts/fix_section_errors.py:78-80 | No repeats, and the same members. |
| Seqs.DedupSnoc | scripts/fix_section_errors.py:78-80 | First occurrences in order: one more input element is appended when new, and ignored when already seen. |
| Select.FirstMax | scripts/fix_section_errors.py:155-164 | The strict-`>` selection loop returns the first index of a largest score above the floor. It returns none exactly when no score beats the floor. |
| Select.FirstMaxUnique | scripts/fix_section_errors.py:155-164 | Any index that is first, largest and above the floor is the one the loop returns. |
| Strings.Split | scripts/fix_section_errors.py:501 | `str.split` with a separator always yields at least one piece. |
| Strings.JoinSplit | scripts/fix_section_errors.py:516 | Joining the pieces of a split with the same separator restores the text. |
| Strings.SplitJoin | scripts/validate_sections.py:141 | Splitting a join of newline-free lines at newlines gives the lines back. |
| Strings.ReplaceIsSplitJoin | scripts/fix_section_errors.py:184-185 | `s.replace(a, b)` equals `b.join(s.split(a))`, an independent reading of replace. |
| Strings.ReplaceAbsent | scripts/fix_section_errors.py:184-185 | Replacing a text that does not occur changes nothing. |
| Strings.NatToString | scripts/generate_sections.py:416 | `str(n)` is a non-empty run of digits that `int()` reads back as `n`. |
| Strings.Pad2 | scripts/generate_sections.py:393 | `f"{n:02d}"` has at least two digits and reads back as `n`. |
| Strings.Least | scripts/fix_section_errors.py:245 | `sorted(s)[0]` is the member of `s` that is least in Python's string order. |
| Strings.LeastUnique | scripts/fix_section_errors.py:245 | A set has only one least member. |
| Fields.Search | scripts/validate_sections.py:145-159 | `re.search(...).group(1)` is the group of a match, and none means no position matches. |
| Fields.SearchFrom | scripts/validate_sections.py:145-159 | The search result is the leftmost match at or after the start. |
| Fields.FindAllFirst | scripts/extract_vanilla_data.py:75-78 | `finditer` yields something exactly when `search` finds something, and its first value is the value `search` finds. |
| Fields.FindAllMatches | scripts/extract_vanilla_data.py:75-78 | Every value `finditer` yields is the group of a match of the pattern. |
| Fields.TechNames | scripts/validate_sections.py:180-181 | Every name the technology pattern yields starts with `tech_` and has more characters after it. |
| Fields.QuotedAt | scripts/validate_sections.py:145 | `name\s*=\s*"([^"]+)"` captures a non-empty group without quotes. |
| Fields.BareAt | scripts/validate_sections.py:153 | `name\s*=\s*(\w+)` captures a non-empty run of word characters. |
| Fields.MaybeQuotedAt | scripts/extract_vanilla_data.py:64 | `fits_on_slot\s*=\s*"?(\w+)"?` captures a non-empty run of word characters, quoted or not. |
| Fields.AssignmentAt | scripts/validate_sections.py:172 | `(\w+)\s*=\s*[\d.\-]+` captures a non-empty run of word characters. |
| Hierarchy.PlacementsIn | scripts/validate_sections.py:79-103 | The nested ship/slot/entity loops visit a (ship, slot, entity, data) exactly when the tree stores that data there. |
| Extract.MatchBrace | scripts/extract_vanilla_data.py:24-35 | The brace scan from an opening brace ends where the block first closes. It finds no end exactly when the depth stays positive to the end of the text. |
| Extract.HeaderAt | scripts/extract_vanilla_data.py:21-24 | `tag\s*=\s*\{` matched at a position yields the position of its brace. |
| Extract.Headers | scripts/extract_vanilla_data.py:23 | The header matches come in increasing order, and each is an opening brace. |
| Extract.ExtractBlocks | scripts/extract_vanilla_data.py:18-40 | The blocks are exactly those whose header matches and whose braces close, in order. Each block runs from its brace to the matching one. |
| Extract.ClosingMembers | scripts/extract_vanilla_data.py:37-38 | A header's block is kept exactly when it closes. |
| Extract.BlocksBraced | scripts/extract_vanilla_data.py:18-40 | Every extracted block opens with `{` and ends with `}`. |
| Extract.ParseBlock | scripts/extract_vanilla_data.py:50-87 | Locators and templates are exactly the values `finditer` yields, without repeats. A key, when found, is non-empty. |
| Extract.KeyedRecords | scripts/extract_vanilla_data.py:89-90 | Exactly the blocks that have a key are kept, in order. |
| Extract.ParseSectionTemplate | scripts/extract_vanilla_data.py:43-92 | The records are those of the keyed blocks, in order, among the `ship_section_template` blocks that close, each cut from its header's brace. Every record has a non-empty key and repeat-free locator and template lists. |
| Extract.LookupAfterAdd | scripts/extract_vanilla_data.py:99-142 | After one record is merged, the merged entry is stored for its own (ship, slot, entity), and every other triple is unchanged. |
| Extract.AddRecordEffect | scripts/extract_vanilla_data.py:99-142 | A record without an entity is skipped. A missing ship type files the record under `unknown` and a missing slot under `mid`. The record's locators and templates are appended after the existing ones, new ones only. |
| Extract.AddRecordWellFormed | scripts/extract_vanilla_data.py:99-142 | Merging a record keeps every dict's keys unique and every list repeat-free. |
| Extract.BuildHierarchy | scripts/extract_vanilla_data.py:95-144 | The built tree has unique keys at every level and no repeats in any list. |
| Extract.ModifierReplacementsValid | scripts/extract_vanilla_data.py:147-225 | Every replacement modifier is on the valid list. |
| Extract.TechReplacementsValid | scripts/extract_vanilla_data.py:147-225 | Every replacement technology is a common prerequisite. |
| Index.ContextsOfIn | scripts/fix_section_errors.py:354-363 | A (ship, slot) is in an entity's context list exactly when some visit places the entity there. |
| Index.EntityToShipSlot | scripts/fix_section_errors.py:354-363 | The entity → contexts table has exactly the mentioned entities. Each entity maps to its (ship, slot) pairs in visiting order. |
| Index.LocatorsOfIn | scripts/fix_section_errors.py:59-69 | A locator is an entity's locator exactly when some visit of the entity lists it. |
| Index.EntityLocators | scripts/fix_section_errors.py:59-69 | The entity → locators table has exactly the mentioned entities. Each entity maps to the union of its locators. |
| Index.AddHolder | scripts/fix_section_errors.py:78-80 | One visit adds the entity to each of its locators' lists, unless the list already holds it. |
| Index.LocatorEntities | scripts/fix_section_errors.py:72-81 | Each locator maps to the entities that have it, first occurrences in visiting order. |
| Index.EntitiesForTree | scripts/fix_section_errors.py:84-91 | The slot → entities table, read through its getter, is the tree's entity list. |
| Index.ContextsAgree | scripts/validate_sections.py:79-103 | An entity is listed for a (ship, slot) exactly when that pair is among its contexts. |
| Index.LocatorsAreUnion | scripts/validate_sections.py:92-96 | An entity's locator set is the union over every place that lists it. |
| Index.SameEntities | scripts/validate_sections.py:92-103 | The locator table and the context table have the same entities. |
| Notation.Code | scripts/generate_sections.py:142 | A weapon code has one or two letters and does not start with a digit. |
| Notation.AuxCost | scripts/generate_sections.py:46-56 | The aux cost of a ship type. It is 4 for a type the table does not list, and always one of 1, 2, 4, 8, 16, 32. |
| Notation.FirstBucket | scripts/generate_sections.py:157-160 | The threshold loop stops at the first bucket that holds the total. None means no bucket does. |
| Notation.TierOf | scripts/generate_sections.py:156-160 | The tier is a bucket that holds the total, or `common` when no bucket does. |
| Notation.BucketsPartition | scripts/generate_sections.py:59-65 | The buckets are pairwise disjoint and together hold exactly 0..999. |
| Notation.TierRanges | scripts/generate_sections.py:156-160 | For every total, each tier holds exactly its range. `common` holds 0..24 and also everything above 999. |
| Notation.AlloyCost | scripts/generate_sections.py:419 | `int(80 * TIER_COST_MULT[tier])` lies between 80 and 128. |
| Notation.DigitRun | scripts/generate_sections.py:126 | The greedy `\d+` takes digits up to the first non-digit. |
| Notation.SearchTagged | scripts/generate_sections.py:126-140 | `re.search(tag + r"(\d+)")` finds the leftmost match, and no match lies before it. |
| Notation.KindAt | scripts/generate_sections.py:142 | The alternation matches a kind at a position exactly when that kind's code is there followed by a digit. At most one kind matches. |
| Notation.TokenAt | scripts/generate_sections.py:142-144 | A weapon token has the matching kind and ends after its digits. |
| Notation.ScanUnique | scripts/generate_sections.py:142-144 | The `weapons` dict the finditer loop fills has unique keys. |
| Notation.ParseNotation | scripts/generate_sections.py:115-170 | The notation is kept. Weapon kinds are unique, and each kind's count is that of its last token in what is left once the UL, US and AUX tokens are taken out. The total is the weapon points plus the utility points (UL 4, US 1) plus the aux points. The tier is the bucket of the total. |
| Notation.LastCount | scripts/generate_sections.py:142-144 | The count of the last token of a kind: none exactly when no token has that kind, and otherwise a token of that kind with none of that kind after it. |
| Notation.ScanCounts | scripts/generate_sections.py:142-144 | After the finditer loop, a kind with a token holds its last token's count, and every other kind keeps its earlier value. |
| Notation.WeaponsFromTokens | scripts/generate_sections.py:117-144 | A kind is a key of the weapons dict exactly when a token of that kind is found, and it maps to the last such token's count. |
| Notation.WeaponPointsPerKind | scripts/generate_sections.py:147 | Summing the dict's items equals the per-kind formula of cost × count. |
| Notation.ParseTotal | scripts/generate_sections.py:147-153 | Total = Σ cost(kind) × count + 4·UL + 1·US + aux × aux cost of the ship. |
| NotationFacts.Untagged | scripts/generate_sections.py:126-129 | A utility tag whose first letter is absent matches nothing and leaves the text alone. |
| NotationFacts.TrailingLargeUtility | scripts/generate_sections.py:122-144 | On a notation with no `U` and no `A`, a trailing `UL<d>` adds `d` large utility slots and 4 points each. It leaves the weapons as they were, so its `L` is never read as a weapon. |
| NotationFacts.DeleteOnce | scripts/generate_sections.py:129 | The matched utility token is deleted from the working string. |
| NotationExamples.ExampleT1UL1 | scripts/generate_sections.py:12 | `T1UL1` on a battleship is one titan weapon and one large utility slot: 20 points, tier common. |
| NotationExamples.ExampleT2X1UL2 | scripts/generate_sections.py:13 | `T2X1UL2` is 48 points, and the code places 48 in `ultra`. |
| NotationExamples.ExampleRepeatedUtility | scripts/generate_sections.py:126-144 | In `UL1UL2` only the first `UL` is read as utility. The left-over `UL2` is read as the weapon `L2`: 12 points in all. |
| NotationExamples.ExampleRepeatedWeapon | scripts/generate_sections.py:142-144 | A repeated weapon kind keeps its last count: `T1T3` is three titan weapons. |
| Resolve.CategoryOf | scripts/generate_sections.py:265-275 | Every weapon kind maps to one of the six weapon categories. |
| Resolve.FirstUniversal | scripts/generate_sections.py:225-233 | The first locator that counts as universal, or none when no locator does. |
| Resolve.UniversalNonEmpty | scripts/generate_sections.py:235 | A universal locator is never empty, so `if universal_loc:` means one was found. |
| Resolve.Support | scripts/generate_sections.py:277-286 | The entity can carry the weapons exactly when every kind with a positive count has a locator of its category. The score is at most ten per requested unit. |
| Resolve.FullSupportScore | scripts/generate_sections.py:281-282 | When every category covers its count, the score is exactly ten per unit. |
| Resolve.UniversalMap | scripts/generate_sections.py:238-245 | Every weapon category maps to the one universal locator. |
| Resolve.CategoryMap | scripts/generate_sections.py:291-300 | Each category maps to exactly the entity's locators of that category. |
| Resolve.FallbackMap | scripts/generate_sections.py:212-221 | `all` holds every locator. Small guns get all locators, or `root` when there are none. Every other category gets the first locator, or `root`. |
| Resolve.FirstUniversalEntity | scripts/generate_sections.py:204-246 | The first entity that has a universal locator. No earlier entity has one. |
| Resolve.ScanFrom | scripts/generate_sections.py:204-306 | The loop as written, with its early return and its fallback update, computes the index view of the answer. |
| Resolve.FindEntitySpec | scripts/generate_sections.py:183-306 | The choice is one of three. First: the first entity with a universal locator, every category mapped to it. Else: the first top scorer among the entities that can carry the weapons, with its locators by category. Else: the first entity with the most locators, with the fallback map. |
| Resolve.FoundIffEntities | scripts/generate_sections.py:195-196 | An entity is chosen exactly when the slot has entities. |
| Emit.KindSlots | scripts/generate_sections.py:390-408 | A kind gets one slot per unit, and unit `i` gets slot `i + 1`. |
| Emit.EmitUnits | scripts/generate_sections.py:390-393 | Numbering by bumping the per-name counter gives units 1..count, and the counter ends at the count. |
| Emit.EmitComponents | scripts/generate_sections.py:379-408 | The component loop with its shared counter gives the closed-form slot list. |
| Emit.Position | scripts/generate_sections.py:380 | Every kind has a place in the emit order. |
| Emit.SlotsCount | scripts/generate_sections.py:380-390 | The kinds produce as many slots as they have units. |
| Emit.UnitsPerKind | scripts/generate_sections.py:380-381 | Summed over the emit order, the counts are the design's total units. |
| Emit.ComponentCount | scripts/generate_sections.py:379-408 | A section has exactly one component slot per requested unit. |
| Emit.LastIndexOf | scripts/generate_sections.py:393 | The last occurrence of a character, if any. |
| Emit.NameParts | scripts/generate_sections.py:393 | A slot name `<base>_<digits>` splits back into its base and its number. |
| Emit.SlotBaseInjective | scripts/generate_sections.py:367-377 | Different kinds have different slot-name bases. |
| Emit.UnitNamesDistinct | scripts/generate_sections.py:388-393 | Two units share a slot name only when they are the same unit of the same kind. |
| Emit.Rotations | scripts/generate_sections.py:404-406 | Strike-craft slots alternate 90, -90, … starting at 90. No other kind has a rotation. |
| Emit.RoundRobin | scripts/generate_sections.py:396-399 | With locators, units take them in turn with period equal to their number. Without locators, unit `i` gets `<prefix>_<i+1, two digits>`. |
| Emit.AiTags | scripts/generate_sections.py:336-348 | `carrier` exactly with hangars. `artillery` exactly with titan, XL or large guns. `gunship` exactly with medium or small guns. |
| Emit.BodyLines | scripts/generate_sections.py:321-427 | The lines after the key end with the closing brace. |
| Emit.SectionTextStart | scripts/generate_sections.py:318-320 | The text starts with the header line and then the key line. |
| Emit.KeyAfterHeader | scripts/generate_sections.py:318-320 | Whatever follows the key line, the key is the first `key = "..."` of the text. |
| Emit.KeyReadBack | scripts/generate_sections.py:472-477 | The key a section is generated with is the key the validator, the extractor and the repairer read back. |
| Emit.DesignSections | scripts/generate_sections.py:450-478 | An unknown ship type gives none. Otherwise there is at most one section per notation. |
| Emit.SectionsFor | scripts/generate_sections.py:460-478 | Notations without an entity are skipped. |
| Emit.EverySectionWritten | scripts/generate_sections.py:460-478 | Every notation yields a section when the slot has entities, and none does when it has none. |
| Validate.SumDepthJoin | scripts/validate_sections.py:131-141 | Counting braces line by line gives the balance of the joined block. |
| Validate.BlockEnd | scripts/validate_sections.py:135-139 | The inner loop takes lines while some remain and the balance stays positive. |
| Validate.CutShape | scripts/validate_sections.py:129-141 | A section's lines are open after every proper prefix. They are closed at the end unless the file ran out. |
| Validate.SectionAt | scripts/validate_sections.py:129-184 | A header line opens a section that starts there and has the block shape. |
| Validate.SectionsFrom | scripts/validate_sections.py:126-186 | Sections are cut in order, do not overlap, and each starts at a header line. |
| Validate.HeadersCovered | scripts/validate_sections.py:126-186 | Every header line opens a section or lies inside one. |
| Validate.Tag | scripts/validate_sections.py:163-166 | A found value carries the number of the line it was found on. |
| Validate.PerLine | scripts/validate_sections.py:163-182 | A value is listed with line number `start + j` exactly when line `j` yields it. |
| Validate.PerLineIn | scripts/validate_sections.py:163-182 | A value is listed with a line number exactly when that line yields it. |
| Validate.ModifiersParsed | scripts/validate_sections.py:170-175 | A parsed modifier is the first numeric assignment of its line, and its name contains `ship_`. |
| Validate.LocatorsParsed | scripts/validate_sections.py:162-167 | A parsed locator is the first `locatorname` its line names. |
| Validate.TechsParsed | scripts/validate_sections.py:178-182 | A parsed technology is a quoted `tech_` name on its line. |
| Validate.ShipCheck | scripts/validate_sections.py:207-215 | At most one warning, of kind unknown ship type, on the section's first line. |
| Validate.SlotCheck | scripts/validate_sections.py:217-228 | At most one warning, of kind invalid slot, on the section's first line. |
| Validate.EntityCheck | scripts/validate_sections.py:230-261 | At most one entity warning, on the section's first line. |
| Validate.LocatorIssues | scripts/validate_sections.py:264-274 | One error per listed locator the entity lacks, and none when the entity has no locators at all. |
| Validate.LocatorCheck | scripts/validate_sections.py:264-274 | Locator issues are always errors. |
| Validate.ModifierIssues | scripts/validate_sections.py:277-293 | One error per extracted modifier the invalid table lists. |
| Validate.TechIssues | scripts/validate_sections.py:296-303 | One error per extracted technology the invalid table lists. |
| Validate.ValidateSection | scripts/validate_sections.py:199-303 | An issue is a warning exactly when it is a hierarchy check other than locators. Warnings sit on the section's first line. |
| Validate.InSection | scripts/validate_sections.py:199-303 | An issue is reported exactly when the check for its kind raised it. |
| Validate.ValidateAll | scripts/validate_sections.py:197-305 | The issue severities are the same for the whole file. |
| Validate.ErrorsWarningsSplit | scripts/validate_sections.py:41-47 | `errors` and `warnings` split the issues: each issue is counted exactly once. |
| Validate.ShipWarningIff | scripts/validate_sections.py:207-215 | Warned exactly when a non-empty ship type is not a known ship type. |
| Validate.SlotWarningIff | scripts/validate_sections.py:217-228 | Warned exactly when ship and slot are named, the ship lists slots, and the slot is not among them. |
| Validate.AtMostOneEntityIssue | scripts/validate_sections.py:230-261 | A section gets at most one entity warning. |
| Validate.WrongContextIff | scripts/validate_sections.py:230-261 | Warned of a wrong context exactly when entity, ship and slot are named, the tree places the entity somewhere, and the pair lists entities but not this one. The warning lists every pair the tree places the entity in. |
| Validate.WrongContextRaisedIff | scripts/validate_sections.py:230-261 | For any index: the entity check warns of a wrong context exactly when the pair lists entities but not the entity, and the entity has a locator entry. |
| Validate.WrongContextMeans | scripts/validate_sections.py:233-245 | A wrong-context warning means the entity is placed somewhere, but not under this ship and slot. The warning lists exactly where the entity is placed. |
| Validate.UnknownEntityIff | scripts/validate_sections.py:230-261 | Warned exactly for a named entity that is placed nowhere, except when ship and slot are both named and that pair lists no entities. |
| Validate.LocatorErrorIff | scripts/validate_sections.py:264-274 | Error exactly for each listed locator that the known, locator-bearing entity lacks. |
| Validate.ModifierErrorIff | scripts/validate_sections.py:277-293 | Error exactly for each extracted modifier the table lists. The error names the replacement when there is one. |
| Validate.TechErrorIff | scripts/validate_sections.py:296-303 | Error exactly for each extracted technology the table lists. |
| Repair.NormalizeSlotName | scripts/fix_section_errors.py:112-136 | A valid slot is kept. Otherwise its alias is used when valid, else the ship's first slot. A ship without slots keeps the slot. |
| Repair.NormalizeIdempotent | scripts/fix_section_errors.py:112-136 | Normalising twice is normalising once. |
| Repair.LocatorCounts | scripts/fix_section_errors.py:158-162 | Each entity's count is the size of its locator set. |
| Repair.MostLocators | scripts/fix_section_errors.py:155-164 | The first entity with the most locators. None exactly when every entity has none. |
| Repair.GetValidEntityForSlot | scripts/fix_section_errors.py:139-164 | The entity of the pair with the most locators. The early returns agree with the selection. |
| Repair.SlotAlternatives | scripts/fix_section_errors.py:326-330 | The own slot is tried first. |
| Repair.FirstCandidates | scripts/fix_section_errors.py:332-337 | The entity list of the first alternative slot that has a non-empty one. |
| Repair.FindDefaultEntity | scripts/fix_section_errors.py:315-351 | The result has locators and is listed for an alternative slot. |
| Repair.DefaultPrefersOwnSlot | scripts/fix_section_errors.py:326-337 | When the own slot has entities, the default entity is `get_valid_entity_for_slot`'s. |
| Repair.DefaultCoreFallsBackToMid | scripts/fix_section_errors.py:327-328 | An empty `core` slot borrows the entities of `mid`. |
| Repair.BestScores | scripts/fix_section_errors.py:215-226 | Each candidate's score is its count of needed locators plus 5 for a similar name. |
| Repair.FindBestEntity | scripts/fix_section_errors.py:189-233 | A result is a listed candidate other than the current entity. It has every needed locator and is the first candidate with the highest score. No result means no candidate scores, or the first top scorer is the current entity. Without candidates there is no result. |
| Repair.BestEntityChoice | scripts/fix_section_errors.py:215-233 | Conversely, when a candidate is the first top scorer, the result is that candidate, or none when it is the current entity. |
| Repair.SizePreferences | scripts/fix_section_errors.py:266-275 | Only the first size key the locator contains is tried. |
| Repair.FirstContaining | scripts/fix_section_errors.py:269-272 | The least valid locator, in sorted order, that contains the preference. |
| Repair.FirstPreferred | scripts/fix_section_errors.py:268-274 | The first preference that some valid locator contains, and that locator. |
| Repair.Replacement | scripts/fix_section_errors.py:252-281 | The replacement is always valid. Without a size key it is the least valid locator. |
| Repair.GetLocatorMapping | scripts/fix_section_errors.py:236-283 | No valid locators gives an empty map. Otherwise exactly the needed-but-invalid locators are mapped, each to a valid one. |
| Repair.MappingChoice | scripts/fix_section_errors.py:252-281 | Which valid locator each invalid one gets, by size preference or by sorted order. |
| Repair.Rename | scripts/fix_section_errors.py:482-486 | One `re.sub` on locator lines replaces exactly that locator. |
| Repair.ApplyMapping | scripts/fix_section_errors.py:481-487 | All renames at once: unmapped locators stay, and mapped ones become their targets. |
| Repair.InOrderIsAtOnce | scripts/fix_section_errors.py:481-487 | Renaming one locator after another, in any order, equals renaming them all at once. |
| Repair.MappingClosed | scripts/fix_section_errors.py:236-283 | No mapping target is itself a mapped locator. |
| Repair.IsEntityValidForContext | scripts/fix_section_errors.py:366-390 | An unknown entity never fits. An entity fits every pair among its contexts. |
| Repair.ValidContextIff | scripts/fix_section_errors.py:366-390 | On tables built from a tree, an entity fits exactly the pairs that list it. |
| Repair.ExtractSectionData | scripts/fix_section_errors.py:286-312 | Locators are the `locatorname` values. The entity is non-empty and has no quotes. The ship size is a word. |
| Repair.ContextStep | scripts/fix_section_errors.py:412-433 | An entity that does not fit is replaced by the pair's entity with the most locators. |
| Repair.UnknownStep | scripts/fix_section_errors.py:435-452 | A known entity is kept. An unknown one is replaced by a known default of the pair or of a related slot. |
| Repair.LocatorStep | scripts/fix_section_errors.py:454-489 | Valid locators keep everything. Otherwise a candidate that has them all is taken, or the invalid locators are mapped into the valid set. |
| Repair.MapLocators | scripts/fix_section_errors.py:477-489 | Mapped locators lie in the valid set. No valid locators leaves them as they are. |
| Repair.FixSection | scripts/fix_section_errors.py:393-489 | No entity means no change, and the key, ship and slot never change. A locator-bearing final entity has every final locator. A changed entity has locators and is listed for an alternative slot. |
| Repair.FixSectionStable | scripts/fix_section_errors.py:393-489 | A section that fits its context, is known, and has all its locators comes out unchanged. |
| RepairText.TierWord | scripts/fix_section_errors.py:27 | A tier's key word is one of the valid tier words and has no underscore. |
| RepairText.TierWordInjective | scripts/fix_section_errors.py:27 | Different tiers have different tier words. |
| RepairText.TierWordIsUpper | scripts/fix_section_errors.py:535 | The tier word is the upper-cased tier name. |
| RepairText.FirstTier | scripts/fix_section_errors.py:506-510 | The first part that is a tier word. No earlier part is one. |
| RepairText.KeyShip | scripts/fix_section_errors.py:518-531 | The ship type read from the key always has an entry in the base-points table. |
| RepairText.FixKey | scripts/fix_section_errors.py:496-546 | Keys that are short, not `PBSS`, without a tier, or with an unknown ship are left alone. A rewrite happens only when the scored tier differs and the ship's base points are a non-zero number, and it replaces every `_TIER_`. |
| RepairText.GeneratedKeyParts | scripts/generate_sections.py:472 | A generated key splits into `PBSS`, the ship's words, the slot, the tier word and the notation's words. |
| RepairText.GeneratedKeyFix | scripts/fix_section_errors.py:496-546 | On a generated key, re-tiering is a no-op when the tier word is the scored tier, or when the message's division by the base points raises. Otherwise it replaces `_TIER_` with the scored word. |
| RepairText.GeneratedKeyStable | scripts/fix_section_errors.py:533-546 | A generated key is left alone exactly when its tier word is the tier its notation scores, or the ship's base points are 0 or not a number. |
| RepairText.GeneratedKeyRetier | scripts/fix_section_errors.py:533-546 | Re-tiering a generated key gives the key generated for the scored tier, unless the base points make the message raise. A second pass changes nothing. |
| RepairText.RewriteTierWord | scripts/fix_section_errors.py:538 | Replacing a generated key's tier word by another tier's word gives that tier's generated key. |
| RepairText.DelimitedIsPiece | scripts/fix_section_errors.py:501 | An occurrence of `_x_` makes `x` a piece of the split. |
| RepairText.ReplaceMiddle | scripts/fix_section_errors.py:538 | The replace touches only the `_TIER_` between the prefix and the notation. |
| RepairText.KeyMatchAt | scripts/fix_section_errors.py:548 | `key\s*=\s*"(PBSS_[^"]+)"` matches exactly where a quoted key starting `PBSS_` with more after it does. |
| RepairText.FixTiersUnchanged | scripts/fix_section_errors.py:548 | A text none of whose keys needs a new tier comes back unchanged. |
| RepairText.FixTiersRewrites | scripts/fix_section_errors.py:542 | A key that needs a new tier is rewritten as `key = "<fixed key>"`. |
| RepairText.NoBasePointsNoFix | scripts/fix_section_errors.py:526-531 | With an empty base-points table, re-tiering leaves every text unchanged. |
| RepairText.LineEnd | scripts/fix_section_errors.py:172 | The end of the line holding a position: its newline, or the end of the text. |
| RepairText.ModifierMatchAt | scripts/fix_section_errors.py:171-176 | The deletion pattern, tried at a line start, ends after the position where it starts. |
| RepairText.DeleteAsWrittenTakesNextLine | scripts/fix_section_errors.py:171-176 | The deletion as written turns `{\n  m = 1\n}` into `{\n`: the closing brace goes too. |
| RepairText.DeleteModifierKeepsNextLine | scripts/fix_section_errors.py:171-176 | The corrected deletion turns the same text into `{\n}`. |
| RepairText.DeleteModifierLines | scripts/fix_section_errors.py:171-176 | The lines of the result are exactly the lines that do not assign the modifier, in order. |
| RepairText.DeleteModifierNoop | scripts/fix_section_errors.py:171-176 | A text without assignment lines for the modifier is unchanged. |
| RepairText.DeleteModifierIdempotent | scripts/fix_section_errors.py:171-176 | Deleting twice deletes nothing more. |
| RepairText.KeepLinesIdempotent | scripts/fix_section_errors.py:171-176 | Line-wise deletion is idempotent whenever the empty line is kept. |
| RepairText.DeleteModifierClears | scripts/fix_section_errors.py:171-176 | After a deletion no line assigns that modifier, and no line assigning another one appears. |
| RepairText.FixModifiersNoop | scripts/fix_section_errors.py:167-180 | A text in which no rule of the table finds anything is unchanged. |
| RepairText.DeletionsClear | scripts/fix_section_errors.py:167-180 | After a table of deletions, no line assigns any modifier the table names. |
| RepairText.DeletionsClearFrom | scripts/fix_section_errors.py:169-176 | The same, with modifiers already gone staying gone. |
| RepairText.FixModifiersRenameBack | scripts/fix_section_errors.py:177-178 | A rename followed by the rename back restores the text, for word names whose target did not occur. |
| RepairText.FixModifiersBraceExample | scripts/fix_section_errors.py:167-180 | On the brace example the table as written drops the brace, and the corrected table keeps it. |
| RepairText.FixTechIsSplitJoin | scripts/fix_section_errors.py:182-186 | The replacement table equals splitting at each old name and joining with the new one. |
| RepairText.FixTechNoop | scripts/fix_section_errors.py:182-186 | A text that mentions none of the old names is unchanged. |
| RepairText.FixTechConcat | scripts/fix_section_errors.py:183-185 | Two tables in a row are one table: the rules apply strictly one after the other. |
| Lines.KeepLinesShape | scripts/fix_section_errors.py:171-176 | The kept text is the kept lines joined, plus a newline when the last line was dropped. |
| Lines.KeptLinesSplit | scripts/fix_section_errors.py:171-176 | Splitting the kept text gives the kept lines, and an empty last line when the text ended in a dropped line. |
| Lines.KeepKeptLines | scripts/fix_section_errors.py:171-176 | Keeping the lines of a kept text again gives the same text. |
| Lines.KeepMiddleDropped | scripts/fix_section_errors.py:171-176 | Dropping the middle of three lines keeps both neighbours. |
| Words.RenameAbsent | scripts/fix_section_errors.py:178 | A rename of a word that never stands whole changes nothing. |
| Words.CopyRun | scripts/fix_section_errors.py:178 | Nothing inside a run of word characters is renamed, since `\b` cannot hold there. |
| Words.FrontWordKept | scripts/fix_section_errors.py:178 | A whole word at the front of the output already stood at the front of the input. |
| Words.RenameBack | scripts/fix_section_errors.py:178 | Renaming `a` to `b` and then `b` to `a` restores the text, when `b` did not stand whole in it. |

## Left out

- File I/O, command-line handling, printing, and the change messages' text.
  This covers `load_vanilla_data`, `main`, `cmd_*`, `process_file`, and the
  output-file header update in `cmd_design`. `scripts/build.py` is not part of
  this model.
- `fix_slot_names` and its line re-splitting of a file, and the file-level
  loop of `process_file` that re-cuts sections.
- The text of the tier-fix message. Only whether its division raises is
  modelled: the message divides the total points by the ship's base points,
  and a base of 0 or a value that is not a number raises inside the `try`.
  The `except Exception` then leaves the key alone (`RepairText.Divides`).
- RepairText.FixKey: integer size limits inside the tier fix's `try` are not
  modelled, so for such keys the model rewrites what the code leaves alone.
  A total points value past the float range makes the message division
  raise `OverflowError`. A weapon or utility count of more than 4300 digits
  makes `int()` raise `ValueError` in `parse_notation`, on Python 3.11 and
  later. Both are caught by the `except`, which keeps the key. The lemmas
  `RepairText.GeneratedKeyFix`, `RepairText.GeneratedKeyStable` and
  `RepairText.GeneratedKeyRetier` inherit this: their rewrite cases include
  such totals and counts. Outside the tier fix, `Notation.ParseNotation`
  reads counts of any length.
- A JSON number's value is modelled as a Dafny `real`. Binary floating-point
  rounding, infinities and NaN are not modelled. Apart from the size limits
  above, only whether the value is zero matters.
- Unicode. `\w`, `\s`, `\d`, `str.upper` and `str.lower` are ASCII-only in the
  model. Python's versions are Unicode-aware.
- `TIER_COST_MULT` is given as the integers `int(80 * mult)` truncates to:
  80, 88, 100, 112, 128. The floating-point products are not modelled.
- The import at `scripts/fix_section_errors.py:19` names `TIER_MULTIPLIERS`
  and `DEFAULT_BASE_POINTS`, which `generate_sections.py` does not define.
  The model assumes the import succeeds. It takes `SHIP_BASE_POINTS`, as
  `load_vanilla_data` fills it, as the parameter `base`. The extractor never
  writes a `ship_base_points` entry, so with its own output the table is
  empty and `fix_section_tiers` changes no key
  (`RepairText.NoBasePointsNoFix`).
- The validator's `fits_on_slot` pattern is unquoted (`(\w+)`), while the
  extractor's accepts quotes (`"?(\w+)"?`). Each script is modelled with its
  own pattern.
- The docstring of `generate_sections.py` puts `T2X1UL2` (48 points) in the
  ultimate tier. The threshold table puts 48 in ultra, and the model follows
  the code (`NotationExamples.ExampleT2X1UL2`). A total above 999 matches no
  bucket and stays `common`.
- `extract_section_data` collects locators as a set, so `fix_section`
  works on a set of locators. Python iterates a set in no fixed order.
  `Repair.InOrderIsAtOnce` shows the order of the locator renames does not
  matter.
- Strategy 0 of `fix_section` and the entity substitutions rewrite the
  section text with `re.sub`. The model updates the record's fields instead.
  `Emit.KeyReadBack` and `Repair.ExtractSectionData` tie the record to the
  text.
- Only the fields the repairer and the validator read are modelled: key,
  entity, ship size, slot, locators, modifiers and technologies.
- RepairText.FixKey: when the tier word is the key's last part, there is no
  `_TIER_` to replace. The function then returns `Some` with an unchanged key,
  as the script's `str.replace` does. Callers that compare keys see no change.
- RepairText.GeneratedKeyFix: proved for a lower-case ship type, a slot
  without `_` that is not itself a tier word, and no tier word among the
  ship's words. Keys outside these conditions fall back to `FixKey`'s
  general contract.
- RepairText.GeneratedKeyRetier: additionally needs a notation without `_`.
- RepairText.ModifierMatchAt: faithful for modifier names whose first
  character is not whitespace. That holds for every name in the tables.
- RepairText.FixModifiersWith: requires non-empty modifier names. With an
  empty name, Python's `\b\b` would insert the new name at every word
  boundary. No table holds an empty name.
- Validate: `fleet_command_limit_add` and `sensor_range_mult` contain no
  `ship_`, so the validator's modifier extraction never reports them, even
  though the invalid table lists them. The model reproduces this.
- Resolve.FindEntitySpec: requires non-empty entity names, as the extractor
  only records truthy names. With an empty name, the loop's `if not
  fallback_entity` would behave differently.

## Findings

| source | as written | input that shows it | evidently intended | confidence | as-written member | corrected member |
|---|---|---|---|---|---|---|
| scripts/fix_section_errors.py:171-176 | The deletion pattern `^\s*NAME\s*=\s*[\d.\-]+\s*#?.*$\n?` has a `\s*` after the number that also matches newlines. It runs on into the next line, and `.*$` then takes that whole line. The leading `^\s*` likewise swallows blank lines before the assignment. | Deleting modifier `m` from `{\n  m = 1\n}` gives `{\n`: the closing brace is deleted too. | Delete only the lines that assign the modifier, which gives `{\n}`. | not executed (the regex semantics were followed by hand) | RepairText.DeleteAsWrittenTakesNextLine | RepairText.DeleteModifierKeepsNextLine |

`RepairText.DeleteModifierAsWritten` and `RepairText.FixModifiersAsWritten`
model the pattern as written. `RepairText.DeleteModifier` and
`RepairText.FixModifiers` are the corrected deletion. The properties proved
about the corrected deletion are `DeleteModifierLines`,
`DeleteModifierIdempotent`, `DeleteModifierClears` and `DeletionsClear`.
`RepairText.FixModifiersBraceExample` sets the two side by side.

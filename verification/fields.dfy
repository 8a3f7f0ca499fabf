/** The regular expressions the scripts apply to section text, each written
    out as a scanner for that one pattern:

      Quoted(n)       n\s*=\s*"([^"]+)"       key, entity, locatorname, template
      Bare(n)         n\s*=\s*(\w+)           ship_size, fits_on_slot
      MaybeQuoted(n)  n\s*=\s*"?(\w+)"?       fits_on_slot in the extractor
      Assignment      (\w+)\s*=\s*[\d.\-]+    a numeric modifier line
      TechRef         "(tech_\w+)"            a quoted technology name

    `re.search` is the leftmost match (`Search`), `re.finditer` the successive
    non-overlapping matches (`FindAll`). None of the patterns has a greedy
    part that could give back characters, so each match is determined by its
    start position. */
module Fields {
  import opened Base
  import opened Strings

  /** `[\d.\-]`: a character of a numeric literal. */
  predicate IsNumberChar(c: char) { IsDigit(c) || c == '.' || c == '-' }

  /** The end of the run of whitespace starting at `i` (`\s*`). */
  function SkipSpaces(s: string, i: nat): (j: nat)
    requires i <= |s|
    ensures i <= j <= |s|
    ensures forall k | i <= k < j :: IsSpace(s[k])
    ensures j == |s| || !IsSpace(s[j])
    decreases |s| - i
  {
    if i == |s| || !IsSpace(s[i]) then i else SkipSpaces(s, i + 1)
  }

  /** The end of the run of word characters starting at `i` (`\w*`). */
  function WordEnd(s: string, i: nat): (j: nat)
    requires i <= |s|
    ensures i <= j <= |s|
    ensures AllWordChars(s[i..j])
    ensures j == |s| || !IsWordChar(s[j])
    decreases |s| - i
  {
    if i == |s| || !IsWordChar(s[i]) then i
    else
      var j := WordEnd(s, i + 1);
      assert s[i..j] == [s[i]] + s[i + 1..j];
      j
  }

  /** The end of the run of numeric-literal characters starting at `i`. */
  function NumberEnd(s: string, i: nat): (j: nat)
    requires i <= |s|
    ensures i <= j <= |s|
    ensures forall k | i <= k < j :: IsNumberChar(s[k])
    ensures j == |s| || !IsNumberChar(s[j])
    decreases |s| - i
  {
    if i == |s| || !IsNumberChar(s[i]) then i else NumberEnd(s, i + 1)
  }

  /** The first double quote at or after `i`. */
  function QuoteFrom(s: string, i: nat): (r: Option<nat>)
    requires i <= |s|
    ensures r.Some? ==> i <= r.value < |s| && s[r.value] == '"'
    ensures forall k | i <= k < (if r.Some? then r.value else |s|) :: s[k] != '"'
    decreases |s| - i
  {
    if i == |s| then None else if s[i] == '"' then Some(i) else QuoteFrom(s, i + 1)
  }

  datatype Pattern =
    | Quoted(name: string)
    | Bare(name: string)
    | MaybeQuoted(name: string)
    | Assignment
    | TechRef

  /** Where `name\s*=\s*` matched at `i` leaves off. */
  function AfterAssign(s: string, name: string, i: nat): (r: Option<nat>)
    requires i <= |s|
    ensures r.Some? ==> i + |name| < r.value <= |s|
  {
    if !OccursAt(s, name, i) then None
    else
      var j := SkipSpaces(s, i + |name|);
      if j < |s| && s[j] == '=' then Some(SkipSpaces(s, j + 1)) else None
  }

  /** `name\s*=\s*"([^"]+)"` at `i`. */
  function QuotedAt(s: string, name: string, i: nat): (r: Option<(string, nat)>)
    requires i <= |s|
    ensures r.Some? ==> i < r.value.1 <= |s| && |r.value.0| > 0 && '"' !in r.value.0
  {
    match AfterAssign(s, name, i)
    case None => None
    case Some(v) =>
      if v < |s| && s[v] == '"' then
        match QuoteFrom(s, v + 1)
        case None => None
        case Some(q) => if q > v + 1 then Some((s[v + 1..q], q + 1)) else None
      else None
  }

  /** `name\s*=\s*(\w+)` at `i`. */
  function BareAt(s: string, name: string, i: nat): (r: Option<(string, nat)>)
    requires i <= |s|
    ensures r.Some? ==> i < r.value.1 <= |s| && |r.value.0| > 0 && AllWordChars(r.value.0)
  {
    match AfterAssign(s, name, i)
    case None => None
    case Some(v) =>
      var w := WordEnd(s, v);
      if w > v then Some((s[v..w], w)) else None
  }

  /** `name\s*=\s*"?(\w+)"?` at `i`: a quote is taken when present. */
  function MaybeQuotedAt(s: string, name: string, i: nat): (r: Option<(string, nat)>)
    requires i <= |s|
    ensures r.Some? ==> i < r.value.1 <= |s| && |r.value.0| > 0 && AllWordChars(r.value.0)
  {
    match AfterAssign(s, name, i)
    case None => None
    case Some(v) =>
      var b := if v < |s| && s[v] == '"' then v + 1 else v;
      var w := WordEnd(s, b);
      if w > b then Some((s[b..w], if w < |s| && s[w] == '"' then w + 1 else w)) else None
  }

  /** `(\w+)\s*=\s*[\d.\-]+` at `i`: the word is the whole run from `i`
      (a shorter one would be followed by a word character, not by `=`). */
  function AssignmentAt(s: string, i: nat): (r: Option<(string, nat)>)
    requires i <= |s|
    ensures r.Some? ==> i < r.value.1 <= |s| && |r.value.0| > 0 && AllWordChars(r.value.0)
  {
    var w := WordEnd(s, i);
    if w == i then None
    else
      var j := SkipSpaces(s, w);
      if j < |s| && s[j] == '=' then
        var k := SkipSpaces(s, j + 1);
        if k < |s| && IsNumberChar(s[k]) then Some((s[i..w], NumberEnd(s, k))) else None
      else None
  }

  /** `"(tech_\w+)"` at `i`. */
  function TechRefAt(s: string, i: nat): (r: Option<(string, nat)>)
    requires i <= |s|
    ensures r.Some? ==> i < r.value.1 <= |s| && |r.value.0| > 5 && r.value.0[..5] == "tech_"
    ensures r.Some? ==> AllWordChars(r.value.0)
  {
    if i < |s| && s[i] == '"' && OccursAt(s, "tech_", i + 1) then
      var w := WordEnd(s, i + 6);
      if w > i + 6 && w < |s| && s[w] == '"' then
        assert s[i + 1..w] == s[i + 1..i + 6] + s[i + 6..w];
        Some((s[i + 1..w], w + 1))
      else None
    else None
  }

  /** The match of `p` starting at `i`: the captured group and the end of the
      match. */
  function MatchAt(p: Pattern, s: string, i: nat): (r: Option<(string, nat)>)
    requires i <= |s|
    ensures r.Some? ==> i < r.value.1 <= |s| && |r.value.0| > 0
  {
    match p
    case Quoted(name) => QuotedAt(s, name, i)
    case Bare(name) => BareAt(s, name, i)
    case MaybeQuoted(name) => MaybeQuotedAt(s, name, i)
    case Assignment => AssignmentAt(s, i)
    case TechRef => TechRefAt(s, i)
  }

  /** A match found by a search: where it starts, its group, where it ends. */
  datatype Found = Found(start: nat, group: string, end: nat)

  /** The leftmost match at or after `from`. */
  function SearchFrom(p: Pattern, s: string, from: nat): (r: Option<Found>)
    requires from <= |s|
    ensures r.Some? ==> from <= r.value.start <= |s| && MatchAt(p, s, r.value.start) == Some((r.value.group, r.value.end))
    ensures forall i | from <= i <= |s| && (r.None? || i < r.value.start) :: MatchAt(p, s, i).None?
    decreases |s| - from
  {
    match MatchAt(p, s, from)
    case Some((g, e)) => Some(Found(from, g, e))
    case None => if from == |s| then None else SearchFrom(p, s, from + 1)
  }

  /** `re.search(p, s).group(1)`, `None` when nothing matches. */
  function Search(p: Pattern, s: string): (r: Option<string>)
    ensures r.None? <==> forall i | 0 <= i <= |s| :: MatchAt(p, s, i).None?
    ensures r.Some? ==> exists i | 0 <= i <= |s| :: MatchAt(p, s, i).Some? && MatchAt(p, s, i).value.0 == r.value
  {
    match SearchFrom(p, s, 0)
    case None => None
    case Some(f) => Some(f.group)
  }

  /** `[m.group(1) for m in re.finditer(p, s[from:])]`: after a match the
      search resumes where it ended. */
  function FindAllFrom(p: Pattern, s: string, from: nat): (r: seq<string>)
    requires from <= |s|
    ensures forall k | 0 <= k < |r| :: |r[k]| > 0
    decreases |s| - from
  {
    match SearchFrom(p, s, from)
    case None => []
    case Some(f) => [f.group] + FindAllFrom(p, s, f.end)
  }

  function FindAll(p: Pattern, s: string): seq<string> {
    FindAllFrom(p, s, 0)
  }

  /** The first match `finditer` yields is the one `search` finds, and there
      is one exactly when `search` finds one. */
  lemma FindAllFirst(p: Pattern, s: string)
    ensures |FindAll(p, s)| > 0 <==> Search(p, s).Some?
    ensures |FindAll(p, s)| > 0 ==> FindAll(p, s)[0] == Search(p, s).value
  {
  }

  /** Every value `finditer` yields is the group of a match of the pattern. */
  lemma {:induction false} FindAllMatches(p: Pattern, s: string, from: nat, k: nat)
    requires from <= |s| && k < |FindAllFrom(p, s, from)|
    ensures exists i | from <= i <= |s| :: MatchAt(p, s, i).Some? && MatchAt(p, s, i).value.0 == FindAllFrom(p, s, from)[k]
    decreases |s| - from
  {
    var f := SearchFrom(p, s, from).value;
    if k > 0 {
      FindAllMatches(p, s, f.end, k - 1);
    } else {
      assert MatchAt(p, s, f.start).value.0 == FindAllFrom(p, s, from)[0];
    }
  }

  /** Every name `finditer` yields for the technology pattern starts with `tech_`. */
  lemma TechNames(s: string, t: string)
    requires t in FindAll(TechRef, s)
    ensures |t| > 5 && t[..5] == "tech_"
  {
    var k :| 0 <= k < |FindAll(TechRef, s)| && FindAll(TechRef, s)[k] == t;
    FindAllMatches(TechRef, s, 0, k);
    var i :| 0 <= i <= |s| && MatchAt(TechRef, s, i).Some? && MatchAt(TechRef, s, i).value.0 == t;
    assert MatchAt(TechRef, s, i) == TechRefAt(s, i);
  }
}

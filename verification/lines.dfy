/** Keeping some of the lines of a text: the pieces between newlines that a
    predicate does not select, each with the newline that ended it. This is
    what deleting whole lines with a MULTILINE `^...$\n?` pattern does. */
module Lines {
  import opened Strings
  import opened Seqs

  /** The lines (pieces between newlines) that `drop` does not select, each
      followed by the newline that ended it in the original. */
  function KeepLines(lines: seq<string>, drop: string -> bool): string
    decreases |lines|
  {
    if |lines| == 0 then ""
    else
      var head := if drop(lines[0]) then ""
                  else if |lines| == 1 then lines[0] else lines[0] + "\n";
      head + KeepLines(lines[1..], drop)
  }

  /** The lines `drop` does not select. */
  function Kept(drop: string -> bool): string -> bool {
    l => !drop(l)
  }

  /** What `KeepLines` builds: the kept lines joined by newlines, plus the
      newline that ended the last kept line when a dropped line follows it. */
  lemma {:induction false} KeepLinesShape(lines: seq<string>, drop: string -> bool)
    requires |lines| > 0
    ensures var kept := Filter(Kept(drop), lines);
            KeepLines(lines, drop)
            == Join(kept, "\n") + (if |kept| > 0 && drop(lines[|lines| - 1]) then "\n" else "")
    decreases |lines|
  {
    var keep := Kept(drop);
    var kept := Filter(keep, lines);
    var l0 := lines[0];
    assert kept == (if keep(l0) then [l0] else []) + Filter(keep, lines[1..]);
    if |lines| > 1 {
      var rest := lines[1..];
      var kept1 := Filter(keep, rest);
      var last := lines[|lines| - 1];
      KeepLinesShape(rest, drop);
      assert rest[|rest| - 1] == last;
      var tail := KeepLines(rest, drop);
      assert KeepLines(lines, drop) == (if drop(l0) then "" else l0 + "\n") + tail;
      if !drop(l0) {
        assert kept == [l0] + kept1;
        if |kept1| > 0 {
          assert kept[1..] == kept1;
          assert Join(kept, "\n") == l0 + "\n" + Join(kept1, "\n");
          var t := if drop(last) then "\n" else "";
          assert tail == Join(kept1, "\n") + t;
          assert KeepLines(lines, drop) == Join(kept, "\n") + t;
        } else {
          assert last in rest;
          assert last !in kept1;
          assert !keep(last);
          assert drop(last);
          assert tail == "";
          assert Join(kept, "\n") == l0;
          assert KeepLines(lines, drop) == l0 + "\n";
        }
      } else {
        assert !keep(l0);
        assert kept == kept1;
        assert KeepLines(lines, drop) == tail;
      }
    }
  }

  /** Keeping every element of a list keeps the list. */
  lemma {:induction false} FilterAll<T(!new)>(p: T -> bool, s: seq<T>)
    requires forall k | 0 <= k < |s| :: p(s[k])
    ensures Filter(p, s) == s
    decreases |s|
  {
    if |s| > 0 {
      FilterAll(p, s[1..]);
    }
  }

  /** Joining one more piece on the end. */
  lemma {:induction false} JoinSnoc(parts: seq<string>, x: string, sep: string)
    requires |parts| > 0
    ensures Join(parts + [x], sep) == Join(parts, sep) + sep + x
    decreases |parts|
  {
    if |parts| > 1 {
      JoinSnoc(parts[1..], x, sep);
      assert (parts + [x])[1..] == parts[1..] + [x];
    }
  }

  /** Lines that `drop` never selects come back as they were. */
  lemma KeepAllLines(s: string, drop: string -> bool)
    requires forall k | 0 <= k < |Split(s, "\n")| :: !drop(Split(s, "\n")[k])
    ensures KeepLines(Split(s, "\n"), drop) == s
  {
    var lines := Split(s, "\n");
    FilterAll(Kept(drop), lines);
    KeepLinesShape(lines, drop);
    JoinSplit(s, "\n");
  }

  /** Kept lines of newline-free lines are newline-free. */
  lemma KeptFree(lines: seq<string>, drop: string -> bool)
    requires forall k | 0 <= k < |lines| :: '\n' !in lines[k]
    ensures var kept := Filter(Kept(drop), lines);
            forall k | 0 <= k < |kept| :: '\n' !in kept[k]
  {
    var kept := Filter(Kept(drop), lines);
    forall k | 0 <= k < |kept| ensures '\n' !in kept[k] {
      assert kept[k] in lines;
    }
  }

  /** The lines a kept text has: the kept lines in order, then an empty
      line when the text ended in a dropped line after a kept one (the
      newline that ended the kept line is still there); a single empty line
      when nothing is kept. */
  function KeptLinesOf(lines: seq<string>, drop: string -> bool): seq<string>
    requires |lines| > 0
  {
    var kept := Filter(Kept(drop), lines);
    if |kept| == 0 then [""]
    else if drop(lines[|lines| - 1]) then kept + [""]
    else kept
  }

  /** Every line of the kept text is a kept line, or the empty line. */
  lemma KeptLinesOfMember(lines: seq<string>, drop: string -> bool)
    requires |lines| > 0
    ensures forall l | l in KeptLinesOf(lines, drop) :: l == "" || (l in lines && !drop(l))
  {
  }

  /** The lines of the kept text, for newline-free lines. */
  lemma KeptLinesSplit(lines: seq<string>, drop: string -> bool)
    requires |lines| > 0
    requires forall k | 0 <= k < |lines| :: '\n' !in lines[k]
    ensures Split(KeepLines(lines, drop), "\n") == KeptLinesOf(lines, drop)
  {
    var kept := Filter(Kept(drop), lines);
    KeepLinesShape(lines, drop);
    SplitNoSep("", '\n');
    if |kept| > 0 {
      KeptFree(lines, drop);
      SplitJoin(kept, '\n');
      if drop(lines[|lines| - 1]) {
        var j := Join(kept, "\n");
        assert KeepLines(lines, drop) == j + "\n";
        SplitConcat(j, "", '\n');
        assert j + "\n" + "" == j + "\n";
        assert Split(j + "\n", "\n") == kept + [""];
      } else {
        assert KeepLines(lines, drop) == Join(kept, "\n") + "";
        assert Join(kept, "\n") + "" == Join(kept, "\n");
      }
    }
  }

  /** Dropping the middle one of three lines. */
  lemma KeepMiddleDropped(a: string, b: string, c: string, drop: string -> bool)
    requires !drop(a) && drop(b) && !drop(c)
    ensures KeepLines([a, b, c], drop) == a + "\n" + c
  {
    var lines := [a, b, c];
    assert KeepLines(lines[2..], drop) == c;
    assert KeepLines(lines[1..], drop) == c;
  }

  /** Keeping the lines of a kept text again gives the same text, when the
      empty line is kept. */
  lemma KeepKeptLines(lines: seq<string>, drop: string -> bool)
    requires |lines| > 0 && !drop("")
    ensures KeepLines(KeptLinesOf(lines, drop), drop) == KeepLines(lines, drop)
  {
    var keep := Kept(drop);
    var kept := Filter(keep, lines);
    var again := KeptLinesOf(lines, drop);
    forall k | 0 <= k < |again| ensures keep(again[k]) {
      if k < |kept| { assert again[k] == kept[k]; assert kept[k] in kept; }
    }
    FilterAll(keep, again);
    KeepLinesShape(again, drop);
    KeepLinesShape(lines, drop);
    assert !drop(again[|again| - 1]);
    if |kept| > 0 && drop(lines[|lines| - 1]) {
      JoinSnoc(kept, "", "\n");
      assert Join(kept, "\n") + "\n" + "" == Join(kept, "\n") + "\n";
    }
  }
}

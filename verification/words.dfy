/** `re.sub(rf"\b{re.escape(old)}\b", new, s)`: replacing the whole-word
    occurrences of a literal. `\b` holds between a word character (`\w`) and
    a non-word character or an end of the text; the search resumes after
    each replaced occurrence, and every boundary is judged on the original
    text. */
module Words {
  import opened Strings
  import opened Fields

  /** A whole-word occurrence of `w` at the start of `s`, given whether the
      character before `s` is a word character. */
  predicate WholeWordAt(s: string, w: string, prevWord: bool)
    requires |w| > 0
  {
    StartsWith(s, w)
    && prevWord != IsWordChar(w[0])
    && IsWordChar(w[|w| - 1]) != (|s| > |w| && IsWordChar(s[|w|]))
  }

  /** The substitution on the rest `s` of a text, given whether the character
      before `s` is a word character. */
  function RenameFrom(s: string, from: string, to: string, prevWord: bool): string
    requires |from| > 0
    decreases |s|
  {
    if |s| == 0 then ""
    else if WholeWordAt(s, from, prevWord) then
      to + RenameFrom(s[|from|..], from, to, IsWordChar(from[|from| - 1]))
    else [s[0]] + RenameFrom(s[1..], from, to, IsWordChar(s[0]))
  }

  /** Replace every whole-word `from` in `s` by `to`. */
  function RenameWord(s: string, from: string, to: string): string
    requires |from| > 0
  {
    RenameFrom(s, from, to, false)
  }

  /** `w` has no whole-word occurrence in `s`. */
  predicate NoWholeWord(s: string, w: string, prevWord: bool)
    requires |w| > 0
    decreases |s|
  {
    |s| == 0 || (!WholeWordAt(s, w, prevWord) && NoWholeWord(s[1..], w, IsWordChar(s[0])))
  }

  /** Renaming a word that does not occur changes nothing. */
  lemma {:induction false} RenameAbsent(s: string, from: string, to: string, prevWord: bool)
    requires |from| > 0 && NoWholeWord(s, from, prevWord)
    ensures RenameFrom(s, from, to, prevWord) == s
    decreases |s|
  {
    if |s| > 0 {
      RenameAbsent(s[1..], from, to, IsWordChar(s[0]));
    }
  }

  /** A text without whole-word `w` has none in any of its suffixes either. */
  lemma {:induction false} NoWholeWordSuffix(s: string, w: string, prevWord: bool, k: nat)
    requires |w| > 0 && NoWholeWord(s, w, prevWord) && 0 < k <= |s|
    ensures NoWholeWord(s[k..], w, IsWordChar(s[k - 1]))
    decreases k
  {
    if k > 1 {
      NoWholeWordSuffix(s[1..], w, IsWordChar(s[0]), k - 1);
      assert s[1..][k - 1..] == s[k..];
    }
  }

  /** A run of word characters without its first one. */
  lemma WordRunTail(x: string, r: nat)
    requires 0 < r <= |x| && AllWordChars(x[..r])
    ensures AllWordChars(x[1..][..r - 1])
  {
    assert x[1..][..r - 1] == x[..r][1..];
  }

  /** Inside a run of word characters nothing is renamed: a whole word starts
      only after a non-word character when it starts with a word character. */
  lemma {:induction false} CopyRun(x: string, from: string, to: string, r: nat)
    requires |from| > 0 && AllWordChars(from)
    requires r <= |x| && AllWordChars(x[..r])
    ensures RenameFrom(x, from, to, true) == x[..r] + RenameFrom(x[r..], from, to, true)
    decreases r
  {
    if r > 0 {
      assert IsWordChar(x[..r][0]);
      assert !WholeWordAt(x, from, true);
      WordRunTail(x, r);
      CopyRun(x[1..], from, to, r - 1);
      assert x[1..][r - 1..] == x[r..];
      assert [x[0]] + x[1..][..r - 1] == x[..r];
    }
  }

  /** The leading word of a text that starts with a word character is
      copied as it is. */
  lemma FrontRun(s: string, from: string, to: string, r: nat)
    requires |from| > 0 && AllWordChars(from)
    requires |s| > 0 && IsWordChar(s[0]) && r == WordEnd(s, 0)
    ensures [s[0]] + RenameFrom(s[1..], from, to, true) == s[..r] + RenameFrom(s[r..], from, to, true)
  {
    assert s[..r] == s[0..r];
    WordRunTail(s, r);
    CopyRun(s[1..], from, to, r - 1);
    var x, y := s[1..][..r - 1], RenameFrom(s[r..], from, to, true);
    assert s[1..][r - 1..] == s[r..];
    assert RenameFrom(s[1..], from, to, true) == x + y;
    assert [s[0]] + x == s[..r];
    assert [s[0]] + (x + y) == ([s[0]] + x) + y;
  }

  /** Two texts that agree on a leading word and on the character that ends
      it agree on whether a word `to` stands whole at their front. */
  lemma SameFrontWord(out: string, s: string, r: nat, to: string)
    requires |to| > 0 && AllWordChars(to)
    requires r <= |s| && r <= |out| && out[..r] == s[..r] && AllWordChars(s[..r])
    requires r < |s| ==> r < |out| && out[r] == s[r] && !IsWordChar(s[r])
    requires r == |s| ==> out == s
    ensures WholeWordAt(out, to, false) ==> WholeWordAt(s, to, false)
  {
    if WholeWordAt(out, to, false) && r < |s| {
      assert |to| == r;
      assert s[..|to|] == to;
    }
  }

  /** After renaming, a whole-word `to` at the front of the output was at
      the front of the input already: the leading word of the text is copied
      as it is, with the character that ends it. */
  lemma FrontWordKept(s: string, from: string, to: string)
    requires |from| > 0 && AllWordChars(from) && |to| > 0 && AllWordChars(to)
    requires |s| > 0 && IsWordChar(s[0])
    ensures var out := [s[0]] + RenameFrom(s[1..], from, to, true);
            WholeWordAt(out, to, false) ==> WholeWordAt(s, to, false)
  {
    var out := [s[0]] + RenameFrom(s[1..], from, to, true);
    var r := WordEnd(s, 0);
    FrontRun(s, from, to, r);
    var rest := RenameFrom(s[r..], from, to, true);
    assert out == s[..r] + rest;
    assert out[..r] == s[..r];
    if r < |s| {
      assert !WholeWordAt(s[r..], from, true);
      assert rest == [s[r]] + RenameFrom(s[r + 1..], from, to, IsWordChar(s[r]));
    } else {
      assert s[r..] == [];
    }
    SameFrontWord(out, s, r, to);
  }

  /** Renaming `from` to `to` and then `to` back to `from` restores the text,
      when `to` did not occur as a whole word in it and both are words. */
  lemma {:induction false} RenameBack(s: string, from: string, to: string, prevWord: bool)
    requires |from| > 0 && AllWordChars(from) && |to| > 0 && AllWordChars(to)
    requires NoWholeWord(s, to, prevWord)
    ensures RenameFrom(RenameFrom(s, from, to, prevWord), to, from, prevWord) == s
    decreases |s|
  {
    if |s| > 0 {
      var out := RenameFrom(s, from, to, prevWord);
      if WholeWordAt(s, from, prevWord) {
        var rest := s[|from|..];
        var mid := RenameFrom(rest, from, to, true);
        assert out == to + mid;
        if |rest| > 0 {
          assert !WholeWordAt(rest, from, true);
          assert mid == [rest[0]] + RenameFrom(rest[1..], from, to, IsWordChar(rest[0]));
          assert out[|to|] == rest[0];
        }
        assert out[..|to|] == to;
        assert WholeWordAt(out, to, prevWord);
        assert out[|to|..] == mid;
        NoWholeWordSuffix(s, to, prevWord, |from|);
        assert s[|from| - 1] == from[|from| - 1];
        RenameBack(rest, from, to, true);
        assert from + rest == s;
      } else {
        var mid := RenameFrom(s[1..], from, to, IsWordChar(s[0]));
        assert out == [s[0]] + mid;
        if IsWordChar(s[0]) && !prevWord {
          FrontWordKept(s, from, to);
        }
        assert !WholeWordAt(out, to, prevWord);
        assert out[1..] == mid;
        RenameBack(s[1..], from, to, IsWordChar(s[0]));
        assert [s[0]] + s[1..] == s;
      }
    }
  }
}

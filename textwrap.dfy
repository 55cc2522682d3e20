/** `resizeText` (src/tk_mod.py): the line breaking the mod widget applies to
    a mod's title, author and description before showing them. */
module TextWrap {
  import opened Wrappers
  import opened Strings

  /** Index of the last space among the first `n` characters of `text`, or
      -1 when there is none: `text.rfind(" ", 0, n)`. */
  function LastSpaceBefore(text: string, n: nat): (i: int)
    requires n <= |text|
    ensures -1 <= i < n
    ensures i >= 0 ==> text[i] == ' '
    ensures forall j :: i < j < n ==> text[j] != ' '
  {
    if n == 0 then -1
    else if text[n - 1] == ' ' then n - 1
    else LastSpaceBefore(text, n - 1)
  }

  /** Where a line too long for `n` characters is cut: at its last space
      before position `n`, or at `n` itself when there is no such space. */
  function SplitIndex(text: string, n: nat): (k: nat)
    requires n < |text|
    ensures k <= n
    ensures k < n ==> text[k] == ' ' && forall j :: k < j < n ==> text[j] != ' '
    ensures k == n ==> forall j :: 0 <= j < n ==> text[j] != ' '
  {
    var i := LastSpaceBefore(text, n);
    if i == -1 then n else i
  }

  /** The lines the loop of `resizeText` collects, as the code is written:
      after every cut, the character at the cut is skipped, whether it is
      the space the cut was made at or not. */
  function Lines(text: string, n: nat): seq<string>
    decreases |text|
  {
    if text == [] then []
    else if |text| <= n then [text]
    else
      var k := SplitIndex(text, n);
      [text[..k]] + Lines(text[k + 1..], n)
  }

  /** `resizeText(text, maxLineLength)`. */
  method ResizeText(text: string, maxLineLength: nat) returns (r: string)
    ensures r == JoinWith("\n", Lines(text, maxLineLength))
  {
    var lines: seq<string> := [];
    var rest := text;
    while rest != []
      invariant lines + Lines(rest, maxLineLength) == Lines(text, maxLineLength)
      decreases |rest|
    {
      if |rest| <= maxLineLength {
        assert Lines(rest, maxLineLength) == [rest];
        lines := lines + [rest];
        break;
      }
      var k := SplitIndex(rest, maxLineLength);
      assert Lines(rest, maxLineLength) == [rest[..k]] + Lines(rest[k + 1..], maxLineLength);
      assert lines + Lines(rest, maxLineLength) == (lines + [rest[..k]]) + Lines(rest[k + 1..], maxLineLength);
      lines := lines + [rest[..k]];
      rest := rest[k + 1..];
    }
    assert lines + [] == lines;
    r := JoinWith("\n", lines);
  }

  /** No line is longer than `n`. */
  lemma {:induction false} LinesFit(text: string, n: nat)
    ensures forall i :: 0 <= i < |Lines(text, n)| ==> |Lines(text, n)[i]| <= n
    decreases |text|
  {
    if text != [] && |text| > n {
      var k := SplitIndex(text, n);
      LinesFit(text[k + 1..], n);
      assert Lines(text, n) == [text[..k]] + Lines(text[k + 1..], n);
    }
  }

  /** A text that already fits is returned as it is. */
  lemma ShortTextUnchanged(text: string, n: nat)
    requires |text| <= n
    ensures JoinWith("\n", Lines(text, n)) == text
  {
  }

  /** The lines together with one character per cut never need more room
      than the text. */
  lemma {:induction false} LinesBudget(text: string, n: nat)
    ensures TotalLength(Lines(text, n)) + |Lines(text, n)| <= |text| + 1
    ensures text != [] <==> Lines(text, n) != []
    decreases |text|
  {
    if text != [] && |text| > n {
      var k := SplitIndex(text, n);
      LinesBudget(text[k + 1..], n);
      assert Lines(text, n)[1..] == Lines(text[k + 1..], n);
    }
  }

  /** The resized text is never longer than the original: each newline
      takes the place of a skipped character. */
  lemma ResizedNoLonger(text: string, n: nat)
    ensures |JoinWith("\n", Lines(text, n))| <= |text|
  {
    LinesBudget(text, n);
    if text != [] {
      JoinWithLength("\n", Lines(text, n));
    }
  }

  /** A word longer than the line loses the character at the cut: with
      lines of 2, `abcde` becomes `ab` and `de`, and `c` is gone. */
  lemma HardCutDropsCharacter()
    ensures Lines("abcde", 2) == ["ab", "de"]
    ensures Letters(JoinWith("\n", Lines("abcde", 2))) != Letters("abcde")
  {
    assert SplitIndex("abcde", 2) == 2;
    assert "abcde"[3..] == "de" && "abcde"[..2] == "ab";
    assert Lines("de", 2) == ["de"];
    assert JoinWith("\n", ["ab", "de"]) == "ab\nde";
    assert Letters("ab\nde") == "abde" by {
      assert "ab\nde"[1..] == "b\nde" && "b\nde"[1..] == "\nde" && "\nde"[1..] == "de";
      assert "de"[1..] == "e";
    }
    assert |Letters("abcde")| == 5 by {
      assert "abcde"[1..] == "bcde" && "bcde"[1..] == "cde" && "cde"[1..] == "de" && "de"[1..] == "e";
    }
  }

  /** The characters of `s` other than spaces and newlines, in order. */
  function Letters(s: string): string
    decreases |s|
  {
    if s == [] then []
    else (if s[0] == ' ' || s[0] == '\n' then [] else [s[0]]) + Letters(s[1..])
  }

  lemma {:induction false} LettersAppend(a: string, b: string)
    ensures Letters(a + b) == Letters(a) + Letters(b)
    decreases |a|
  {
    if a == [] {
      assert a + b == b;
    } else {
      assert (a + b)[0] == a[0];
      assert (a + b)[1..] == a[1..] + b;
      LettersAppend(a[1..], b);
    }
  }

  /** The evidently intended loop: a cut at a space skips that space, a cut
      inside a word keeps every character. */
  function FixedLines(text: string, n: nat): seq<string>
    requires n > 0
    decreases |text|
  {
    if text == [] then []
    else if |text| <= n then [text]
    else
      var k := SplitIndex(text, n);
      if k < n then [text[..k]] + FixedLines(text[k + 1..], n)
      else [text[..n]] + FixedLines(text[n..], n)
  }

  lemma JoinWithCons(sep: string, a: string, rest: seq<string>)
    ensures JoinWith(sep, [a] + rest) == if rest == [] then a else a + sep + JoinWith(sep, rest)
  {
    assert ([a] + rest)[1..] == rest;
  }

  /** The letters of lines joined by newlines are those of the lines. */
  lemma LettersJoinCons(a: string, rest: seq<string>)
    ensures Letters(JoinWith("\n", [a] + rest)) == Letters(a) + Letters(JoinWith("\n", rest))
  {
    JoinWithCons("\n", a, rest);
    if rest != [] {
      var j := JoinWith("\n", rest);
      assert a + "\n" + j == a + ("\n" + j);
      LettersAppend(a, "\n" + j);
      LettersAppend("\n", j);
    }
  }

  /** With the fix, resizing only turns spaces into newlines or adds
      newlines: every other character survives, in order. */
  lemma {:induction false} FixedLinesKeepText(text: string, n: nat)
    requires n > 0
    ensures Letters(JoinWith("\n", FixedLines(text, n))) == Letters(text)
    decreases |text|
  {
    if text != [] && |text| > n {
      var k := SplitIndex(text, n);
      var cut := if k < n then k + 1 else n;
      var rest := text[cut..];
      FixedLinesKeepText(rest, n);
      assert FixedLines(text, n) == [text[..k]] + FixedLines(rest, n);
      LettersJoinCons(text[..k], FixedLines(rest, n));
      if k < n {
        LettersSkipSpace(text, k);
      } else {
        LettersCut(text, k);
      }
    }
  }

  lemma LettersCut(text: string, k: nat)
    requires k <= |text|
    ensures Letters(text) == Letters(text[..k]) + Letters(text[k..])
  {
    assert text == text[..k] + text[k..];
    LettersAppend(text[..k], text[k..]);
  }

  /** Cutting at a space loses no letter. */
  lemma LettersSkipSpace(text: string, k: nat)
    requires k < |text| && text[k] == ' '
    ensures Letters(text) == Letters(text[..k]) + Letters(text[k + 1..])
  {
    LettersCut(text, k);
    assert text[k..][1..] == text[k + 1..];
  }

  /** With the fix no line is longer than `n` either. */
  lemma {:induction false} FixedLinesFit(text: string, n: nat)
    requires n > 0
    ensures forall i :: 0 <= i < |FixedLines(text, n)| ==> |FixedLines(text, n)[i]| <= n
    decreases |text|
  {
    if text != [] && |text| > n {
      var k := SplitIndex(text, n);
      var cut := if k < n then k + 1 else n;
      FixedLinesFit(text[cut..], n);
      assert FixedLines(text, n) == [text[..k]] + FixedLines(text[cut..], n);
    }
  }

  /** A slice bound as Python reads it: a negative bound counts from the
      end, and the result is clamped to `[0, len]`. */
  function SliceBound(i: int, len: nat): (b: nat)
    ensures b <= len
    ensures 0 <= i <= len ==> b == i
    ensures i < 0 && len + i >= 0 ==> b == len + i
  {
    if i < 0 then (if len + i < 0 then 0 else len + i)
    else if i > len then len
    else i
  }

  /** One turn of the loop of `resizeText` for any integer width, as the
      code is written: `None` when the text fits and the loop ends, else the
      line appended and the text the loop goes on with. */
  function StepAsWritten(text: string, n: int): (r: Option<(string, string)>)
    ensures r.None? <==> |text| <= n
  {
    if |text| <= n then None
    else
      var i := LastSpaceBefore(text, SliceBound(n, |text|));
      var k := if i == -1 then n else i;
      Some((text[..SliceBound(k, |text|)], text[SliceBound(k + 1, |text|)..]))
  }

  /** For a width that is not negative the turn is the one `Lines` takes. */
  lemma StepMatchesLines(text: string, n: nat)
    requires |text| > n
    ensures StepAsWritten(text, n) == Some((text[..SplitIndex(text, n)], text[SplitIndex(text, n) + 1..]))
  {
  }

  /** With a negative width the loop never ends: a turn on a non-empty
      text never breaks and always leaves a non-empty text, so `while text`
      goes on forever. */
  lemma NegativeWidthNeverEnds(text: string, n: int)
    requires text != [] && n < 0
    ensures StepAsWritten(text, n).Some?
    ensures StepAsWritten(text, n).value.1 != []
  {
    var end := SliceBound(n, |text|);
    var i := LastSpaceBefore(text, end);
    assert end < |text|;
    if i != -1 {
      assert SliceBound(i + 1, |text|) == i + 1;
    }
  }

  /** `resizeText("ab", -1)` appends `"a"` and goes on with `"ab"` again. */
  lemma NegativeWidthExample()
    ensures StepAsWritten("ab", -1) == Some(("a", "ab"))
  {
    assert LastSpaceBefore("ab", 1) == -1;
    assert "ab"[..1] == "a";
  }
}

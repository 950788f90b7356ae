/**
 * Translation of a selection (location, length) in the buffer to the set of
 * 1-based logical lines it selects, as the editor's coordinator recomputes it on
 * every selection change.
 */
module Selection {
  import opened LineIndex

  /** The selection [location, location + length) lies inside the buffer. */
  predicate InBounds(text: string, location: nat, length: nat)
  {
    location + length <= |text|
  }

  /** Line of the selection's start. */
  function StartLine(text: string, location: nat, length: nat): (line: int)
    requires InBounds(text, location, length)
    ensures line == CountNewlines(text[..location]) + 1
    ensures 1 <= line <= LineCount(text)
  {
    LineAt(text, location)
  }

  /**
   * Line of the selection's end, one less when the character just before the
   * end is a line break (the following line is not selected).
   */
  function EndLine(text: string, location: nat, length: nat): (line: int)
    requires InBounds(text, location, length)
    ensures 1 <= line <= LineCount(text)
    ensures location + length > 0 && text[location + length - 1] == Newline
            ==> line == CountNewlines(text[..location + length - 1]) + 1
  {
    var end := location + length;
    assert 0 < end && text[end - 1] == Newline
           ==> CountNewlines(text[..end]) == CountNewlines(text[..end - 1]) + 1 by {
      if 0 < end && text[end - 1] == Newline {
        assert text[..end] == text[..end - 1] + [Newline];
        CountNewlinesAppend(text[..end - 1], [Newline]);
      }
    }
    LineAt(text, end) - (if 0 < end <= |text| && text[end - 1] == Newline then 1 else 0)
  }

  /**
   * The lines the selection touches: for a caret, the line it stands on; for a
   * range, every line holding at least one selected character.
   */
  function LinesTouched(text: string, location: nat, length: nat): (lines: set<int>)
    requires InBounds(text, location, length)
    ensures LineAt(text, location) in lines
  {
    if length == 0 then {LineAt(text, location)}
    else set p: nat | location <= p < location + length :: LineAt(text, p)
  }

  /** The inclusive integer range lo...hi as a set. */
  function Range(lo: int, hi: int): (r: set<int>)
    ensures forall l :: l in r <==> lo <= l <= hi
    decreases hi - lo
  {
    if lo > hi then {} else Range(lo, hi - 1) + {hi}
  }

  /**
   * For a range selection the end line is the line of the last selected
   * character, so the start line never exceeds it and `startLine...endLine`
   * is a well-formed range; every line in it lies within the buffer's lines.
   */
  lemma RangeNeverTraps(text: string, location: nat, length: nat)
    requires InBounds(text, location, length) && length > 0
    ensures EndLine(text, location, length) == LineAt(text, location + length - 1)
    ensures 1 <= StartLine(text, location, length) <= EndLine(text, location, length) <= LineCount(text)
  {
    LineAtStep(text, location + length - 1);
    LineAtMonotone(text, location, location + length - 1);
  }

  /** A range selection selects exactly the contiguous lines startLine...endLine. */
  lemma RangeSelection(text: string, location: nat, length: nat)
    requires InBounds(text, location, length) && length > 0
    ensures LinesTouched(text, location, length)
         == Range(StartLine(text, location, length), EndLine(text, location, length))
  {
    RangeNeverTraps(text, location, length);
    var lo, hi := StartLine(text, location, length), EndLine(text, location, length);
    var last := location + length - 1;
    forall p: nat | location <= p < location + length
      ensures lo <= LineAt(text, p) <= hi
    {
      LineAtMonotone(text, location, p);
      LineAtMonotone(text, p, last);
    }
    forall l | lo <= l <= hi
      ensures l in LinesTouched(text, location, length)
    {
      LineAtReaches(text, location, last, l);
      var p :| location <= p <= last && LineAt(text, p) == l;
    }
  }

  /** A caret selects the single line it stands on. */
  lemma CaretSelection(text: string, location: nat)
    requires InBounds(text, location, 0)
    ensures LinesTouched(text, location, 0) == {CountNewlines(text[..location]) + 1}
  {
  }

  /** Every selected line is a line of the buffer, and something is always selected. */
  lemma {:induction false} SelectionWithinLines(text: string, location: nat, length: nat)
    requires InBounds(text, location, length)
    ensures LinesTouched(text, location, length) != {}
    ensures forall l :: l in LinesTouched(text, location, length) ==> 1 <= l <= LineCount(text)
  {
    if length > 0 {
      RangeSelection(text, location, length);
      RangeNeverTraps(text, location, length);
      assert StartLine(text, location, length) in Range(StartLine(text, location, length), EndLine(text, location, length));
    }
  }

  /**
   * The selected-line set as `textViewDidChangeSelection` builds it: a fresh
   * set filled by the loop over startLine...endLine, or the caret's line.
   */
  method SelectedLinesFor(text: string, location: nat, length: nat) returns (lines: set<int>)
    requires InBounds(text, location, length)
    ensures lines == LinesTouched(text, location, length)
  {
    lines := {};
    if length > 0 {
      var startLine := |Components(text[..location])|;
      var endLine := |Components(text[..location + length])|;
      var endIndex := location + length;
      if endIndex > 0 && endIndex <= |text| {
        if text[endIndex - 1] == Newline {
          endLine := endLine - 1;
        }
      }
      assert startLine == StartLine(text, location, length);
      assert endLine == EndLine(text, location, length);
      RangeNeverTraps(text, location, length);
      RangeSelection(text, location, length);
      assert startLine <= endLine;
      for line := startLine to endLine + 1
        invariant lines == Range(startLine, line - 1)
      {
        lines := lines + {line};
      }
    } else {
      var currentLine := |Components(text[..location])|;
      lines := lines + {currentLine};
    }
  }

  /** A caret at 0 in "abc" is on line 1; a caret at 4 in "ab\ncd" is on line 2. */
  lemma CaretExamples()
    ensures LinesTouched("abc", 0, 0) == {1}
    ensures LinesTouched("ab\ncd", 4, 0) == {2}
  {
    assert "ab\ncd"[..4] == "ab\nc";
    assert CountNewlines("ab\nc") == 1 by {
      assert "ab\nc"[1..] == "b\nc";
      assert "b\nc"[1..] == "\nc";
      assert "\nc"[1..] == "c";
      assert "c"[1..] == "";
    }
  }

  /** Selecting "ab\n" in "ab\ncd" selects line 1 only, not the line after the break. */
  lemma RangeEndingAtBreakExample()
    ensures LinesTouched("ab\ncd", 0, 3) == {1}
  {
    var text := "ab\ncd";
    RangeSelection(text, 0, 3);
    assert text[..2] == "ab";
    assert CountNewlines("ab") == 0 by {
      assert "ab"[1..] == "b";
      assert "b"[1..] == "";
    }
    RangeNeverTraps(text, 0, 3);
    assert Range(1, 1) == {1};
  }

  /** In "a\nb\nc\nd", offsets 2 and 3 are on line 2 and offset 4 on line 3. */
  lemma AcrossLinesOffsets()
    ensures LineAt("a\nb\nc\nd", 2) == 2 && LineAt("a\nb\nc\nd", 3) == 2 && LineAt("a\nb\nc\nd", 4) == 3
  {
    var text := "a\nb\nc\nd";
    assert text[..0] == "";
    assert LineAt(text, 0) == 1;
    LineAtStep(text, 0);
    LineAtStep(text, 1);
    LineAtStep(text, 2);
    LineAtStep(text, 3);
  }

  /** Selecting "b\nc" in "a\nb\nc\nd" selects lines 2 and 3. */
  lemma RangeAcrossLinesExample()
    ensures LinesTouched("a\nb\nc\nd", 2, 3) == {2, 3}
  {
    var text := "a\nb\nc\nd";
    AcrossLinesOffsets();
    var lines := LinesTouched(text, 2, 3);
    forall l | l in lines
      ensures l == 2 || l == 3
    {
      var p: nat :| 2 <= p < 5 && LineAt(text, p) == l;
    }
    assert LineAt(text, 2) in lines && LineAt(text, 4) in lines;
  }
}

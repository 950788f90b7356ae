/**
 * Logical lines of a code block's text: the pieces of the buffer between
 * line-break characters. The editor counts them by splitting on "\n" the way
 * Foundation's `components(separatedBy:)` does, and counts the line under an
 * offset by splitting the prefix before it.
 */
module LineIndex {

  /** The only line-break character the editor recognises (no carriage returns). */
  const Newline: char := '\n'

  /** Number of line-break characters in s. */
  function CountNewlines(s: string): (n: nat)
    ensures n <= |s|
  {
    if s == [] then 0
    else (if s[0] == Newline then 1 else 0) + CountNewlines(s[1..])
  }

  lemma {:induction false} CountNewlinesAppend(a: string, b: string)
    ensures CountNewlines(a + b) == CountNewlines(a) + CountNewlines(b)
  {
    if a == [] {
      assert a + b == b;
    } else {
      assert (a + b)[0] == a[0];
      assert (a + b)[1..] == a[1..] + b;
      CountNewlinesAppend(a[1..], b);
    }
  }

  /** A string contains a line break exactly when it counts at least one. */
  lemma {:induction false} CountNewlinesPositive(s: string)
    ensures Newline in s <==> CountNewlines(s) > 0
  {
    if s != [] {
      CountNewlinesPositive(s[1..]);
      assert s == [s[0]] + s[1..];
    }
  }

  /** Splitting on "\n", as `components(separatedBy: "\n")`: always at least one piece. */
  function Components(s: string): (parts: seq<string>)
    ensures |parts| >= 1
    ensures forall i :: 0 <= i < |parts| ==> Newline !in parts[i]
  {
    if s == [] then [""]
    else
      var rest := Components(s[1..]);
      if s[0] == Newline then [""] + rest
      else [[s[0]] + rest[0]] + rest[1..]
  }

  /** The pieces put back together with "\n" between them. */
  function Join(parts: seq<string>): string
    requires |parts| >= 1
  {
    if |parts| == 1 then parts[0] else parts[0] + [Newline] + Join(parts[1..])
  }

  /** Splitting loses nothing: joining the pieces gives the text back. */
  lemma {:induction false} JoinComponents(s: string)
    ensures Join(Components(s)) == s
  {
    if s != [] {
      var rest := Components(s[1..]);
      JoinComponents(s[1..]);
      if s[0] != Newline && |rest| > 1 {
        assert Join(rest) == rest[0] + [Newline] + Join(rest[1..]);
      }
    }
  }

  /** Splitting a piece without line breaks in front of s extends the first piece of s. */
  lemma {:induction false} ComponentsPrefix(p: string, s: string)
    requires Newline !in p
    ensures Components(p + s) == [p + Components(s)[0]] + Components(s)[1..]
  {
    if p == [] {
      assert p + s == s;
      assert Components(s) == [Components(s)[0]] + Components(s)[1..];
      assert p + Components(s)[0] == Components(s)[0];
    } else {
      assert (p + s)[0] == p[0];
      assert (p + s)[1..] == p[1..] + s;
      ComponentsPrefix(p[1..], s);
      assert [p[0]] + (p[1..] + Components(s)[0]) == p + Components(s)[0];
    }
  }

  /** Joining pieces free of line breaks and splitting again gives the same pieces. */
  lemma {:induction false} ComponentsJoin(parts: seq<string>)
    requires |parts| >= 1
    requires forall i :: 0 <= i < |parts| ==> Newline !in parts[i]
    ensures Components(Join(parts)) == parts
  {
    if |parts| == 1 {
      ComponentsPrefix(parts[0], []);
      assert parts[0] + [] == parts[0];
    } else {
      var tail := [Newline] + Join(parts[1..]);
      assert tail[1..] == Join(parts[1..]);
      ComponentsJoin(parts[1..]);
      assert Components(tail) == [""] + parts[1..];
      ComponentsPrefix(parts[0], tail);
      assert parts[0] + [Newline] + Join(parts[1..]) == parts[0] + tail;
      assert parts[0] + "" == parts[0];
    }
  }

  /** There is one more piece than there are line breaks. */
  lemma {:induction false} ComponentsCount(s: string)
    ensures |Components(s)| == CountNewlines(s) + 1
  {
    if s != [] {
      ComponentsCount(s[1..]);
    }
  }

  /** Number of logical lines of the buffer: 1 for the empty buffer, otherwise the number of pieces. */
  function LineCount(text: string): (n: int)
    ensures n >= 1
    ensures n == CountNewlines(text) + 1
  {
    ComponentsCount(text);
    if text == [] then 1 else |Components(text)|
  }

  /** The 1-based logical line an offset falls on: the number of pieces of the text before it. */
  function LineAt(text: string, offset: nat): (line: int)
    requires offset <= |text|
    ensures line == CountNewlines(text[..offset]) + 1
    ensures 1 <= line <= LineCount(text)
  {
    ComponentsCount(text[..offset]);
    assert text[..offset] + text[offset..] == text;
    CountNewlinesAppend(text[..offset], text[offset..]);
    |Components(text[..offset])|
  }

  /** Moving one character right moves one line down exactly when that character is a line break. */
  lemma LineAtStep(text: string, p: nat)
    requires p < |text|
    ensures LineAt(text, p + 1) == LineAt(text, p) + (if text[p] == Newline then 1 else 0)
  {
    assert text[..p + 1] == text[..p] + [text[p]];
    CountNewlinesAppend(text[..p], [text[p]]);
  }

  /** Line numbers never decrease from left to right. */
  lemma {:induction false} LineAtMonotone(text: string, p: nat, q: nat)
    requires p <= q <= |text|
    ensures LineAt(text, p) <= LineAt(text, q)
  {
    if p < q {
      LineAtMonotone(text, p, q - 1);
      LineAtStep(text, q - 1);
    }
  }

  /**
   * Between two offsets every intermediate line number is reached: line numbers
   * grow by at most one per character.
   */
  lemma {:induction false} LineAtReaches(text: string, a: nat, b: nat, line: int)
    requires a <= b <= |text|
    requires LineAt(text, a) <= line <= LineAt(text, b)
    ensures exists p :: a <= p <= b && LineAt(text, p) == line
  {
    if LineAt(text, b) == line {
      assert LineAt(text, b) == line;
    } else {
      LineAtStep(text, b - 1);
      LineAtReaches(text, a, b - 1, line);
      var p :| a <= p <= b - 1 && LineAt(text, p) == line;
      assert a <= p <= b;
    }
  }

  /** Line counts of three small buffers. */
  lemma LineCountExamples()
    ensures LineCount("") == 1
    ensures LineCount("a\nb\nc") == 3
    ensures LineCount("a\n") == 2
  {
    assert CountNewlines("a\nb\nc") == 2 by {
      assert "a\nb\nc"[1..] == "\nb\nc";
      assert "\nb\nc"[1..] == "b\nc";
      assert "b\nc"[1..] == "\nc";
      assert "\nc"[1..] == "c";
      assert "c"[1..] == "";
    }
    assert CountNewlines("a\n") == 1 by {
      assert "a\n"[1..] == "\n";
      assert "\n"[1..] == "";
    }
  }
}

/**
 * Reconciliation of visual line fragments with logical lines: the height of each
 * logical line is the sum of the heights of the visual fragments it wraps into,
 * as `updateLineCount` computes it after every layout pass.
 */
module Heights {
  import opened LineIndex

  /** One visual line fragment reported by the layout: its rendered height and the text it covers. */
  datatype Fragment = Fragment(height: nat, slice: string)

  /** A fragment whose text holds a line break ends a logical line. */
  predicate ClosesLine(f: Fragment)
  {
    Newline in f.slice
  }

  /**
   * Heights of the logical lines that the fragments close, given the height acc
   * already gathered for the open line; a positive height still open at the end
   * becomes the last entry.
   */
  function Close(fs: seq<Fragment>, acc: nat): (r: seq<nat>)
    ensures |r| <= |fs| + 1
  {
    if fs == [] then (if acc > 0 then [acc] else [])
    else
      var h := acc + fs[0].height;
      if ClosesLine(fs[0]) then [h] + Close(fs[1..], 0) else Close(fs[1..], h)
  }

  /** k copies of the default height (none when k is not positive). */
  function Repeat(d: nat, k: int): (r: seq<nat>)
    ensures |r| == if k < 0 then 0 else k
    ensures forall i :: 0 <= i < |r| ==> r[i] == d
  {
    if k <= 0 then [] else Repeat(d, k - 1) + [d]
  }

  /**
   * The per-line heights after a layout pass: the closed heights, padded with the
   * default line height up to the buffer's line count, and a single default entry
   * if that leaves nothing.
   */
  function Reconciled(text: string, fs: seq<Fragment>, d: nat): (r: seq<nat>)
    ensures |r| == if |Close(fs, 0)| < LineCount(text) then LineCount(text) else |Close(fs, 0)|
    ensures r[..|Close(fs, 0)|] == Close(fs, 0)
    ensures forall i :: |Close(fs, 0)| <= i < |r| ==> r[i] == d
  {
    var raw := Close(fs, 0);
    var padded := raw + Repeat(d, LineCount(text) - |raw|);
    if padded == [] then [d] else padded
  }

  /** Sum of a list of heights. */
  function Total(hs: seq<nat>): nat
  {
    if hs == [] then 0 else hs[0] + Total(hs[1..])
  }

  /** Sum of the fragments' heights. */
  function FragmentsHeight(fs: seq<Fragment>): nat
  {
    if fs == [] then 0 else fs[0].height + FragmentsHeight(fs[1..])
  }

  /** Number of fragments that end a logical line. */
  function ClosingCount(fs: seq<Fragment>): nat
  {
    if fs == [] then 0 else (if ClosesLine(fs[0]) then 1 else 0) + ClosingCount(fs[1..])
  }

  /** The buffer text the fragments cover, in order. */
  function Covered(fs: seq<Fragment>): string
  {
    if fs == [] then "" else fs[0].slice + Covered(fs[1..])
  }

  lemma {:induction false} TotalAppend(a: seq<nat>, b: seq<nat>)
    ensures Total(a + b) == Total(a) + Total(b)
  {
    if a == [] {
      assert a + b == b;
    } else {
      assert (a + b)[1..] == a[1..] + b;
      TotalAppend(a[1..], b);
    }
  }

  /** No fragment height is lost: the entries sum to the open height plus all fragment heights. */
  lemma {:induction false} CloseTotal(fs: seq<Fragment>, acc: nat)
    ensures Total(Close(fs, acc)) == acc + FragmentsHeight(fs)
  {
    if fs != [] {
      var h := acc + fs[0].height;
      if ClosesLine(fs[0]) {
        CloseTotal(fs[1..], 0);
        assert ([h] + Close(fs[1..], 0))[1..] == Close(fs[1..], 0);
      } else {
        CloseTotal(fs[1..], h);
      }
    }
  }

  /** One entry per closing fragment, plus at most one for the line still open at the end. */
  lemma {:induction false} CloseLength(fs: seq<Fragment>, acc: nat)
    ensures ClosingCount(fs) <= |Close(fs, acc)| <= ClosingCount(fs) + 1
  {
    if fs != [] {
      var h := acc + fs[0].height;
      if ClosesLine(fs[0]) { CloseLength(fs[1..], 0); } else { CloseLength(fs[1..], h); }
    }
  }

  /**
   * A logical line that wraps into several fragments, none of which holds a line
   * break, gets one entry: the sum of their heights.
   */
  lemma {:induction false} WrappedLine(fs: seq<Fragment>, acc: nat)
    requires forall i :: 0 <= i < |fs| ==> !ClosesLine(fs[i])
    requires acc + FragmentsHeight(fs) > 0
    ensures Close(fs, acc) == [acc + FragmentsHeight(fs)]
  {
    if fs != [] {
      assert !ClosesLine(fs[0]);
      WrappedLine(fs[1..], acc + fs[0].height);
    }
  }

  /**
   * Entries keep fragment order: the lines closed by a prefix ending in a
   * closing fragment come first, then those of the rest.
   */
  lemma {:induction false} CloseAppend(a: seq<Fragment>, b: seq<Fragment>, acc: nat)
    requires a != [] && ClosesLine(a[|a| - 1])
    ensures Close(a + b, acc) == Close(a, acc) + Close(b, 0)
  {
    var h := acc + a[0].height;
    assert (a + b)[0] == a[0];
    assert (a + b)[1..] == a[1..] + b;
    if |a| == 1 {
      assert a[1..] == [];
      assert a[1..] + b == b;
    } else {
      if ClosesLine(a[0]) {
        CloseAppend(a[1..], b, 0);
      } else {
        CloseAppend(a[1..], b, h);
      }
    }
  }

  /** Only positive heights come out of positive fragments and a positive default. */
  lemma {:induction false} ClosePositive(fs: seq<Fragment>, acc: nat)
    requires forall i :: 0 <= i < |fs| ==> fs[i].height > 0
    ensures forall i :: 0 <= i < |Close(fs, acc)| ==> Close(fs, acc)[i] > 0
  {
    if fs != [] {
      var h := acc + fs[0].height;
      if ClosesLine(fs[0]) { ClosePositive(fs[1..], 0); } else { ClosePositive(fs[1..], h); }
    }
  }

  /** Fragments that cover the text exactly close at most as many lines as it has breaks. */
  lemma {:induction false} ClosingCountBound(fs: seq<Fragment>)
    ensures ClosingCount(fs) <= CountNewlines(Covered(fs))
  {
    if fs != [] {
      ClosingCountBound(fs[1..]);
      CountNewlinesAppend(fs[0].slice, Covered(fs[1..]));
      CountNewlinesPositive(fs[0].slice);
    }
  }

  /** The empty-list fallback is never taken: padding already reaches the line count, at least 1. */
  lemma FallbackNeverTaken(text: string, fs: seq<Fragment>, d: nat)
    ensures Close(fs, 0) + Repeat(d, LineCount(text) - |Close(fs, 0)|) != []
  {
  }

  /**
   * When the fragments cover the buffer exactly, there is exactly one height per
   * logical line.
   */
  lemma OneHeightPerLine(text: string, fs: seq<Fragment>, d: nat)
    requires Covered(fs) == text
    ensures |Reconciled(text, fs, d)| == LineCount(text)
  {
    CloseLength(fs, 0);
    ClosingCountBound(fs);
  }

  /** Every entry is positive when the fragment heights and the default height are. */
  lemma ReconciledPositive(text: string, fs: seq<Fragment>, d: nat)
    requires d > 0
    requires forall i :: 0 <= i < |fs| ==> fs[i].height > 0
    ensures forall i :: 0 <= i < |Reconciled(text, fs, d)| ==> Reconciled(text, fs, d)[i] > 0
  {
    ClosePositive(fs, 0);
  }

  /** Before padding, the entries add up to the total fragment height. */
  lemma ReconciledKeepsHeight(text: string, fs: seq<Fragment>, d: nat)
    ensures Total(Reconciled(text, fs, d)[..|Close(fs, 0)|]) == FragmentsHeight(fs)
  {
    CloseTotal(fs, 0);
  }

  /** With no fragments every line gets the default height. */
  lemma NoFragments(text: string, d: nat)
    ensures Reconciled(text, [], d) == Repeat(d, LineCount(text))
  {
  }

  /** With no fragments, a three-line buffer gets three default heights. */
  lemma NoFragmentsExample(d: nat)
    ensures Reconciled("a\nb\nc", [], d) == [d, d, d]
  {
    LineCountExamples();
  }

  /**
   * The height computation of `updateLineCount`: accumulate fragment heights,
   * push the open height at each fragment holding a line break, push a positive
   * remainder, pad with the default height up to the line count, and never
   * return an empty list.
   */
  method ComputeHeights(text: string, fragments: seq<Fragment>, defaultLineHeight: nat)
    returns (heights: seq<nat>)
    ensures heights == Reconciled(text, fragments, defaultLineHeight)
  {
    var logicalLineCount := if text == [] then 1 else |Components(text)|;
    assert logicalLineCount == LineCount(text);
    heights := [];
    var current: nat := 0;
    for i := 0 to |fragments|
      invariant heights + Close(fragments[i..], current) == Close(fragments, 0)
    {
      assert fragments[i..][1..] == fragments[i + 1..];
      current := current + fragments[i].height;
      if Newline in fragments[i].slice {
        heights := heights + [current];
        current := 0;
      }
    }
    if current > 0 {
      heights := heights + [current];
    }
    assert heights == Close(fragments, 0);
    ghost var raw := heights;
    while |heights| < logicalLineCount
      invariant |raw| <= |heights| <= if |raw| < logicalLineCount then logicalLineCount else |raw|
      invariant heights == raw + Repeat(defaultLineHeight, |heights| - |raw|)
    {
      heights := heights + [defaultLineHeight];
    }
    if heights == [] {
      heights := heights + [defaultLineHeight];
    }
  }
}

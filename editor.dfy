/**
 * The editor's coordinator: it owns the text buffer and the edit-session flag,
 * answers the text view's notifications (edits, selection changes, key
 * commands), applies the host's content and language updates, and writes the
 * line count, per-line heights and selected lines into the state its view lends
 * it. Callbacks into the host are recorded, in order, as events.
 */
module Editor {
  import opened Options
  import opened LineIndex
  import Selection
  import Heights
  import Commands
  import Session
  import opened BlockView

  /** A callback the coordinator invokes on its host. */
  datatype Event =
    | Changed(content: string)   // onChange
    | Focused                    // onFocus
    | Unfocused                  // onUnfocus (focus is also given up)
    | DeleteBlockRequested       // onDeleteBlock

  /** The highlighter's language for a block tag: "plaintext" stands in for the empty tag. */
  function EffectiveLanguage(tag: string): (lang: string)
    ensures lang != ""
    ensures tag == "" ==> lang == "plaintext"
    ensures tag != "" ==> lang == tag
  {
    if tag == "" then "plaintext" else tag
  }

  /** The line count and heights a layout pass writes; no layout service gives 1 and no heights. */
  function LayoutResult(text: string, layout: Option<seq<Heights.Fragment>>, defaultLineHeight: nat): (r: (int, seq<nat>))
    ensures r.0 >= 1
    ensures layout.None? ==> r == (1, [])
    ensures layout.Some? ==> r.0 == LineCount(text) && |r.1| >= r.0
    ensures layout.Some? && Heights.Covered(layout.value) == text ==> |r.1| == r.0
  {
    assert layout.Some? && Heights.Covered(layout.value) == text
           ==> |Heights.Reconciled(text, layout.value, defaultLineHeight)| == LineCount(text) by {
      if layout.Some? && Heights.Covered(layout.value) == text {
        Heights.OneHeightPerLine(text, layout.value, defaultLineHeight);
      }
    }
    match layout
    case None => (1, [])
    case Some(fragments) => (LineCount(text), Heights.Reconciled(text, fragments, defaultLineHeight))
  }

  class Coordinator {
    const gutter: GutterState
    var buffer: string
    var storageLanguage: string
    var isEditing: bool
    var pendingResets: nat
    var hasDeleteHandler: bool
    var events: seq<Event>

    /** The part of the state the edit-session gate speaks about. */
    function SessionState(): Session.State
      reads this
    {
      Session.State(buffer, isEditing, pendingResets)
    }

    /** The flag is only up while some armed reset is still to fire. */
    predicate Valid()
      reads this
    {
      Session.Inv(SessionState())
    }

    /** The editor is created with the host's content and language; nothing is being edited. */
    constructor (content: string, language: string, hasDeleteHandler: bool, gutter: GutterState)
      ensures Valid()
      ensures SessionState() == Session.Initial(content)
      ensures storageLanguage == EffectiveLanguage(language)
      ensures this.hasDeleteHandler == hasDeleteHandler && this.gutter == gutter && events == []
    {
      this.gutter := gutter;
      storageLanguage := EffectiveLanguage(language);
      buffer := "";
      if content != "" {
        buffer := content;
      }
      isEditing := false;
      pendingResets := 0;
      this.hasDeleteHandler := hasDeleteHandler;
      events := [];
    }

    /**
     * `updateNSView`: the host pushes its content and language. The language is
     * assigned only when it differs; the buffer is replaced wholesale only when
     * no edit is in progress and the text differs. The deferred layout pass is
     * the separate `UpdateLineCount` call.
     */
    method UpdateNSView(content: string, language: string, hasDeleteHandler: bool)
      returns (languageAssigned: bool, replaced: bool)
      requires Valid()
      modifies this
      ensures Valid()
      ensures storageLanguage == EffectiveLanguage(language)
      ensures languageAssigned == (old(storageLanguage) != EffectiveLanguage(language))
      ensures SessionState() == Session.Step(old(SessionState()), Session.ExternalUpdate(content))
      ensures replaced == (!old(isEditing) && old(buffer) != content)
      ensures old(isEditing) ==> buffer == old(buffer)
      ensures !old(isEditing) ==> buffer == content
      ensures this.hasDeleteHandler == hasDeleteHandler && events == old(events)
    {
      this.hasDeleteHandler := hasDeleteHandler;
      var effectiveLanguage := EffectiveLanguage(language);
      languageAssigned := storageLanguage != effectiveLanguage;
      if languageAssigned {
        storageLanguage := effectiveLanguage;
      }
      replaced := !isEditing && buffer != content;
      if replaced {
        buffer := content;
      }
    }

    /** `textDidBeginEditing`. */
    method TextDidBeginEditing()
      modifies this
      ensures events == old(events) + [Focused]
      ensures SessionState() == old(SessionState()) && storageLanguage == old(storageLanguage)
      ensures hasDeleteHandler == old(hasDeleteHandler)
    {
      events := events + [Focused];
    }

    /**
     * `updateLineCount`: after a layout pass, write the line count and the
     * per-line heights into the view's state.
     */
    method UpdateLineCount(layout: Option<seq<Heights.Fragment>>, defaultLineHeight: nat)
      modifies gutter
      ensures (gutter.lineCount, gutter.logicalLineHeights) == LayoutResult(buffer, layout, defaultLineHeight)
      ensures gutter.selectedLines == old(gutter.selectedLines)
    {
      if layout.None? {
        gutter.lineCount := 1;
        gutter.logicalLineHeights := [];
        return;
      }
      var logicalLineCount := if buffer == [] then 1 else |Components(buffer)|;
      var heights := Heights.ComputeHeights(buffer, layout.value, defaultLineHeight);
      gutter.lineCount := logicalLineCount;
      gutter.logicalLineHeights := heights;
    }

    /**
     * `textDidChange`: the user changed the text to newText. The flag goes up,
     * the line count and heights are recomputed, the host is told, and a reset
     * of the flag is armed; earlier armed resets stay armed.
     */
    method TextDidChange(newText: string, layout: Option<seq<Heights.Fragment>>, defaultLineHeight: nat)
      requires Valid()
      modifies this, gutter
      ensures Valid()
      ensures SessionState() == Session.Step(old(SessionState()), Session.LocalEdit(newText))
      ensures events == old(events) + [Changed(newText)]
      ensures (gutter.lineCount, gutter.logicalLineHeights) == LayoutResult(newText, layout, defaultLineHeight)
      ensures gutter.selectedLines == old(gutter.selectedLines)
      ensures storageLanguage == old(storageLanguage) && hasDeleteHandler == old(hasDeleteHandler)
    {
      buffer := newText;
      isEditing := true;
      UpdateLineCount(layout, defaultLineHeight);
      events := events + [Changed(newText)];
      pendingResets := pendingResets + 1;
    }

    /** One armed reset runs: the flag goes down, whatever edits came after it was armed. */
    method ResetFires()
      requires Valid() && pendingResets > 0
      modifies this
      ensures Valid()
      ensures SessionState() == Session.Step(old(SessionState()), Session.ResetFires)
      ensures !isEditing && buffer == old(buffer)
      ensures events == old(events) && storageLanguage == old(storageLanguage)
      ensures hasDeleteHandler == old(hasDeleteHandler)
    {
      isEditing := false;
      pendingResets := pendingResets - 1;
    }

    /**
     * `textViewDidChangeSelection`: the selected lines are rebuilt from the new
     * selection alone and replace the previous set.
     */
    method TextViewDidChangeSelection(location: nat, length: nat)
      requires Selection.InBounds(buffer, location, length)
      modifies gutter
      ensures gutter.selectedLines == Selection.LinesTouched(buffer, location, length)
      ensures gutter.lineCount == old(gutter.lineCount)
      ensures gutter.logicalLineHeights == old(gutter.logicalLineHeights)
    {
      var newSelectedLines := Selection.SelectedLinesFor(buffer, location, length);
      gutter.selectedLines := newSelectedLines;
    }

    /**
     * `textView(_:doCommandBy:)`: escape and a backward delete at the start of a
     * blank block are consumed and reported to the host; everything else is
     * left to the text view.
     */
    method DoCommand(cmd: Commands.Command, location: nat, length: nat) returns (consumed: bool)
      modifies this
      ensures consumed == Commands.Consumed(Commands.React(cmd, buffer, location, length, hasDeleteHandler))
      ensures events == old(events) + match Commands.React(cmd, buffer, location, length, hasDeleteHandler)
        case Unfocus => [Unfocused]
        case DeleteBlock => [DeleteBlockRequested]
        case _ => []
      ensures SessionState() == old(SessionState()) && storageLanguage == old(storageLanguage)
      ensures hasDeleteHandler == old(hasDeleteHandler)
    {
      var reaction := Commands.React(cmd, buffer, location, length, hasDeleteHandler);
      match reaction {
        case Unfocus =>
          events := events + [Unfocused];
        case DeleteBlock =>
          events := events + [DeleteBlockRequested];
        case _ =>
      }
      consumed := reaction != Commands.PassOn;
    }
  }

  /**
   * After a layout pass over fragments that cover the buffer, the gutter has
   * exactly one row per logical line, and every line a selection touches has a
   * highlighted row.
   */
  lemma SelectedLinesHaveRows(text: string, fragments: seq<Heights.Fragment>, d: nat, location: nat, length: nat)
    requires Heights.Covered(fragments) == text
    requires Selection.InBounds(text, location, length)
    ensures var rows := GutterRows(Heights.Reconciled(text, fragments, d), Selection.LinesTouched(text, location, length));
      && |rows| == LineCount(text)
      && forall l :: l in Selection.LinesTouched(text, location, length) ==> rows[l - 1].number == l && rows[l - 1].highlighted
  {
    Heights.OneHeightPerLine(text, fragments, d);
    Selection.SelectionWithinLines(text, location, length);
  }

  /** A client run: an edit survives the host's stale push, and the host's next push after the reset is applied. */
  method EditWindowScenario(gutter: GutterState)
    modifies gutter
  {
    var c := new Coordinator("old", "", true, gutter);
    c.TextDidChange("typed", None, 16);
    var relabelled, replaced := c.UpdateNSView("old", "", true);
    assert !replaced && c.buffer == "typed";
    c.ResetFires();
    relabelled, replaced := c.UpdateNSView("pushed", "", true);
    assert replaced && c.buffer == "pushed";
    assert c.events == [Changed("typed")];
  }
}

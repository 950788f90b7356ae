/**
 * The editor's handling of key commands: escape gives up focus, and a backward
 * delete at the very start of a blank block asks the host to delete the block.
 */
module Commands {

  /** The editing commands the text view forwards: escape, backspace, or any other selector. */
  datatype Command = CancelOperation | DeleteBackward | OtherCommand

  /** What the coordinator does with a command. */
  datatype Reaction =
    | Unfocus      // onUnfocus is called and the view resigns first responder; consumed
    | DeleteBlock  // onDeleteBlock is called; consumed
    | Swallow      // consumed although no delete handler is installed
    | PassOn       // not handled: the text view performs the command itself

  /**
   * Foundation's `.whitespaces`: the Unicode space separators (category Zs)
   * and the horizontal tab; line breaks are not among them.
   */
  predicate IsWhitespace(c: char)
    ensures IsWhitespace(c) ==> c != '\n' && c != '\r' && c != '\U{2028}' && c != '\U{2029}'
  {
    c == ' ' || c == '\t' || c == '\U{00A0}' || c == '\U{1680}'
    || ('\U{2000}' <= c <= '\U{200A}') || c == '\U{202F}' || c == '\U{205F}' || c == '\U{3000}'
  }

  /** s without its leading whitespace. */
  function DropLeading(s: string): (r: string)
    ensures |r| <= |s| && r == s[|s| - |r|..]
    ensures r == [] || !IsWhitespace(r[0])
    ensures forall i :: 0 <= i < |s| - |r| ==> IsWhitespace(s[i])
  {
    if s != [] && IsWhitespace(s[0]) then DropLeading(s[1..]) else s
  }

  /** s without its trailing whitespace. */
  function DropTrailing(s: string): (r: string)
    ensures |r| <= |s| && r == s[..|r|]
    ensures r == [] || !IsWhitespace(r[|r| - 1])
    ensures forall i :: |r| <= i < |s| ==> IsWhitespace(s[i])
  {
    if s != [] && IsWhitespace(s[|s| - 1]) then DropTrailing(s[..|s| - 1]) else s
  }

  /** `trimmingCharacters(in: .whitespaces)`. */
  function Trimmed(s: string): (r: string)
    ensures |r| <= |s|
    ensures r == [] || (!IsWhitespace(r[0]) && !IsWhitespace(r[|r| - 1]))
    ensures r == [] <==> forall i :: 0 <= i < |s| ==> IsWhitespace(s[i])
  {
    DropTrailing(DropLeading(s))
  }

  /** The block counts as empty when trimming leaves nothing. */
  predicate IsBlank(text: string)
  {
    Trimmed(text) == []
  }

  /** Trimming leaves nothing exactly when every character is whitespace. */
  lemma BlankIffAllWhitespace(text: string)
    ensures IsBlank(text) <==> forall i :: 0 <= i < |text| ==> IsWhitespace(text[i])
  {
  }

  /**
   * `textView(_:doCommandBy:)`: the reaction to a command, given the buffer,
   * the selection and whether a delete handler is installed.
   */
  function React(cmd: Command, text: string, location: nat, length: nat, hasDeleteHandler: bool): (r: Reaction)
    ensures r == Unfocus <==> cmd == CancelOperation
    ensures r == DeleteBlock <==>
      cmd == DeleteBackward && location == 0 && length == 0 && hasDeleteHandler
      && forall i :: 0 <= i < |text| ==> IsWhitespace(text[i])
    ensures r != PassOn <==>
      cmd == CancelOperation
      || (cmd == DeleteBackward && location == 0 && length == 0
          && forall i :: 0 <= i < |text| ==> IsWhitespace(text[i]))
  {
    BlankIffAllWhitespace(text);
    if cmd == CancelOperation then Unfocus
    else if cmd == DeleteBackward && location == 0 && length == 0 && IsBlank(text) then
      (if hasDeleteHandler then DeleteBlock else Swallow)
    else PassOn
  }

  /** The command is consumed (the method returns true). */
  predicate Consumed(r: Reaction)
  {
    r != PassOn
  }

  /** "  a  " and "\n" are not blank, so a backward delete at 0 passes on. */
  lemma NonBlankExamples()
    ensures React(DeleteBackward, "  a  ", 0, 0, true) == PassOn
    ensures React(DeleteBackward, "\n", 0, 0, true) == PassOn
  {
    assert "  a  "[2] == 'a';
    assert "\n"[0] == '\n';
  }

  /** "" and " \t" are blank: a backward delete at 0 deletes the block, or is only consumed without a handler. */
  lemma BlankExamples()
    ensures React(DeleteBackward, "", 0, 0, true) == DeleteBlock
    ensures React(DeleteBackward, " \t", 0, 0, true) == DeleteBlock
    ensures React(DeleteBackward, " \t", 0, 0, false) == Swallow
  {
    assert forall i :: 0 <= i < |" \t"| ==> IsWhitespace(" \t"[i]);
  }

  /** A caret after the start never deletes the block. */
  lemma CaretNotAtStartExample()
    ensures React(DeleteBackward, "", 1, 0, true) == PassOn
  {
  }
}

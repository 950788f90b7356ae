/**
 * The embedding view of a code block: the block record it edits, its language
 * table and display-name lookup, its initial line count, the line-number gutter
 * built from the per-line heights and selected lines, and the single-field
 * block updates it hands to its host.
 */
module BlockView {
  import opened Options
  import opened LineIndex

  /** A code block of the document: identifier, language tag, text and indent level. */
  datatype CodeBlock = CodeBlock(id: string, language: string, content: string, indent: int)

  /** The language menu: (tag, display name) in menu order. */
  const Languages: seq<(string, string)> := [
    ("", "Plain Text"),
    ("swift", "Swift"),
    ("python", "Python"),
    ("javascript", "JavaScript"),
    ("typescript", "TypeScript"),
    ("java", "Java"),
    ("cpp", "C++"),
    ("c", "C"),
    ("csharp", "C#"),
    ("go", "Go"),
    ("rust", "Rust"),
    ("ruby", "Ruby"),
    ("php", "PHP"),
    ("kotlin", "Kotlin"),
    ("scala", "Scala"),
    ("sql", "SQL"),
    ("bash", "Bash"),
    ("shell", "Shell"),
    ("json", "JSON"),
    ("xml", "XML"),
    ("html", "HTML"),
    ("css", "CSS"),
    ("markdown", "Markdown")
  ]

  const FallbackName: string := "Plain Text"

  /** An entry's tag identifies it: no two entries share a tag. */
  predicate TagsDistinct(table: seq<(string, string)>)
  {
    forall i, j :: 0 <= i < j < |table| ==> table[i].0 != table[j].0
  }

  /** Entry i's tag differs from the tag of every later entry. */
  predicate TagUnrepeated(table: seq<(string, string)>, i: int)
  {
    forall j :: 0 <= i < j < |table| ==> table[i].0 != table[j].0
  }

  lemma LeadingTagsUnrepeated()
    ensures forall i :: 0 <= i < 8 ==> TagUnrepeated(Languages, i)
  {
  }

  lemma MiddleTagsUnrepeated()
    ensures forall i :: 8 <= i < 15 ==> TagUnrepeated(Languages, i)
  {
  }

  lemma TrailingTagsUnrepeated()
    ensures forall i :: 15 <= i < |Languages| ==> TagUnrepeated(Languages, i)
  {
  }

  /** The menu's tags are pairwise distinct. */
  lemma LanguagesTagsDistinct()
    ensures TagsDistinct(Languages)
  {
    LeadingTagsUnrepeated();
    MiddleTagsUnrepeated();
    TrailingTagsUnrepeated();
    forall i, j | 0 <= i < j < |Languages|
      ensures Languages[i].0 != Languages[j].0
    {
      assert TagUnrepeated(Languages, i);
    }
  }

  /** `first(where:)` on the tag: the index of the first entry with that tag, if any. */
  function FirstWithTag(table: seq<(string, string)>, tag: string): (r: Option<nat>)
    ensures r.Some? ==>
      && r.value < |table| && table[r.value].0 == tag
      && forall j :: 0 <= j < r.value ==> table[j].0 != tag
    ensures r.None? ==> forall j :: 0 <= j < |table| ==> table[j].0 != tag
  {
    if table == [] then None
    else if table[0].0 == tag then Some(0)
    else match FirstWithTag(table[1..], tag)
      case None => None
      case Some(k) => Some(k + 1)
  }

  /**
   * `languageDisplayName`: the name of the entry whose tag is the selected one,
   * "Plain Text" when no entry has that tag.
   */
  function DisplayName(tag: string): (name: string)
    ensures forall i :: 0 <= i < |Languages| && Languages[i].0 == tag ==> name == Languages[i].1
    ensures (forall i :: 0 <= i < |Languages| ==> Languages[i].0 != tag) ==> name == FallbackName
  {
    LanguagesTagsDistinct();
    match FirstWithTag(Languages, tag)
    case Some(i) => Languages[i].1
    case None => FallbackName
  }

  /** Picking any menu entry shows that entry's name. */
  lemma PickedNameShown(i: nat)
    requires i < |Languages|
    ensures DisplayName(Languages[i].0) == Languages[i].1
  {
  }

  /** The empty tag is shown as "Plain Text". */
  lemma EmptyTagExample()
    ensures DisplayName("") == "Plain Text"
  {
    assert Languages[0] == ("", "Plain Text");
  }

  /** "cpp" is shown as "C++". */
  lemma CppTagExample()
    ensures DisplayName("cpp") == "C++"
  {
    assert Languages[6] == ("cpp", "C++");
  }

  /** No menu entry has the tag "haskell". */
  lemma HaskellNotInMenu()
    ensures forall i :: 0 <= i < |Languages| ==> Languages[i].0 != "haskell"
  {
  }

  /** A tag outside the menu is shown as "Plain Text". */
  lemma UnknownTagExample()
    ensures DisplayName("haskell") == "Plain Text"
  {
    HaskellNotInMenu();
  }

  /** The line count the view starts with, before the editor's first layout pass. */
  function InitialLineCount(content: string): (n: int)
    ensures n >= 1
    ensures n == CountNewlines(content) + 1
    ensures n == LineCount(content)
  {
    ComponentsCount(content);
    var pieces := if content == [] then 1 else |Components(content)|;
    if 1 < pieces then pieces else 1
  }

  /** The block handed to the host after picking a language: only the tag changes. */
  function WithLanguage(block: CodeBlock, tag: string): (r: CodeBlock)
    ensures r.language == tag
    ensures r.id == block.id && r.content == block.content && r.indent == block.indent
  {
    block.(language := tag)
  }

  /** The block handed to the host after an edit: only the text changes. */
  function WithContent(block: CodeBlock, text: string): (r: CodeBlock)
    ensures r.content == text
    ensures r.id == block.id && r.language == block.language && r.indent == block.indent
  {
    block.(content := text)
  }

  /** One row of the line-number gutter. */
  datatype GutterRow = GutterRow(number: int, height: nat, highlighted: bool)

  /** Rows numbered from first on, one per height, highlighted when their number is selected. */
  function Rows(heights: seq<nat>, selected: set<int>, first: int): (rows: seq<GutterRow>)
    ensures |rows| == |heights|
    ensures forall i :: 0 <= i < |rows| ==> rows[i] == GutterRow(first + i, heights[i], first + i in selected)
  {
    if heights == [] then []
    else [GutterRow(first, heights[0], first in selected)] + Rows(heights[1..], selected, first + 1)
  }

  /** `lineNumbersView`: row i shows number i + 1 at the height of logical line i + 1. */
  function GutterRows(heights: seq<nat>, selected: set<int>): (rows: seq<GutterRow>)
    ensures |rows| == |heights|
    ensures forall i :: 0 <= i < |rows| ==> rows[i] == GutterRow(i + 1, heights[i], i + 1 in selected)
  {
    Rows(heights, selected, 1)
  }

  /** The highlighted numbers are exactly the selected lines that have a row. */
  lemma HighlightedAreSelected(heights: seq<nat>, selected: set<int>)
    ensures (set r | r in GutterRows(heights, selected) && r.highlighted :: r.number)
         == (set l | l in selected && 1 <= l <= |heights|)
  {
    var rows := GutterRows(heights, selected);
    forall l | l in selected && 1 <= l <= |heights|
      ensures l in (set r | r in rows && r.highlighted :: r.number)
    {
      assert rows[l - 1].number == l && rows[l - 1].highlighted;
    }
  }

  /**
   * The line count, per-line heights and selected lines that the view owns and
   * lends to the editor, which writes them after each layout pass or selection
   * change.
   */
  class GutterState {
    var lineCount: int
    var logicalLineHeights: seq<nat>
    var selectedLines: set<int>

    constructor (content: string)
      ensures lineCount == InitialLineCount(content)
      ensures logicalLineHeights == [] && selectedLines == {}
    {
      lineCount := InitialLineCount(content);
      logicalLineHeights := [];
      selectedLines := {};
    }
  }

  /** The view's own state and the blocks it has handed to its host, in order. */
  class CodeBlockView {
    const block: CodeBlock
    const gutter: GutterState
    var selectedLanguage: string
    var showLineNumbers: bool
    var isHovering: bool
    var sent: seq<CodeBlock>

    constructor (block: CodeBlock)
      ensures this.block == block && fresh(gutter)
      ensures selectedLanguage == block.language
      ensures showLineNumbers && !isHovering && sent == []
      ensures gutter.lineCount == InitialLineCount(block.content)
      ensures gutter.logicalLineHeights == [] && gutter.selectedLines == {}
    {
      this.block := block;
      gutter := new GutterState(block.content);
      selectedLanguage := block.language;
      showLineNumbers := true;
      isHovering := false;
      sent := [];
    }

    /** A menu entry is picked: remember its tag and hand the host the block with that tag. */
    method PickLanguage(tag: string)
      modifies this
      ensures selectedLanguage == tag
      ensures sent == old(sent) + [WithLanguage(block, tag)]
      ensures showLineNumbers == old(showLineNumbers) && isHovering == old(isHovering)
    {
      selectedLanguage := tag;
      var updatedBlock := WithLanguage(block, tag);
      sent := sent + [updatedBlock];
    }

    /** The editor reports new text: hand the host the block with that text. */
    method ContentChanged(newContent: string)
      modifies this
      ensures sent == old(sent) + [WithContent(block, newContent)]
      ensures selectedLanguage == old(selectedLanguage)
      ensures showLineNumbers == old(showLineNumbers) && isHovering == old(isHovering)
    {
      var updatedBlock := WithContent(block, newContent);
      sent := sent + [updatedBlock];
    }

    /** The "Hide Lines" / "Show Lines" button. */
    method ToggleLineNumbers()
      modifies this
      ensures showLineNumbers == !old(showLineNumbers)
      ensures selectedLanguage == old(selectedLanguage) && isHovering == old(isHovering) && sent == old(sent)
    {
      showLineNumbers := !showLineNumbers;
    }

    /** The pointer enters or leaves the block. */
    method Hover(hovering: bool)
      modifies this
      ensures isHovering == hovering
      ensures selectedLanguage == old(selectedLanguage) && showLineNumbers == old(showLineNumbers) && sent == old(sent)
    {
      isHovering := hovering;
    }

    /** The name on the language menu's label. */
    function LanguageLabel(): (name: string)
      reads this
      ensures forall i :: 0 <= i < |Languages| && Languages[i].0 == selectedLanguage ==> name == Languages[i].1
      ensures (forall i :: 0 <= i < |Languages| ==> Languages[i].0 != selectedLanguage) ==> name == FallbackName
    {
      DisplayName(selectedLanguage)
    }
  }
}

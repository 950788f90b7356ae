# Code-block editor core, modelled in Dafny

This project models the logic of an embeddable code-block editor for a notes
application (AppKit-Code-Block). The editor is a Swift `NSTextView` wrapped for
SwiftUI. Its coordinator:

- counts the logical lines of the buffer (pieces between `"\n"` characters);
- turns a caret or a selection range into the set of selected 1-based lines;
- reconciles the visual line fragments of a layout pass with the logical lines,
  giving one rendered height per logical line, wrapped lines included;
- gates the host's content updates with an `isEditing` flag, so that a local
  edit is not overwritten while its debounce window is open;
- handles two key commands: escape, and backspace at the start of a blank block.

The embedding view adds the initial line count, the language menu and its
display-name lookup, the line-number gutter, and the single-field block updates
it hands to its host.

Modules:

- `LineIndex`: splitting on `"\n"` (`Components`, with its inverse `Join`), the line count and the line under an offset.
- `Selection`: the selection translator, with a method that follows the source's loop.
- `Heights`: the height reconciler, with a method that follows the source's fragment loop and padding loop.
- `Commands`: the reaction to escape and backward delete, with `.whitespaces` trimming.
- `Session`: the edit-session gate as a pure state machine over inputs `LocalEdit`, `ExternalUpdate` and `ResetFires`.
- `BlockView`: the `CodeBlock` record, the language table, the gutter rows, and the view's state as classes.
- `Editor`: the `Coordinator` class. Its methods are tied to the functions above.

How the source's collaborators appear in the model:

- The layout manager is an input list of `Fragment(height, slice)`. `None` stands for a text view without a layout manager.
- The default line height of the font is a parameter.
- A delayed reset of `isEditing` is an explicit `ResetFires` call. There is one per edit, and none is ever cancelled.
- Each host callback (`onChange`, `onFocus`, `onUnfocus`, `onDeleteBlock`) is recorded as an `Event`, in call order.
- The three SwiftUI bindings (`lineCount`, `logicalLineHeights`, `selectedLines`) form one `GutterState` object. The view owns it, and the coordinator holds a reference to it and writes it.

Behaviour of the code that the model keeps as written:

- Debounce. Each edit arms its own delayed reset of `isEditing`, and none is ever cancelled (CodeBlockEditor.swift:232-234). So an earlier edit's reset can lower the flag while a later edit's window is still open, and a host update then replaces the later edit (`Session.EarlyResetReopensGate`).
- Height count. The heights list is padded up to the line count but never truncated (CodeBlockEditor.swift:279-285). Its length is the larger of the closed-entry count and the line count (`Heights.Reconciled`). It is exactly one height per logical line at least when the fragments cover the buffer (`Heights.OneHeightPerLine`).
- Positive heights. Nothing in the code clamps a height (CodeBlockEditor.swift:258-285). Every entry is positive when the fragment heights and the default line height are positive (`Heights.ReconciledPositive`).
- Blank block. The blank test trims `.whitespaces` (CodeBlockEditor.swift:312). That set holds spaces and tabs but no line breaks, so `"\n"` is not blank. A backward delete on a blank block returns true even when no `onDeleteBlock` handler is installed (CodeBlockEditor.swift:314-316).

## Model

| member | source | states |
|---|---|---|
| LineIndex.CountNewlines | AppKit-Code-Block/CodeBlockEditor.swift:249 | the number of line breaks never exceeds the length |
| LineIndex.CountNewlinesAppend | AppKit-Code-Block/CodeBlockEditor.swift:249 | line breaks of a concatenation add up |
| LineIndex.CountNewlinesPositive | AppKit-Code-Block/CodeBlockEditor.swift:268 | a slice contains "\n" iff it counts at least one line break |
| LineIndex.Components | AppKit-Code-Block/CodeBlockEditor.swift:249 | splitting on "\n" gives at least one piece, and no piece holds a line break |
| LineIndex.JoinComponents | AppKit-Code-Block/CodeBlockEditor.swift:249 | joining the pieces with "\n" gives the text back |
| LineIndex.ComponentsJoin | AppKit-Code-Block/CodeBlockEditor.swift:249 | splitting joined pieces that hold no line breaks gives the same pieces (the other round trip) |
| LineIndex.ComponentsCount | AppKit-Code-Block/CodeBlockEditor.swift:249 | there is one more piece than line breaks |
| LineIndex.LineCount | AppKit-Code-Block/CodeBlockEditor.swift:249 | the line count is at least 1 and equals the line-break count + 1, the empty buffer included |
| LineIndex.LineAt | AppKit-Code-Block/CodeBlockEditor.swift:206-207 | the line of an offset is the number of line breaks before it + 1, and lies in 1..LineCount |
| LineIndex.LineAtStep | AppKit-Code-Block/CodeBlockEditor.swift:185-189 | one more character raises the line by one exactly when it is a line break |
| LineIndex.LineAtMonotone | AppKit-Code-Block/CodeBlockEditor.swift:185-189 | line numbers do not decrease with the offset |
| LineIndex.LineAtReaches | AppKit-Code-Block/CodeBlockEditor.swift:201 | every line between the lines of two offsets is the line of some offset between them |
| LineIndex.LineCountExamples | AppKit-Code-Block/CodeBlockEditor.swift:249 | "" has 1 line, "a\nb\nc" has 3, "a\n" has 2 |
| Selection.StartLine | AppKit-Code-Block/CodeBlockEditor.swift:185-186 | the start line is the number of line breaks before the selection + 1, within 1..line count |
| Selection.EndLine | AppKit-Code-Block/CodeBlockEditor.swift:188-199 | the end line lies within 1..line count; when the selection ends just after a line break it is the line of that break, not the line after it |
| Selection.LinesTouched | AppKit-Code-Block/CodeBlockEditor.swift:183-208 | the reference set of selected lines, from the characters selected (or the caret's line); the start's line is always in it |
| Selection.RangeNeverTraps | AppKit-Code-Block/CodeBlockEditor.swift:185-201 | for an in-bounds range of positive length, endLine (after the decrement) is the line of the last selected character, and 1 <= startLine <= endLine <= line count, so startLine...endLine never traps |
| Selection.RangeSelection | AppKit-Code-Block/CodeBlockEditor.swift:183-203 | the lines holding a selected character are exactly the contiguous set startLine...endLine |
| Selection.CaretSelection | AppKit-Code-Block/CodeBlockEditor.swift:204-208 | a caret selects exactly {line breaks before it + 1} |
| Selection.SelectionWithinLines | AppKit-Code-Block/CodeBlockEditor.swift:183-209 | the selected set is never empty, and every selected line lies in 1..line count |
| Selection.SelectedLinesFor | AppKit-Code-Block/CodeBlockEditor.swift:174-212 | the loop filling a fresh set yields exactly the lines the selection touches |
| Selection.CaretExamples | AppKit-Code-Block/CodeBlockEditor.swift:204-208 | caret 0 in "abc" gives {1}; caret 4 in "ab\ncd" gives {2} |
| Selection.RangeEndingAtBreakExample | AppKit-Code-Block/CodeBlockEditor.swift:191-199 | "ab\ncd" with range [0,3) gives {1}, not {1,2} |
| Selection.AcrossLinesOffsets | AppKit-Code-Block/CodeBlockEditor.swift:185-189 | in "a\nb\nc\nd" offsets 2 and 3 are on line 2 and offset 4 is on line 3 |
| Selection.RangeAcrossLinesExample | AppKit-Code-Block/CodeBlockEditor.swift:183-203 | selecting "b\nc" in "a\nb\nc\nd" gives {2,3} |
| Selection.Range | AppKit-Code-Block/CodeBlockEditor.swift:201 | the closed range lo...hi holds exactly the integers between lo and hi |
| Heights.Close | AppKit-Code-Block/CodeBlockEditor.swift:258-277 | the fragment walk: heights accumulate until a fragment holding a line break closes the line; at most one entry per fragment plus one for a positive remainder |
| Heights.Repeat | AppKit-Code-Block/CodeBlockEditor.swift:281-285 | padding appends exactly k default heights |
| Heights.Reconciled | AppKit-Code-Block/CodeBlockEditor.swift:249-292 | the result has max(closed entries, line count) entries: the closed heights first and in order, then default heights |
| Heights.CloseTotal | AppKit-Code-Block/CodeBlockEditor.swift:252-277 | no fragment height is lost: the closed entries sum to the total fragment height |
| Heights.CloseLength | AppKit-Code-Block/CodeBlockEditor.swift:258-277 | one entry per fragment holding a line break, plus at most one for the positive remainder |
| Heights.WrappedLine | AppKit-Code-Block/CodeBlockEditor.swift:258-277 | a logical line wrapped into fragments without a line break gets one entry: the sum of their heights |
| Heights.CloseAppend | AppKit-Code-Block/CodeBlockEditor.swift:258-272 | entries keep fragment order: a prefix that ends with a closing fragment contributes its entries first |
| Heights.ClosePositive | AppKit-Code-Block/CodeBlockEditor.swift:258-277 | positive fragment heights give positive entries |
| Heights.ClosingCountBound | AppKit-Code-Block/CodeBlockEditor.swift:262-271 | fragments covering a text close at most as many lines as it has line breaks |
| Heights.FallbackNeverTaken | AppKit-Code-Block/CodeBlockEditor.swift:287-292 | the padded list is never empty, so the empty-list fallback is unreachable |
| Heights.OneHeightPerLine | AppKit-Code-Block/CodeBlockEditor.swift:279-285 | when the fragment slices cover the buffer exactly, there is exactly one height per logical line |
| Heights.ReconciledPositive | AppKit-Code-Block/CodeBlockEditor.swift:279-292 | with positive fragment heights and a positive default height, every entry is positive |
| Heights.ReconciledKeepsHeight | AppKit-Code-Block/CodeBlockEditor.swift:252-277 | before padding, the entries add up to the total fragment height |
| Heights.NoFragments | AppKit-Code-Block/CodeBlockEditor.swift:281-285 | with no fragments every logical line gets the default height |
| Heights.NoFragmentsExample | AppKit-Code-Block/CodeBlockEditor.swift:281-285 | zero fragments and 3 lines give three default entries |
| Heights.ComputeHeights | AppKit-Code-Block/CodeBlockEditor.swift:245-292 | the fragment loop, the remainder push and the padding loop compute exactly Reconciled |
| Commands.IsWhitespace | AppKit-Code-Block/CodeBlockEditor.swift:312 | membership in `.whitespaces` (space separators and tab); no line break (LF, CR, U+2028, U+2029) is in it |
| Commands.Trimmed | AppKit-Code-Block/CodeBlockEditor.swift:312 | the trimmed text is no longer than the text, starts and ends with non-whitespace, and is empty iff every character is whitespace |
| Commands.DropLeading | AppKit-Code-Block/CodeBlockEditor.swift:312 | the result is a suffix of the text that starts with non-whitespace; everything dropped is whitespace |
| Commands.DropTrailing | AppKit-Code-Block/CodeBlockEditor.swift:312 | the result is a prefix of the text that ends with non-whitespace; everything dropped is whitespace |
| Commands.BlankIffAllWhitespace | AppKit-Code-Block/CodeBlockEditor.swift:312 | trimming leaves nothing iff every character is a space separator or a tab |
| Commands.React | AppKit-Code-Block/CodeBlockEditor.swift:298-321 | escape unfocuses; deleteBackward requests block deletion iff the caret is at 0, the selection is empty, the text is all spaces/tabs and a handler is installed; the command is consumed iff it is escape or such a delete (with or without a handler); anything else passes on |
| Commands.NonBlankExamples | AppKit-Code-Block/CodeBlockEditor.swift:310-318 | "  a  " and "\n" are not blank, so a backward delete at 0 passes on |
| Commands.BlankExamples | AppKit-Code-Block/CodeBlockEditor.swift:310-318 | "" and " \t" are blank: the delete fires onDeleteBlock, or without a handler is consumed and fires nothing |
| Commands.CaretNotAtStartExample | AppKit-Code-Block/CodeBlockEditor.swift:314 | a caret at 1 never deletes the block |
| Session.Step | AppKit-Code-Block/CodeBlockEditor.swift:103-107 | one input: an edit sets the buffer, raises the flag and arms one more reset; a host update keeps flag and resets and replaces the buffer only when the flag is down; a reset lowers the flag, uses up one armed reset and keeps the buffer |
| Session.ApplyExternal | AppKit-Code-Block/CodeBlockEditor.swift:102-107 | while editing the buffer is kept; otherwise it ends up equal to the pushed content |
| Session.StepKeepsInv | AppKit-Code-Block/CodeBlockEditor.swift:221-234 | every input keeps "isEditing implies a reset is armed" |
| Session.RunKeepsInv | AppKit-Code-Block/CodeBlockEditor.swift:221-234 | the invariant holds along any input sequence |
| Session.EditSurvivesExternalUpdates | AppKit-Code-Block/CodeBlockEditor.swift:103 | after a local edit, any number of external updates before a reset leave the edited text, and the flag stays up |
| Session.EditingSurvives | AppKit-Code-Block/CodeBlockEditor.swift:103 | while the flag is up, external updates change nothing |
| Session.IdleUpdateApplied | AppKit-Code-Block/CodeBlockEditor.swift:103-107 | with the flag down, an external update is applied verbatim |
| Session.EchoIsHarmless | AppKit-Code-Block/CodeBlockEditor.swift:103 | pushing back the current buffer changes nothing |
| Session.GateReopens | AppKit-Code-Block/CodeBlockEditor.swift:232-234 | once every armed reset has fired, the flag is down and the buffer untouched |
| Session.DebounceExamples | AppKit-Code-Block/CodeBlockEditor.swift:218-235 | an edit followed at once by an external update keeps the edit; after its reset fires, the next update is applied |
| Session.EarlyResetReopensGate | AppKit-Code-Block/CodeBlockEditor.swift:232-234 | resets are not cancelled: after two quick edits the first reset lowers the flag while one reset is still armed, and an external update then replaces the second edit |
| Session.Resets | AppKit-Code-Block/CodeBlockEditor.swift:232-234 | n reset firings in a row: n inputs, every one of them ResetFires |
| BlockView.LeadingTagsUnrepeated | AppKit-Code-Block/EditableCodeBlockView.swift:27-34 | the tags of the first eight menu entries each differ from every later tag |
| BlockView.MiddleTagsUnrepeated | AppKit-Code-Block/EditableCodeBlockView.swift:35-41 | the tags of entries 8 to 14 each differ from every later tag |
| BlockView.TrailingTagsUnrepeated | AppKit-Code-Block/EditableCodeBlockView.swift:42-49 | the tags of the last eight entries each differ from every later tag |
| BlockView.LanguagesTagsDistinct | AppKit-Code-Block/EditableCodeBlockView.swift:26-50 | the menu's language tags are pairwise distinct, so tag identity in the picker is well defined |
| BlockView.FirstWithTag | AppKit-Code-Block/EditableCodeBlockView.swift:179 | first(where:) returns the first index whose tag matches, or none when no entry matches |
| BlockView.DisplayName | AppKit-Code-Block/EditableCodeBlockView.swift:178-180 | the name is that of the entry with the selected tag, and "Plain Text" for a tag in no entry |
| BlockView.PickedNameShown | AppKit-Code-Block/EditableCodeBlockView.swift:78-80 | picking any menu entry shows that entry's name |
| BlockView.EmptyTagExample | AppKit-Code-Block/EditableCodeBlockView.swift:178-180 | the empty tag shows "Plain Text" |
| BlockView.CppTagExample | AppKit-Code-Block/EditableCodeBlockView.swift:178-180 | "cpp" shows "C++" |
| BlockView.HaskellNotInMenu | AppKit-Code-Block/EditableCodeBlockView.swift:26-50 | no menu entry has the tag "haskell" |
| BlockView.UnknownTagExample | AppKit-Code-Block/EditableCodeBlockView.swift:179 | an unknown tag shows "Plain Text" |
| BlockView.InitialLineCount | AppKit-Code-Block/EditableCodeBlockView.swift:69 | the initial count is at least 1, equals the line-break count + 1, and agrees with the editor's LineCount |
| BlockView.WithLanguage | AppKit-Code-Block/EditableCodeBlockView.swift:81-83 | the block handed on has the picked tag; id, content and indent are unchanged |
| BlockView.WithContent | AppKit-Code-Block/EditableCodeBlockView.swift:152-155 | the block handed on has the new text; id, language and indent are unchanged |
| BlockView.Rows | AppKit-Code-Block/EditableCodeBlockView.swift:184-191 | one row per height; row i shows number i+1 at heights[i], highlighted iff i+1 is selected |
| BlockView.GutterRows | AppKit-Code-Block/EditableCodeBlockView.swift:184-191 | one row per height; row i shows number i+1 at heights[i] and is highlighted iff line i+1 is selected |
| BlockView.HighlightedAreSelected | AppKit-Code-Block/EditableCodeBlockView.swift:186 | the highlighted numbers are exactly the selected lines that have a row |
| BlockView.GutterState.constructor | AppKit-Code-Block/EditableCodeBlockView.swift:22-24 | the view starts with its initial line count, no heights and no selected lines |
| BlockView.CodeBlockView.LanguageLabel | AppKit-Code-Block/EditableCodeBlockView.swift:91 | the menu label is the name of the entry with the selected tag, and "Plain Text" when no entry has it |
| BlockView.CodeBlockView.constructor | AppKit-Code-Block/EditableCodeBlockView.swift:52-70 | the selected language starts as the block's tag; line numbers shown; not hovering |
| BlockView.CodeBlockView.PickLanguage | AppKit-Code-Block/EditableCodeBlockView.swift:79-83 | selectedLanguage becomes the tag, and the host receives the block with only the language changed |
| BlockView.CodeBlockView.ContentChanged | AppKit-Code-Block/EditableCodeBlockView.swift:152-156 | the host receives the block with only the content changed |
| BlockView.CodeBlockView.ToggleLineNumbers | AppKit-Code-Block/EditableCodeBlockView.swift:110-114 | showLineNumbers flips, and nothing else changes |
| BlockView.CodeBlockView.Hover | AppKit-Code-Block/EditableCodeBlockView.swift:171-175 | isHovering follows the pointer, and nothing else changes |
| Editor.EffectiveLanguage | AppKit-Code-Block/CodeBlockEditor.swift:97 | the highlighter's language is never empty: "plaintext" for the empty tag, and the tag itself otherwise |
| Editor.LayoutResult | AppKit-Code-Block/CodeBlockEditor.swift:237-296 | the count and heights a layout pass writes: (1, []) without a layout manager; otherwise the line count and at least that many heights, exactly that many when the fragments cover the text |
| Editor.Coordinator.constructor | AppKit-Code-Block/CodeBlockEditor.swift:25-86 | the buffer holds the content, the storage language is the effective one, nothing is being edited and no reset is armed |
| Editor.Coordinator.UpdateNSView | AppKit-Code-Block/CodeBlockEditor.swift:88-116 | the language is assigned iff it differs; the buffer is replaced wholesale iff not editing and different, and is kept unchanged while editing |
| Editor.Coordinator.TextDidBeginEditing | AppKit-Code-Block/CodeBlockEditor.swift:170-172 | onFocus is called, and nothing else changes |
| Editor.Coordinator.UpdateLineCount | AppKit-Code-Block/CodeBlockEditor.swift:237-296 | the view receives the line count and the reconciled heights (1 and [] without a layout manager); the selection is untouched |
| Editor.Coordinator.TextDidChange | AppKit-Code-Block/CodeBlockEditor.swift:218-235 | the flag goes up, a reset is armed on top of the earlier ones, the heights are recomputed for the new text, and onChange receives it |
| Editor.Coordinator.ResetFires | AppKit-Code-Block/CodeBlockEditor.swift:232-234 | the flag goes down, one armed reset is used up, and the buffer is untouched |
| Editor.Coordinator.TextViewDidChangeSelection | AppKit-Code-Block/CodeBlockEditor.swift:174-212 | the selected lines are replaced by those of the new selection, whatever they were before |
| Editor.Coordinator.DoCommand | AppKit-Code-Block/CodeBlockEditor.swift:298-321 | the return value is whether the command was consumed, and the callbacks fired are those of React |
| Editor.SelectedLinesHaveRows | AppKit-Code-Block/EditableCodeBlockView.swift:184-191 | after a layout pass over fragments covering the buffer, the gutter has one row per logical line, and every selected line's row is highlighted |

## Left out

- View construction and styling are not modelled because they are UI glue: `makeNSView`'s text-view configuration, theme, fonts, paddings, opacities, animations and the hover highlight.
- `CodeTextView.intrinsicContentSize` is floating-point geometry (`ceil` of the used rectangle) and is not modelled.
- The layout manager and text container are not modelled; the layout is given as a list of fragments. How AppKit wraps text into fragments, `ensureLayout` and `invalidateIntrinsicContentSize` are outside the model.
- Syntax highlighting (Highlightr, `CodeAttributedString`) is a foreign library that only styles the text. Only the language tag it is given is modelled.
- Event-loop timing is not modelled. `DispatchQueue.main.async` layout passes are explicit `UpdateLineCount` calls. `asyncAfter(0.05)` resets are explicit `ResetFires` calls, in any order the caller chooses. A `[weak self]` reset that finds its coordinator gone is not modelled.
- Heights are natural numbers, not `CGFloat`; only sums and comparisons with 0 matter.
- Index units are simplified. The source measures the selection in UTF-16 units (`NSString`) and checks the character before its end in Swift `Character` units. The model uses one sequence of characters, so the two agree only for text in which every character is one UTF-16 unit.
- A selection outside the buffer makes `NSString.substring(with:)` raise an exception. The model's `InBounds` requirement excludes it instead.
- Focus handling is reduced to the `Unfocused` event. `makeFirstResponder(nil)` on the window and the `isFocused` flag are not modelled.
- `onSelect` is only stored by the coordinator and never called, so it has no event.
- The `guard` statements that return early when the notification object is not a text view, or when the text storage is missing, are not modelled. Neither case arises once `makeNSView` has run.
- `textDidEndEditing` does nothing and is not modelled.
- ContentView.swift is a demo host with print calls and is not part of this model.
- CodeBlock.swift is only the `CodeBlock` record. The record is modelled; its UUID default and Codable conformance are not.
- The print call in the gutter's `onAppear` is not modelled.

/**
 * The sizing state of the message composer in
 * src/ui/primitives/message_composer.ts: a text area and a send button side
 * by side under a one-line status text. The renderables themselves are not
 * modelled; their widths and heights are fields of `Composer`.
 */
module MessageComposer {
  import opened Wrappers
  import opened Text
  import Chat

  const ButtonWidth := 8
  const MinLines := 1
  const MaxLines := 5
  const BorderSize := 2
  /** `spacing.xs`, used as the side padding, the bottom padding and the row gap. */
  const HorizontalPadding := 1
  const BottomPadding := HorizontalPadding
  const RowGap := 1
  const MinTotalWidth := 24

  function Max(a: int, b: int): int { if a < b then b else a }
  function Min(a: int, b: int): int { if a < b then a else b }

  /** `updateWidths`: the input box takes the row minus the button and the gap. */
  function InputBoxWidth(totalWidth: int): int {
    Max(12, Max(20, totalWidth) - ButtonWidth - RowGap)
  }

  /** `updateWidths`: the text area takes the box minus its border and side padding. */
  function InputInnerWidth(totalWidth: int): int {
    Max(8, InputBoxWidth(totalWidth) - BorderSize - HorizontalPadding * 2)
  }

  /** For every width the composer accepts, the clamps are inactive: the box
      and the button fill the row exactly, and the text area fills the box. */
  lemma WidthsFillTheRow(totalWidth: int)
    requires totalWidth >= MinTotalWidth
    ensures InputBoxWidth(totalWidth) == totalWidth - 9
    ensures InputInnerWidth(totalWidth) == totalWidth - 13
    ensures InputBoxWidth(totalWidth) + RowGap + ButtonWidth == totalWidth
    ensures InputInnerWidth(totalWidth) + BorderSize + 2 * HorizontalPadding == InputBoxWidth(totalWidth)
  {
  }

  /** `syncHeights`: the measured line count clamped to [1, 5]; text that is
      blank after trimming counts as one line. */
  function ComposerLines(text: string, virtualLineCount: int): (r: int)
    ensures MinLines <= r <= MaxLines
  {
    var measured := if !IsBlank(text) then virtualLineCount else MinLines;
    Max(MinLines, Min(MaxLines, measured))
  }

  /** Blank text is one line; otherwise the measured count is kept inside [1, 5]
      and clamped at the ends. */
  lemma ComposerLinesCases(text: string, virtualLineCount: int)
    ensures IsBlank(text) ==> ComposerLines(text, virtualLineCount) == MinLines
    ensures !IsBlank(text) && MinLines <= virtualLineCount <= MaxLines ==>
      ComposerLines(text, virtualLineCount) == virtualLineCount
    ensures !IsBlank(text) && virtualLineCount > MaxLines ==> ComposerLines(text, virtualLineCount) == MaxLines
    ensures virtualLineCount < MinLines ==> ComposerLines(text, virtualLineCount) == MinLines
  {
  }

  /** `getStatusLines`: one row for a status with visible text, none otherwise. */
  function StatusLines(message: string): (r: int)
    ensures r == 0 || r == 1
  {
    if !IsBlank(message) then 1 else 0
  }

  /** The status row is hidden exactly when the status is blank. */
  lemma StatusLinesBlank(message: string)
    ensures StatusLines(message) == 0 <==> IsBlank(message)
  {
  }

  /** What the composer holds apart from its layout: the text, the line count
      its text area reports, and the status; the widths and heights are
      derived from it (`Composer.Valid`). */
  datatype ComposerState = ComposerState(text: string, lineCount: int, statusMessage: string, statusColor: string)

  class Composer {
    var totalWidth: int
    var inputBoxWidth: int
    var inputWidth: int
    /** `input.plainText` */
    var text: string
    /** `input.virtualLineCount`: the wrapped line count the text area reports. */
    var virtualLineCount: int
    var composerLines: int
    var inputHeight: int
    var controlHeight: int
    var inputBoxHeight: int
    var sendButtonHeight: int
    var statusMessage: string
    var statusColor: string
    var statusHeight: int

    ghost function State(): ComposerState
      reads this
    {
      ComposerState(text, virtualLineCount, statusMessage, statusColor)
    }

    ghost predicate WidthsValid()
      reads this
    {
      totalWidth >= MinTotalWidth
      && inputBoxWidth == InputBoxWidth(totalWidth)
      && inputWidth == InputInnerWidth(totalWidth)
    }

    ghost predicate HeightsValid()
      reads this
    {
      composerLines == ComposerLines(text, virtualLineCount)
      && inputHeight == composerLines
      && controlHeight == composerLines + BorderSize + BottomPadding
      && inputBoxHeight == controlHeight
      && sendButtonHeight == controlHeight
      && statusHeight == StatusLines(statusMessage)
    }

    ghost predicate Valid()
      reads this
    {
      WidthsValid() && HeightsValid()
    }

    /** `createMessageComposer`: empty text, a blank status, and at least the minimum width. */
    constructor(requestedWidth: int)
      ensures Valid()
      ensures totalWidth == Max(MinTotalWidth, requestedWidth)
      ensures State() == ComposerState("", MinLines, " ", Chat.TextMuted)
      ensures composerLines == MinLines && controlHeight == 4
    {
      totalWidth := Max(MinTotalWidth, requestedWidth);
      text := "";
      virtualLineCount := MinLines;
      statusMessage := " ";
      statusColor := Chat.TextMuted;
      new;
      UpdateWidths();
      SyncHeights();
    }

    /** The space between the bottom of the text area and the box's bottom
        border equals the side padding, whatever the line count. */
    function BottomInset(): (r: int)
      reads this
      requires Valid()
      ensures r == HorizontalPadding
    {
      // Content runs from one row below the top border to one row above the
      // bottom border; the text area starts at the top of it.
      var contentBottom := controlHeight - 1;
      contentBottom - (1 + inputHeight)
    }

    method UpdateWidths()
      requires totalWidth >= MinTotalWidth
      modifies this
      ensures WidthsValid()
      ensures totalWidth == old(totalWidth) && text == old(text) && virtualLineCount == old(virtualLineCount)
      ensures composerLines == old(composerLines) && inputHeight == old(inputHeight)
      ensures controlHeight == old(controlHeight) && inputBoxHeight == old(inputBoxHeight)
      ensures sendButtonHeight == old(sendButtonHeight) && statusHeight == old(statusHeight)
      ensures statusMessage == old(statusMessage) && statusColor == old(statusColor)
    {
      var innerRowWidth := Max(20, totalWidth);
      inputBoxWidth := Max(12, innerRowWidth - ButtonWidth - RowGap);
      inputWidth := Max(8, inputBoxWidth - BorderSize - HorizontalPadding * 2);
    }

    method SyncHeights()
      modifies this
      ensures HeightsValid()
      ensures old(WidthsValid()) ==> WidthsValid()
      ensures totalWidth == old(totalWidth) && inputBoxWidth == old(inputBoxWidth) && inputWidth == old(inputWidth)
      ensures text == old(text) && virtualLineCount == old(virtualLineCount)
      ensures statusMessage == old(statusMessage) && statusColor == old(statusColor)
    {
      var measured := if Trim(text) != [] then virtualLineCount else MinLines;
      var nextLines := Max(MinLines, Min(MaxLines, measured));
      if nextLines != composerLines {
        composerLines := nextLines;
      }
      inputHeight := composerLines;
      controlHeight := composerLines + BorderSize + BottomPadding;
      inputBoxHeight := controlHeight;
      sendButtonHeight := controlHeight;
      statusHeight := StatusLines(statusMessage);
    }

    /** A content change of the text area (typing, pasting); the text area
        reports its new wrapped line count and `onContentChange` resyncs. */
    method SetText(newText: string, lineCount: int)
      requires Valid()
      modifies this
      ensures Valid()
      ensures text == newText && virtualLineCount == lineCount
      ensures totalWidth == old(totalWidth)
      ensures statusMessage == old(statusMessage) && statusColor == old(statusColor)
    {
      text := newText;
      virtualLineCount := lineCount;
      assert WidthsValid();
      SyncHeights();
    }

    /** `setTotalWidth`: grows and shrinks freely down to the minimum;
        `lineCount` is what the text area reports at the new width. */
    method SetTotalWidth(nextTotalWidth: int, lineCount: int)
      requires Valid()
      modifies this
      ensures Valid()
      ensures totalWidth == Max(MinTotalWidth, nextTotalWidth)
      ensures text == old(text) && virtualLineCount == lineCount
      ensures statusMessage == old(statusMessage) && statusColor == old(statusColor)
    {
      totalWidth := Max(MinTotalWidth, nextTotalWidth);
      virtualLineCount := lineCount;
      UpdateWidths();
      SyncHeights();
    }

    /** `setStatus`: an empty message is stored as " "; the colour defaults to muted. */
    method SetStatus(message: string, color: Option<string>)
      requires Valid()
      modifies this
      ensures Valid()
      ensures statusMessage == (if message == "" then " " else message)
      ensures statusColor == color.GetOr(Chat.TextMuted)
      ensures totalWidth == old(totalWidth) && text == old(text) && composerLines == old(composerLines)
      ensures virtualLineCount == old(virtualLineCount)
    {
      statusMessage := if message == "" then " " else message;
      statusColor := color.GetOr(Chat.TextMuted);
      SyncHeights();
    }

    /** `getValue`: blank text always sits in a one-line box. */
    function Value(): (r: string)
      reads this
      requires Valid()
      ensures IsBlank(r) ==> composerLines == MinLines && controlHeight == MinLines + BorderSize + BottomPadding
    {
      text
    }

    /** `clear`: empty text, blank muted status, back to one line. */
    method Clear()
      requires Valid()
      modifies this
      ensures Valid()
      ensures text == "" && virtualLineCount == MinLines && statusMessage == " " && statusColor == Chat.TextMuted
      ensures composerLines == MinLines && statusHeight == 0 && controlHeight == 4
      ensures totalWidth == old(totalWidth)
    {
      text := "";
      virtualLineCount := MinLines;
      statusMessage := " ";
      statusColor := Chat.TextMuted;
      assert WidthsValid();
      SyncHeights();
      assert IsBlank(" ");
    }
  }
}

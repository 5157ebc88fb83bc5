/** The terminal-size gate of src/ui/design/viewport.ts and the minimums of src/ui/design/tokens.ts. */
module Viewport {
  import Text

  const MinWidth := 80
  const MinHeight := 20

  /** `isViewportSupported`: at least 80 columns and 20 rows. */
  predicate IsSupported(width: int, height: int): (r: bool)
    ensures r <==> width >= 80 && height >= 20
  {
    width >= MinWidth && height >= MinHeight
  }

  /** Growing a supported terminal in either direction keeps it supported. */
  lemma SupportedIsMonotone(width: int, height: int, width': int, height': int)
    requires IsSupported(width, height)
    requires width <= width' && height <= height'
    ensures IsSupported(width', height')
  {
  }

  /** The minimum size is exactly the boundary: one column or one row less is refused. */
  lemma MinimumIsTight()
    ensures IsSupported(MinWidth, MinHeight)
    ensures !IsSupported(MinWidth - 1, MinHeight) && !IsSupported(MinWidth, MinHeight - 1)
  {
  }

  /** A terminal narrower than 80 columns is refused whatever its height. */
  lemma NarrowNeverSupported(width: int, height: int)
    requires width < MinWidth
    ensures !IsSupported(width, height)
  {
  }

  const MessageHead := "Terminal too small ("
  const MessageTail := "). Minimum 80x20."

  /** The current size as the message prints it: width "x" height. */
  function SizeText(width: int, height: int): string {
    Text.IntToString(width) + "x" + Text.IntToString(height)
  }

  /** `getViewportConstraintMessage`: the current size, then the minimum size
      taken from the tokens, which always reads "80x20". */
  function ConstraintMessage(width: int, height: int): (r: string)
    ensures r == MessageHead + SizeText(width, height) + MessageTail
  {
    var tail := "). Minimum " + SizeText(MinWidth, MinHeight) + ".";
    MinimumTail();
    MessageHead + SizeText(width, height) + tail
  }

  /** The message names the size: two different sizes never give the same message. */
  lemma {:induction false} ConstraintMessageInjective(width: int, height: int, width': int, height': int)
    requires ConstraintMessage(width, height) == ConstraintMessage(width', height')
    ensures width == width' && height == height'
  {
    var m, s, s' := ConstraintMessage(width, height), SizeText(width, height), SizeText(width', height');
    assert s == m[|MessageHead|..|m| - |MessageTail|];
    assert s' == m[|MessageHead|..|m| - |MessageTail|];
    Text.IntToStringHasNoX(width);
    Text.IntToStringHasNoX(width');
    Text.SplitAtSeparator(Text.IntToString(width), Text.IntToString(height),
                          Text.IntToString(width'), Text.IntToString(height'), 'x');
    Text.IntToStringInjective(width, width');
    Text.IntToStringInjective(height, height');
  }

  lemma MinimumDigits()
    ensures Text.IntToString(MinWidth) == "80" && Text.IntToString(MinHeight) == "20"
  {
  }

  /** The minimum part of the message is the fixed text "). Minimum 80x20.". */
  lemma MinimumTail()
    ensures "). Minimum " + SizeText(MinWidth, MinHeight) + "." == MessageTail
  {
    MinimumDigits();
  }
}

/**
 * The alert-event text cell: long text is shown truncated with an expand
 * control, or in full with a shrink control; short text is shown as is.
 */
module AlertEventExpandableText {
  import opened Wrappers

  /** The ellipsis appended to truncated text. */
  const Ellipsis: string := "..."

  /** JavaScript's truthiness of a string prop: present and non-empty. */
  predicate Truthy(text: Option<string>) {
    text.Some? && text.value != ""
  }

  /**
   * `isTooLong`: the text is truthy and longer than `maxLength`. A missing
   * text is never too long; the emptiness test matters only for a negative
   * `maxLength`.
   */
  predicate IsTooLong(text: Option<string>, maxLength: int): (tooLong: bool)
    ensures text.None? ==> !tooLong
    ensures maxLength >= 0 ==> (tooLong <==> text.Some? && |text.value| > maxLength)
  {
    Truthy(text) && |text.value| > maxLength
  }

  /** JavaScript's `String.prototype.substring(0, end)`: a negative end counts as 0, a large one as the length. */
  function Prefix(s: string, end: int): (p: string)
    ensures |p| == if end < 0 then 0 else if end > |s| then |s| else end
    ensures p <= s
  {
    if end < 0 then [] else if end > |s| then s else s[..end]
  }

  /** `getTruncatedText`: the first `maxLength - 3` characters followed by the ellipsis. */
  function TruncatedText(text: string, maxLength: int): (truncated: string)
    ensures 3 <= |truncated| <= |text| + 3
    ensures truncated[..|truncated| - 3] <= text && truncated[|truncated| - 3..] == Ellipsis
    ensures |truncated| == 3 + if maxLength < 3 then 0 else if maxLength - 3 > |text| then |text| else maxLength - 3
  {
    Prefix(text, maxLength - 3) + Ellipsis
  }

  /**
   * Text that is too long is cut to exactly `maxLength` characters when
   * `maxLength` is at least 3: a prefix of the original, then the ellipsis.
   * With a smaller `maxLength` only the ellipsis is left.
   */
  lemma TruncatedTextShape(text: string, maxLength: int)
    requires IsTooLong(Some(text), maxLength)
    ensures maxLength >= 3 ==> |TruncatedText(text, maxLength)| == maxLength
    ensures maxLength >= 3 ==> TruncatedText(text, maxLength)[..maxLength - 3] == text[..maxLength - 3]
    ensures maxLength >= 3 ==> TruncatedText(text, maxLength)[maxLength - 3..] == Ellipsis
    ensures maxLength < 3 ==> TruncatedText(text, maxLength) == Ellipsis
    ensures |TruncatedText(text, maxLength)| < |text| + 3
  {
  }

  /** What the component renders: the text and which control, if any, sits beside it. */
  datatype View =
    | ShortText(text: Option<string>)
    | ExpandableText(shown: string)
    | ShrinkableText(shown: string)

  /** `getText`: the truncated text while collapsed, the full text once expanded. */
  function GetText(text: string, maxLength: int, isExpanded: bool): (shown: string)
    ensures isExpanded ==> shown == text
    ensures !isExpanded && |text| > maxLength >= 3 ==> |shown| == maxLength && shown[..maxLength - 3] == text[..maxLength - 3]
  {
    if !isExpanded then TruncatedText(text, maxLength) else text
  }

  /** The component's render for given props and expansion state. */
  function Render(text: Option<string>, maxLength: int, isExpanded: bool): (v: View)
    ensures !IsTooLong(text, maxLength) <==> v == ShortText(text)
    ensures v.ExpandableText? <==> IsTooLong(text, maxLength) && !isExpanded
    ensures v.ShrinkableText? ==> v.shown == text.value
    ensures v.ExpandableText? && maxLength >= 3 ==>
              |v.shown| == maxLength < |text.value| && v.shown[..maxLength - 3] == text.value[..maxLength - 3]
  {
    if !IsTooLong(text, maxLength) then ShortText(text)
    else if !isExpanded then
      TruncatedTextShape(text.value, maxLength);
      ExpandableText(GetText(text.value, maxLength, isExpanded))
    else ShrinkableText(GetText(text.value, maxLength, isExpanded))
  }

  /** A mounted instance: fixed props and the `isExpanded` state hook. */
  class ExpandableTextComponent {
    const text: Option<string>
    const maxLength: int
    var isExpanded: bool

    /** Mounting starts collapsed (`useState(false)`). */
    constructor(text: Option<string>, maxLength: int)
      ensures this.text == text && this.maxLength == maxLength
      ensures !isExpanded
    {
      this.text := text;
      this.maxLength := maxLength;
      isExpanded := false;
    }

    /** What the instance shows now. */
    function View(): View
      reads this
    {
      Render(text, maxLength, isExpanded)
    }

    /** The expand control's click handler, `setIsExpanded(true)`. */
    method Expand()
      modifies this
      ensures isExpanded
      ensures IsTooLong(text, maxLength) ==> View() == ShrinkableText(text.value)
    {
      isExpanded := true;
    }

    /** The shrink control's click handler, `setIsExpanded(false)`. */
    method Shrink()
      modifies this
      ensures !isExpanded
      ensures IsTooLong(text, maxLength) ==> View() == ExpandableText(TruncatedText(text.value, maxLength))
    {
      isExpanded := false;
    }
  }

  /** Expanding and then shrinking a long text brings back the first view. */
  method ExpandThenShrink(text: string, maxLength: int) returns (first: View, expanded: View, last: View)
    requires IsTooLong(Some(text), maxLength)
    ensures first == last == ExpandableText(TruncatedText(text, maxLength))
    ensures expanded == ShrinkableText(text)
  {
    var c := new ExpandableTextComponent(Some(text), maxLength);
    first := c.View();
    c.Expand();
    expanded := c.View();
    c.Shrink();
    last := c.View();
  }
}

/** The result-card name formatter of the web front end: the product name in bold,
    either cut to a fixed width with an ellipsis, or followed by invisible padding up to
    that width so that cards line up. */
module App {
  import opened Basics
  import opened Text

  const Bold: string := "<b>"
  const EndBold: string := "</b>"
  const Ellipsis: string := " ..."
  const SpanOpen: string := "<span style=\"color:transparent; font-weight:normal\">"
  const SpanClose: string := "</span>"

  /** The default pad text: the two characters U+00AC U+2211 as the source file spells
      it (a mis-decoded middle dot), so each pad adds two characters. */
  const DefaultPad: string := "\U{AC}\U{2211}"

  /** `(name or "").strip()` */
  function Trimmed(name: Option<string>): (t: string)
    ensures Stripped(t)
  {
    Strip(name.GetOr(""))
  }

  /** `format_name_html`: a trimmed name longer than `totalLen` becomes its first
      `totalLen - 4` characters and `" ..."` in bold; any other name is shown whole in
      bold, followed by a space and a transparent span of `totalLen - |name|` pads. */
  function FormatNameHtml(name: Option<string>, totalLen: int, padChar: string): (r: string)
    ensures Bold <= r
  {
    var t := Trimmed(name);
    if |t| > totalLen then Bold + (Prefix(t, totalLen - 4) + Ellipsis) + EndBold
    else Bold + t + EndBold + " " + SpanOpen + Repeat(padChar, totalLen - |t|) + SpanClose
  }

  /** A name too long for the width is cut so that the visible text, ellipsis included,
      is exactly `totalLen` characters and starts with the name's first `totalLen - 4`
      characters (for widths of at least 4). */
  lemma FormatNameTruncated(name: Option<string>, totalLen: int, padChar: string)
    requires |Trimmed(name)| > totalLen >= 4
    ensures exists visible ::
              && FormatNameHtml(name, totalLen, padChar) == Bold + visible + EndBold
              && |visible| == totalLen
              && visible[..totalLen - 4] == Trimmed(name)[..totalLen - 4]
              && visible[totalLen - 4..] == Ellipsis
  {
    var t := Trimmed(name);
    var visible := t[..totalLen - 4] + Ellipsis;
    assert FormatNameHtml(name, totalLen, padChar) == Bold + visible + EndBold;
  }

  /** A name that fits is shown unchanged and followed by as many pads as make its length
      up to `totalLen`. */
  lemma FormatNamePadded(name: Option<string>, totalLen: int, padChar: string)
    requires |Trimmed(name)| <= totalLen
    ensures exists pads: nat ::
              && |Trimmed(name)| + pads == totalLen
              && FormatNameHtml(name, totalLen, padChar)
                 == Bold + Trimmed(name) + EndBold + " " + SpanOpen + Repeat(padChar, pads) + SpanClose
  {
    var t := Trimmed(name);
    var pads: nat := totalLen - |t|;
    assert FormatNameHtml(name, totalLen, padChar)
           == Bold + t + EndBold + " " + SpanOpen + Repeat(padChar, pads) + SpanClose;
  }

  /** A name of exactly `totalLen` characters is neither cut nor padded. */
  lemma FormatNameExactFit(name: Option<string>, padChar: string)
    ensures FormatNameHtml(name, |Trimmed(name)|, padChar)
            == Bold + Trimmed(name) + EndBold + " " + SpanOpen + SpanClose
  {
    var t := Trimmed(name);
    assert Repeat(padChar, 0) == "";
    assert Bold + t + EndBold + " " + SpanOpen + "" == Bold + t + EndBold + " " + SpanOpen;
  }

  /** Surrounding whitespace is removed before the name is measured, and a missing name
      is formatted as the empty one. */
  lemma FormatNameTrims(ws1: string, t: string, ws2: string, totalLen: int, padChar: string)
    requires AllSpace(ws1) && AllSpace(ws2)
    ensures FormatNameHtml(Some(ws1 + t + ws2), totalLen, padChar) == FormatNameHtml(Some(t), totalLen, padChar)
    ensures FormatNameHtml(None, totalLen, padChar) == FormatNameHtml(Some(""), totalLen, padChar)
  {
    StripPadding(ws1, t, ws2);
  }

  /** With the default pad every pad is two characters, so the padding is twice as
      long as the count of pads. */
  lemma DefaultPadLength(name: Option<string>, totalLen: int)
    requires |Trimmed(name)| <= totalLen
    ensures |FormatNameHtml(name, totalLen, DefaultPad)|
            == |Bold + Trimmed(name) + EndBold + " " + SpanOpen + SpanClose| + 2 * (totalLen - |Trimmed(name)|)
  {
  }

  /** Below a width of 4 the cut `name[:totalLen - 4]` counts from the end: width 2
      keeps all but the last 2 characters, so the visible text is longer than the
      width. */
  lemma FormatNameNarrowWidth()
    ensures FormatNameHtml(Some("abcde"), 2, ".") == "<b>abc ...</b>"
  {
    StrippedIsFixed("abcde");
    assert Prefix("abcde", 2 - 4) == "abc";
    assert Bold + ("abc" + Ellipsis) + EndBold == "<b>abc ...</b>";
  }
}

/**
 * The theme flag (script.js, `isDarkMode` and `toggleTheme`) with its mirror
 * under the 'darkMode' storage key, and the QR-code image URL whose colours
 * follow that flag (`generateQRCodeUrl`).
 */
module Appearance {
  import opened Wrappers
  import opened FormEncoding

  /** What storage holds after `setItem` is given a boolean: its string form. */
  function FlagText(b: bool): string {
    if b then "true" else "false"
  }

  /** The flag as read at page start: only the exact text "true" means dark. */
  function ReadFlag(stored: Option<string>): bool {
    stored == Some("true")
  }

  /** Writing the flag and reading it back gives the same flag; a missing key reads as light. */
  lemma FlagRoundTrip(b: bool)
    ensures ReadFlag(Some(FlagText(b))) == b
    ensures !ReadFlag(None)
  {
  }

  /** The theme state: `isDarkMode` and the value under the 'darkMode' key. */
  class ThemeState {
    var isDarkMode: bool
    var stored: Option<string>

    /** A reload would show the same theme. */
    ghost predicate Valid()
      reads this
    {
      ReadFlag(stored) == isDarkMode
    }

    /** Page start: the flag is read once from storage. */
    constructor Load(saved: Option<string>)
      ensures Valid() && stored == saved
      ensures isDarkMode <==> saved == Some("true")
    {
      stored := saved;
      isDarkMode := ReadFlag(saved);
    }

    /** `toggleTheme`: negate the flag, then write it. */
    method ToggleTheme()
      requires Valid()
      modifies this
      ensures Valid()
      ensures isDarkMode == !old(isDarkMode)
      ensures stored == Some(FlagText(isDarkMode))
    {
      isDarkMode := !isDarkMode;
      stored := Some(FlagText(isDarkMode));
    }
  }

  /** The image service the QR-code URL points at. */
  const QrEndpoint: string := "https://api.qrserver.com/v1/create-qr-code/"

  /** The fixed image size. */
  const QrSize: string := "200x200"

  /** Foreground and background colours, as hex digits without '#'. */
  datatype Colours = Colours(foreground: string, background: string)

  /**
   * Black on white, or white on dark slate: the two colours always differ,
   * and the dark theme draws in the light theme's background colour.
   */
  function QrColours(dark: bool): (c: Colours)
    ensures c.foreground != c.background
    ensures dark ==> c.foreground == QrColours(false).background
    ensures FormSafe(c.foreground) && FormSafe(c.background)
  {
    if dark then Colours("ffffff", "1f2937") else Colours("000000", "ffffff")
  }

  /** The query part of the QR-code URL. */
  function QrQuery(url: string, dark: bool, encode: string -> string): string {
    var c := QrColours(dark);
    "size=" + QrSize + "&data=" + encode(url) + "&color=" + c.foreground + "&bgcolor=" + c.background
  }

  /** `generateQRCodeUrl`, with the theme flag as `dark` and `encodeURIComponent` as `encode`. */
  function QrCodeUrl(url: string, dark: bool, encode: string -> string): string {
    QrEndpoint + "?" + QrQuery(url, dark, encode)
  }

  /** The query regrouped as one field ahead of the rest, three times over. */
  lemma QrQueryShape(enc: string, fg: string, bg: string)
    ensures "size=" + QrSize + "&data=" + enc + "&color=" + fg + "&bgcolor=" + bg
         == "size" + "=" + QrSize + "&" + ("data" + "=" + enc + "&" + ("color" + "=" + fg + "&" + ("bgcolor" + "=" + bg)))
  {
    assert "bgcolor" + "=" == "bgcolor=";
    assert "color" + "=" == "color=";
    assert "data" + "=" == "data=";
    assert "size" + "=" == "size=";
  }

  /** Reading back the regrouped query field by field. */
  lemma QrFieldsReadBack(enc: string, fg: string, bg: string)
    requires FormSafe(enc) && FormSafe(fg) && FormSafe(bg)
    ensures ParseForm("size" + "=" + QrSize + "&" + ("data" + "=" + enc + "&" + ("color" + "=" + fg + "&" + ("bgcolor" + "=" + bg))))
         == [("size", QrSize), ("data", enc), ("color", fg), ("bgcolor", bg)]
  {
    var last := "bgcolor" + "=" + bg;
    var third := "color" + "=" + fg + "&" + last;
    var second := "data" + "=" + enc + "&" + third;
    assert FormSafe(QrSize);
    ParseFormCons("size", QrSize, second);
    ParseFormCons("data", enc, third);
    ParseFormCons("color", fg, last);
    ParseFormOne("bgcolor", bg);
  }

  /**
   * The QR-code URL is the image endpoint, a '?', and a query that reads back
   * as exactly four fields: the fixed size, the encoded target, and the two
   * colours of the current theme.
   */
  lemma QrQueryReadsBack(url: string, dark: bool, encode: string -> string)
    requires FormSafe(encode(url))
    ensures var u, c := QrCodeUrl(url, dark, encode), QrColours(dark);
            && |u| > |QrEndpoint|
            && u[..|QrEndpoint| + 1] == QrEndpoint + "?"
            && ParseForm(u[|QrEndpoint| + 1..])
                 == [("size", QrSize), ("data", encode(url)), ("color", c.foreground), ("bgcolor", c.background)]
  {
    var c := QrColours(dark);
    var u, q := QrCodeUrl(url, dark, encode), QrQuery(url, dark, encode);
    assert u[..|QrEndpoint| + 1] == QrEndpoint + "?" && u[|QrEndpoint| + 1..] == q;
    QrQueryShape(encode(url), c.foreground, c.background);
    QrFieldsReadBack(encode(url), c.foreground, c.background);
  }
}

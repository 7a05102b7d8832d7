/**
  convertPageToHtml (editor/operations.js:39-73): a stored page becomes
  an HTML document, or `false`. The page's component tree goes through
  convertJSONtoHimalayaJSON and himalaya's `stringify`; the `<head>` is
  assembled from the page's metadata.
*/
module Page {
  import opened JsBase
  import opened PageJson
  import opened Himalaya

  /** The result: `false`, or the document text. */
  datatype Html = False | Document(text: string)

  const DefaultIcon := "https://cdn.idyle.app/assets/idyle.ico"
  const AosCss := "<link rel=\"stylesheet\" type=\"text/css\" href=\"https://unpkg.com/aos@next/dist/aos.css\" />"
  const AosJs := "<script src=\"https://unpkg.com/aos@next/dist/aos.js\"></script>"
  const AosInit := "<script>AOS.init();</script>"

  /** The text of the template around `${head}` and `${stringified}` (lines 55-68). */
  const Opening := "\n        <html lang=\"en\">\n            <head>\n                <meta charset=\"UTF-8\">\n                <meta name=\"viewport\" content=\"width=device-width, initial-scale=1.0\">\n                "
  const Middle := "\n                " + AosCss + "\n            </head>\n            <body>\n                <div>"
  const Closing := "</div>\n                " + AosJs + "\n                " + AosInit + "\n            </body>\n        </html>"

  // ---------------------------------------------------------------------
  // The head (lines 46-54)
  // ---------------------------------------------------------------------

  /** The tags the head may hold, in the order they are appended. */
  datatype HeadTag =
    | Title(name: string)
    | Icon(href: string)
    | Stylesheet(href: string)
    | Tailwind
    | FontStyle(font: string)

  /** Each tag as written; the font rule keeps the `}>` of line 54. */
  function Markup(t: HeadTag): string {
    match t
    case Title(name) => "<title>" + name + "</title>"
    case Icon(href) => "<link rel=\"icon\" href=\"" + href + "\" />"
    case Stylesheet(href) => "<link rel=\"stylesheet\" type=\"text/css\" href=\"" + href + "\" />"
    case Tailwind => "<script src=\"https://cdn.tailwindcss.com\"></script>"
    case FontStyle(font) => "<style>html { font-family: '" + font + "' !important }></style>"
  }

  function MarkupAll(ts: seq<HeadTag>): string {
    if ts == [] then "" else MarkupAll(ts[..|ts| - 1]) + Markup(ts[|ts| - 1])
  }

  /** Appending a tag appends its markup. */
  lemma MarkupAppend(ts: seq<HeadTag>, t: HeadTag)
    ensures MarkupAll(ts + [t]) == MarkupAll(ts) + Markup(t)
  {
    assert (ts + [t])[..|ts|] == ts;
  }

  /** The four `metadata?.…` reads of lines 46-54. */
  datatype Settings = Settings(toggle: Json, favicon: Json, css: Json, font: Json)

  function SettingsOf(metadata: Json): (s: Settings)
    ensures s.toggle == Prop(metadata, "toggle") && s.favicon == Prop(metadata, "favicon")
    ensures s.css == Prop(metadata, "css") && s.font == Prop(metadata, "font")
  {
    Settings(Prop(metadata, "toggle"), Prop(metadata, "favicon"), Prop(metadata, "css"), Prop(metadata, "font"))
  }

  lemma MarkupPair(a: HeadTag, b: HeadTag)
    ensures MarkupAll([a, b]) == Markup(a) + Markup(b)
  {
    assert [a, b] == [a] + [b];
    assert [a] == [] + [a];
    MarkupAppend([], a);
    MarkupAppend([a], b);
  }

  /** `metadata?.toggle ?? true` (line 46). */
  function Toggle(s: Settings): (t: Json)
    ensures Truthy(t) <==> Nullish(s.toggle) || Truthy(s.toggle)
  {
    if Nullish(s.toggle) then Bool(true) else s.toggle
  }

  /** `metadata?.favicon || "https://cdn.idyle.app/assets/idyle.ico"` (line 47). */
  function IconOf(s: Settings): (icon: Json)
    ensures Truthy(icon)
    ensures Truthy(s.favicon) ==> icon == s.favicon
  {
    if Truthy(s.favicon) then s.favicon else Str(DefaultIcon)
  }

  /** The tags lines 46-54 put in the head, for the page title `title`. */
  function HeadTags(s: Settings, title: string): seq<HeadTag> {
    var base := [Title(title), Icon(JsString(IconOf(s)))];
    var styled := if Truthy(s.css) then base + [Stylesheet(JsString(s.css))] else base;
    var scripted := if Truthy(Toggle(s)) then styled + [Tailwind] else styled;
    if Truthy(s.font) then scripted + [FontStyle(JsString(s.font))] else scripted
  }

  /** The head as lines 46-54 leave it: each present tag's markup, in order. */
  function HeadOf(s: Settings, title: string): string {
    var base := Markup(Title(title)) + Markup(Icon(JsString(IconOf(s))));
    var styled := if Truthy(s.css) then base + Markup(Stylesheet(JsString(s.css))) else base;
    var scripted := if Truthy(Toggle(s)) then styled + Markup(Tailwind) else styled;
    if Truthy(s.font) then scripted + Markup(FontStyle(JsString(s.font))) else scripted
  }

  // ---------------------------------------------------------------------
  // The page (lines 39-73)
  // ---------------------------------------------------------------------

  /** The document around a head and the stringified tree. */
  function DocumentText(head: string, markup: string): string {
    Opening + head + Middle + markup + Closing
  }

  /** Lines 44-68, once the tree is built: `false` when it stringifies to nothing. */
  function PageOfTree(tree: Node, metadata: Json, name: Json, stringify: seq<Node> -> string): Html {
    var markup := stringify([tree]);
    if markup == "" then False
    else Document(DocumentText(HeadOf(SettingsOf(metadata), JsString(name)), markup))
  }

  /**
    convertPageToHtml(data, metadata, name), with himalaya's `stringify`
    given as a parameter: `false` for falsy data, for a tree whose
    conversion throws (the `catch`) and for an empty stringified tree.
  */
  function PageOf(data: Json, metadata: Json, name: Json, stringify: seq<Node> -> string): Html {
    if !Truthy(data) then False
    else match ToHimalaya(data)
      case Throws => False
      case Ok(tree) => PageOfTree(tree, metadata, name, stringify)
  }

  /** Lines 39-45 and 69-72: falsy data, and a conversion that throws, give `false`. */
  method ConvertPageToHtml(data: Json, metadata: Json, name: Json, stringify: seq<Node> -> string)
    returns (r: Html)
    ensures r == PageOf(data, metadata, name, stringify)
  {
    if !Truthy(data) {
      return False;
    }
    var converted := ConvertJsonToHimalaya(data);
    if converted.Throws? {
      return False;
    }
    r := RenderPage(converted.value, metadata, name, stringify);
  }

  /** Lines 44-68: the stringified tree, the head, and the document around them. */
  method RenderPage(tree: Node, metadata: Json, name: Json, stringify: seq<Node> -> string)
    returns (r: Html)
    ensures r == PageOfTree(tree, metadata, name, stringify)
  {
    var stringified := stringify([tree]);
    if stringified == "" {
      return False;
    }
    var head := BuildHead(SettingsOf(metadata), JsString(name));
    return Document(DocumentText(head, stringified));
  }

  /** Lines 46-54: the head, one tag appended at a time. */
  method BuildHead(s: Settings, title: string) returns (head: string)
    ensures head == HeadOf(s, title)
  {
    head := Markup(Title(title));
    var toggle := Toggle(s);
    var icon := IconOf(s);
    if Truthy(icon) {
      head := head + Markup(Icon(JsString(icon)));
    }
    if Truthy(s.css) {
      head := head + Markup(Stylesheet(JsString(s.css)));
    }
    if Truthy(toggle) {
      head := head + Markup(Tailwind);
    }
    if Truthy(s.font) {
      head := head + Markup(FontStyle(JsString(s.font)));
    }
  }
}

/** What convertPageToHtml (editor/operations.js:39-73) promises about the page it renders. */
module PageLaws {
  import opened JsBase
  import opened PageJson
  import opened Himalaya
  import opened Page

  /** The head text is the markup of its tags, in the order of lines 46-54. */
  lemma HeadIsMarkupOfTags(s: Settings, title: string)
    ensures HeadOf(s, title) == MarkupAll(HeadTags(s, title))
  {
    var base := [Title(title), Icon(JsString(IconOf(s)))];
    MarkupPair(Title(title), Icon(JsString(IconOf(s))));
    var styled := if Truthy(s.css) then base + [Stylesheet(JsString(s.css))] else base;
    if Truthy(s.css) {
      MarkupAppend(base, Stylesheet(JsString(s.css)));
    }
    var scripted := if Truthy(Toggle(s)) then styled + [Tailwind] else styled;
    if Truthy(Toggle(s)) {
      MarkupAppend(styled, Tailwind);
    }
    if Truthy(s.font) {
      MarkupAppend(scripted, FontStyle(JsString(s.font)));
    }
  }

  /** The title comes first and the icon second; at most three more tags follow. */
  lemma HeadStartsWithTitleAndIcon(s: Settings, title: string)
    ensures 2 <= |HeadTags(s, title)| <= 5
    ensures HeadTags(s, title)[0] == Title(title)
    ensures HeadTags(s, title)[1] == Icon(JsString(IconOf(s)))
  {
  }

  /** Without a truthy `favicon` the icon is the default one. */
  lemma DefaultFavicon(s: Settings, title: string)
    requires !Truthy(s.favicon)
    ensures HeadTags(s, title)[1] == Icon(DefaultIcon)
  {
  }

  /** The stylesheet link is there exactly when `css` is truthy. */
  lemma StylesheetIff(s: Settings, title: string)
    ensures (exists k :: 0 <= k < |HeadTags(s, title)| && HeadTags(s, title)[k].Stylesheet?) <==> Truthy(s.css)
  {
    if Truthy(s.css) {
      assert HeadTags(s, title)[2].Stylesheet?;
    }
  }

  /**
    Tailwind is loaded exactly when `toggle` is missing, `null` or truthy:
    `?? true` only replaces `undefined` and `null`, so `false`, `0` and
    `''` switch it off.
  */
  lemma TailwindIff(s: Settings, title: string)
    ensures Tailwind in HeadTags(s, title) <==> Nullish(s.toggle) || Truthy(s.toggle)
  {
    var tags := HeadTags(s, title);
    if Tailwind in tags {
      var k :| 0 <= k < |tags| && tags[k] == Tailwind;
    }
  }

  /** The font rule is there exactly when `font` is truthy. */
  lemma FontIff(s: Settings, title: string)
    ensures (exists k :: 0 <= k < |HeadTags(s, title)| && HeadTags(s, title)[k].FontStyle?) <==> Truthy(s.font)
  {
    var tags := HeadTags(s, title);
    if Truthy(s.font) {
      assert tags[|tags| - 1].FontStyle?;
    }
  }

  /** A page without metadata gets the title, the default icon and Tailwind, nothing else. */
  lemma NoMetadata(title: string)
    ensures HeadTags(SettingsOf(Undef), title) == [Title(title), Icon(DefaultIcon), Tailwind]
  {
  }

  /** `false` exactly for falsy data, a conversion that throws, or an empty stringified tree. */
  lemma FalseIff(data: Json, metadata: Json, name: Json, stringify: seq<Node> -> string)
    ensures PageOf(data, metadata, name, stringify) == False <==>
      !Truthy(data) || ToHimalaya(data).Throws? || stringify([ToHimalaya(data).value]) == ""
  {
  }
}

/**
 * The XMA (XIV Mod Archive) importer's two pure pieces: the check that a
 * URL points to a mod page on the archive, and `handle_handle`, the walk
 * over the parsed description fragment that writes Markdown.
 *
 * The fragment is an `RcDom` tree: every node has a payload (an element
 * with its local name and attributes, a text node, or any other kind of
 * node such as the document or a comment) and a list of children.
 */
module Xma {
  import opened Common

  // ---------------------------------------------------------------------
  // The URL check

  /** What the model needs of a parsed `url::Url`: `host_str()` and `path()`. */
  datatype Url = Url(host: Option<string>, path: string)

  const XmaHosts: set<string> := {"xivmodarchive.com", "www.xivmodarchive.com"}
  const ModPathPrefix: string := "/modid/"

  /**
   * The first step of `xma_to_markdown`. `parse` is `Url::parse` (`None`
   * when the text is not a URL); the host must be one of the archive's two
   * names and the path must lead to a mod.
   */
  function CheckUrl(url: string, parse: string -> Option<Url>): (r: Result<Url>)
    ensures r.Ok? ==> parse(url) == Some(r.value)
    ensures r.Err? ==> r.error.Bail?
  {
    match parse(url)
    case None => Err(Bail("could not parse url"))
    case Some(u) =>
      if !(u.host.Some? && u.host.value in XmaHosts) then Err(Bail("not an XMA url"))
      else if !StartsWith(u.path, ModPathPrefix) then Err(Bail("not an XMA url that points to a mod"))
      else Ok(u)
  }

  /**
   * A URL is accepted exactly when it parses, names `xivmodarchive.com` or
   * `www.xivmodarchive.com` as its host and has a path beginning `/modid/`;
   * each way of failing has its own message, checked in that order.
   */
  lemma CheckUrlAccepts(url: string, parse: string -> Option<Url>)
    ensures CheckUrl(url, parse).Ok? <==>
      (parse(url).Some? && parse(url).value.host in {Some("xivmodarchive.com"), Some("www.xivmodarchive.com")}
       && |parse(url).value.path| >= 7 && parse(url).value.path[..7] == "/modid/")
    ensures parse(url).None? ==> CheckUrl(url, parse) == Err(Bail("could not parse url"))
    ensures parse(url).Some? && parse(url).value.host !in {Some("xivmodarchive.com"), Some("www.xivmodarchive.com")} ==>
      CheckUrl(url, parse) == Err(Bail("not an XMA url"))
    ensures parse(url).Some? && parse(url).value.host in {Some("xivmodarchive.com"), Some("www.xivmodarchive.com")}
      && !StartsWith(parse(url).value.path, "/modid/")
      ==> CheckUrl(url, parse) == Err(Bail("not an XMA url that points to a mod"))
  {
    match parse(url)
    case None =>
    case Some(u) =>
      assert u.host in {Some("xivmodarchive.com"), Some("www.xivmodarchive.com")} <==>
        (u.host.Some? && u.host.value in XmaHosts);
  }

  // ---------------------------------------------------------------------
  // The fragment tree

  datatype Attribute = Attribute(name: string, value: string)

  datatype NodeData =
    | Element(name: string, attrs: seq<Attribute>)
    | Text(contents: string)
    | Other  // the document, a doctype, a comment or a processing instruction

  datatype Node = Node(data: NodeData, children: seq<Node>)

  /** The value of the first attribute named `href`, as `attrs.iter().find(..)` gives it. */
  function FindHref(attrs: seq<Attribute>): (r: Option<string>)
    ensures r.Some? <==> exists i :: 0 <= i < |attrs| && attrs[i].name == "href"
    ensures r.Some? ==> exists i :: 0 <= i < |attrs| && attrs[i].name == "href" && attrs[i].value == r.value
                          && forall j :: 0 <= j < i ==> attrs[j].name != "href"
  {
    if attrs == [] then None
    else if attrs[0].name == "href" then Some(attrs[0].value)
    else
      var r := FindHref(attrs[1..]);
      assert forall i :: 1 <= i < |attrs| ==> attrs[i] == attrs[1..][i - 1];
      r
  }

  // ---------------------------------------------------------------------
  // Text nodes

  /** A text whose left-trimmed form begins with `◽` or `-` is a list item written by hand. */
  predicate IsListItem(text: string) {
    var t := TrimStart(text);
    t != [] && (t[0] == '◽' || t[0] == '-')
  }

  /**
   * What a text node writes: a list item as `- ` and the rest after its
   * marker, left-trimmed; any other text as it stands.
   */
  function TextMarkdown(text: string): (r: string)
    ensures !IsListItem(text) ==> r == text
    ensures IsListItem(text) ==> |r| >= 2 && r[..2] == "- "
  {
    var t := TrimStart(text);
    if IsListItem(text) then "- " + TrimStart(t[1..]) else text
  }

  /**
   * A hand-written list item loses only white space and its marker: the
   * item's text is what follows them in the original, and it starts with
   * something other than white space.
   */
  lemma ListItemParts(text: string) returns (marker: nat)
    requires IsListItem(text)
    ensures var item := TextMarkdown(text)[2..];
      && marker < |text| - |item|
      && EndsWith(text, item)
      && (text[marker] == '◽' || text[marker] == '-')
      && (forall i :: 0 <= i < |text| - |item| && i != marker ==> IsUnicodeWhiteSpace(text[i]))
      && (item == [] || !IsUnicodeWhiteSpace(item[0]))
  {
    var t := TrimStart(text);
    TrimStartShape(text);
    marker := |text| - |t|;
    var rest := t[1..];
    var item := TrimStart(rest);
    TrimStartShape(rest);
    assert TextMarkdown(text)[2..] == item;
    assert rest == t[|t| - |rest|..];
    SuffixOfSuffix(text, t, rest);
    SuffixOfSuffix(text, rest, item);
    assert rest == text[marker + 1..];
    forall i | marker < i < |text| - |item|
      ensures IsUnicodeWhiteSpace(text[i])
    {
      assert IsUnicodeWhiteSpace(rest[i - marker - 1]);
    }
  }

  /** A suffix of a suffix is a suffix. */
  lemma SuffixOfSuffix(a: string, b: string, c: string)
    requires EndsWith(a, b) && EndsWith(b, c)
    ensures EndsWith(a, c)
  {
    assert a[|a| - |c|..] == a[|a| - |b|..][|b| - |c|..];
  }

  // ---------------------------------------------------------------------
  // Rendering

  /** What a node writes before its children, and what it pushes after them (`push_after`). */
  datatype Wrapping = Wrapping(before: string, after: Option<string>)

  function Closing(w: Wrapping): string {
    match w.after case Some(s) => s case None => ""
  }

  /** The walk over a tree, given what each kind of node writes around its children. */
  function Walk(n: Node, wrap: NodeData -> Wrapping): string
  {
    wrap(n.data).before + WalkAll(n.children, wrap) + Closing(wrap(n.data))
  }

  /** The walk over a list of siblings, first to last. */
  function WalkAll(ns: seq<Node>, wrap: NodeData -> Wrapping): string
  {
    if ns == [] then "" else WalkAll(ns[..|ns| - 1], wrap) + Walk(ns[|ns| - 1], wrap)
  }

  /** What each node writes around its children, by kind and by element name. */
  function Wrap(d: NodeData): Wrapping
  {
    match d
    case Element(name, attrs) =>
      if name == "h2" then Wrapping("## ", Some("\n"))
      else if name == "a" then
        (match FindHref(attrs)
         case Some(href) => Wrapping("[", Some("](" + href + ")"))
         case None => Wrapping("", None))
      else if name == "p" then Wrapping("\n", None)
      else if name == "strong" then Wrapping("**", Some("**"))
      else if name == "em" then Wrapping("*", Some("*"))
      else if name == "br" then Wrapping("  \n", None)
      else Wrapping("", None)
    case Text(contents) => Wrapping(TextMarkdown(contents), None)
    case Other => Wrapping("", None)
  }

  /** The Markdown for a node. */
  function Render(n: Node): string
  {
    Walk(n, Wrap)
  }

  /** The Markdown for a list of sibling nodes. */
  function RenderAll(ns: seq<Node>): string
  {
    WalkAll(ns, Wrap)
  }

  /**
   * The part of `handle_handle` before the children: the `match` on the
   * node, writing its opening and choosing what to push after.
   */
  method OpenNode(data: NodeData, markdown: string) returns (result: string, pushAfter: Option<string>)
    ensures result == markdown + Wrap(data).before
    ensures pushAfter == Wrap(data).after
  {
    result := markdown;
    pushAfter := None;
    match data {
      case Element(name, attrs) =>
        if name == "h2" {
          result := result + "## ";
          pushAfter := Some("\n");
        } else if name == "a" {
          var href := FindHref(attrs);
          if href.Some? {
            result := result + "[";
            pushAfter := Some("](" + href.value + ")");
          }
        } else if name == "p" {
          result := result + "\n";
        } else if name == "strong" {
          result := result + "**";
          pushAfter := Some("**");
        } else if name == "em" {
          result := result + "*";
          pushAfter := Some("*");
        } else if name == "br" {
          result := result + "  \n";
        }
      case Text(contents) =>
        var text := contents;
        var isListItem := false;
        var trimmed := TrimStart(text);
        if trimmed != [] && (trimmed[0] == '◽' || trimmed[0] == '-') {
          isListItem := true;
          text := TrimStart(trimmed[1..]);
        }
        if isListItem {
          result := result + "- ";
        }
        result := result + text;
      case Other =>
    }
  }

  /**
   * `handle_handle`: the recursive walk appending to `markdown`. The result
   * is the text passed in followed by the node's rendering.
   */
  method HandleHandle(handle: Node, markdown: string) returns (result: string)
    ensures result == markdown + Render(handle)
    decreases handle, 1
  {
    var pushAfter;
    result, pushAfter := OpenNode(handle.data, markdown);
    result := HandleChildren(handle.children, result, handle);
    RenderParts(handle);
    if pushAfter.Some? {
      result := result + pushAfter.value;
    }
  }

  /** The loop of `handle_handle` over a node's children, each handled in turn. */
  method HandleChildren(children: seq<Node>, markdown: string, ghost parent: Node) returns (result: string)
    requires children == parent.children
    ensures result == markdown + RenderAll(children)
    decreases parent, 0
  {
    result := markdown;
    for i := 0 to |children|
      invariant result == markdown + RenderAll(children[..i])
    {
      RenderAllStep(children, i);
      result := HandleHandle(children[i], result);
    }
    assert children[..|children|] == children;
  }

  lemma RenderAllStep(children: seq<Node>, i: nat)
    requires i < |children|
    ensures RenderAll(children[..i + 1]) == RenderAll(children[..i]) + Render(children[i])
  {
    assert children[..i + 1][..i] == children[..i];
    WalkAllLast(children[..i + 1], Wrap);
  }

  lemma RenderParts(n: Node)
    ensures Render(n) == Wrap(n.data).before + RenderAll(n.children) + Closing(Wrap(n.data))
  {
  }

  /** The conversion of a whole fragment: `handle_handle` on the document, into an empty string. */
  method ToMarkdown(document: Node) returns (markdown: string)
    ensures markdown == Render(document)
  {
    markdown := HandleHandle(document, "");
  }

  /** Walking a list of siblings is walking each part and joining the results. */
  lemma {:induction false} WalkAllAppend(a: seq<Node>, b: seq<Node>, wrap: NodeData -> Wrapping)
    ensures WalkAll(a + b, wrap) == WalkAll(a, wrap) + WalkAll(b, wrap)
    decreases |b|
  {
    if b == [] {
      assert a + b == a;
    } else {
      LastOfAppend(a, b);
      WalkAllAppend(a, b[..|b| - 1], wrap);
      WalkAllLast(a + b, wrap);
      WalkAllLast(b, wrap);
    }
  }

  lemma WalkAllLast(ns: seq<Node>, wrap: NodeData -> Wrapping)
    requires ns != []
    ensures WalkAll(ns, wrap) == WalkAll(ns[..|ns| - 1], wrap) + Walk(ns[|ns| - 1], wrap)
  {
  }

  /** Rendering a list of siblings is rendering each part and joining the results. */
  lemma RenderAllAppend(a: seq<Node>, b: seq<Node>)
    ensures RenderAll(a + b) == RenderAll(a) + RenderAll(b)
  {
    WalkAllAppend(a, b, Wrap);
  }

  // The rendering of each kind of node.

  lemma RenderHeading(attrs: seq<Attribute>, children: seq<Node>)
    ensures Render(Node(Element("h2", attrs), children)) == "## " + RenderAll(children) + "\n"
  {
  }

  lemma RenderLink(attrs: seq<Attribute>, children: seq<Node>)
    ensures var r := Render(Node(Element("a", attrs), children));
      match FindHref(attrs)
      case Some(href) => r == "[" + RenderAll(children) + "](" + href + ")"
      case None => r == RenderAll(children)
  {
  }

  lemma RenderParagraphAndBreak(attrs: seq<Attribute>, children: seq<Node>)
    ensures Render(Node(Element("p", attrs), children)) == "\n" + RenderAll(children)
    ensures Render(Node(Element("br", attrs), children)) == "  \n" + RenderAll(children)
  {
  }

  lemma RenderEmphasis(attrs: seq<Attribute>, children: seq<Node>)
    ensures Render(Node(Element("strong", attrs), children)) == "**" + RenderAll(children) + "**"
    ensures Render(Node(Element("em", attrs), children)) == "*" + RenderAll(children) + "*"
  {
  }

  /** Elements of any other name, and nodes that are neither elements nor text, write only their children. */
  lemma RenderTransparent(d: NodeData, children: seq<Node>)
    requires d.Other? || (d.Element? && d.name !in {"h2", "a", "p", "strong", "em", "br"})
    ensures Render(Node(d, children)) == RenderAll(children)
  {
  }

  lemma RenderText(contents: string, children: seq<Node>)
    ensures Render(Node(Text(contents), children)) == TextMarkdown(contents) + RenderAll(children)
  {
  }

  // ---------------------------------------------------------------------
  // Plain fragments

  /** The text of a tree: every text node's contents, in document order. */
  function TextContent(n: Node): string
  {
    (if n.data.Text? then n.data.contents else "") + TextContentAll(n.children)
  }

  function TextContentAll(ns: seq<Node>): string
  {
    if ns == [] then "" else TextContentAll(ns[..|ns| - 1]) + TextContent(ns[|ns| - 1])
  }

  /** A node that writes no Markdown of its own beyond its text. */
  predicate PlainData(d: NodeData) {
    match d
    case Element(name, attrs) =>
      name !in {"h2", "p", "strong", "em", "br"} && !(name == "a" && FindHref(attrs).Some?)
    case Text(contents) => !IsListItem(contents)
    case Other => true
  }

  predicate Plain(n: Node) {
    PlainData(n.data) && forall i :: 0 <= i < |n.children| ==> Plain(n.children[i])
  }

  /**
   * A fragment with no headings, links, paragraphs, emphasis, breaks or
   * hand-written list items is written out as its text, unchanged.
   */
  lemma {:induction false} PlainRendersAsText(n: Node)
    requires Plain(n)
    ensures Render(n) == TextContent(n)
    decreases n, 1
  {
    PlainAllRendersAsText(n.children);
  }

  lemma {:induction false} PlainAllRendersAsText(ns: seq<Node>)
    requires forall i :: 0 <= i < |ns| ==> Plain(ns[i])
    ensures RenderAll(ns) == TextContentAll(ns)
    decreases ns, 0
  {
    if ns != [] {
      PlainAllRendersAsText(ns[..|ns| - 1]);
      PlainRendersAsText(ns[|ns| - 1]);
    }
  }
}

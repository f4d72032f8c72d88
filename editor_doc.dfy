/** The editor's document: its top-level children as a sequence of blocks,
    and the block edits of the editor script as functions on it. */
module EditorDoc {
  import opened Wrappers
  import opened Text

  type Id = string

  /** The tags convertBlock can produce. */
  datatype TextTag = P | H1 | H2 | H3 | Pre | Blockquote

  /** What a top-level child is. A text node has no tag name. */
  datatype Kind = TextBlock(tag: TextTag) | BulletList | NumberedList | Todo | Toggle | Callout | Rule
                | PageBlock(target: Id) | LineBreak | OtherElement(name: OtherTag) | TextNode

  /** The lower-cased tag names that have a kind of their own. */
  const KindTags: set<string> := {"p", "h1", "h2", "h3", "pre", "blockquote", "ul", "ol", "hr", "br", "details"}

  /** The tag name of any other element. */
  type OtherTag = s: string | s !in KindTags && (forall k :: 0 <= k < |s| ==> !('A' <= s[k] <= 'Z')) witness "span"

  function TagText(t: TextTag): string
  {
    match t
    case P => "p"
    case H1 => "h1"
    case H2 => "h2"
    case H3 => "h3"
    case Pre => "pre"
    case Blockquote => "blockquote"
  }

  /** tagName.toLowerCase(); None for a text node, where reading it throws. */
  function TagName(k: Kind): Option<string>
  {
    match k
    case TextBlock(t) => Some(TagText(t))
    case BulletList => Some("ul")
    case NumberedList => Some("ol")
    case Todo => Some("div")
    case Toggle => Some("details")
    case Callout => Some("div")
    case Rule => Some("hr")
    case PageBlock(_) => Some("div")
    case LineBreak => Some("br")
    case OtherElement(name) => Some(name)
    case TextNode => None
  }

  /** A top-level child: node is its identity in the page, html its
      innerHTML and text its textContent. */
  datatype Block = Block(node: nat, kind: Kind, html: string, text: string)

  /** The children, the top-level block holding the selection, and the next fresh identity. */
  datatype Doc = Doc(blocks: seq<Block>, caret: Option<nat>, nextNode: nat)

  /** The position of a node among the children. */
  function Find(bs: seq<Block>, node: nat): (r: Option<nat>)
    ensures r.Some? ==> r.value < |bs| && bs[r.value].node == node
    ensures r.None? ==> forall i :: 0 <= i < |bs| ==> bs[i].node != node
  {
    if bs == [] then None
    else if bs[0].node == node then Some(0)
    else
      var r := Find(bs[1..], node);
      if r.Some? then Some(r.value + 1) else None
  }

  /** getCurrentBlock: the child holding the selection, if any. */
  function CurrentBlock(d: Doc): (r: Option<nat>)
    ensures r.Some? ==> r == d.caret && Find(d.blocks, r.value).Some?
    ensures r.None? ==> d.caret.None? || forall i :: 0 <= i < |d.blocks| ==> d.blocks[i].node != d.caret.value
  {
    if d.caret.Some? && Find(d.blocks, d.caret.value).Some? then d.caret else None
  }

  // ---------------------------------------------------------------- templates

  const Br: string := "<br>"
  const ListItemHtml: string := "<li><br></li>"
  const TodoHtml: string := "<input type=\"checkbox\"><span class=\"todo-text\" contenteditable=\"true\"><br></span>"
  const ToggleHtml: string := "<summary>Toggle heading</summary><div class=\"toggle-content\" contenteditable=\"true\"><br></div>"
  const ToggleText: string := "Toggle heading"
  const CalloutIcon: string := "\U{1F4A1}"
  const CalloutHtml: string := "<span class=\"callout-icon\">" + CalloutIcon + "</span><span class=\"callout-text\" contenteditable=\"true\"><br></span>"
  const PageIcon: string := "\U{1F4C4}"
  const UntitledPage: string := "Untitled page"

  /** The inside of a page block: the icon, then the title or its default. */
  function PageHtml(title: string): string
  {
    "<span class=\"page-block-icon\">" + PageIcon + "</span><span class=\"page-block-title\">" +
    (if title == "" then UntitledPage else title) + "</span>"
  }

  function PageText(title: string): string
  {
    PageIcon + (if title == "" then UntitledPage else title)
  }

  /** A fresh `<p><br></p>`. */
  function EmptyParagraph(node: nat): Block
  {
    Block(node, TextBlock(P), Br, "")
  }

  // ---------------------------------------------------------------- serialisation

  function Attributes(k: Kind): string
  {
    match k
    case Todo => " class=\"todo-block\" contenteditable=\"false\""
    case Toggle => " class=\"toggle-block\" open=\"\""
    case Callout => " class=\"callout-block\" contenteditable=\"false\""
    case PageBlock(target) => " class=\"page-block\" contenteditable=\"false\" data-page-id=\"" + target + "\""
    case _ => ""
  }

  const Nbsp: char := '\U{00A0}'

  /** How innerHTML prints a text node's data: `&`, the no-break space, `<` and `>`
      become character references, every other character stands for itself. */
  function EscapeText(t: string): string
  {
    if t == [] then [] else EscapeChar(t[0]) + EscapeText(t[1..])
  }

  function EscapeChar(c: char): string
  {
    if c == '&' then "&amp;" else if c == Nbsp then "&nbsp;" else if c == '<' then "&lt;"
    else if c == '>' then "&gt;" else [c]
  }

  /** Text without those four characters prints as itself. */
  lemma {:induction false} EscapePlain(t: string)
    requires forall i :: 0 <= i < |t| ==> t[i] != '&' && t[i] != Nbsp && t[i] != '<' && t[i] != '>'
    ensures EscapeText(t) == t
  {
    if t != [] {
      EscapePlain(t[1..]);
      assert t == [t[0]] + t[1..];
    }
  }

  /** A no-break space prints as a reference starting with `&`. */
  lemma {:induction false} EscapeNbsp(t: string)
    requires Nbsp in t
    ensures '&' in EscapeText(t)
  {
    if t[0] == Nbsp {
      assert EscapeText(t)[0] == '&';
    } else {
      assert Nbsp in t[1..] by { var i :| 0 <= i < |t| && t[i] == Nbsp; assert t[1..][i - 1] == t[i]; }
      EscapeNbsp(t[1..]);
      assert EscapeText(t) == EscapeChar(t[0]) + EscapeText(t[1..]);
    }
  }

  /** A child's outerHTML. */
  function Outer(b: Block): string
  {
    match b.kind
    case TextNode => EscapeText(b.text)
    case Rule => "<hr>"
    case LineBreak => "<br>"
    case _ => "<" + TagName(b.kind).value + Attributes(b.kind) + ">" + b.html + "</" + TagName(b.kind).value + ">"
  }

  /** The editor's innerHTML. */
  function Html(bs: seq<Block>): string
  {
    Render(bs, Outer)
  }

  /** The children's serialisations one after the other. */
  function Render(bs: seq<Block>, f: Block -> string): string
  {
    if bs == [] then "" else f(bs[0]) + Render(bs[1..], f)
  }

  // ---------------------------------------------------------------- edits

  /** block.replaceWith(...new): a child that is not in the editor has no
      parent, and then nothing happens. The caret goes to caretNode. */
  function ReplaceNode(d: Doc, node: nat, added: seq<Block>, caretNode: nat): Doc
  {
    var i := Find(d.blocks, node);
    var bs := if i.Some? then d.blocks[..i.value] + added + d.blocks[i.value + 1..] else d.blocks;
    Doc(bs, Some(caretNode), d.nextNode + |added|)
  }

  /** block.textContent = '' */
  function ClearText(d: Doc, node: nat): (r: Doc)
    ensures |r.blocks| == |d.blocks| && r.caret == d.caret && r.nextNode == d.nextNode
  {
    match Find(d.blocks, node)
    case None => d
    case Some(i) => d.(blocks := d.blocks[i := d.blocks[i].(html := "", text := "")])
  }

  /** Clearing empties the html and text of the first block holding the
      node, keeping its kind and node, and touches no other block. */
  lemma ClearTextClears(d: Doc, node: nat)
    ensures (forall i :: 0 <= i < |d.blocks| ==> d.blocks[i].node != node) ==> ClearText(d, node) == d
    ensures forall i :: 0 <= i < |d.blocks| ==>
      ClearText(d, node).blocks[i].node == d.blocks[i].node && ClearText(d, node).blocks[i].kind == d.blocks[i].kind
    ensures forall i :: 0 <= i < |d.blocks| ==>
      if Find(d.blocks, node) == Some(i) then ClearText(d, node).blocks[i].html == "" && ClearText(d, node).blocks[i].text == ""
      else ClearText(d, node).blocks[i] == d.blocks[i]
  {
  }

  /** convertBlock fails to act on a child outside the editor, on a text
      node (reading its tag throws), and on a block already of that tag. */
  predicate ConvertActs(d: Doc, node: nat, tag: TextTag)
  {
    Find(d.blocks, node).Some? && TagName(d.blocks[Find(d.blocks, node).value].kind).Some? &&
    TagName(d.blocks[Find(d.blocks, node).value].kind).value != TagText(tag)
  }

  /** convertBlock: the block is swapped in place for one of the new tag
      with the same content, or `<br>` when it had none. */
  function Convert(d: Doc, node: nat, tag: TextTag): (r: Doc)
    ensures !ConvertActs(d, node, tag) ==> r == d
    ensures ConvertActs(d, node, tag) ==>
      var i := Find(d.blocks, node).value;
      var b := d.blocks[i];
      |r.blocks| == |d.blocks| && r.blocks[i].kind == TextBlock(tag) &&
      r.blocks[i].html == (if b.html == "" then Br else b.html) && r.blocks[i].text == b.text &&
      (forall j :: 0 <= j < |d.blocks| && j != i ==> r.blocks[j] == d.blocks[j]) &&
      CurrentBlock(r) == Some(r.blocks[i].node) && r.blocks[i].node == d.nextNode
  {
    if !ConvertActs(d, node, tag) then d
    else
      var i := Find(d.blocks, node).value;
      var b := d.blocks[i];
      var nb := Block(d.nextNode, TextBlock(tag), if b.html == "" then Br else b.html, b.text);
      var r := ReplaceNode(d, node, [nb], d.nextNode);
      assert r.blocks[i] == nb;
      FindPresent(r.blocks, i);
      r
  }

  lemma {:induction false} FindPresent(bs: seq<Block>, i: nat)
    requires i < |bs|
    ensures Find(bs, bs[i].node).Some?
  {
    if i > 0 && bs[0].node != bs[i].node {
      assert bs[1..][i - 1] == bs[i];
      FindPresent(bs[1..], i - 1);
    }
  }

  /** The page-embed form of insertBlock once the child note exists. */
  datatype PageRequest = PageRequest(replace: nat, title: string, content: string, parentId: Id)

  datatype Committed = Committed(doc: Doc, request: Option<PageRequest>)

  /** insertBlock(type) on a block: it is emptied, then the type decides.
      'page' only asks for a child note, and only when a note is open. */
  function Commit(d: Doc, node: nat, blockType: string, openNote: Option<Id>): (r: Committed)
    ensures r.request.Some? <==> blockType == "page" && openNote.Some?
    ensures r.request.Some? ==> r.request.value == PageRequest(node, UntitledPage, "<p><br></p>", openNote.value)
    ensures blockType == "page" ==> r.doc == ClearText(d, node)
    ensures r.doc.nextNode >= d.nextNode
  {
    CommitCleared(ClearText(d, node), node, blockType, openNote)
  }

  /** The types insertBlock's switch knows. */
  const CommitTypes: set<string> := {"p", "h1", "h2", "h3", "ul", "ol", "todo", "toggle", "code", "quote", "callout", "hr", "page"}

  /** The switch of insertBlock, on the block once emptied. */
  function CommitCleared(c: Doc, node: nat, blockType: string, openNote: Option<Id>): (r: Committed)
    ensures r.request.Some? <==> blockType == "page" && openNote.Some?
    ensures r.request.Some? ==> r.request.value == PageRequest(node, UntitledPage, "<p><br></p>", openNote.value)
    ensures blockType == "page" || blockType !in CommitTypes ==> r.doc == c
    ensures r.doc.nextNode >= c.nextNode
    ensures blockType in CommitTypes && blockType != "page" && Find(c.blocks, node).None? ==> r.doc.blocks == c.blocks
  {
    var n := c.nextNode;
    match blockType
    case "p" => Committed(Convert(c, node, P), None)
    case "h1" => Committed(Convert(c, node, H1), None)
    case "h2" => Committed(Convert(c, node, H2), None)
    case "h3" => Committed(Convert(c, node, H3), None)
    case "ul" => Committed(ReplaceNode(c, node, [Block(n, BulletList, ListItemHtml, "")], n), None)
    case "ol" => Committed(ReplaceNode(c, node, [Block(n, NumberedList, ListItemHtml, "")], n), None)
    case "todo" => Committed(ReplaceNode(c, node, [Block(n, Todo, TodoHtml, "")], n), None)
    case "toggle" => Committed(ReplaceNode(c, node, [Block(n, Toggle, ToggleHtml, ToggleText)], n), None)
    case "code" => Committed(ReplaceNode(c, node, [Block(n, TextBlock(Pre), Br, "")], n), None)
    case "quote" => Committed(ReplaceNode(c, node, [Block(n, TextBlock(Blockquote), Br, "")], n), None)
    case "callout" => Committed(ReplaceNode(c, node, [Block(n, Callout, CalloutHtml, CalloutIcon)], n), None)
    case "hr" => Committed(ReplaceNode(c, node, [Block(n, Rule, "", ""), EmptyParagraph(n + 1)], n + 1), None)
    case "page" =>
      Committed(c, if openNote.Some? then Some(PageRequest(node, UntitledPage, "<p><br></p>", openNote.value)) else None)
    case _ => Committed(c, None)
  }

  /** Whatever the block held before (the slash and the query) is gone
      from every outcome: two documents differing only in that block's
      content commit to the same result. */
  lemma CommitForgetsContent(d: Doc, node: nat, html: string, text: string, blockType: string, openNote: Option<Id>)
    requires Find(d.blocks, node).Some?
    ensures var i := Find(d.blocks, node).value;
      var d' := d.(blocks := d.blocks[i := d.blocks[i].(html := html, text := text)]);
      Commit(d', node, blockType, openNote) == Commit(d, node, blockType, openNote)
  {
    var i := Find(d.blocks, node).value;
    var d' := d.(blocks := d.blocks[i := d.blocks[i].(html := html, text := text)]);
    FindSameNodes(d.blocks, d'.blocks, node);
    assert ClearText(d', node) == ClearText(d, node);
  }

  lemma {:induction false} FindSameNodes(a: seq<Block>, b: seq<Block>, node: nat)
    requires |a| == |b| && forall i :: 0 <= i < |a| ==> a[i].node == b[i].node
    ensures Find(a, node) == Find(b, node)
  {
    if a != [] {
      FindSameNodes(a[1..], b[1..], node);
    }
  }

  /** 'hr' and 'page'-completion leave two blocks where the anchor was:
      the structural one, then an empty paragraph holding the caret. */
  lemma CommitRuleShape(d: Doc, node: nat, openNote: Option<Id>)
    requires Find(d.blocks, node).Some?
    ensures var i := Find(d.blocks, node).value;
      var r := Commit(d, node, "hr", openNote).doc;
      |r.blocks| == |d.blocks| + 1 && r.blocks[..i] == d.blocks[..i] && r.blocks[i + 2..] == d.blocks[i + 1..] &&
      r.blocks[i].kind == Rule && r.blocks[i + 1] == EmptyParagraph(d.nextNode + 1) &&
      r.caret == Some(d.nextNode + 1) && Commit(d, node, "hr", openNote).request.None?
  {
    var c := ClearText(d, node);
    FindSameNodes(d.blocks, c.blocks, node);
  }

  /** Choosing 'p' on a paragraph only empties it: convertBlock sees the same tag. */
  lemma CommitParagraphOnParagraph(d: Doc, node: nat, openNote: Option<Id>)
    requires Find(d.blocks, node).Some? && d.blocks[Find(d.blocks, node).value].kind == TextBlock(P)
    ensures var i := Find(d.blocks, node).value;
      Commit(d, node, "p", openNote).doc.blocks == d.blocks[i := d.blocks[i].(html := "", text := "")]
  {
    var c := ClearText(d, node);
    FindSameNodes(d.blocks, c.blocks, node);
  }

  /** Without an open note 'page' leaves only the emptied block and asks for nothing. */
  lemma CommitPageWithoutNote(d: Doc, node: nat)
    ensures Commit(d, node, "page", None) == Committed(ClearText(d, node), None)
  {
  }

  /** With a note open, 'page' asks for an untitled child of that note and
      changes nothing yet but the emptied block. */
  lemma CommitPageRequest(d: Doc, node: nat, noteId: Id)
    requires Find(d.blocks, node).Some?
    ensures var i := Find(d.blocks, node).value;
      var c := Commit(d, node, "page", Some(noteId));
      c.request == Some(PageRequest(node, "Untitled page", "<p><br></p>", noteId)) &&
      |c.doc.blocks| == |d.blocks| && c.doc.blocks[i].html == "" && c.doc.blocks[i].text == "" &&
      c.doc.blocks[i].node == node && c.doc.blocks[i].kind == d.blocks[i].kind &&
      (forall j :: 0 <= j < |d.blocks| && j != i ==> c.doc.blocks[j] == d.blocks[j])
  {
  }

  /** The child's page block and a fresh paragraph replace the anchor. */
  function PagePlaced(d: Doc, replace: nat, childId: Id, childTitle: string): (r: Doc)
    ensures Find(d.blocks, replace).None? ==> r.blocks == d.blocks
    ensures |r.blocks| == |d.blocks| + (if Find(d.blocks, replace).Some? then 1 else 0)
    ensures r.caret == Some(d.nextNode + 1) && r.nextNode == d.nextNode + 2
  {
    var n := d.nextNode;
    ReplaceNode(d, replace, [Block(n, PageBlock(childId), PageHtml(childTitle), PageText(childTitle)), EmptyParagraph(n + 1)], n + 1)
  }

  lemma PagePlacedShape(d: Doc, replace: nat, childId: Id, childTitle: string)
    requires Find(d.blocks, replace).Some?
    ensures var i := Find(d.blocks, replace).value;
      var r := PagePlaced(d, replace, childId, childTitle);
      |r.blocks| == |d.blocks| + 1 && r.blocks[..i] == d.blocks[..i] && r.blocks[i + 2..] == d.blocks[i + 1..] &&
      r.blocks[i].kind == PageBlock(childId) && r.blocks[i + 1] == EmptyParagraph(d.nextNode + 1) &&
      r.caret == Some(d.nextNode + 1)
  {
  }

  /** Enter without Shift after a heading or a rule: a paragraph right after it, holding the caret. */
  predicate OpensParagraph(k: Kind)
  {
    k == TextBlock(H1) || k == TextBlock(H2) || k == TextBlock(H3) || k == Rule
  }

  /** The kind test agrees with the tag-name test of the keydown handler. */
  lemma OpensParagraphByTag(k: Kind)
    ensures OpensParagraph(k) <==> TagName(k).Some? && TagName(k).value in {"h1", "h2", "h3", "hr"}
  {
    if k.OtherElement? {
      assert k.name !in KindTags;
    }
  }

  function EnterAt(d: Doc, shift: bool): (r: Doc)
    ensures shift || CurrentBlock(d).None? || !OpensParagraph(d.blocks[Find(d.blocks, CurrentBlock(d).value).value].kind)
      ==> r == d
    ensures !shift && CurrentBlock(d).Some? && OpensParagraph(d.blocks[Find(d.blocks, CurrentBlock(d).value).value].kind) ==>
      var i := Find(d.blocks, CurrentBlock(d).value).value;
      |r.blocks| == |d.blocks| + 1 && r.blocks[..i + 1] == d.blocks[..i + 1] &&
      r.blocks[i + 2..] == d.blocks[i + 1..] && r.blocks[i + 1] == EmptyParagraph(d.nextNode) &&
      r.caret == Some(d.nextNode) && r.nextNode == d.nextNode + 1
  {
    if shift || CurrentBlock(d).None? then d
    else
      var i := Find(d.blocks, CurrentBlock(d).value).value;
      if OpensParagraph(d.blocks[i].kind) then
        var r := Doc(d.blocks[..i + 1] + [EmptyParagraph(d.nextNode)] + d.blocks[i + 1..], Some(d.nextNode), d.nextNode + 1);
        assert r.blocks[..i + 1] == d.blocks[..i + 1];
        assert r.blocks[i + 2..] == d.blocks[i + 1..];
        r
      else d
  }

  /** The editor content ensureContent treats as empty. */
  predicate BlankHtml(s: string)
  {
    s == "" || s == "<br>" || Trim(s) == ""
  }

  /** ensureContent: a blank editor becomes one empty paragraph with the caret in it. */
  function EnsureContent(d: Doc): (r: Doc)
    ensures BlankHtml(Html(d.blocks)) ==> r.blocks == [EmptyParagraph(d.nextNode)] && r.caret == Some(d.nextNode)
    ensures !BlankHtml(Html(d.blocks)) ==> r == d
    ensures !BlankHtml(Html(r.blocks))
  {
    if BlankHtml(Html(d.blocks)) then
      var r := Doc([EmptyParagraph(d.nextNode)], Some(d.nextNode), d.nextNode + 1);
      ParagraphNotBlank(d.nextNode);
      r
    else d
  }

  lemma ParagraphNotBlank(node: nat)
    ensures !BlankHtml(Html([EmptyParagraph(node)]))
  {
    var b := EmptyParagraph(node);
    assert [b][1..] == [] && Html([]) == "";
    var s := Html([b]);
    assert s == Outer(b);
    assert s[0] == '<' && |s| == 11;
    TrimEmptyIff(s);
  }

  lemma EnsureContentIdempotent(d: Doc)
    ensures EnsureContent(EnsureContent(d)) == EnsureContent(d)
  {
  }

  /** Whitespace that innerHTML prints as itself: all of it except the no-break space. */
  predicate PlainSpace(t: string)
  {
    forall i :: 0 <= i < |t| ==> IsSpace(t[i]) && t[i] != Nbsp
  }

  lemma {:induction false} HtmlOfTextNodes(bs: seq<Block>)
    requires forall i :: 0 <= i < |bs| ==> bs[i].kind == TextNode && PlainSpace(bs[i].text)
    ensures AllSpace(Html(bs))
  {
    if bs != [] {
      HtmlOfTextNodes(bs[1..]);
      EscapePlain(bs[0].text);
      AllSpaceConcat(bs[0].text, Html(bs[1..]));
    }
  }

  lemma AllSpaceConcat(a: string, b: string)
    ensures AllSpace(a + b) <==> AllSpace(a) && AllSpace(b)
  {
    assert forall i :: 0 <= i < |a| ==> (a + b)[i] == a[i];
    assert forall i :: 0 <= i < |b| ==> (a + b)[|a| + i] == b[i];
  }

  /** No children, a lone `<br>`, or only whitespace text: the three blank editors. */
  lemma BlankEditorsReset(d: Doc)
    requires d.blocks == [] || (|d.blocks| == 1 && d.blocks[0].kind == LineBreak) ||
      (forall i :: 0 <= i < |d.blocks| ==> d.blocks[i].kind == TextNode && PlainSpace(d.blocks[i].text))
    ensures EnsureContent(d).blocks == [EmptyParagraph(d.nextNode)]
  {
    if d.blocks != [] && !(|d.blocks| == 1 && d.blocks[0].kind == LineBreak) {
      HtmlOfTextNodes(d.blocks);
      TrimEmptyIff(Html(d.blocks));
    } else if d.blocks != [] {
      assert d.blocks[1..] == [] && Html([]) == "";
      assert Html(d.blocks) == Outer(d.blocks[0]) + Html(d.blocks[1..]);
    }
  }

  /** Any element other than a `<br>` keeps the editor's content. */
  lemma ElementContentKept(d: Doc, k: nat)
    requires k < |d.blocks| && d.blocks[k].kind != TextNode && d.blocks[k].kind != LineBreak
    ensures EnsureContent(d) == d
  {
    var bs := d.blocks;
    HtmlSplit(bs, k);
    OuterShape(bs[k]);
    TaggedNotBlank(Html(bs[..k]), Outer(bs[k]), Html(bs[k + 1..]));
  }

  /** A text node holding a no-break space keeps the editor's content: innerHTML
      prints it as `&nbsp;`, which trimming keeps. */
  lemma NbspContentKept(d: Doc, k: nat)
    requires k < |d.blocks| && d.blocks[k].kind == TextNode && Nbsp in d.blocks[k].text
    ensures EnsureContent(d) == d
  {
    var bs := d.blocks;
    HtmlSplit(bs, k);
    EscapeNbsp(bs[k].text);
    assert Outer(bs[k]) == EscapeText(bs[k].text);
    AmpNotBlank(Html(bs[..k]), Outer(bs[k]), Html(bs[k + 1..]));
  }

  /** Serialised content holding a character reference is not blank. */
  lemma AmpNotBlank(pre: string, mid: string, post: string)
    requires '&' in mid
    ensures !BlankHtml(pre + mid + post)
  {
    var s := pre + mid + post;
    var i :| 0 <= i < |mid| && mid[i] == '&';
    assert s[|pre| + i] == '&';
    assert '&' in s && '&' !in Br;
    assert !IsSpace('&');
    TrimEmptyIff(s);
  }

  /** Serialised content holding a tag other than `<br>` is not blank. */
  lemma TaggedNotBlank(pre: string, mid: string, post: string)
    requires |mid| >= 4 && mid[0] == '<' && mid != "<br>"
    ensures !BlankHtml(pre + mid + post)
  {
    var s := pre + mid + post;
    assert s[|pre|] == '<' && !IsSpace('<');
    assert !AllSpace(s);
    TrimEmptyIff(s);
    if |pre| + |post| == 0 {
      assert s == mid;
    } else {
      assert |s| > 4;
    }
  }

  /** An element other than `<br>` prints as a tag, and not as `<br>`. */
  lemma OuterShape(b: Block)
    requires b.kind != TextNode && b.kind != LineBreak
    ensures |Outer(b)| >= 4 && Outer(b)[0] == '<' && Outer(b) != "<br>"
  {
    if b.kind != Rule {
      var name := TagName(b.kind).value;
      assert |Outer(b)| == 5 + 2 * |name| + |Attributes(b.kind)| + |b.html|;
    } else {
      assert Outer(b)[1] == 'h';
    }
  }

  lemma HtmlConcat(a: seq<Block>, b: seq<Block>)
    ensures Html(a + b) == Html(a) + Html(b)
  {
    RenderConcat(a, b, Outer);
  }

  lemma {:induction false} RenderConcat(a: seq<Block>, b: seq<Block>, f: Block -> string)
    ensures Render(a + b, f) == Render(a, f) + Render(b, f)
  {
    if a != [] {
      assert (a + b)[1..] == a[1..] + b;
      RenderConcat(a[1..], b, f);
    } else {
      assert a + b == b;
    }
  }

  lemma HtmlSplit(bs: seq<Block>, k: nat)
    requires k < |bs|
    ensures Html(bs) == Html(bs[..k]) + Outer(bs[k]) + Html(bs[k + 1..])
  {
    RenderSplit(bs, k, Outer);
  }

  lemma {:induction false} RenderSplit(bs: seq<Block>, k: nat, f: Block -> string)
    requires k < |bs|
    ensures Render(bs, f) == Render(bs[..k], f) + f(bs[k]) + Render(bs[k + 1..], f)
  {
    var pre, rest := bs[..k], bs[k..];
    assert pre + rest == bs;
    RenderConcat(pre, rest, f);
    assert rest[0] == bs[k] && rest[1..] == bs[k + 1..];
    assert Render(rest, f) == f(bs[k]) + Render(bs[k + 1..], f);
  }

  /** The children a parsed note body yields, in order. */
  datatype Part = Part(kind: Kind, html: string, text: string)

  function Numbered(parts: seq<Part>, from: nat): (bs: seq<Block>)
    ensures |bs| == |parts|
    ensures forall i :: 0 <= i < |bs| ==>
      bs[i] == Block(from + i, parts[i].kind, parts[i].html, parts[i].text)
  {
    if parts == [] then [] else [Block(from, parts[0].kind, parts[0].html, parts[0].text)] + Numbered(parts[1..], from + 1)
  }

  /** loadNote's body: `note.content || '<p><br></p>'`, where parsed is what
      the browser makes of a non-empty content. The selection leaves the editor. */
  function Loaded(d: Doc, content: Option<string>, parsed: seq<Part>): (r: Doc)
    ensures content.None? || content.value == "" ==> r.blocks == [EmptyParagraph(d.nextNode)]
    ensures content.Some? && content.value != "" ==>
      |r.blocks| == |parsed| &&
      forall i :: 0 <= i < |parsed| ==> (r.blocks[i].kind, r.blocks[i].html, r.blocks[i].text) == (parsed[i].kind, parsed[i].html, parsed[i].text)
    ensures CurrentBlock(r).None?
  {
    if content.None? || content.value == "" then Doc([EmptyParagraph(d.nextNode)], None, d.nextNode + 1)
    else Doc(Numbered(parsed, d.nextNode), None, d.nextNode + |parsed|)
  }

  /** A note without content loads as the very paragraph ensureContent would make. */
  lemma LoadedEmptyIsEnsured(d: Doc, parsed: seq<Part>)
    ensures Loaded(d, Some(""), parsed).blocks == EnsureContent(d.(blocks := [])).blocks
    ensures Loaded(d, None, parsed).blocks == EnsureContent(d.(blocks := [])).blocks
  {
  }

  /** insertBlock's target: `slashRange?.block || getCurrentBlock()`; nothing happens without one. */
  function Inserted(d: Doc, anchor: Option<nat>, blockType: string, openNote: Option<Id>): (r: Committed)
    ensures anchor.None? && CurrentBlock(d).None? ==> r == Committed(d, None)
    ensures anchor.Some? ==> r == Commit(d, anchor.value, blockType, openNote)
    ensures anchor.None? && CurrentBlock(d).Some? ==> r == Commit(d, CurrentBlock(d).value, blockType, openNote)
  {
    var target := if anchor.Some? then anchor else CurrentBlock(d);
    if target.None? then Committed(d, None) else Commit(d, target.value, blockType, openNote)
  }
}

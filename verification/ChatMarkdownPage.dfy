/** What a browser finds on a page of ChatMarkdown: a reader of its block tags, with at most one list open, finds the
    blocks of the text, and no list left open. */
module ChatMarkdownPage {
  import opened ChatMarkdown
  import opened MarkdownInline
  import opened Sequences
  import opened Text
  import opened Wrappers

  // A list with the contents of its items, or the content of a paragraph.
  datatype Shown = ShownList(kind: ListKind, items: seq<string>) | ShownParagraph(content: string)

  // The place of the first `part`, or the length of the text.
  function Find(part: string, s: string): (n: nat)
    ensures n <= |s|
  {
    if s == "" || part <= s then 0 else 1 + Find(part, s[1..])
  }

  // Puts what was read before what the rest of the text shows.
  function After(first: seq<Shown>, rest: Option<seq<Shown>>): Option<seq<Shown>> {
    if rest.None? then None else Some(first + rest.value)
  }

  // The content of an element that the text starts with, up to its closing tag.
  function Content(opening: string, closing: string, html: string): (content: Option<string>)
    ensures content.Some? ==> |opening| + |content.value| + |closing| <= |html|
  {
    if !(opening <= html) then None
    else
      var s := html[|opening|..];
      var n := Find(closing, s);
      if closing <= s[n..] then Some(s[..n]) else None
  }

  // What is left of the text after such an element.
  function AfterElement(opening: string, closing: string, html: string): (rest: string)
    requires Content(opening, closing, html).Some? && opening != ""
    ensures |rest| < |html|
  {
    html[|opening| + |Content(opening, closing, html).value| + |closing|..]
  }

  function AfterTag(html: string, tag: string): (rest: string)
    requires tag <= html && tag != ""
    ensures |rest| < |html|
  {
    html[|tag|..]
  }

  // None when the text is not a page.
  function Read(html: string, open: Option<(ListKind, seq<string>)>): Option<seq<Shown>>
    decreases |html|
  {
    match open
    case None =>
      if html == "" then Some([])
      else if "<ul>" <= html then Read(AfterTag(html, "<ul>"), Some((Bulleted, [])))
      else if "<ol>" <= html then Read(AfterTag(html, "<ol>"), Some((Numbered, [])))
      else
        var content := Content("<div>", "</div>", html);
        if content.None? then None
        else After([ShownParagraph(content.value)], Read(AfterElement("<div>", "</div>", html), None))
    case Some((kind, items)) =>
      var content := Content("<li>", "</li>", html);
      if content.Some? then Read(AfterElement("<li>", "</li>", html), Some((kind, items + [content.value])))
      else
        var tag := if kind == Bulleted then "</ul>" else "</ol>";
        if tag <= html then After([ShownList(kind, items)], Read(AfterTag(html, tag), None)) else None
  }

  function Inlines(texts: seq<string>): (r: seq<string>)
    ensures |r| == |texts| && forall i | 0 <= i < |texts| :: r[i] == Inline(texts[i])
  {
    seq(|texts|, i requires 0 <= i < |texts| => Inline(texts[i]))
  }

  // Blank lines do not show.
  function ShownOf(blocks: seq<Block>): seq<Shown> {
    if blocks == [] then []
    else
      (match blocks[0]
       case List(kind, items) => [ShownList(kind, Inlines(items))]
       case Single(Paragraph(text)) => [ShownParagraph(Inline(text))]
       case Single(_) => []) + ShownOf(blocks[1..])
  }

  // ---- Contents end where their closing tags stand -----------------------------------------------------

  lemma {:induction false} FindIs(part: string, s: string, n: nat)
    requires part != "" && n <= |s| && part <= s[n..] && forall i | 0 <= i < n :: !(part <= s[i..])
    ensures Find(part, s) == n
  {
    if n > 0 {
      assert !(part <= s[0..]) && s[0..] == s;
      assert forall i | 0 <= i < n - 1 :: s[1..][i..] == s[i + 1..];
      assert s[1..][n - 1..] == s[n..];
      FindIs(part, s[1..], n - 1);
    } else {
      assert s[0..] == s;
    }
  }

  // Inside a line no tag is of a block.
  lemma SpansTag(tag: string)
    requires IsTag(Spans, tag)
    ensures |tag| > 2 && !(tag[1] == '/' && (tag[2] == 'l' || tag[2] == 'd'))
  {
    AroundUrl();
  }

  predicate IsClosing(closing: string) {
    closing == "</li>" || closing == "</div>"
  }

  lemma ClosingChars(closing: string)
    requires IsClosing(closing)
    ensures |closing| > 2 && closing[0] == '<' && closing[1] == '/' && (closing[2] == 'l' || closing[2] == 'd')
  {
  }

  lemma TagInside(s: string, i: nat)
    requires Safe(Spans, s) && i < |s| && s[i] == '<'
    ensures i + 2 < |s| && !(s[i + 1] == '/' && (s[i + 2] == 'l' || s[i + 2] == 'd'))
  {
    hide Safe, IsTag;
    EveryBracketIsATag(Spans, s, i);
    var n := TagLength(Spans, s[i..]);
    var tag := s[i..][..n];
    SpansTag(tag);
    assert tag[1] == s[i + 1] && tag[2] == s[i + 2];
  }

  lemma NotInside(closing: string, s: string, rest: string, i: nat)
    requires IsClosing(closing) && Safe(Spans, s) && i < |s|
    ensures !(closing <= (s + (closing + rest))[i..])
  {
    ClosingChars(closing);
    if s[i] == '<' {
      TagInside(s, i);
    }
    hide *;
    var all := s + (closing + rest);
    assert all[i] == s[i] && (i + 2 < |s| ==> all[i + 1] == s[i + 1] && all[i + 2] == s[i + 2]);
    OtherText(closing, all, i);
  }

  lemma OtherText(part: string, s: string, i: nat)
    requires |part| > 2 && i < |s|
    requires s[i] != part[0] || (i + 2 < |s| && (s[i + 1] != part[1] || s[i + 2] != part[2]))
    ensures !(part <= s[i..])
  {
    assert s[i..][0] == s[i] && (i + 2 < |s| ==> s[i..][1] == s[i + 1] && s[i..][2] == s[i + 2]);
  }

  lemma Parts(opening: string, s: string, closing: string, rest: string)
    ensures var html := opening + (s + (closing + rest));
      opening <= html && html[|opening|..] == s + (closing + rest) && html[|opening| + |s| + |closing|..] == rest
    ensures (s + (closing + rest))[|s|..] == closing + rest && (s + (closing + rest))[..|s|] == s
    ensures closing <= closing + rest
  {
  }

  lemma ContentOf(opening: string, closing: string, s: string, rest: string)
    requires IsClosing(closing) && Safe(Spans, s)
    ensures Content(opening, closing, opening + (s + (closing + rest))) == Some(s)
  {
    Parts(opening, s, closing, rest);
    ClosingChars(closing);
    forall i | 0 <= i < |s| ensures !(closing <= (s + (closing + rest))[i..]) {
      NotInside(closing, s, rest, i);
    }
    hide Find, IsClosing, Safe;
    FindIs(closing, s + (closing + rest), |s|);
  }

  // ---- The tags at the start of a text ---------------------------------------------------------------------

  lemma StartsWith(tag: string, rest: string)
    ensures tag <= tag + rest && (tag + rest)[|tag|..] == rest
    ensures forall i | 0 <= i < |tag| :: (tag + rest)[i] == tag[i]
  {
  }

  // The two kinds of list tag differ in their second character, or third.
  lemma OpensList(kind: ListKind, rest: string)
    ensures var html := OpenTag(kind) + rest;
      && html != "" && ("<ul>" <= html <==> kind == Bulleted) && ("<ol>" <= html <==> kind == Numbered)
      && OpenTag(kind) != "" && AfterTag(html, OpenTag(kind)) == rest
  {
    StartsWith(OpenTag(kind), rest);
    var html := OpenTag(kind) + rest;
    assert html[1] == OpenTag(kind)[1];
  }

  lemma OpensParagraph(rest: string)
    ensures var html := "<div>" + rest; html != "" && !("<ul>" <= html) && !("<ol>" <= html)
  {
    StartsWith("<div>", rest);
    assert ("<div>" + rest)[1] == 'd';
  }

  lemma EndsList(kind: ListKind, rest: string)
    ensures var html, tag := CloseTag(kind) + rest, if kind == Bulleted then "</ul>" else "</ol>";
      && Content("<li>", "</li>", html) == None && tag != "" && tag <= html && AfterTag(html, tag) == rest
  {
    StartsWith(CloseTag(kind), rest);
    assert (CloseTag(kind) + rest)[1] == '/';
  }

  // ---- Reading -------------------------------------------------------------------------------------------

  lemma ReadOpening(kind: ListKind, rest: string)
    ensures Read(OpenTag(kind) + rest, None) == Read(rest, Some((kind, [])))
  {
    OpensList(kind, rest);
    hide Content, AfterTag, AfterElement, After;
  }

  lemma ReadClosing(kind: ListKind, items: seq<string>, rest: string)
    ensures Read(CloseTag(kind) + rest, Some((kind, items))) == After([ShownList(kind, items)], Read(rest, None))
  {
    EndsList(kind, rest);
    hide Content, AfterTag, AfterElement, After, CloseTag;
  }

  lemma ReadsItem(html: string, kind: ListKind, items: seq<string>, content: string, rest: string)
    requires Content("<li>", "</li>", html) == Some(content) && "<li>" != "" && AfterElement("<li>", "</li>", html) == rest
    ensures Read(html, Some((kind, items))) == Read(rest, Some((kind, items + [content])))
  {
    hide Content, AfterTag, AfterElement, After;
  }

  lemma ElementThen(opening: string, closing: string, s: string, rest: string)
    requires IsClosing(closing) && Safe(Spans, s) && opening != ""
    ensures var html := opening + (s + (closing + rest));
      Content(opening, closing, html) == Some(s) && AfterElement(opening, closing, html) == rest
  {
    ContentOf(opening, closing, s, rest);
    Parts(opening, s, closing, rest);
    hide Content, IsClosing, Safe;
  }

  lemma ReadItem(kind: ListKind, items: seq<string>, s: string, rest: string)
    requires Safe(Spans, s)
    ensures Read("<li>" + (s + ("</li>" + rest)), Some((kind, items))) == Read(rest, Some((kind, items + [s])))
  {
    hide *;
    ElementTags();
    ElementThen("<li>", "</li>", s, rest);
    ReadsItem("<li>" + (s + ("</li>" + rest)), kind, items, s, rest);
  }

  lemma ElementTags()
    ensures IsClosing("</li>") && IsClosing("</div>") && "<li>" != "" && "<div>" != ""
  {
  }

  lemma ReadsParagraph(html: string, content: string, rest: string)
    requires html != "" && !("<ul>" <= html) && !("<ol>" <= html)
    requires Content("<div>", "</div>", html) == Some(content) && "<div>" != "" && AfterElement("<div>", "</div>", html) == rest
    ensures Read(html, None) == After([ShownParagraph(content)], Read(rest, None))
  {
    hide Content, AfterTag, AfterElement, After;
  }

  lemma ReadParagraph(s: string, rest: string)
    requires Safe(Spans, s)
    ensures Read("<div>" + (s + ("</div>" + rest)), None) == After([ShownParagraph(s)], Read(rest, None))
  {
    hide *;
    ElementTags();
    OpensParagraph(s + ("</div>" + rest));
    ElementThen("<div>", "</div>", s, rest);
    ReadsParagraph("<div>" + (s + ("</div>" + rest)), s, rest);
  }

  lemma ItemThen(text: string, rest: string)
    ensures ItemHtml(text) + rest == "<li>" + (Inline(text) + ("</li>" + rest))
  {
    hide Inline;
    Assoc("<li>" + Inline(text), "</li>", rest);
    Assoc("<li>", Inline(text), "</li>" + rest);
  }

  lemma {:induction false} ReadItems(kind: ListKind, done: seq<string>, items: seq<string>, rest: string)
    ensures Read(ItemsHtml(items) + rest, Some((kind, done))) == Read(rest, Some((kind, done + Inlines(items))))
    decreases |items|
  {
    if items == [] {
      NoneThen(rest);
      NoneThen(done);
    } else {
      ItemsFirst(items, items[1..], items[0]) by { FirstThenRest(items); }
      InlineIsSafe(items[0]);
      InlinesFirst(items);
      hide *;
      var first := Inline(items[0]);
      Assoc(ItemHtml(items[0]), ItemsHtml(items[1..]), rest);
      ItemThen(items[0], ItemsHtml(items[1..]) + rest);
      ReadItem(kind, done, first, ItemsHtml(items[1..]) + rest);
      ReadItems(kind, done + [first], items[1..], rest);
      Assoc(done, [first], Inlines(items[1..]));
    }
  }

  lemma InlinesFirst(items: seq<string>)
    requires items != []
    ensures Inlines(items) == [Inline(items[0])] + Inlines(items[1..])
  {
    hide Inline;
  }

  lemma ShownFirst(blocks: seq<Block>)
    requires blocks != []
    ensures ShownOf(blocks) == ShownOf([blocks[0]]) + ShownOf(blocks[1..])
  {
    One(blocks[0]);
    assert ShownOf([]) == [];
    hide Inlines, Inline;
  }

  lemma AfterNothing(rest: Option<seq<Shown>>)
    ensures After([], rest) == rest
  {
    if rest.Some? {
      NoneThen(rest.value);
    }
  }

  lemma OneBlock(block: Block)
    ensures ShownOf([block]) ==
      match block
      case List(kind, items) => [ShownList(kind, Inlines(items))]
      case Single(Paragraph(text)) => [ShownParagraph(Inline(text))]
      case Single(_) => []
  {
    hide Inline, Inlines;
    One(block);
    assert ShownOf([]) == [];
  }

  lemma ReadBlock(block: Block, rest: string)
    ensures Read(BlockHtml(block) + rest, None) == After(ShownOf([block]), Read(rest, None))
  {
    OneBlock(block);
    hide Inline, Inlines, ItemsHtml, OpenTag, CloseTag, Read, After, ShownOf;
    match block
    case List(kind, items) =>
      var end := CloseTag(kind) + rest;
      assert BlockHtml(block) + rest == OpenTag(kind) + (ItemsHtml(items) + end);
      ReadOpening(kind, ItemsHtml(items) + end);
      ReadItems(kind, [], items, end);
      NoneThen(Inlines(items));
      ReadClosing(kind, Inlines(items), rest);
    case Single(Paragraph(text)) =>
      InlineIsSafe(text);
      assert BlockHtml(block) + rest == "<div>" + (Inline(text) + ("</div>" + rest));
      ReadParagraph(Inline(text), rest);
    case Single(_) =>
      NoneThen(rest);
      AfterNothing(Read(rest, None));
  }

  lemma {:induction false} ReadHtml(blocks: seq<Block>)
    ensures Read(Html(blocks), None) == Some(ShownOf(blocks))
  {
    if blocks != [] {
      hide BlockHtml, Read;
      ReadBlock(blocks[0], Html(blocks[1..]));
      ReadHtml(blocks[1..]);
      ShownFirst(blocks);
      hide ShownOf;
    }
  }

  /** Every rendered text is such a page, no list is left open, and the page shows the blocks of the text in order: each
      list with its kind and its items, each paragraph, with their texts rendered inline. */
  lemma PageShowsTheBlocks(text: string)
    ensures Read(Rendered(text), None) == Some(ShownOf(Blocks(ClassifyAll(SplitLines(text)))))
  {
    ReadHtml(Blocks(ClassifyAll(SplitLines(text))));
    hide Read, ShownOf, Html, Blocks;
  }
}

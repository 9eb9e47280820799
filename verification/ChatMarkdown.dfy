/** Block structure of settled chat replies (renderChatMarkdown in
    apps/browser-demo/src/chatMarkdown.ts): lines become list items, paragraphs or gaps,
    and a list is open exactly while lines of its kind follow one another. */
module ChatMarkdown {
  import opened MarkdownInline
  import opened Sequences
  import opened Text
  import opened Wrappers

  datatype ListKind = Bulleted | Numbered

  datatype Line = Item(kind: ListKind, text: string) | Blank | Paragraph(text: string)

  // ---- Lines ------------------------------------------------------------------------

  // text.split('\n')
  function SplitLines(text: string): (lines: seq<string>)
    ensures lines != []
  {
    var n := Span(Not('\n'), text);
    if n == |text| then [text] else [text[..n]] + SplitLines(text[n + 1..])
  }

  predicate EndsLine(c: char) {
    c == '\n' || c == '\r' || c == '\U{2028}' || c == '\U{2029}'
  }

  function IsSpaceChar(): char -> bool {
    (c: char) => IsSpace(c)
  }

  function IsDigitChar(): char -> bool {
    (c: char) => IsDigit(c)
  }

  // The capture of \s+(.*)$: a dot matches no line terminator, so one in the text leaves no match.
  function ItemText(s: string): Option<string> {
    var n := Span(IsSpaceChar(), s);
    if n > 0 && forall i | n <= i < |s| :: !EndsLine(s[i]) then Some(s[n..]) else None
  }

  function BulletText(line: string): Option<string> {
    var n := Span(IsSpaceChar(), line);
    if n < |line| && (line[n] == '-' || line[n] == '*') then ItemText(line[n + 1..]) else None
  }

  function NumberedText(line: string): Option<string> {
    var n := Span(IsSpaceChar(), line);
    var d := Span(IsDigitChar(), line[n..]);
    if d > 0 && n + d < |line| && line[n + d] == '.' then ItemText(line[n + d + 1..]) else None
  }

  function Classify(line: string): Line {
    var bullet := BulletText(line);
    var numbered := NumberedText(line);
    if bullet.Some? then Item(Bulleted, bullet.value)
    else if numbered.Some? then Item(Numbered, numbered.value)
    else if IsBlank(line) then Blank
    else Paragraph(line)
  }

  function ClassifyAll(lines: seq<string>): (r: seq<Line>)
    ensures |r| == |lines| && forall i | 0 <= i < |lines| :: r[i] == Classify(lines[i])
  {
    seq(|lines|, i requires 0 <= i < |lines| => Classify(lines[i]))
  }

  // ---- Blocks -----------------------------------------------------------------------------

  datatype Block = List(kind: ListKind, items: seq<string>) | Single(line: Line)

  // The length of the run of items of one kind that the lines start with.
  function RunLength(kind: ListKind, lines: seq<Line>): (n: nat)
    ensures n <= |lines|
    ensures forall i | 0 <= i < n :: lines[i].Item? && lines[i].kind == kind
    ensures n < |lines| ==> !(lines[n].Item? && lines[n].kind == kind)
  {
    if lines != [] && lines[0].Item? && lines[0].kind == kind then 1 + RunLength(kind, lines[1..]) else 0
  }

  function Texts(lines: seq<Line>): (r: seq<string>)
    requires forall i | 0 <= i < |lines| :: lines[i].Item?
    ensures |r| == |lines| && forall i | 0 <= i < |lines| :: r[i] == lines[i].text
  {
    seq(|lines|, i requires 0 <= i < |lines| => lines[i].text)
  }

  function Blocks(lines: seq<Line>): seq<Block> {
    if lines == [] then []
    else if lines[0].Item? then
      var n := RunLength(lines[0].kind, lines);
      [List(lines[0].kind, Texts(lines[..n]))] + Blocks(lines[n..])
    else [Single(lines[0])] + Blocks(lines[1..])
  }

  function OpenTag(kind: ListKind): string {
    if kind == Bulleted then "<ul>" else "<ol>"
  }

  function CloseTag(kind: ListKind): string {
    if kind == Bulleted then "</ul>" else "</ol>"
  }

  function ItemHtml(text: string): string {
    "<li>" + Inline(text) + "</li>"
  }

  function ItemsHtml(items: seq<string>): string {
    if items == [] then "" else ItemHtml(items[0]) + ItemsHtml(items[1..])
  }

  function BlockHtml(block: Block): string {
    match block
    case List(kind, items) => OpenTag(kind) + ItemsHtml(items) + CloseTag(kind)
    case Single(Paragraph(text)) => "<div>" + Inline(text) + "</div>"
    case Single(_) => ""
  }

  function Html(blocks: seq<Block>): string {
    if blocks == [] then "" else BlockHtml(blocks[0]) + Html(blocks[1..])
  }

  function Rendered(text: string): string {
    Html(Blocks(ClassifyAll(SplitLines(text))))
  }

  // ---- The line loop --------------------------------------------------------------------------

  function Join(parts: seq<string>): string {
    if parts == [] then "" else Join(parts[..|parts| - 1]) + parts[|parts| - 1]
  }

  // Moving the next part from what is to be written to what is written.
  lemma Push(out: seq<string>, part: string, rest: string, whole: string)
    requires Join(out) + (part + rest) == whole
    ensures Join(out + [part]) + rest == whole
  {
    assert (out + [part])[..|out|] == out;
    assert Join(out) + part + rest == Join(out) + (part + rest);
  }

  // What is still to be written when a list may be open.
  function Rest(open: Option<ListKind>, lines: seq<Line>): string {
    match open
    case None => Html(Blocks(lines))
    case Some(kind) =>
      var n := RunLength(kind, lines);
      ItemsHtml(Texts(lines[..n])) + CloseTag(kind) + Html(Blocks(lines[n..]))
  }

  lemma RestItem(kind: ListKind, lines: seq<Line>)
    requires lines != [] && lines[0].Item? && lines[0].kind == kind
    ensures Rest(Some(kind), lines) == ItemHtml(lines[0].text) + Rest(Some(kind), lines[1..])
    ensures Rest(None, lines) == OpenTag(kind) + Rest(Some(kind), lines)
  {
    OpenList(kind, lines);
    FirstItem(kind, lines);
    var n := RunLength(kind, lines);
    var items, rest := Texts(lines[..n]), Texts(lines[1..][..n - 1]);
    RestOpen(kind, lines);
    RestOpen(kind, lines[1..]);
    hide *;
    DropFirst(lines, n);
    ItemsFirst(items, rest, lines[0].text);
    var end := CloseTag(kind) + Html(Blocks(lines[n..]));
    Assoc(ItemHtml(lines[0].text), ItemsHtml(rest), end);
  }

  lemma RestOpen(kind: ListKind, lines: seq<Line>)
    ensures var n := RunLength(kind, lines);
      Rest(Some(kind), lines) == ItemsHtml(Texts(lines[..n])) + (CloseTag(kind) + Html(Blocks(lines[n..])))
  {
    var n := RunLength(kind, lines);
    hide RunLength, ItemsHtml, Html, Blocks, CloseTag;
    Assoc(ItemsHtml(Texts(lines[..n])), CloseTag(kind), Html(Blocks(lines[n..])));
  }

  lemma FirstItem(kind: ListKind, lines: seq<Line>)
    requires lines != [] && lines[0].Item? && lines[0].kind == kind
    ensures var n := RunLength(kind, lines);
      && n > 0 && RunLength(kind, lines[1..]) == n - 1
      && Texts(lines[..n]) == [lines[0].text] + Texts(lines[1..][..n - 1])
  {
  }

  lemma ItemsFirst(items: seq<string>, rest: seq<string>, text: string)
    requires items == [text] + rest
    ensures ItemsHtml(items) == ItemHtml(text) + ItemsHtml(rest)
  {
    hide ItemHtml;
    assert items[1..] == rest;
  }

  lemma OpenList(kind: ListKind, lines: seq<Line>)
    requires lines != [] && lines[0].Item? && lines[0].kind == kind
    ensures Rest(None, lines) == OpenTag(kind) + Rest(Some(kind), lines)
  {
    hide OpenTag, CloseTag, ItemsHtml;
    var n := RunLength(kind, lines);
    var first, rest := List(kind, Texts(lines[..n])), Blocks(lines[n..]);
    assert Blocks(lines) == [first] + rest;
    assert ([first] + rest)[1..] == rest;
  }

  lemma RestClose(kind: ListKind, lines: seq<Line>)
    requires lines == [] || !lines[0].Item? || lines[0].kind != kind
    ensures Rest(Some(kind), lines) == CloseTag(kind) + Rest(None, lines)
  {
    assert RunLength(kind, lines) == 0;
    RestOpen(kind, lines);
    hide CloseTag, Html, Blocks, RunLength, ItemHtml;
    Ends(lines);
    assert Texts([]) == [] && ItemsHtml([]) == "";
    NoneThen(CloseTag(kind) + Html(Blocks(lines)));
  }

  lemma RestSingle(lines: seq<Line>)
    requires lines != [] && !lines[0].Item?
    ensures Rest(None, lines) == BlockHtml(Single(lines[0])) + Rest(None, lines[1..])
  {
  }

  lemma BlankHtml()
    ensures BlockHtml(Single(Blank)) == ""
  {
  }

  lemma JoinNothing(out: seq<string>)
    ensures Join(out + [""]) == Join(out)
  {
    assert (out + [""])[..|out|] == out;
  }

  // Before the line that `rest` starts with, or at the end: a list it does not continue is closed.
  method CloseList(out: seq<string>, listType: Option<ListKind>, ghost rest: seq<Line>, ghost whole: string)
    returns (next: seq<string>)
    requires listType.Some? && (rest == [] || !rest[0].Item? || rest[0].kind != listType.value)
    requires Join(out) + Rest(listType, rest) == whole
    ensures Join(next) + Rest(None, rest) == whole
  {
    hide *;
    RestClose(listType.value, rest);
    Push(out, CloseTag(listType.value), Rest(None, rest), whole);
    next := out + [CloseTag(listType.value)];
  }

  // An item, with the list it opens unless one is open.
  method WriteItem(out: seq<string>, listType: Option<ListKind>, line: Line, ghost rest: seq<Line>, ghost whole: string)
    returns (next: seq<string>)
    requires rest != [] && line == rest[0] && line.Item? && listType in {None, Some(line.kind)}
    requires Join(out) + Rest(listType, rest) == whole
    ensures Join(next) + Rest(Some(line.kind), rest[1..]) == whole
  {
    hide *;
    RestItem(line.kind, rest);
    next := out;
    if listType.None? {
      Push(out, OpenTag(line.kind), Rest(Some(line.kind), rest), whole);
      next := out + [OpenTag(line.kind)];
    }
    Push(next, ItemHtml(line.text), Rest(Some(line.kind), rest[1..]), whole);
    next := next + [ItemHtml(line.text)];
  }

  // A paragraph, or nothing for a blank line.
  method WriteSingle(out: seq<string>, line: Line, ghost rest: seq<Line>, ghost whole: string) returns (next: seq<string>)
    requires rest != [] && line == rest[0] && !line.Item?
    requires Join(out) + Rest(None, rest) == whole
    ensures Join(next) + Rest(None, rest[1..]) == whole
  {
    BlankHtml();
    hide *;
    RestSingle(rest);
    Push(out, BlockHtml(Single(line)), Rest(None, rest[1..]), whole);
    if line.Paragraph? {
      return out + [BlockHtml(Single(line))];
    }
    JoinNothing(out);
    return out;
  }

  lemma NothingWritten(text: string)
    ensures Join([]) + Rest(None, ClassifyAll(SplitLines(text))) == Rendered(text) && Rest(None, []) == ""
  {
    hide Html, Blocks;
    NoneThen(Rendered(text));
    NoBlocks();
  }

  lemma NoBlocks()
    ensures Html(Blocks([])) == ""
  {
  }

  method RenderChatMarkdown(text: string) returns (html: string)
    ensures html == Rendered(text)
  {
    hide *;
    var lines := SplitLines(text);
    ghost var parsed := ClassifyAll(lines);
    var out: seq<string> := [];
    var listType: Option<ListKind> := None;
    NothingWritten(text);
    Ends(parsed);
    for i := 0 to |lines|
      invariant Join(out) + Rest(listType, parsed[i..]) == Rendered(text)
    {
      var line := Classify(lines[i]);
      Next(parsed, i);
      if listType.Some? && !(line.Item? && line.kind == listType.value) {
        out := CloseList(out, listType, parsed[i..], Rendered(text));
        listType := None;
      }
      if line.Item? {
        out := WriteItem(out, listType, line, parsed[i..], Rendered(text));
        listType := Some(line.kind);
      } else {
        out := WriteSingle(out, line, parsed[i..], Rendered(text));
      }
    }
    if listType.Some? {
      out := CloseList(out, listType, [], Rendered(text));
    }
    html := Join(out);
    NoneThen(html);
  }

  // ---- What the grouping is ----------------------------------------------------------------------

  // The lines a block came from.
  function LinesOf(block: Block): seq<Line> {
    match block
    case List(kind, items) => seq(|items|, i requires 0 <= i < |items| => Item(kind, items[i]))
    case Single(line) => [line]
  }

  function Expand(blocks: seq<Block>): seq<Line> {
    if blocks == [] then [] else LinesOf(blocks[0]) + Expand(blocks[1..])
  }

  // Lists hold at least one item, items stand only in lists, and neighbouring lists differ in kind.
  ghost predicate MaximalRuns(blocks: seq<Block>) {
    && (forall i | 0 <= i < |blocks| :: ProperBlock(blocks[i]))
    && (forall i, j | 0 <= i && j == i + 1 < |blocks| :: Separate(blocks[i], blocks[j]))
  }

  predicate ProperBlock(block: Block) {
    if block.List? then block.items != [] else !block.line.Item?
  }

  // A list may not go on with the block after it.
  predicate Separate(block: Block, next: Block) {
    !(block.List? && next.List? && block.kind == next.kind)
  }

  // The first block and the lines it takes.
  lemma BlocksUnfold(lines: seq<Line>) returns (first: Block, n: nat)
    requires lines != []
    ensures 0 < n <= |lines| && Blocks(lines) == [first] + Blocks(lines[n..])
    ensures LinesOf(first) == lines[..n] && ProperBlock(first)
    ensures n < |lines| && first.List? ==> !(lines[n].Item? && lines[n].kind == first.kind)
    ensures n == if lines[0].Item? then RunLength(lines[0].kind, lines) else 1
    ensures first == if lines[0].Item? then List(lines[0].kind, Texts(lines[..n])) else Single(lines[0])
  {
    n := if lines[0].Item? then RunLength(lines[0].kind, lines) else 1;
    first := if lines[0].Item? then List(lines[0].kind, Texts(lines[..n])) else Single(lines[0]);
    hide RunLength;
  }

  lemma ExpandFirst(block: Block, rest: seq<Block>)
    ensures Expand([block] + rest) == LinesOf(block) + Expand(rest)
  {
    FirstOfConcat([block], rest);
    One(block);
    NoneThen(rest);
    hide LinesOf;
  }

  lemma RunsGrow(block: Block, rest: seq<Block>)
    ensures MaximalRuns([block] + rest) <==>
      ProperBlock(block) && MaximalRuns(rest) && (rest != [] ==> Separate(block, rest[0]))
  {
    var blocks := [block] + rest;
    assert forall i | 0 <= i < |rest| :: rest[i] == blocks[i + 1];
    if MaximalRuns(blocks) {
      assert ProperBlock(blocks[0]) && (rest != [] ==> Separate(blocks[0], blocks[1]));
      forall i, j | 0 <= i && j == i + 1 < |rest| ensures Separate(rest[i], rest[j]) {
        assert Separate(blocks[i + 1], blocks[j + 1]);
      }
    }
  }

  lemma {:induction false} BlocksGroupLines(lines: seq<Line>)
    ensures Expand(Blocks(lines)) == lines && MaximalRuns(Blocks(lines))
    decreases |lines|
  {
    if lines != [] {
      var first, n := BlocksUnfold(lines);
      BlocksGroupLines(lines[n..]);
      if n < |lines| {
        NextIsSeparate(first, lines[n..], lines[n]);
      }
      NoLinesNoBlocks(lines[n..]);
      hide *;
      ExpandFirst(first, Blocks(lines[n..]));
      RunsGrow(first, Blocks(lines[n..]));
      PutTogether(lines, n);
    }
  }

  lemma NoLinesNoBlocks(lines: seq<Line>)
    ensures Blocks(lines) == [] <==> lines == []
  {
  }

  lemma PutTogether<T>(a: seq<T>, n: nat)
    requires n <= |a|
    ensures a[..n] + a[n..] == a
  {
  }

  // A block that does not go on with the line after it is separate from the block that starts there.
  lemma NextIsSeparate(first: Block, tail: seq<Line>, line: Line)
    requires tail != [] && tail[0] == line
    requires first.List? ==> !(line.Item? && line.kind == first.kind)
    ensures Blocks(tail) != [] && Separate(first, Blocks(tail)[0])
  {
    var next, m := BlocksUnfold(tail);
    hide Blocks;
    assert Blocks(tail)[0] == next;
  }

  /** Grouping into maximal runs is the only way to read the lines as such blocks, so every item
      and paragraph is rendered once, in line order, and no list is empty or split. */
  lemma {:induction false} BlocksAreTheMaximalRuns(lines: seq<Line>, blocks: seq<Block>)
    ensures blocks == Blocks(lines) <==> Expand(blocks) == lines && MaximalRuns(blocks)
    decreases |blocks|
  {
    BlocksGroupLines(lines);
    if Expand(blocks) == lines && MaximalRuns(blocks) && blocks != [] {
      var rest := blocks[1..];
      FirstThenRest(blocks);
      ExpandFirst(blocks[0], rest);
      RunsGrow(blocks[0], rest);
      BlocksAreTheMaximalRuns(Expand(rest), rest);
      FirstBlockIs(lines, blocks);
    }
  }

  lemma FirstBlockIs(lines: seq<Line>, blocks: seq<Block>)
    requires blocks != [] && MaximalRuns(blocks) && Expand(blocks) == lines
    requires lines == LinesOf(blocks[0]) + Expand(blocks[1..]) && ProperBlock(blocks[0])
    requires blocks[1..] == Blocks(Expand(blocks[1..]))
    ensures blocks == Blocks(lines)
  {
    var front := LinesOf(blocks[0]);
    FrontOf(blocks, lines);
    var first, n := BlocksUnfold(lines);
    hide *;
    FirstThenRest(blocks);
    SplitConcat(front, Expand(blocks[1..]), n);
    Ends(front);
    NoneThen(Expand(blocks[1..]));
    SameBlock(blocks[0], lines, n);
  }

  // The run at the start of the lines is that of the first block.
  lemma FrontOf(blocks: seq<Block>, lines: seq<Line>)
    requires blocks != [] && MaximalRuns(blocks) && Expand(blocks) == lines
    requires lines == LinesOf(blocks[0]) + Expand(blocks[1..]) && ProperBlock(blocks[0])
    ensures var front := LinesOf(blocks[0]);
      lines != [] && |front| == if lines[0].Item? then RunLength(lines[0].kind, lines) else 1
  {
    var front := LinesOf(blocks[0]);
    assert lines[0] == front[0];
    if blocks[0].List? {
      FirstRun(blocks);
    }
    hide Expand, MaximalRuns, RunLength;
  }

  lemma SameBlock(block: Block, lines: seq<Line>, n: nat)
    requires ProperBlock(block) && lines != [] && n <= |lines| && LinesOf(block) == lines[..n] && n > 0
    ensures block == if lines[0].Item? then List(lines[0].kind, Texts(lines[..n])) else Single(lines[0])
  {
    assert lines[..n][0] == lines[0];
    if block.List? {
      assert Texts(lines[..n]) == block.items;
    }
  }

  lemma FirstRun(blocks: seq<Block>)
    requires blocks != [] && MaximalRuns(blocks) && blocks[0].List?
    ensures Expand(blocks) != [] && RunLength(blocks[0].kind, Expand(blocks)) == |blocks[0].items|
  {
    var front, rest := LinesOf(blocks[0]), Expand(blocks[1..]);
    var lines := Expand(blocks);
    var kind, n := blocks[0].kind, |front|;
    assert forall i | 0 <= i < n :: lines[i] == front[i];
    if |blocks| > 1 {
      var next := blocks[1];
      assert blocks[1..][0] == next && ProperBlock(next) && Separate(blocks[0], next);
      assert rest[0] == LinesOf(next)[0] && lines[n] == rest[0];
      assert !(lines[n].Item? && lines[n].kind == kind);
    }
    RunIs(kind, lines, n);
  }

  lemma {:induction false} RunIs(kind: ListKind, lines: seq<Line>, n: nat)
    requires n <= |lines| && forall i | 0 <= i < n :: lines[i].Item? && lines[i].kind == kind
    requires n < |lines| ==> !(lines[n].Item? && lines[n].kind == kind)
    ensures RunLength(kind, lines) == n
  {
    if n > 0 {
      RunIs(kind, lines[1..], n - 1);
    }
  }

  // ---- Safety of the whole page --------------------------------------------------------------------

  lemma PageTag(tag: string)
    requires tag == "<ul>" || tag == "</ul>" || tag == "<ol>" || tag == "</ol>"
      || tag == "<li>" || tag == "</li>" || tag == "<div>" || tag == "</div>"
    ensures Safe(Page, tag)
  {
    assert IsTag(Page, tag);
    BracketEnds(tag);
    hide IsTag;
    OneTag(tag);
  }

  lemma OneTag(tag: string)
    requires IsTag(Page, tag) && |tag| > 1 && tag[0] == '<' && tag[|tag| - 1] == '>'
    requires forall i | 0 <= i < |tag| - 1 :: tag[i] != '>'
    ensures Safe(Page, tag)
  {
    hide IsTag, Safe;
    SpanAt(Not('>'), tag, |tag| - 1);
    Ends(tag);
    assert TagLength(Page, tag) == |tag|;
    SafeUnfold(Page, tag);
    PlainIsSafe(Page, "");
  }

  lemma BracketEnds(tag: string)
    requires tag == "<ul>" || tag == "</ul>" || tag == "<ol>" || tag == "</ol>"
      || tag == "<li>" || tag == "</li>" || tag == "<div>" || tag == "</div>"
    ensures |tag| > 1 && tag[0] == '<' && tag[|tag| - 1] == '>' && forall i | 0 <= i < |tag| - 1 :: tag[i] != '>'
  {
  }

  lemma WrappedIsSafe(open: string, text: string, close: string)
    requires Safe(Page, open) && Safe(Page, close)
    ensures Safe(Page, open + Inline(text) + close)
  {
    hide Safe, Inline;
    InlineIsSafe(text);
    SafeRises(Spans, Page, Inline(text));
    SafeConcat(Page, open, Inline(text));
    SafeConcat(Page, open + Inline(text), close);
  }

  lemma {:induction false} ItemsAreSafe(items: seq<string>)
    ensures Safe(Page, ItemsHtml(items))
  {
    if items != [] {
      PageTag("<li>");
      PageTag("</li>");
      WrappedIsSafe("<li>", items[0], "</li>");
      ItemsAreSafe(items[1..]);
      SafeConcat(Page, ItemHtml(items[0]), ItemsHtml(items[1..]));
    }
  }

  lemma BlockIsSafe(block: Block)
    ensures Safe(Page, BlockHtml(block))
  {
    hide Safe, Inline, ItemsHtml;
    match block
    case List(kind, items) =>
      PageTag(OpenTag(kind));
      PageTag(CloseTag(kind));
      ItemsAreSafe(items);
      SafeConcat(Page, OpenTag(kind), ItemsHtml(items));
      SafeConcat(Page, OpenTag(kind) + ItemsHtml(items), CloseTag(kind));
    case Single(Paragraph(text)) =>
      PageTag("<div>");
      PageTag("</div>");
      WrappedIsSafe("<div>", text, "</div>");
    case Single(_) =>
      PlainIsSafe(Page, "");
  }

  lemma {:induction false} HtmlIsSafe(blocks: seq<Block>)
    ensures Safe(Page, Html(blocks))
  {
    hide Safe, BlockHtml;
    if blocks == [] {
      PlainIsSafe(Page, "");
    } else {
      BlockIsSafe(blocks[0]);
      HtmlIsSafe(blocks[1..]);
      SafeConcat(Page, BlockHtml(blocks[0]), Html(blocks[1..]));
    }
  }

  predicate BracketsAreTags(level: Level, html: string) {
    forall i | 0 <= i < |html| && html[i] == '<' :: TagLength(level, html[i..]) > 0
  }

  /** For every input, each '<' of the rendered reply starts one of the allowlisted tags. */
  lemma RenderedTagsAreAllowlisted(text: string)
    ensures BracketsAreTags(Page, Rendered(text))
  {
    hide Rendered, Safe, TagLength;
    var html := Rendered(text);
    RenderedIsSafe(text);
    forall i | 0 <= i < |html| && html[i] == '<' ensures TagLength(Page, html[i..]) > 0 {
      EveryBracketIsATag(Page, html, i);
    }
  }

  lemma RenderedIsSafe(text: string)
    ensures Safe(Page, Rendered(text))
  {
    HtmlIsSafe(Blocks(ClassifyAll(SplitLines(text))));
  }

  // ---- Lines of a text ---------------------------------------------------------------------------------

  function JoinLines(lines: seq<string>): string {
    if lines == [] then "" else if |lines| == 1 then lines[0] else lines[0] + "\n" + JoinLines(lines[1..])
  }

  /** Splitting loses nothing and leaves no line feed inside a line. */
  lemma {:induction false} SplitThenJoin(text: string)
    ensures JoinLines(SplitLines(text)) == text
    ensures forall i | 0 <= i < |SplitLines(text)| :: '\n' !in SplitLines(text)[i]
    decreases |text|
  {
    var n := Span(Not('\n'), text);
    if n < |text| {
      SplitThenJoin(text[n + 1..]);
      assert SplitLines(text)[1..] == SplitLines(text[n + 1..]);
      assert text == text[..n] + "\n" + text[n + 1..];
    }
  }

  // A dash, a star, or digits and a dot.
  predicate IsBareMarker(s: string) {
    || s == "-" || s == "*"
    || (|s| > 1 && s[|s| - 1] == '.' && forall i | 0 <= i < |s| - 1 :: IsDigit(s[i]))
  }

  lemma SpaceIsItemText(s: string)
    requires s != "" && AllSpace(s)
    ensures ItemText(s) == Some("")
  {
    assert Span(IsSpaceChar(), s) == |s|;
    Ends(s);
  }

  lemma ReturnIsNoItemText(s: string)
    requires s != "" && s[|s| - 1] == '\r' && ItemText(s).Some?
    ensures AllSpace(s) && ItemText(s).value == ""
  {
    assert EndsLine(s[|s| - 1]);
    assert Span(IsSpaceChar(), s) == |s|;
  }

  // A marker between space is an item without text.
  lemma MarkerIsItem(before: string, marker: string, after: string)
    requires AllSpace(before) && AllSpace(after) && after != "" && IsBareMarker(marker)
    ensures Classify(before + marker + after).Item?
  {
    hide ItemText, IsSpace, IsBlank;
    MarkerIsNoSpace(marker);
    SpaceBefore(before, marker, after);
    SpaceIsItemText(after);
    if |marker| == 1 {
      assert (before + marker + after)[|before| + 1..] == after;
    } else {
      hide BulletText;
      DigitsBefore(marker, after);
      assert (before + marker + after)[|before|..] == marker + after;
      assert (before + marker + after)[|before| + |marker|..] == after;
    }
  }

  lemma SpaceBefore(before: string, marker: string, after: string)
    requires AllSpace(before) && marker != "" && !IsSpace(marker[0])
    ensures var line := before + marker + after;
      Span(IsSpaceChar(), line) == |before| && |before| < |line| && line[|before|] == marker[0]
      && line[|before| + |marker| - 1] == marker[|marker| - 1]
  {
    hide IsSpace;
    var line, n := before + marker + after, |before|;
    assert line[n] == marker[0] && forall i | 0 <= i < n :: line[i] == before[i];
    SpanAt(IsSpaceChar(), line, n);
  }

  lemma DigitsBefore(marker: string, after: string)
    requires IsBareMarker(marker) && |marker| > 1
    ensures Span(IsDigitChar(), marker + after) == |marker| - 1
  {
    var rest, d := marker + after, |marker| - 1;
    assert rest[d] == '.' && forall i | 0 <= i < d :: rest[i] == marker[i];
    SpanAt(IsDigitChar(), rest, d);
  }

  lemma MarkerIsNoSpace(marker: string)
    requires IsBareMarker(marker)
    ensures marker != "" && !IsSpace(marker[0]) && !IsSpace(marker[|marker| - 1]) && marker[|marker| - 1] != '\r'
  {
  }

  lemma BulletIsMarker(line: string) returns (before: string, marker: string, after: string)
    requires line != "" && line[|line| - 1] == '\r' && BulletText(line).Some?
    ensures line == before + marker + after && AllSpace(before) && AllSpace(after) && IsBareMarker(marker)
    ensures BulletText(line).value == ""
  {
    hide ItemText, IsSpace;
    var n := Span(IsSpaceChar(), line);
    before, marker, after := line[..n], [line[n]], line[n + 1..];
    EndsAsLine(line, n + 1);
    ReturnIsNoItemText(after);
    assert forall c | c in before :: IsSpaceChar()(c);
  }

  lemma NumberIsMarker(line: string) returns (before: string, marker: string, after: string)
    requires line != "" && line[|line| - 1] == '\r' && NumberedText(line).Some?
    ensures line == before + marker + after && AllSpace(before) && AllSpace(after) && IsBareMarker(marker)
    ensures NumberedText(line).value == ""
  {
    hide ItemText, IsBareMarker, AllSpace, IsSpaceChar, IsDigitChar, Span;
    var n := Span(IsSpaceChar(), line);
    var d := Span(IsDigitChar(), line[n..]);
    before, marker, after := line[..n], line[n..n + d + 1], line[n + d + 1..];
    EndsAsLine(line, n + d + 1);
    ReturnIsNoItemText(after);
    SpanIsSpace(line);
    DigitsThenDot(line[n..], line[n + d]);
    CutInThree(line, n, d + 1);
  }

  lemma CutInThree<T>(a: seq<T>, n: nat, m: nat)
    requires n + m <= |a|
    ensures a == a[..n] + a[n..n + m] + a[n + m..] && a[n..][..m] == a[n..n + m]
  {
  }

  lemma SpanIsSpace(line: string)
    ensures AllSpace(line[..Span(IsSpaceChar(), line)])
  {
    var before := line[..Span(IsSpaceChar(), line)];
    assert forall i | 0 <= i < |before| :: IsSpaceChar()(before[i]);
  }

  lemma DigitsThenDot(s: string, dot: char)
    requires var d := Span(IsDigitChar(), s); 0 < d < |s| && s[d] == dot == '.'
    ensures IsBareMarker(s[..Span(IsDigitChar(), s) + 1])
  {
    var d := Span(IsDigitChar(), s);
    assert forall i | 0 <= i < d :: IsDigitChar()(s[i]);
  }

  lemma ItemIsMarker(line: string) returns (before: string, marker: string, after: string)
    requires line != "" && line[|line| - 1] == '\r' && Classify(line).Item?
    ensures line == before + marker + after && AllSpace(before) && AllSpace(after) && IsBareMarker(marker)
    ensures Classify(line).text == ""
  {
    hide BulletText, NumberedText, IsBlank;
    if BulletText(line).Some? {
      before, marker, after := BulletIsMarker(line);
    } else {
      before, marker, after := NumberIsMarker(line);
    }
  }

  lemma EndsAsLine(line: string, k: nat)
    requires k <= |line| && line != "" && line[|line| - 1] == '\r' && ItemText(line[k..]).Some?
    ensures k < |line| && line[k..][|line[k..]| - 1] == '\r'
  {
  }

  /** A dot matches no carriage return, so a line that ends in one is an item exactly if it is a bare marker, and
      then without text. */
  lemma CarriageReturnEndsNoText(line: string)
    requires line != "" && line[|line| - 1] == '\r'
    ensures Classify(line).Item? <==> IsBareMarker(Trim(line))
    ensures Classify(line).Item? ==> Classify(line).text == ""
  {
    if Classify(line).Item? {
      var before, marker, after := ItemIsMarker(line);
      MarkerIsNoSpace(marker);
      TrimOf(before, marker, after);
    }
    if IsBareMarker(Trim(line)) {
      var before, after := TrimCutsSpace(line);
      MarkerIsNoSpace(Trim(line));
      LastOfParts(before, Trim(line), after);
      hide Classify, Trim;
      MarkerIsItem(before, Trim(line), after);
    }
  }

  lemma LastOfParts(a: string, b: string, c: string)
    requires b != ""
    ensures c == "" ==> (a + b + c)[|a + b + c| - 1] == b[|b| - 1]
  {
  }

  lemma DashPieces(c: char)
    ensures ("- " + [c])[0] == '-' && ("- " + [c])[1..] == " " + [c] && "- " + [c] != ""
  {
  }

  lemma DashIsBullet(line: string)
    requires line != "" && line[0] == '-' && ItemText(line[1..]).Some?
    ensures Classify(line) == Item(Bulleted, ItemText(line[1..]).value)
  {
    hide ItemText;
    assert !IsSpace('-');
    hide IsSpace;
    SpanAt(IsSpaceChar(), line, 0);
  }

  lemma DashThenWord(c: char)
    requires !IsSpace(c) && !EndsLine(c)
    ensures Classify("- " + [c]) == Item(Bulleted, [c])
  {
    hide *;
    DashPieces(c);
    SpaceThenWord(c);
    DashIsBullet("- " + [c]);
  }

  lemma SpaceThenWord(c: char)
    requires !IsSpace(c) && !EndsLine(c)
    ensures ItemText(" " + [c]) == Some([c])
  {
    var rest := " " + [c];
    assert rest[0] == ' ' && rest[1] == c && rest[1..] == [c];
    SpanAt(IsSpaceChar(), rest, 1);
  }

  lemma WordIsNoMarker(c: char)
    requires !IsSpace(c)
    ensures var item := "- " + [c]; !IsBareMarker(item) && Trim(item + "\r") == item != ""
    ensures var line := "- " + [c] + "\r"; line != "" && line[|line| - 1] == '\r'
  {
    var item := "- " + [c];
    assert item[0] == '-' && |item| == 3 && item[2] == c;
    assert "" + item + "\r" == item + "\r";
    TrimOf("", item, "\r");
  }

  lemma ParagraphOtherwise(line: string)
    requires !Classify(line).Item? && Trim(line) != ""
    ensures Classify(line) == Paragraph(line)
  {
    hide BulletText, NumberedText, Trim;
  }

  /** A carriage return makes a paragraph of an item of one letter. */
  lemma CarriageReturnUnlistsItem(c: char)
    requires !IsSpace(c) && !EndsLine(c)
    ensures Classify("- " + [c]) == Item(Bulleted, [c])
    ensures Classify("- " + [c] + "\r") == Paragraph("- " + [c] + "\r")
  {
    hide *;
    DashThenWord(c);
    WordIsNoMarker(c);
    CarriageReturnEndsNoText("- " + [c] + "\r");
    ParagraphOtherwise("- " + [c] + "\r");
  }
}

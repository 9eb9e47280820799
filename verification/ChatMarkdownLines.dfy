/** Which lines of a chat reply are list items, blank or paragraphs: the two item patterns of
    apps/browser-demo/src/chatMarkdown.ts as the texts that they match. */
module ChatMarkdownLines {
  import opened ChatMarkdown
  import opened Sequences
  import opened Text
  import opened Wrappers

  predicate IsMarker(kind: ListKind, marker: string) {
    match kind
    case Bulleted => marker == "-" || marker == "*"
    case Numbered =>
      |marker| > 1 && marker[|marker| - 1] == '.' && forall i | 0 <= i < |marker| - 1 :: '0' <= marker[i] <= '9'
  }

  // What can follow the space after a marker: no line terminator, and no further space in front.
  predicate IsItemText(text: string) {
    && (forall c | c in text :: c !in "\n\r\U{2028}\U{2029}")
    && (text != "" ==> !IsSpace(text[0]))
  }

  // Space, the marker, space, the text.
  predicate IsItemLine(kind: ListKind, a: string, marker: string, b: string, text: string) {
    AllSpace(a) && IsMarker(kind, marker) && AllSpace(b) && b != "" && IsItemText(text)
  }

  lemma Terminators(c: char)
    ensures EndsLine(c) <==> c in "\n\r\U{2028}\U{2029}"
    ensures EndsLine(c) ==> IsSpace(c)
  {
  }

  lemma ItemTextOf(b: string, text: string)
    requires AllSpace(b) && b != "" && IsItemText(text)
    ensures ItemText(b + text) == Some(text)
  {
    var s := b + text;
    assert text != "" ==> s[|b|] == text[0];
    assert forall i | 0 <= i < |b| :: s[i] == b[i];
    hide IsSpace;
    if text == "" {
      assert Span(IsSpaceChar(), s) == |s|;
    } else {
      SpanAt(IsSpaceChar(), s, |b|);
    }
    forall i | |b| <= i < |s| ensures !EndsLine(s[i]) {
      Terminators(s[i]);
      assert s[i] == text[i - |b|];
    }
    assert s[|b|..] == text;
  }

  lemma ItemTextIs(s: string) returns (b: string)
    requires ItemText(s).Some?
    ensures s == b + ItemText(s).value && AllSpace(b) && b != "" && IsItemText(ItemText(s).value)
  {
    hide IsSpace;
    var n := Span(IsSpaceChar(), s);
    b := s[..n];
    var text := s[n..];
    forall c | c in text ensures c !in "\n\r\U{2028}\U{2029}" {
      var i :| 0 <= i < |text| && text[i] == c;
      Terminators(c);
      assert s[n + i] == c;
    }
    assert forall i | 0 <= i < n :: IsSpaceChar()(s[i]);
  }

  lemma BulletIs(line: string) returns (a: string, marker: string, b: string)
    requires BulletText(line).Some?
    ensures line == a + (marker + (b + BulletText(line).value)) && IsItemLine(Bulleted, a, marker, b, BulletText(line).value)
  {
    hide ItemText, IsItemText, IsSpace;
    var n := Span(IsSpaceChar(), line);
    a, marker := line[..n], [line[n]];
    b := ItemTextIs(line[n + 1..]);
    SpanIsSpace(line);
  }

  lemma NumberIs(line: string) returns (a: string, marker: string, b: string)
    requires NumberedText(line).Some?
    ensures line == a + (marker + (b + NumberedText(line).value))
    ensures IsItemLine(Numbered, a, marker, b, NumberedText(line).value)
  {
    hide ItemText, IsItemText, IsSpaceChar, Span;
    var n := Span(IsSpaceChar(), line);
    var d := Span(IsDigitChar(), line[n..]);
    a, marker := line[..n], line[n..n + d + 1];
    b := ItemTextIs(line[n + d + 1..]);
    SpanIsSpace(line);
    hide AllSpace;
    forall i | 0 <= i < d ensures '0' <= marker[i] <= '9' {
      assert IsDigitChar()(line[n..][i]) && marker[i] == line[n..][i];
    }
    CutInThree(line, n, d + 1);
    Assoc(a, marker, line[n + d + 1..]);
  }

  lemma MarkerStarts(kind: ListKind, marker: string)
    requires IsMarker(kind, marker)
    ensures marker != "" && !IsSpace(marker[0]) && IsBareMarker(marker)
    ensures kind == Bulleted ==> |marker| == 1
    ensures kind == Numbered ==> marker[0] != '-' && marker[0] != '*' && |marker| > 1
  {
  }

  lemma BulletOf(line: string, a: string, marker: string, rest: string)
    requires AllSpace(a) && IsMarker(Bulleted, marker) && line == a + (marker + rest)
    ensures BulletText(line) == ItemText(rest)
  {
    MarkerStarts(Bulleted, marker);
    Assoc(a, marker, rest);
    SpaceBefore(a, marker, rest);
    hide ItemText, IsSpace;
    assert line[|a| + 1..] == rest;
  }

  lemma NumberOf(line: string, a: string, marker: string, rest: string)
    requires AllSpace(a) && IsMarker(Numbered, marker) && line == a + (marker + rest)
    ensures BulletText(line) == None && NumberedText(line) == ItemText(rest)
  {
    MarkerStarts(Numbered, marker);
    Assoc(a, marker, rest);
    SpaceBefore(a, marker, rest);
    DigitsBefore(marker, rest);
    hide ItemText, IsSpace, IsMarker;
    assert line[|a|..] == marker + rest && line[|a| + |marker|..] == rest;
  }

  /** A line is an item of a kind with a text exactly if it is space, a marker of that kind, more space and the text. */
  lemma ItemIff(line: string, kind: ListKind, text: string)
    ensures Classify(line) == Item(kind, text) <==>
      exists a, marker, b :: line == a + (marker + (b + text)) && IsItemLine(kind, a, marker, b, text)
  {
    hide BulletText, NumberedText, ItemText, IsMarker, IsItemText, IsBlank;
    if BulletText(line).Some? {
      var a, marker, b := BulletIs(line);
    } else if NumberedText(line).Some? {
      var a, marker, b := NumberIs(line);
    }
    if a, marker, b :| line == a + (marker + (b + text)) && IsItemLine(kind, a, marker, b, text) {
      ItemTextOf(b, text);
      match kind
      case Bulleted => BulletOf(line, a, marker, b + text);
      case Numbered => NumberOf(line, a, marker, b + text);
    }
  }

  /** Any other line is blank if it is all space, and otherwise a paragraph as it is. */
  lemma OtherwiseBlankOrParagraph(line: string)
    requires !Classify(line).Item?
    ensures Classify(line) == if AllSpace(line) then Blank else Paragraph(line)
  {
    hide BulletText, NumberedText, IsBlank;
    BlankIsSpace(line);
  }
}

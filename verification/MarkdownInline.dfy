/** Inline markdown of settled chat replies (escapeHtml and `inline` in
    apps/browser-demo/src/chatMarkdown.ts): everything is escaped, then three
    global regular-expression rewrites add a fixed set of tags. */
module MarkdownInline {
  import opened Sequences
  import opened Text

  // ---- Escaping ---------------------------------------------------------------------

  // s.replace(/c/g, entity)
  function Substitute(s: string, c: char, entity: string): string {
    if s == "" then "" else (if s[0] == c then entity else [s[0]]) + Substitute(s[1..], c, entity)
  }

  function EscapeHtml(value: string): string {
    Substitute(Substitute(Substitute(Substitute(Substitute(value,
      '&', "&amp;"), '<', "&lt;"), '>', "&gt;"), '"', "&quot;"), '\'', "&#39;")
  }

  // The entity one character becomes.
  function Entity(c: char): string {
    if c == '&' then "&amp;" else if c == '<' then "&lt;" else if c == '>' then "&gt;"
    else if c == '"' then "&quot;" else if c == '\'' then "&#39;" else [c]
  }

  function Entities(s: string): string {
    if s == "" then "" else Entity(s[0]) + Entities(s[1..])
  }

  // What a browser shows for a text of entities.
  function Unescape(html: string): string {
    if html == "" then ""
    else if "&amp;" <= html then "&" + Unescape(html[5..])
    else if "&lt;" <= html then "<" + Unescape(html[4..])
    else if "&gt;" <= html then ">" + Unescape(html[4..])
    else if "&quot;" <= html then "\"" + Unescape(html[6..])
    else if "&#39;" <= html then "'" + Unescape(html[5..])
    else [html[0]] + Unescape(html[1..])
  }

  lemma {:induction false} SubstituteConcat(s: string, t: string, c: char, entity: string)
    ensures Substitute(s + t, c, entity) == Substitute(s, c, entity) + Substitute(t, c, entity)
  {
    if s == "" {
      assert s + t == t;
    } else {
      assert (s + t)[1..] == s[1..] + t;
      SubstituteConcat(s[1..], t, c, entity);
    }
  }

  lemma {:induction false} SubstituteAbsent(s: string, c: char, entity: string)
    requires c !in s
    ensures Substitute(s, c, entity) == s
  {
    if s != "" {
      SubstituteAbsent(s[1..], c, entity);
    }
  }

  lemma SubstituteOne(c: char, d: char, entity: string)
    ensures Substitute([c], d, entity) == if c == d then entity else [c]
  {
    assert [c][1..] == "";
  }

  lemma EscapeConcat(s: string, t: string)
    ensures EscapeHtml(s + t) == EscapeHtml(s) + EscapeHtml(t)
  {
    var s1, t1 := Substitute(s, '&', "&amp;"), Substitute(t, '&', "&amp;");
    var s2, t2 := Substitute(s1, '<', "&lt;"), Substitute(t1, '<', "&lt;");
    var s3, t3 := Substitute(s2, '>', "&gt;"), Substitute(t2, '>', "&gt;");
    var s4, t4 := Substitute(s3, '"', "&quot;"), Substitute(t3, '"', "&quot;");
    SubstituteConcat(s, t, '&', "&amp;");
    SubstituteConcat(s1, t1, '<', "&lt;");
    SubstituteConcat(s2, t2, '>', "&gt;");
    SubstituteConcat(s3, t3, '"', "&quot;");
    SubstituteConcat(s4, t4, '\'', "&#39;");
  }

  lemma EscapeOne(c: char)
    ensures EscapeHtml([c]) == Entity(c)
  {
    hide Substitute;
    SubstituteOne(c, '&', "&amp;");
    if c == '&' {
      SubstituteAbsent("&amp;", '<', "&lt;");
      SubstituteAbsent("&amp;", '>', "&gt;");
      SubstituteAbsent("&amp;", '"', "&quot;");
      SubstituteAbsent("&amp;", '\'', "&#39;");
    } else {
      EscapeOneAngle(c);
    }
  }

  lemma EscapeOneAngle(c: char)
    requires c != '&'
    ensures Substitute(Substitute(Substitute(Substitute([c], '<', "&lt;"), '>', "&gt;"), '"', "&quot;"), '\'', "&#39;")
      == Entity(c)
  {
    hide Substitute;
    SubstituteOne(c, '<', "&lt;");
    SubstituteOne(c, '>', "&gt;");
    SubstituteOne(c, '"', "&quot;");
    SubstituteOne(c, '\'', "&#39;");
    SubstituteAbsent("&lt;", '>', "&gt;");
    SubstituteAbsent("&lt;", '"', "&quot;");
    SubstituteAbsent("&lt;", '\'', "&#39;");
    SubstituteAbsent("&gt;", '"', "&quot;");
    SubstituteAbsent("&gt;", '\'', "&#39;");
    SubstituteAbsent("&quot;", '\'', "&#39;");
  }

  /** The five rewrites in turn are one character-wise rewrite: no entity is escaped again. */
  lemma {:induction false} EscapeIsPerCharacter(s: string)
    ensures EscapeHtml(s) == Entities(s)
  {
    if s != "" {
      EscapeIsPerCharacter(s[1..]);
      EscapeConcat([s[0]], s[1..]);
      EscapeOne(s[0]);
      assert s == [s[0]] + s[1..];
    }
  }

  lemma UnescapeEntity(c: char, rest: string)
    ensures Unescape(Entity(c) + rest) == [c] + Unescape(rest)
  {
    hide Unescape;
    var entity := Entity(c);
    EntityMeans(c);
    hide Entity, Meaning;
    SplitConcat(entity, rest, |entity|);
    Ends(entity);
    NoneThen(rest);
    if c in "&<>\"'" {
      Entitled(entity + rest, entity);
    } else {
      FirstOfConcat(entity, rest);
      NoEntity(entity + rest);
    }
  }

  lemma EntityMeans(c: char)
    ensures if c in "&<>\"'" then IsEntity(Entity(c)) && Meaning(Entity(c)) == [c] else Entity(c) == [c] && c != '&'
    ensures Entity(c) != ""
  {
  }

  predicate IsEntity(s: string) {
    s == "&amp;" || s == "&lt;" || s == "&gt;" || s == "&quot;" || s == "&#39;"
  }

  lemma NoEntity(html: string)
    requires html != "" && html[0] != '&'
    ensures Unescape(html) == [html[0]] + Unescape(html[1..])
  {
  }

  // The entities differ in their second character.
  lemma Entitled(html: string, entity: string)
    requires IsEntity(entity) && entity <= html
    ensures Unescape(html) == Meaning(entity) + Unescape(html[|entity|..])
  {
    assert html[1] == entity[1];
  }

  function Meaning(entity: string): string {
    if entity == "&amp;" then "&" else if entity == "&lt;" then "<" else if entity == "&gt;" then ">"
    else if entity == "&quot;" then "\"" else "'"
  }

  /** Escaping loses nothing. */
  lemma {:induction false} UnescapeEscape(s: string)
    ensures Unescape(EscapeHtml(s)) == s
  {
    EscapeIsPerCharacter(s);
    if s != "" {
      UnescapeEscape(s[1..]);
      EscapeIsPerCharacter(s[1..]);
      UnescapeEntity(s[0], Entities(s[1..]));
    }
  }

  // ---- The three rewrites -----------------------------------------------------------------

  datatype Rule = Code | Bold | Link

  function UrlTail(): char -> bool {
    (x: char) => !IsSpace(x) && x != ')' && x != '"' && x != '\'' && x != '<' && x != '>'
  }

  // The length of the match of https?:\/\/[^\s)"'<>]+ at the start of a text, or 0.
  function UrlLength(s: string): (n: nat)
    ensures n <= |s|
  {
    var scheme := if "https://" <= s then 8 else if "http://" <= s then 7 else 0;
    if scheme == 0 then 0
    else var tail := Span(UrlTail(), s[scheme..]); if tail == 0 then 0 else scheme + tail
  }

  // The length of the match of a rule at the start of a text, or 0.
  function MatchLength(rule: Rule, s: string): (n: nat)
    ensures n <= |s|
  {
    match rule
    case Code =>
      if "`" <= s then
        var n := Span(Not('`'), s[1..]);
        if n > 0 && n + 1 < |s| then n + 2 else 0
      else 0
    case Bold =>
      if "**" <= s then
        var n := Span(Not('*'), s[2..]);
        if n > 0 && "**" <= s[n + 2..] then n + 4 else 0
      else 0
    case Link =>
      if "[" <= s then
        var n := Span(Not(']'), s[1..]);
        if n > 0 && "](" <= s[n + 1..] then
          var u := UrlLength(s[n + 3..]);
          if u > 0 && n + u + 3 < |s| && s[n + u + 3] == ')' then n + u + 4 else 0
        else 0
      else 0
  }

  const HREF := "<a href=\""
  const REL := "\" target=\"_blank\" rel=\"noopener noreferrer\">"

  // The replacement text for a match.
  function Emit(rule: Rule, s: string): string
    requires MatchLength(rule, s) > 0
  {
    match rule
    case Code => var n := Span(Not('`'), s[1..]); "<code>" + s[1..n + 1] + "</code>"
    case Bold => var n := Span(Not('*'), s[2..]); "<strong>" + s[2..n + 2] + "</strong>"
    case Link =>
      var n := Span(Not(']'), s[1..]);
      var u := UrlLength(s[n + 3..]);
      Anchor(s[n + 3..n + u + 3]) + s[1..n + 1] + "</a>"
  }

  // s.replace(rule, replacement) with the g flag: leftmost matches, not overlapping.
  function Rewrite(rule: Rule, s: string): string
    decreases |s|
  {
    if s == "" then ""
    else
      var n := MatchLength(rule, s);
      if n > 0 then Emit(rule, s) + Rewrite(rule, s[n..]) else [s[0]] + Rewrite(rule, s[1..])
  }

  function Inline(s: string): string {
    Rewrite(Link, Rewrite(Bold, Rewrite(Code, EscapeHtml(s))))
  }

  // ---- Safe markup ---------------------------------------------------------------------------

  // Marks: what code and bold add. Spans: links as well. Page: the block tags as well.
  datatype Level = Marks | Spans | Page

  predicate IsUrl(url: string) {
    UrlLength(url) == |url| > 0
  }

  predicate IsAnchor(t: string) {
    && |t| > |HREF| + |REL| && HREF <= t && t[|t| - |REL|..] == REL
    && IsUrl(t[|HREF|..|t| - |REL|])
  }

  predicate IsTag(level: Level, t: string) {
    || t == "<code>" || t == "</code>" || t == "<strong>" || t == "</strong>"
    || (level != Marks && (t == "</a>" || IsAnchor(t)))
    || (level == Page && (t == "<ul>" || t == "</ul>" || t == "<ol>" || t == "</ol>"
                          || t == "<li>" || t == "</li>" || t == "<div>" || t == "</div>"))
  }

  // The length of the tag a text starts with, or 0: a tag ends at the first '>'.
  function TagLength(level: Level, s: string): (n: nat)
    ensures n <= |s|
    ensures n > 0 ==> s[0] == '<' && IsTag(level, s[..n])
  {
    if s != "" && s[0] == '<' then
      var k := Span(Not('>'), s);
      if k < |s| && IsTag(level, s[..k + 1]) then k + 1 else 0
    else 0
  }

  predicate Plain(c: char) {
    c != '<' && c != '>' && c != '"' && c != '\''
  }

  // A text of plain characters and allowlisted tags, nothing else.
  predicate Safe(level: Level, s: string)
    decreases |s|
  {
    if s == "" then true
    else if TagLength(level, s) > 0 then Safe(level, s[TagLength(level, s)..])
    else Plain(s[0]) && Safe(level, s[1..])
  }

  lemma {:induction false} SpanExtends(p: char -> bool, s: string, t: string)
    requires Span(p, s) < |s|
    ensures Span(p, s + t) == Span(p, s)
  {
    if p(s[0]) {
      SpanExtends(p, s[1..], t);
      assert (s + t)[1..] == s[1..] + t;
    }
  }

  lemma TagExtends(level: Level, s: string, t: string)
    requires TagLength(level, s) > 0
    ensures TagLength(level, s + t) == TagLength(level, s)
  {
    var k := Span(Not('>'), s);
    SpanExtends(Not('>'), s, t);
    assert (s + t)[..k + 1] == s[..k + 1];
  }

  lemma SafeUnfold(level: Level, s: string)
    requires s != ""
    ensures Safe(level, s) <==>
      var n := TagLength(level, s);
      if n > 0 then Safe(level, s[n..]) else Plain(s[0]) && Safe(level, s[1..])
  {
    hide TagLength;
  }

  lemma PlainIsNoTag(s: string)
    requires s != "" && Plain(s[0])
    ensures TagLength(Marks, s) == TagLength(Spans, s) == TagLength(Page, s) == 0
  {
  }

  lemma {:induction false} SafeConcat(level: Level, s: string, t: string)
    requires Safe(level, s) && Safe(level, t)
    ensures Safe(level, s + t)
    decreases |s|
  {
    if s == "" {
      NoneThen(t);
    } else {
      SafeUnfold(level, s);
      SafeUnfold(level, s + t);
      hide Safe, TagLength;
      FirstOfConcat(s, t);
      var n := TagLength(level, s);
      if n > 0 {
        TagExtends(level, s, t);
        SplitConcat(s, t, n);
        SafeConcat(level, s[n..], t);
      } else {
        PlainIsNoTag(s + t);
        SafeConcat(level, s[1..], t);
      }
    }
  }

  lemma {:induction false} SafeRises(level: Level, level': Level, s: string)
    requires Safe(level, s) && (level == Marks || level' == Page)
    ensures Safe(level', s)
    decreases |s|
  {
    if s != "" {
      var n := TagLength(level, s);
      SafeRises(level, level', if n > 0 then s[n..] else s[1..]);
    }
  }

  predicate Delimiter(c: char) {
    c == '`' || c == '*' || c == '[' || c == ']' || c == '(' || c == ')'
  }

  // A delimiter stands between tags, never inside one.
  lemma {:induction false} SafeSplit(s: string, c: char, t: string)
    requires Delimiter(c) && Safe(Marks, s + [c] + t)
    ensures Safe(Marks, s) && Safe(Marks, t)
    decreases |s|
  {
    hide IsTag;
    var whole := s + [c] + t;
    assert whole[|s|] == c;
    if s == "" {
      assert whole[1..] == t;
    } else {
      var n := TagLength(Marks, whole);
      if n > 0 {
        TagStopsBefore(s, c, t);
        assert whole[n..] == s[n..] + [c] + t;
        SafeSplit(s[n..], c, t);
      } else {
        assert whole[1..] == s[1..] + [c] + t;
        SafeSplit(s[1..], c, t);
        assert whole[0] == s[0];
      }
    }
  }

  lemma MarksTagChars(tag: string)
    requires IsTag(Marks, tag)
    ensures tag != "" && tag[0] == '<' && tag[|tag| - 1] == '>'
    ensures forall i | 0 <= i < |tag| :: !Delimiter(tag[i]) && (i < |tag| - 1 ==> tag[i] != '>')
  {
  }

  lemma TagStopsBefore(s: string, c: char, t: string)
    requires s != "" && Delimiter(c) && TagLength(Marks, s + [c] + t) > 0
    ensures TagLength(Marks, s) == TagLength(Marks, s + [c] + t) <= |s|
  {
    hide IsTag;
    var whole := s + [c] + t;
    var n := TagLength(Marks, whole);
    var tag := whole[..n];
    MarksTagChars(tag);
    assert forall i | 0 <= i < n :: !Delimiter(whole[i]) by {
      assert forall i | 0 <= i < n :: tag[i] == whole[i];
    }
    assert Delimiter(whole[|s|]);
    assert s[..n] == tag;
    TagPrefix(s, n);
  }

  lemma TagPrefix(s: string, n: nat)
    requires 0 < n <= |s| && IsTag(Marks, s[..n])
    ensures TagLength(Marks, s) == n
  {
    hide IsTag;
    var tag := s[..n];
    MarksTagChars(tag);
    assert forall i | 0 <= i < n :: s[i] == tag[i];
    SpanAt(Not('>'), s, n - 1);
  }

  // ---- Reading markup back --------------------------------------------------------------------

  // The markdown a tag stands for; a closing link restores the url its opening tag carried.
  function SourceOf(tag: string, url: string): string {
    if tag == "<code>" || tag == "</code>" then "`"
    else if tag == "<strong>" || tag == "</strong>" then "**"
    else if tag == "</a>" then "](" + url + ")"
    else "["
  }

  function UrlOf(tag: string, url: string): string {
    if IsAnchor(tag) then tag[|HREF|..|tag| - |REL|] else url
  }

  function Untag(html: string, url: string): string
    decreases |html|
  {
    if html == "" then ""
    else
      var n := TagLength(Spans, html);
      if n > 0 then SourceOf(html[..n], url) + Untag(html[n..], UrlOf(html[..n], url))
      else [html[0]] + Untag(html[1..], url)
  }

  lemma MarksTag(s: string)
    requires TagLength(Marks, s) > 0
    ensures TagLength(Spans, s) == TagLength(Marks, s)
    ensures !IsAnchor(s[..TagLength(Marks, s)]) && s[..TagLength(Marks, s)] != "</a>"
  {
    var tag := s[..TagLength(Marks, s)];
    assert tag[1] != 'a';
    assert HREF[1] == 'a';
  }

  // Text without links reads the same under every url, and piece by piece.
  lemma UntagUnfold(html: string, url: string)
    requires html != ""
    ensures var n := TagLength(Spans, html);
      Untag(html, url) ==
      if n > 0 then SourceOf(html[..n], url) + Untag(html[n..], UrlOf(html[..n], url))
      else [html[0]] + Untag(html[1..], url)
  {
    hide TagLength, SourceOf, UrlOf;
  }

  lemma MarksTagReads(tag: string, url: string, url': string)
    requires !IsAnchor(tag) && tag != "</a>"
    ensures SourceOf(tag, url) == SourceOf(tag, url') && UrlOf(tag, url) == url
  {
    hide IsAnchor;
  }

  lemma {:induction false} UntagConcat(s: string, t: string, url: string, url': string)
    requires Safe(Marks, s)
    ensures Untag(s + t, url) == Untag(s, url') + Untag(t, url)
    decreases |s|
  {
    if s == "" {
      NoneThen(t);
      NoneThen(Untag(t, url));
    } else {
      SafeUnfold(Marks, s);
      UntagUnfold(s, url');
      UntagUnfold(s + t, url);
      hide Safe, TagLength, Untag, SourceOf, UrlOf;
      FirstOfConcat(s, t);
      var n := TagLength(Marks, s);
      if n > 0 {
        MarksTag(s);
        MarksTagReads(s[..n], url, url');
        MarksTagReads(s[..n], url', url');
        TagExtends(Spans, s, t);
        SplitConcat(s, t, n);
        UntagConcat(s[n..], t, url, url');
        Assoc(SourceOf(s[..n], url), Untag(s[n..], url'), Untag(t, url));
      } else {
        PlainIsNoTag(s);
        PlainIsNoTag(s + t);
        UntagConcat(s[1..], t, url, url');
        Assoc([s[0]], Untag(s[1..], url'), Untag(t, url));
      }
    }
  }

  lemma UntagAnyUrl(s: string, url: string, url': string)
    requires Safe(Marks, s)
    ensures Untag(s, url) == Untag(s, url')
  {
    UntagConcat(s, "", url, url');
    assert s + "" == s;
  }

  lemma UntagTag(tag: string, rest: string, url: string)
    requires tag == "<code>" || tag == "</code>" || tag == "<strong>" || tag == "</strong>" || tag == "</a>"
    ensures Untag(tag + rest, url) == SourceOf(tag, url) + Untag(rest, url)
    ensures TagLength(Spans, tag + rest) == |tag|
    ensures Safe(Spans, rest) ==> Safe(Spans, tag + rest)
    ensures tag != "</a>" && Safe(Marks, rest) ==> Safe(Marks, tag + rest)
  {
    var s := tag + rest;
    assert s[..|tag|] == tag && s[|tag|..] == rest;
    assert s[|tag| - 1] == '>';
    SpanAt(Not('>'), s, |tag| - 1);
    assert IsTag(Spans, tag);
    assert !IsAnchor(tag);
  }

  lemma UrlChars(url: string)
    requires IsUrl(url)
    ensures forall i | 0 <= i < |url| :: UrlTail()(url[i])
  {
    var scheme := if "https://" <= url then 8 else 7;
    forall i | 0 <= i < |url| ensures UrlTail()(url[i]) {
      if i < scheme {
        assert url[i] in "https://";
      } else {
        assert url[i] == url[scheme..][i - scheme];
      }
    }
  }

  function Anchor(link: string): string {
    HREF + link + REL
  }

  lemma AnchorChars(link: string, i: nat)
    requires i < |Anchor(link)|
    ensures Anchor(link)[i] == if i < |HREF| then HREF[i] else if i < |HREF| + |link| then link[i - |HREF|]
      else REL[i - |HREF| - |link|]
  {
  }

  // The brackets of the texts around the url.
  lemma AroundUrl()
    ensures (forall i | 0 <= i < |HREF| :: HREF[i] != '>') && HREF[0] == '<' && HREF[1] == 'a' && HREF[2] == ' '
    ensures (forall i | 0 <= i < |REL| - 1 :: REL[i] != '>') && REL[|REL| - 1] == '>'
    ensures |HREF| > 2 && |REL| > 0
  {
  }

  lemma AnchorParts(link: string)
    ensures var tag := Anchor(link);
      |tag| == |HREF| + |link| + |REL| && HREF <= tag && tag[|HREF|..|tag| - |REL|] == link && tag[|tag| - |REL|..] == REL
  {
    hide HREF, REL;
  }

  lemma AnchorTag(link: string)
    requires IsUrl(link)
    ensures var tag := Anchor(link);
      && |tag| > 2 && IsAnchor(tag) && UrlOf(tag, "") == link && tag[0] == '<' && tag[1] == 'a' && tag[2] == ' '
      && tag[|tag| - 1] == '>' && forall i | 0 <= i < |tag| - 1 :: tag[i] != '>'
  {
    PositiveUrl(link);
    AnchorParts(link);
    AroundUrl();
    UrlChars(link);
    hide UrlLength, IsUrl, HREF, REL, Anchor;
    var tag := Anchor(link);
    AnchorChars(link, 0);
    AnchorChars(link, 1);
    AnchorChars(link, 2);
    AnchorChars(link, |tag| - 1);
    forall i | 0 <= i < |tag| - 1 ensures tag[i] != '>' {
      AnchorChars(link, i);
      assert |HREF| <= i < |HREF| + |link| ==> UrlTail()(link[i - |HREF|]);
    }
  }

  lemma UntagAnchor(link: string, rest: string, url: string)
    requires IsUrl(link)
    ensures Untag(Anchor(link) + rest, url) == "[" + Untag(rest, link)
    ensures Safe(Spans, rest) ==> Safe(Spans, Anchor(link) + rest)
  {
    hide UrlLength, IsUrl, IsAnchor, Anchor, Untag, Safe, TagLength, SourceOf, UrlOf;
    var tag := Anchor(link);
    var s := tag + rest;
    AnchorTag(link);
    AnchorLength(tag, rest);
    AnchorReads(tag, url);
    SplitConcat(tag, rest, |tag|);
    NoneThen(rest);
    Ends(tag);
    UntagUnfold(s, url);
    SafeUnfold(Spans, s);
  }

  lemma AnchorReads(tag: string, url: string)
    requires IsAnchor(tag) && |tag| > 2 && tag[1] == 'a'
    ensures SourceOf(tag, url) == "[" && UrlOf(tag, url) == UrlOf(tag, "")
  {
    hide IsAnchor;
  }

  lemma AnchorLength(tag: string, rest: string)
    requires IsAnchor(tag) && |tag| > 2 && tag[0] == '<' && tag[|tag| - 1] == '>'
    requires forall i | 0 <= i < |tag| - 1 :: tag[i] != '>'
    ensures TagLength(Spans, tag + rest) == |tag|
  {
    hide IsAnchor;
    var s := tag + rest;
    assert forall i | 0 <= i < |tag| :: s[i] == tag[i];
    assert s[..|tag|] == tag;
    SpanAt(Not('>'), s, |tag| - 1);
  }

  // ---- What the rewrites keep ------------------------------------------------------------------

  lemma UntagChar(c: char, rest: string, url: string)
    requires Plain(c)
    ensures Untag([c] + rest, url) == [c] + Untag(rest, url)
  {
    var s := [c] + rest;
    assert s[0] == c && s[1..] == rest;
    PlainIsNoTag(s);
  }

  lemma {:induction false} UntagPlain(p: string, rest: string, url: string)
    requires forall i | 0 <= i < |p| :: Plain(p[i])
    ensures Untag(p + rest, url) == p + Untag(rest, url)
  {
    hide Untag;
    if p == "" {
      assert p + rest == rest;
    } else {
      UntagPlain(p[1..], rest, url);
      UntagChar(p[0], p[1..] + rest, url);
      assert p + rest == [p[0]] + (p[1..] + rest);
    }
  }

  lemma {:induction false} PlainIsSafe(level: Level, p: string)
    requires forall i | 0 <= i < |p| :: Plain(p[i])
    ensures Safe(level, p)
  {
    if p != "" {
      PlainIsNoTag(p);
      PlainIsSafe(level, p[1..]);
    }
  }

  lemma {:induction false} SpanOfPrefix(p: char -> bool, s: string)
    ensures Span(p, s[..Span(p, s)]) == Span(p, s)
  {
    if s != "" && p(s[0]) {
      SpanOfPrefix(p, s[1..]);
      assert s[..Span(p, s)][1..] == s[1..][..Span(p, s[1..])];
    }
  }

  lemma UrlPrefix(s: string)
    requires UrlLength(s) > 0
    ensures IsUrl(s[..UrlLength(s)])
  {
    var n := UrlLength(s);
    var scheme := if "https://" <= s then 8 else 7;
    SpanOfPrefix(UrlTail(), s[scheme..]);
    assert s[..n][scheme..] == s[scheme..][..n - scheme];
    assert s[..n][..scheme] == s[..scheme];
    assert "https://" <= s ==> "https://" <= s[..n];
    assert "http://" <= s ==> "http://" <= s[..n];
    assert "https://" <= s[..n] ==> "https://" <= s;
  }

  lemma CodeParts(s: string) returns (mid: string, rest: string)
    requires MatchLength(Code, s) > 0
    ensures s == "`" + mid + "`" + rest && rest == s[MatchLength(Code, s)..]
    ensures Emit(Code, s) == "<code>" + mid + "</code>"
  {
    var n := Span(Not('`'), s[1..]);
    mid, rest := s[1..n + 1], s[n + 2..];
    assert s[n + 1] == s[1..][n];
  }

  lemma BoldParts(s: string) returns (mid: string, rest: string)
    requires MatchLength(Bold, s) > 0
    ensures s == "**" + mid + "**" + rest && rest == s[MatchLength(Bold, s)..]
    ensures Emit(Bold, s) == "<strong>" + mid + "</strong>"
  {
    var n := Span(Not('*'), s[2..]);
    mid, rest := s[2..n + 2], s[n + 4..];
    assert s[n + 2..][..2] == "**";
    assert s == s[..2] + mid + s[n + 2..][..2] + rest;
  }

  lemma CutLink(s: string, n: nat, u: nat)
    requires n + u + 4 <= |s| && s[0] == '[' && "](" <= s[n + 1..] && s[n + u + 3] == ')'
    ensures s == "[" + s[1..n + 1] + "](" + s[n + 3..n + u + 3] + ")" + s[n + u + 4..]
    ensures s[n + 3..][..u] == s[n + 3..n + u + 3]
  {
    assert s[n + 1..][..2] == "](" && s[n + 1..][..2] == s[n + 1..n + 3];
    assert s == s[..1] + s[1..n + 1] + s[n + 1..n + 3] + s[n + 3..n + u + 3] + [s[n + u + 3]] + s[n + u + 4..];
  }

  lemma LinkParts(s: string) returns (text: string, link: string, rest: string)
    requires MatchLength(Link, s) > 0
    ensures s == "[" + text + "](" + link + ")" + rest && rest == s[MatchLength(Link, s)..]
    ensures IsUrl(link) && Emit(Link, s) == Anchor(link) + text + "</a>"
  {
    hide UrlLength, Anchor, Span, IsUrl;
    var n := Span(Not(']'), s[1..]);
    var u := UrlLength(s[n + 3..]);
    text, link, rest := s[1..n + 1], s[n + 3..n + u + 3], s[n + u + 4..];
    UrlPrefix(s[n + 3..]);
    CutLink(s, n, u);
  }

  predicate IsPair(mark: string, opening: string, closing: string) {
    || (mark == "`" && opening == "<code>" && closing == "</code>")
    || (mark == "**" && opening == "<strong>" && closing == "</strong>")
  }

  lemma PairReads(mark: string, opening: string, closing: string, url: string)
    requires IsPair(mark, opening, closing)
    ensures SourceOf(opening, url) == SourceOf(closing, url) == mark
    ensures forall i | 0 <= i < |mark| :: Plain(mark[i])
    ensures opening == "<code>" || opening == "<strong>"
    ensures closing == "</code>" || closing == "</strong>"
  {
  }

  // A pair of marks reads the same as the pair of tags that replaces it.
  lemma PairKeeps(mark: string, opening: string, closing: string, mid: string, rest: string, done: string, url: string)
    requires IsPair(mark, opening, closing)
    requires Safe(Marks, mid) && Safe(Marks, done) && Untag(done, url) == Untag(rest, url)
    ensures Safe(Marks, opening + mid + closing + done)
    ensures Untag(opening + mid + closing + done, url) == Untag(mark + mid + mark + rest, url)
  {
    hide *;
    PairReads(mark, opening, closing, url);
    var tail := closing + done;
    UntagTag(closing, done, url);
    UntagConcat(mid, tail, url, url);
    SafeConcat(Marks, mid, tail);
    UntagTag(opening, mid + tail, url);
    Assoc(opening + mid, closing, done);
    Assoc(opening, mid, tail);
    UntagPlain(mark, mid + (mark + rest), url);
    UntagConcat(mid, mark + rest, url, url);
    UntagPlain(mark, rest, url);
    Assoc(mark + mid, mark, rest);
    Assoc(mark, mid, mark + rest);
  }

  lemma CodeKeeps(s: string, mid: string, rest: string, done: string, url: string)
    requires Safe(Marks, s) && s == "`" + mid + "`" + rest
    requires Safe(Marks, done) && Untag(done, url) == Untag(rest, url)
    ensures Safe(Marks, "<code>" + mid + "</code>" + done)
    ensures Untag("<code>" + mid + "</code>" + done, url) == Untag(s, url)
  {
    CodeSplits(mid, rest);
    assert IsPair("`", "<code>", "</code>");
    hide *;
    PairKeeps("`", "<code>", "</code>", mid, rest, done, url);
  }

  lemma CodeSplits(mid: string, rest: string)
    requires Safe(Marks, "`" + mid + "`" + rest)
    ensures Safe(Marks, mid) && Safe(Marks, rest)
  {
    hide Safe;
    assert "`" + mid + "`" + rest == "" + "`" + (mid + "`" + rest);
    SafeSplit("", '`', mid + "`" + rest);
    SafeSplit(mid, '`', rest);
  }

  lemma BoldKeeps(s: string, mid: string, rest: string, done: string, url: string)
    requires Safe(Marks, s) && s == "**" + mid + "**" + rest
    requires Safe(Marks, done) && Untag(done, url) == Untag(rest, url)
    ensures Safe(Marks, "<strong>" + mid + "</strong>" + done)
    ensures Untag("<strong>" + mid + "</strong>" + done, url) == Untag(s, url)
  {
    BoldSplits(mid, rest);
    assert IsPair("**", "<strong>", "</strong>");
    hide *;
    PairKeeps("**", "<strong>", "</strong>", mid, rest, done, url);
  }

  lemma BoldSplits(mid: string, rest: string)
    requires Safe(Marks, "**" + mid + "**" + rest)
    ensures Safe(Marks, mid) && Safe(Marks, rest)
  {
    hide Safe;
    var s := "**" + mid + "**" + rest;
    assert s == "" + "*" + ("*" + mid + "**" + rest);
    SafeSplit("", '*', "*" + mid + "**" + rest);
    assert "*" + mid + "**" + rest == "" + "*" + (mid + "**" + rest);
    SafeSplit("", '*', mid + "**" + rest);
    assert mid + "**" + rest == mid + "*" + ("*" + rest);
    SafeSplit(mid, '*', "*" + rest);
    assert "*" + rest == "" + "*" + rest;
    SafeSplit("", '*', rest);
  }

  lemma LinkSplits(s: string, text: string, link: string, rest: string)
    requires Safe(Marks, s) && s == "[" + text + "](" + link + ")" + rest
    ensures Safe(Marks, text) && Safe(Marks, rest)
  {
    hide Safe;
    assert s == "" + "[" + (text + "](" + link + ")" + rest);
    SafeSplit("", '[', text + "](" + link + ")" + rest);
    assert text + "](" + link + ")" + rest == text + "]" + ("(" + link + ")" + rest);
    SafeSplit(text, ']', "(" + link + ")" + rest);
    assert "(" + link + ")" + rest == "" + "(" + (link + ")" + rest);
    SafeSplit("", '(', link + ")" + rest);
    SafeSplit(link, ')', rest);
  }

  function Closing(link: string): string {
    "](" + link + ")"
  }

  lemma ClosingIsPlain(link: string)
    requires IsUrl(link)
    ensures forall i | 0 <= i < |Closing(link)| :: Plain(Closing(link)[i])
  {
    hide UrlLength;
    UrlChars(link);
    var close := Closing(link);
    forall i | 0 <= i < |close| ensures Plain(close[i]) {
      if 2 <= i < |close| - 1 {
        assert UrlTail()(link[i - 2]) && close[i] == link[i - 2];
      }
    }
  }

  // What a link in the text reads as.
  lemma UntagLink(text: string, link: string, rest: string, url: string)
    requires Safe(Marks, text) && IsUrl(link)
    ensures Untag("[" + (text + (Closing(link) + rest)), url) == "[" + (Untag(text, url) + (Closing(link) + Untag(rest, url)))
  {
    hide UrlLength, IsUrl, Safe, Untag, Closing;
    ClosingIsPlain(link);
    UntagPlain("[", text + (Closing(link) + rest), url);
    UntagConcat(text, Closing(link) + rest, url, url);
    UntagPlain(Closing(link), rest, url);
  }

  lemma LinkKeeps(s: string, text: string, link: string, rest: string, done: string, url: string)
    requires Safe(Marks, s) && s == "[" + text + "](" + link + ")" + rest && IsUrl(link)
    requires Safe(Spans, done) && Untag(done, link) == Untag(rest, link)
    ensures Safe(Spans, Anchor(link) + text + "</a>" + done)
    ensures Untag(Anchor(link) + text + "</a>" + done, url) == Untag(s, url)
  {
    hide UrlLength, IsUrl, Anchor, Safe, Untag, TagLength, IsAnchor;
    LinkSplits(s, text, link, rest);
    SafeRises(Marks, Spans, text);
    var tail := "</a>" + done;
    UntagTag("</a>", done, link);
    UntagConcat(text, tail, link, url);
    SafeConcat(Spans, text, tail);
    UntagAnchor(link, text + tail, url);
    assert Anchor(link) + text + "</a>" + done == Anchor(link) + (text + tail);
    UntagLink(text, link, rest, url);
    UntagAnyUrl(rest, url, link);
    assert s == "[" + (text + (Closing(link) + rest));
    assert SourceOf("</a>", link) == Closing(link);
  }

  lemma {:induction false} RewriteSkips(rule: Rule, s: string, k: nat)
    requires k <= |s| && forall i | 0 <= i < k :: !Delimiter(s[i])
    ensures Rewrite(rule, s) == s[..k] + Rewrite(rule, s[k..])
  {
    if k > 0 {
      NoMatch(rule, s);
      RewriteSkipsOne(rule, s);
      hide MatchLength, Rewrite;
      RewriteSkips(rule, s[1..], k - 1);
      DropFirst(s, k);
      Assoc([s[0]], s[1..][..k - 1], Rewrite(rule, s[k..]));
    } else {
      Ends(s);
      NoneThen(Rewrite(rule, s));
    }
  }

  lemma RewriteSkipsOne(rule: Rule, s: string)
    requires s != "" && MatchLength(rule, s) == 0
    ensures Rewrite(rule, s) == [s[0]] + Rewrite(rule, s[1..])
  {
    hide MatchLength;
  }

  lemma NoMatch(rule: Rule, s: string)
    requires s != "" && !Delimiter(s[0])
    ensures MatchLength(rule, s) == 0
  {
  }

  /** A rewrite adds only its own tags, between the tags already there, and can be read back. */
  lemma {:induction false} RewriteKeeps(rule: Rule, s: string, url: string)
    requires Safe(Marks, s)
    ensures Safe(if rule == Link then Spans else Marks, Rewrite(rule, s))
    ensures Untag(Rewrite(rule, s), url) == Untag(s, url)
    decreases |s|
  {
    hide IsTag, IsUrl, IsAnchor, Anchor;
    var n, t := MatchLength(rule, s), TagLength(Marks, s);
    if s == "" {
    } else if n > 0 {
      match rule
      case Code =>
        var mid, rest := CodeParts(s);
        CodeSplits(mid, rest);
        RewriteKeeps(Code, rest, url);
        CodeKeeps(s, mid, rest, Rewrite(Code, rest), url);
      case Bold =>
        var mid, rest := BoldParts(s);
        BoldSplits(mid, rest);
        RewriteKeeps(Bold, rest, url);
        BoldKeeps(s, mid, rest, Rewrite(Bold, rest), url);
      case Link =>
        var text, link, rest := LinkParts(s);
        LinkSplits(s, text, link, rest);
        RewriteKeeps(Link, rest, link);
        LinkKeeps(s, text, link, rest, Rewrite(Link, rest), url);
    } else if t > 0 {
      RewriteKeeps(rule, s[t..], url);
      TagKeeps(rule, s, url);
    } else {
      RewriteKeeps(rule, s[1..], url);
      var done := Rewrite(rule, s[1..]);
      PlainIsSafe(if rule == Link then Spans else Marks, [s[0]]);
      SafeConcat(if rule == Link then Spans else Marks, [s[0]], done);
      UntagPlain([s[0]], done, url);
      UntagPlain([s[0]], s[1..], url);
      assert s == [s[0]] + s[1..];
    }
  }

  lemma TagIsSafe(tag: string)
    requires IsTag(Marks, tag)
    ensures Safe(Marks, tag)
  {
    hide IsTag;
    MarksTagChars(tag);
    assert tag[..|tag|] == tag;
    TagPrefix(tag, |tag|);
  }

  lemma TagKeeps(rule: Rule, s: string, url: string)
    requires Safe(Marks, s) && TagLength(Marks, s) > 0
    requires var rest := s[TagLength(Marks, s)..];
      && Safe(if rule == Link then Spans else Marks, Rewrite(rule, rest))
      && Untag(Rewrite(rule, rest), url) == Untag(rest, url)
    ensures Safe(if rule == Link then Spans else Marks, Rewrite(rule, s))
    ensures Untag(Rewrite(rule, s), url) == Untag(s, url)
  {
    hide IsTag, MatchLength, Rewrite, Untag, Safe;
    var t := TagLength(Marks, s);
    var tag, rest := s[..t], s[t..];
    MarksTagChars(tag);
    assert forall i | 0 <= i < t :: s[i] == tag[i];
    RewriteSkips(rule, s, t);
    TagIsSafe(tag);
    SafeRises(Marks, Spans, tag);
    SafeConcat(if rule == Link then Spans else Marks, tag, Rewrite(rule, rest));
    UntagConcat(tag, Rewrite(rule, rest), url, url);
    UntagConcat(tag, rest, url, url);
    assert s == tag + rest;
  }

  lemma EntitiesArePlain(s: string)
    ensures forall i | 0 <= i < |Entities(s)| :: Plain(Entities(s)[i])
  {
  }

  /** Whatever the text, inline markdown is plain characters and allowlisted tags, nothing else. */
  lemma InlineIsSafe(s: string)
    ensures Safe(Spans, Inline(s))
  {
    InlineReads(s, "");
  }

  lemma InlineReads(s: string, url: string)
    ensures Safe(Spans, Inline(s)) && Untag(Inline(s), url) == EscapeHtml(s)
  {
    hide Rewrite, EscapeHtml, Safe, Untag;
    var e := EscapeHtml(s);
    EscapeIsPerCharacter(s);
    EntitiesArePlain(s);
    PlainIsSafe(Marks, e);
    RewriteKeeps(Code, e, url);
    RewriteKeeps(Bold, Rewrite(Code, e), url);
    RewriteKeeps(Link, Rewrite(Bold, Rewrite(Code, e)), url);
    UntagPlain(e, "", url);
    UntagNothing(url);
    assert e + "" == e;
  }

  lemma UntagNothing(url: string)
    ensures Untag("", url) == ""
  {
  }

  /** Reading the tags back as markdown and the entities back as characters gives the text again:
      rendering neither drops, reorders nor invents a character. */
  lemma InlineIsReversible(s: string)
    ensures Unescape(Untag(Inline(s), "")) == s
  {
    hide Unescape, Untag, Inline, EscapeHtml;
    InlineReads(s, "");
    UnescapeEscape(s);
  }

  lemma TagHasOneBracket(level: Level, tag: string)
    requires IsTag(level, tag)
    ensures tag != "" && forall i | 0 < i < |tag| :: tag[i] != '<'
  {
    if IsAnchor(tag) {
      AnchorHasOneBracket(tag);
    }
    hide IsAnchor;
  }

  lemma AnchorIs(tag: string)
    requires IsAnchor(tag)
    ensures var link := tag[|HREF|..|tag| - |REL|]; IsUrl(link) && tag == Anchor(link)
  {
    hide IsUrl, HREF, REL;
    assert tag == tag[..|HREF|] + tag[|HREF|..|tag| - |REL|] + tag[|tag| - |REL|..];
  }

  lemma AroundUrlNoBracket()
    ensures (forall i | 0 < i < |HREF| :: HREF[i] != '<') && (forall i | 0 <= i < |REL| :: REL[i] != '<') && |HREF| > 0
  {
  }

  lemma AnchorHasOneBracket(tag: string)
    requires IsAnchor(tag)
    ensures tag != "" && forall i | 0 < i < |tag| :: tag[i] != '<'
  {
    var link := tag[|HREF|..|tag| - |REL|];
    AnchorIs(tag);
    UrlChars(link);
    AroundUrlNoBracket();
    hide IsUrl, HREF, REL, Anchor, IsAnchor;
    forall i | 0 < i < |tag| ensures tag[i] != '<' {
      AnchorChars(link, i);
      assert |HREF| <= i < |HREF| + |link| ==> UrlTail()(link[i - |HREF|]);
    }
  }

  /** In safe markup every '<' starts an allowlisted tag. */
  lemma {:induction false} EveryBracketIsATag(level: Level, s: string, i: nat)
    requires Safe(level, s) && i < |s| && s[i] == '<'
    ensures TagLength(level, s[i..]) > 0
    decreases |s|
  {
    SafeUnfold(level, s);
    hide IsTag, Safe;
    var n := TagLength(level, s);
    if n > 0 && i == 0 {
      Ends(s);
    } else if n > 0 {
      TagHasOneBracket(level, s[..n]);
      hide TagLength;
      assert forall k | 0 <= k < n :: s[k] == s[..n][k];
      EveryBracketIsATag(level, s[n..], i - n);
      DropTwice(s, n, i);
    } else {
      hide TagLength;
      EveryBracketIsATag(level, s[1..], i - 1);
      DropTwice(s, 1, i);
    }
  }

  // ---- When a rewrite applies -------------------------------------------------------------------

  // Two backquotes at i and j with something, and no backquote, between them.
  predicate CodeSpan(s: string, i: int, j: int) {
    && 0 <= i && i + 1 < j < |s| && s[i] == '`' && s[j] == '`'
    && forall k | i < k < j :: s[k] != '`'
  }

  // Double asterisks at i and j with something, and no asterisk, between them.
  predicate BoldSpan(s: string, i: int, j: int) {
    && 0 <= i && i + 2 < j <= |s| - 2 && s[i..i + 2] == "**" && s[j..j + 2] == "**"
    && forall k | i + 2 <= k < j :: s[k] != '*'
  }

  // A bracketed text from i to j and a parenthesized url from there to k.
  predicate LinkSpan(s: string, i: int, j: int, k: int) {
    && 0 <= i && i + 1 < j && j + 2 <= k < |s| && s[i] == '[' && s[j..j + 2] == "](" && s[k] == ')'
    && IsUrl(s[j + 2..k])
    && forall m | i < m < j :: s[m] != ']'
  }

  ghost predicate HasSpanAt(rule: Rule, s: string, i: int) {
    match rule
    case Code => exists j :: CodeSpan(s, i, j)
    case Bold => exists j :: BoldSpan(s, i, j)
    case Link => exists j, k :: LinkSpan(s, i, j, k)
  }

  ghost predicate HasSpan(rule: Rule, s: string) {
    exists i :: HasSpanAt(rule, s, i)
  }

  lemma {:induction false} UrlSpan(s: string, k: nat)
    requires k < |s| && s[k] == ')' && IsUrl(s[..k])
    ensures UrlLength(s) == k
  {
    var url := s[..k];
    var scheme := if "https://" <= url then 8 else 7;
    assert url[..scheme] == s[..scheme];
    UrlChars(url);
    var tail := s[scheme..];
    forall i | 0 <= i < k - scheme ensures UrlTail()(tail[i]) {
      assert tail[i] == url[scheme + i] && UrlTail()(url[scheme + i]);
    }
    assert tail[k - scheme] == ')';
    SpanAt(UrlTail(), tail, k - scheme);
    assert "https://" <= url <==> "https://" <= s by {
      if "https://" <= s {
        assert |url| > 7 && url[4] == s[4];
      }
    }
  }

  lemma CodeMatches(s: string)
    ensures MatchLength(Code, s) > 0 <==> HasSpanAt(Code, s, 0)
  {
    if MatchLength(Code, s) > 0 {
      var n := Span(Not('`'), s[1..]);
      assert s[n + 1] == s[1..][n];
      assert forall k | 0 < k < n + 1 :: s[k] == s[1..][k - 1];
      assert CodeSpan(s, 0, n + 1);
    }
    if HasSpanAt(Code, s, 0) {
      var j :| CodeSpan(s, 0, j);
      assert s[1..][j - 1] == s[j];
      SpanAt(Not('`'), s[1..], j - 1);
    }
  }

  lemma BoldMatches(s: string)
    ensures MatchLength(Bold, s) > 0 <==> HasSpanAt(Bold, s, 0)
  {
    if MatchLength(Bold, s) > 0 {
      var n := Span(Not('*'), s[2..]);
      assert s[n + 2..n + 4] == s[n + 2..][..2];
      assert s[0..2] == s[..2];
      assert forall k | 2 <= k < n + 2 :: s[k] == s[2..][k - 2];
      assert BoldSpan(s, 0, n + 2);
    }
    if HasSpanAt(Bold, s, 0) {
      var j :| BoldSpan(s, 0, j);
      assert s[0..2] == s[..2];
      assert s[j..j + 2] == s[j..][..2];
      assert s[2..][j - 2] == s[j] == s[j..j + 2][0];
      SpanAt(Not('*'), s[2..], j - 2);
    }
  }

  lemma LinkMatches(s: string)
    ensures MatchLength(Link, s) > 0 <==> HasSpanAt(Link, s, 0)
  {
    if MatchLength(Link, s) > 0 {
      LinkMatchIsSpan(s);
    }
    hide MatchLength;
    if HasSpanAt(Link, s, 0) {
      var j, k :| LinkSpan(s, 0, j, k);
      SpanIsLinkMatch(s, j, k);
    }
  }

  lemma LinkMatchIsSpan(s: string)
    requires MatchLength(Link, s) > 0
    ensures HasSpanAt(Link, s, 0)
  {
    hide UrlLength, IsUrl;
    var n := Span(Not(']'), s[1..]);
    var u := UrlLength(s[n + 3..]);
    assert s[n + 1..n + 3] == s[n + 1..][..2];
    UrlPrefix(s[n + 3..]);
    assert s[n + 3..n + u + 3] == s[n + 3..][..u];
    assert forall k | 0 < k < n + 1 :: s[k] == s[1..][k - 1];
    assert LinkSpan(s, 0, n + 1, n + u + 3);
  }

  lemma SpanIsLinkMatch(s: string, j: int, k: int)
    requires LinkSpan(s, 0, j, k)
    ensures MatchLength(Link, s) > 0
  {
    hide UrlLength, IsUrl;
    Slice(s, j, j + 2);
    assert s[1..][j - 1] == s[j] == s[j..j + 2][0];
    assert forall i | 0 <= i < j - 1 :: s[1..][i] == s[i + 1];
    SpanAt(Not(']'), s[1..], j - 1);
    Slice(s, j + 2, k);
    UrlSpan(s[j + 2..], k - j - 2);
    PositiveUrl(s[j + 2..k]);
  }

  lemma PositiveUrl(url: string)
    requires IsUrl(url)
    ensures |url| > 0
  {
  }

  lemma SpanShifts(rule: Rule, s: string, i: int)
    requires s != "" && i > 0
    ensures HasSpanAt(rule, s, i) <==> HasSpanAt(rule, s[1..], i - 1)
  {
    hide UrlLength, IsUrl;
    var t := s[1..];
    assert forall k | 0 < k < |s| :: s[k] == t[k - 1];
    assert forall k | 0 <= k < |t| :: t[k] == s[k + 1];
    assert forall a, b | 0 < a <= b <= |s| :: s[a..b] == t[a - 1..b - 1];
    match rule
    case Code =>
      forall j ensures CodeSpan(s, i, j) <==> CodeSpan(t, i - 1, j - 1) {
      }
      if HasSpanAt(Code, t, i - 1) {
        var j :| CodeSpan(t, i - 1, j);
        assert CodeSpan(s, i, j + 1);
      }
    case Bold =>
      forall j ensures BoldSpan(s, i, j) <==> BoldSpan(t, i - 1, j - 1) {
      }
      if HasSpanAt(Bold, t, i - 1) {
        var j :| BoldSpan(t, i - 1, j);
        assert BoldSpan(s, i, j + 1);
      }
    case Link =>
      forall j, k ensures LinkSpan(s, i, j, k) <==> LinkSpan(t, i - 1, j - 1, k - 1) {
      }
      if HasSpanAt(Link, t, i - 1) {
        var j, k :| LinkSpan(t, i - 1, j, k);
        assert LinkSpan(s, i, j + 1, k + 1);
      }
  }

  /** A rewrite leaves a text alone if and only if the text holds no span of its kind. */
  lemma {:induction false} RewriteAppliesIff(rule: Rule, s: string)
    ensures |Rewrite(rule, s)| >= |s|
    ensures |Rewrite(rule, s)| == |s| <==> Rewrite(rule, s) == s
    ensures Rewrite(rule, s) == s <==> !HasSpan(rule, s)
    decreases |s|
  {
    hide MatchLength, Emit, HasSpanAt;
    if s == "" {
      NoSpanInNothing(rule);
    } else {
      MatchesAtStart(rule, s);
      var n := MatchLength(rule, s);
      if n > 0 {
        EmitGrows(rule, s);
        RewriteAppliesIff(rule, s[n..]);
      } else {
        RewriteAppliesIff(rule, s[1..]);
        assert s == [s[0]] + s[1..];
        if HasSpan(rule, s) {
          var i :| HasSpanAt(rule, s, i);
          SpanNotNegative(rule, s, i);
          SpanShifts(rule, s, i);
        }
        if HasSpan(rule, s[1..]) {
          var i :| HasSpanAt(rule, s[1..], i);
          SpanNotNegative(rule, s[1..], i);
          SpanShifts(rule, s, i + 1);
        }
      }
    }
  }

  lemma NoSpanInNothing(rule: Rule)
    ensures !HasSpan(rule, "")
  {
  }

  lemma SpanNotNegative(rule: Rule, s: string, i: int)
    requires HasSpanAt(rule, s, i)
    ensures i >= 0
  {
  }

  lemma MatchesAtStart(rule: Rule, s: string)
    ensures MatchLength(rule, s) > 0 <==> HasSpanAt(rule, s, 0)
  {
    hide MatchLength, HasSpanAt;
    match rule
    case Code => CodeMatches(s);
    case Bold => BoldMatches(s);
    case Link => LinkMatches(s);
  }

  lemma EmitGrows(rule: Rule, s: string)
    requires MatchLength(rule, s) > 0
    ensures |Emit(rule, s)| > MatchLength(rule, s)
  {
    match rule
    case Code => var mid, rest := CodeParts(s);
    case Bold => var mid, rest := BoldParts(s);
    case Link => var text, link, rest := LinkParts(s);
  }

  /** The markup of a text is its bare escape if and only if no pass finds a span. */
  lemma InlineIsEscapeIff(s: string)
    ensures var e := EscapeHtml(s);
      Inline(s) == e <==> !HasSpan(Code, e) && !HasSpan(Bold, e) && !HasSpan(Link, e)
  {
    hide Rewrite, EscapeHtml, HasSpan;
    var e := EscapeHtml(s);
    var code := Rewrite(Code, e);
    var bold := Rewrite(Bold, code);
    RewriteAppliesIff(Code, e);
    RewriteAppliesIff(Bold, code);
    RewriteAppliesIff(Link, bold);
  }
}

/** What the link rewrite of apps/browser-demo/src/chatMarkdown.ts makes of a url as it was typed: the rewrite sees
    the escaped url, so entities can end up in an href. */
module MarkdownLinks {
  import opened MarkdownInline
  import opened Sequences
  import opened Text

  predicate Special(c: char) {
    c == '&' || c == '<' || c == '>' || c == '"' || c == '\''
  }

  function SchemeLength(u: string): nat {
    if "https://" <= u then 8 else if "http://" <= u then 7 else 0
  }

  predicate TailChar(c: char) {
    !IsSpace(c) && c != ')'
  }

  // A url as typed: quotes, angle brackets and ampersands are no obstacle.
  predicate IsTypedUrl(u: string) {
    0 < SchemeLength(u) < |u| && forall i | SchemeLength(u) <= i < |u| :: TailChar(u[i])
  }

  // ---- Escaping changes exactly the texts with special characters ---------------------------------

  lemma {:induction false} EntitiesGrow(s: string)
    ensures |Entities(s)| >= |s|
    ensures |Entities(s)| == |s| ==> forall i | 0 <= i < |s| :: !Special(s[i])
  {
    if s != "" {
      EntitiesGrow(s[1..]);
      assert forall i | 0 < i < |s| :: s[i] == s[1..][i - 1];
    }
  }

  lemma {:induction false} EntitiesOfPlain(s: string)
    requires forall i | 0 <= i < |s| :: !Special(s[i])
    ensures Entities(s) == s
  {
    if s != "" {
      EntitiesOfPlain(s[1..]);
      FirstThenRest(s);
    }
  }

  /** Escaping changes a text if and only if it holds one of the five characters. */
  lemma EscapeChangesIff(s: string)
    ensures EscapeHtml(s) != s <==> exists i | 0 <= i < |s| :: Special(s[i])
  {
    EscapeIsPerCharacter(s);
    hide EscapeHtml, Entities;
    if forall i | 0 <= i < |s| :: !Special(s[i]) {
      EntitiesOfPlain(s);
    } else {
      EntitiesGrow(s);
    }
  }

  // ---- Urls before and after escaping --------------------------------------------------------------

  lemma EntitiesConcat(s: string, t: string)
    ensures Entities(s + t) == Entities(s) + Entities(t)
  {
    EscapeConcat(s, t);
    EscapeIsPerCharacter(s);
    EscapeIsPerCharacter(t);
    EscapeIsPerCharacter(s + t);
  }

  // Escaping neither adds nor removes a prefix without special characters.
  lemma PrefixThroughEntities(w: string, s: string)
    requires forall i | 0 <= i < |w| :: !Special(w[i])
    ensures w <= Entities(s) <==> w <= s
    ensures w <= s ==> Entities(s) == w + Entities(s[|w|..])
  {
    hide Entities;
    if w <= s {
      assert s == w + s[|w|..];
      EntitiesConcat(w, s[|w|..]);
      EntitiesOfPlain(w);
    }
    if w <= Entities(s) {
      PrefixBack(w, s);
    }
  }

  lemma {:induction false} PrefixBack(w: string, s: string)
    requires w <= Entities(s) && forall i | 0 <= i < |w| :: !Special(w[i])
    ensures w <= s
  {
    if w != "" {
      assert s != "";
      assert Entities(s) == Entity(s[0]) + Entities(s[1..]);
      assert s[0] == w[0] == Entities(s)[0];
      assert Entities(s)[1..] == Entities(s[1..]);
      assert w[1..] <= Entities(s[1..]) by {
        assert w[1..] == Entities(s)[1..][..|w| - 1];
      }
      PrefixBack(w[1..], s[1..]);
      FirstThenRest(w);
      FirstThenRest(s);
    }
  }

  lemma {:induction false} TailThroughEntities(t: string)
    ensures (forall i | 0 <= i < |Entities(t)| :: UrlTail()(Entities(t)[i])) <==> forall i | 0 <= i < |t| :: TailChar(t[i])
  {
    if t != "" {
      var rest := t[1..];
      TailThroughEntities(rest);
      EntityTail(t[0]);
      AllInConcat(UrlTail(), Entity(t[0]), Entities(rest));
      assert Entities(t) == Entity(t[0]) + Entities(rest);
      hide Entities, Entity, TailChar;
      assert forall i | 0 <= i < |rest| :: rest[i] == t[i + 1];
      assert forall i | 0 < i < |t| :: t[i] == rest[i - 1];
    }
  }

  lemma AllInConcat(p: char -> bool, a: string, b: string)
    ensures (forall i | 0 <= i < |a + b| :: p((a + b)[i]))
      <==> (forall i | 0 <= i < |a| :: p(a[i])) && (forall i | 0 <= i < |b| :: p(b[i]))
  {
    var s := a + b;
    assert forall i | 0 <= i < |a| :: s[i] == a[i];
    assert forall i | 0 <= i < |b| :: s[|a| + i] == b[i];
  }

  lemma EntityTail(c: char)
    ensures (forall i | 0 <= i < |Entity(c)| :: UrlTail()(Entity(c)[i])) <==> TailChar(c)
  {
    if !Special(c) {
      assert Entity(c) == [c];
      assert Entity(c)[0] == c;
    }
  }

  lemma AllSpan(p: char -> bool, s: string)
    ensures Span(p, s) == |s| <==> forall i | 0 <= i < |s| :: p(s[i])
  {
  }

  lemma UrlIsTailed(url: string)
    ensures IsUrl(url) <==>
      && 0 < SchemeLength(url) < |url|
      && forall i | 0 <= i < |url[SchemeLength(url)..]| :: UrlTail()(url[SchemeLength(url)..][i])
  {
    AllSpan(UrlTail(), url[SchemeLength(url)..]);
  }

  lemma EscapedTailIff(t: string)
    ensures (Entities(t) != "" && forall i | 0 <= i < |Entities(t)| :: UrlTail()(Entities(t)[i]))
      <==> t != "" && forall i | 0 <= i < |t| :: TailChar(t[i])
  {
    NoEntities(t);
    TailThroughEntities(t);
  }

  lemma TypedTail(u: string, n: nat)
    requires n <= |u|
    ensures (forall i | n <= i < |u| :: TailChar(u[i])) <==> forall i | 0 <= i < |u[n..]| :: TailChar(u[n..][i])
  {
    hide TailChar;
    assert forall i | 0 <= i < |u[n..]| :: u[n..][i] == u[n + i];
    assert forall i | n <= i < |u| :: u[i] == u[n..][i - n];
  }

  lemma PrefixTail(w: string, s: string)
    requires w <= s && forall i | 0 <= i < |w| :: !Special(w[i])
    ensures |w| <= |Entities(s)| && Entities(s)[|w|..] == Entities(s[|w|..])
  {
    hide Special, Entities;
    PrefixThroughEntities(w, s);
    AfterPrefix(w, Entities(s[|w|..]));
  }

  lemma AfterPrefix(w: string, rest: string)
    ensures (w + rest)[|w|..] == rest
  {
  }

  lemma PlainSchemes()
    ensures forall i | 0 <= i < |"https://"| :: !Special("https://"[i])
    ensures forall i | 0 <= i < |"http://"| :: !Special("http://"[i])
  {
  }

  lemma SchemeThroughEntities(u: string)
    ensures var n := SchemeLength(u);
      SchemeLength(Entities(u)) == n <= |u| && (n > 0 ==> n <= |Entities(u)| && Entities(u)[n..] == Entities(u[n..]))
  {
    hide Entities, Special;
    PlainSchemes();
    PrefixThroughEntities("https://", u);
    PrefixThroughEntities("http://", u);
    if "https://" <= u {
      PrefixTail("https://", u);
    } else if "http://" <= u {
      PrefixTail("http://", u);
    }
  }

  /** What passes for a url once escaped is what was typed as one. */
  lemma EscapedUrlIff(u: string)
    ensures IsUrl(EscapeHtml(u)) <==> IsTypedUrl(u)
  {
    EscapeIsPerCharacter(u);
    hide EscapeHtml, IsUrl, Entities, SchemeLength, TailChar, UrlTail;
    var n := SchemeLength(u);
    SchemeThroughEntities(u);
    UrlIsTailed(Entities(u));
    TypedTail(u, n);
    if n > 0 {
      EscapedTailIff(u[n..]);
    }
  }

  lemma NoEntities(s: string)
    ensures Entities(s) == "" <==> s == ""
  {
  }

  // ---- Links ------------------------------------------------------------------------------------------

  lemma {:induction false} AbsentThroughEntities(s: string, c: char)
    requires c == ']' || c == '`' || c == '*'
    ensures c in Entities(s) <==> c in s
  {
    if s != "" {
      AbsentThroughEntities(s[1..], c);
      EntityHolds(s[0], c);
      FirstThenRest(s);
      assert Entities(s) == Entity(s[0]) + Entities(s[1..]);
    }
  }

  lemma EntityHolds(c: char, d: char)
    requires d == ']' || d == '`' || d == '*'
    ensures d in Entity(c) <==> d == c
  {
  }

  lemma LinkPieces(text: string, url: string, rest: string)
    ensures var s, n, u := "[" + text + "](" + url + ")" + rest, |text|, |url|;
      && |s| == n + u + 4 + |rest| && s[0] == '[' && s[1..] == text + ("](" + url + ")" + rest)
      && s[n + 1..] == "](" + (url + ")" + rest) && s[n + 3..] == url + ")" + rest
      && s[n + u + 3] == ')' && s[n + u + 4..] == rest && s[1..n + 1] == text && s[n + 3..n + u + 3] == url
  {
  }

  lemma TextEnds(text: string, after: string)
    requires ']' !in text && after != "" && after[0] == ']'
    ensures Span(Not(']'), text + after) == |text|
  {
    var s := text + after;
    assert s[|text|] == ']' && forall i | 0 <= i < |text| :: s[i] == text[i];
    SpanAt(Not(']'), s, |text|);
  }

  lemma UrlEnds(url: string, rest: string)
    requires IsUrl(url)
    ensures UrlLength(url + ")" + rest) == |url| > 0
  {
    hide UrlLength, IsUrl;
    var s := url + ")" + rest;
    assert s[..|url|] == url && s[|url|] == ')';
    UrlSpan(s, |url|);
    PositiveUrl(url);
  }

  lemma LinkMatch(text: string, url: string, rest: string)
    requires text != "" && ']' !in text && IsUrl(url)
    ensures var s := "[" + text + "](" + url + ")" + rest;
      && MatchLength(Link, s) == |text| + |url| + 4 && s[MatchLength(Link, s)..] == rest
      && Emit(Link, s) == Anchor(url) + text + "</a>"
  {
    hide UrlLength, IsUrl, Anchor, Span;
    LinkPieces(text, url, rest);
    assert ("](" + url + ")" + rest)[0] == ']';
    TextEnds(text, "](" + url + ")" + rest);
    UrlEnds(url, rest);
    var s := "[" + text + "](" + url + ")" + rest;
    assert "[" <= s && "](" <= s[|text| + 1..];
  }

  /** A link is rendered with the escaped url as its href: for every typed url, whatever quotes, angle brackets or
      ampersands it holds, and exactly for these. */
  lemma HrefIsTheEscapedUrl(text: string, u: string, rest: string)
    requires text != "" && ']' !in text && IsTypedUrl(u)
    requires var e := EscapeHtml("[" + text + "](" + u + ")" + rest); !HasSpan(Code, e) && !HasSpan(Bold, e)
    ensures Inline("[" + text + "](" + u + ")" + rest)
      == Anchor(EscapeHtml(u)) + EscapeHtml(text) + "</a>" + Rewrite(Link, EscapeHtml(rest))
    ensures EscapeHtml(u) != u <==> exists i | 0 <= i < |u| :: Special(u[i])
  {
    var s := "[" + text + "](" + u + ")" + rest;
    var e := "[" + EscapeHtml(text) + "](" + EscapeHtml(u) + ")" + EscapeHtml(rest);
    EscapedLink(text, u, rest);
    EscapeChangesIff(u);
    EscapedUrlIff(u);
    EscapeIsPerCharacter(text);
    AbsentThroughEntities(text, ']');
    NoEntities(text);
    RewriteAppliesIff(Code, e);
    RewriteAppliesIff(Bold, e);
    hide EscapeHtml, HasSpan, IsUrl, MatchLength, Emit, Anchor, IsTypedUrl;
    LinkMatch(EscapeHtml(text), EscapeHtml(u), EscapeHtml(rest));
    assert e != "" by {
      assert e[0] == '[';
    }
  }

  lemma EscapedLink(text: string, u: string, rest: string)
    ensures EscapeHtml("[" + text + "](" + u + ")" + rest)
      == "[" + EscapeHtml(text) + "](" + EscapeHtml(u) + ")" + EscapeHtml(rest)
  {
    EscapeIsPerCharacter("[");
    EscapeIsPerCharacter("](");
    EscapeIsPerCharacter(")");
    EntitiesOfPlain("[");
    EntitiesOfPlain("](");
    EntitiesOfPlain(")");
    hide EscapeHtml, Entities;
    EscapeConcat("[", text);
    EscapeConcat("[" + text, "](");
    EscapeConcat("[" + text + "](", u);
    EscapeConcat("[" + text + "](" + u, ")");
    EscapeConcat("[" + text + "](" + u + ")", rest);
  }

  lemma NoCodeOrBold(s: string)
    requires '`' !in s && '*' !in s
    ensures !HasSpan(Code, EscapeHtml(s)) && !HasSpan(Bold, EscapeHtml(s))
  {
    EscapeIsPerCharacter(s);
    AbsentThroughEntities(s, '`');
    AbsentThroughEntities(s, '*');
    hide EscapeHtml;
    var e := EscapeHtml(s);
    forall i ensures !HasSpanAt(Code, e, i) && !HasSpanAt(Bold, e, i) {
      assert forall j :: !CodeSpan(e, i, j);
      forall j ensures !BoldSpan(e, i, j) {
        if 0 <= i && i + 2 <= |e| {
          assert e[i..i + 2][0] == e[i] && "**"[0] == '*';
        }
      }
    }
  }

  const QUOTED := "http://" + "x\"y"

  lemma SchemeThenTail(t: string)
    requires t != "" && forall i | 0 <= i < |t| :: TailChar(t[i])
    ensures IsTypedUrl("http://" + t)
  {
    hide IsSpace;
    var u := "http://" + t;
    assert u[4] == ':' && "https://"[4] == 's';
    assert forall i | 7 <= i < |u| :: u[i] == t[i - 7];
  }

  lemma QuotedIsTyped()
    ensures IsTypedUrl(QUOTED) && '`' !in QUOTED && '*' !in QUOTED
  {
    var t := "x\"y";
    assert t[0] == 'x' && t[1] == '"' && t[2] == 'y';
    hide IsTypedUrl;
    SchemeThenTail(t);
  }

  lemma QuotedEscaped()
    ensures EscapeHtml(QUOTED) == "http://" + ("x" + "&quot;" + "y")
  {
    EscapeIsPerCharacter(QUOTED);
    PlainScheme();
    EntityAlone('x');
    EntityAlone('"');
    EntityAlone('y');
    hide Entities, EscapeHtml;
    EntitiesConcat("http://", "x\"y");
    assert "x\"y" == "x" + "\"" + "y";
    EntitiesConcat("x" + "\"", "y");
    EntitiesConcat("x", "\"");
  }

  lemma PlainScheme()
    ensures Entities("http://") == "http://"
  {
    EntitiesOfPlain("http://");
  }

  lemma EntityAlone(c: char)
    ensures Entities([c]) == Entity(c)
  {
    One(c);
    assert Entities("") == "";
    NoneThen(Entity(c));
  }

  lemma ShortLink(u: string)
    requires '`' !in u && '*' !in u
    ensures "[a](" + u + ")" == "[" + "a" + "](" + u + ")" + ""
    ensures '`' !in "[a](" + u + ")" && '*' !in "[a](" + u + ")"
    ensures "a" != "" && ']' !in "a" && EscapeHtml("a") == "a" && Rewrite(Link, EscapeHtml("")) == ""
  {
    EscapeIsPerCharacter("a");
    EntityAlone('a');
    EscapeIsPerCharacter("");
  }

  /** An entity in an href: the quote of this url becomes one. */
  lemma QuoteEntersHref()
    ensures Inline("[a](" + QUOTED + ")") == Anchor("http://" + ("x" + "&quot;" + "y")) + "a" + "</a>"
  {
    QuotedIsTyped();
    QuotedEscaped();
    hide *;
    ShortLink(QUOTED);
    NoCodeOrBold("[a](" + QUOTED + ")");
    HrefIsTheEscapedUrl("a", QUOTED, "");
    NoneThen(Anchor("http://" + ("x" + "&quot;" + "y")) + "a" + "</a>");
  }
}

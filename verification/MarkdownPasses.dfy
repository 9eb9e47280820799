/** What each rewrite of the inline markdown (`inline` in apps/browser-demo/src/chatMarkdown.ts) does, span by span: these
    equations leave no choice for its result. */
module MarkdownPasses {
  import opened MarkdownInline
  import opened Sequences
  import opened Text

  /** A url is the scheme and something more, with no white space, parenthesis, quote or angle bracket in it. */
  lemma UrlIff(url: string)
    ensures IsUrl(url) <==>
      var scheme := if "https://" <= url then 8 else if "http://" <= url then 7 else |url|;
      scheme < |url| && forall i | scheme <= i < |url| :: !IsSpace(url[i]) && url[i] !in ")\"'<>"
  {
    hide IsSpace;
    var scheme := if "https://" <= url then 8 else if "http://" <= url then 7 else |url|;
    var tail := url[scheme..];
    forall c ensures UrlTail()(c) <==> !IsSpace(c) && c !in ")\"'<>" {
    }
    if IsUrl(url) {
      UrlChars(url);
      assert forall i | scheme <= i < |url| :: UrlTail()(url[i]);
    }
    if scheme < |url| && forall i | scheme <= i < |url| :: !IsSpace(url[i]) && url[i] !in ")\"'<>" {
      assert forall i | 0 <= i < |tail| :: tail[i] == url[scheme + i] && UrlTail()(tail[i]);
      assert Span(UrlTail(), tail) == |tail|;
    }
  }

  lemma RewriteUnfold(rule: Rule, s: string)
    ensures Rewrite(rule, "") == ""
    ensures s != "" && MatchLength(rule, s) > 0 ==>
      Rewrite(rule, s) == Emit(rule, s) + Rewrite(rule, s[MatchLength(rule, s)..])
    ensures s != "" && MatchLength(rule, s) == 0 ==> Rewrite(rule, s) == [s[0]] + Rewrite(rule, s[1..])
  {
    hide MatchLength, Emit;
  }

  /** Where no span starts the rewrite copies a character and goes on. */
  lemma CharacterStays(rule: Rule, s: string)
    requires s != "" && !HasSpanAt(rule, s, 0)
    ensures Rewrite(rule, s) == [s[0]] + Rewrite(rule, s[1..])
  {
    MatchesAtStart(rule, s);
    RewriteUnfold(rule, s);
    hide *;
  }

  lemma CodeSpanIs(s: string, j: nat)
    requires CodeSpan(s, 0, j)
    ensures MatchLength(Code, s) == j + 1 && Emit(Code, s) == "<code>" + s[1..j] + "</code>"
  {
    assert s[1..][j - 1] == s[j];
    SpanAt(Not('`'), s[1..], j - 1);
  }

  /** A code span is its content between tags, and the rewrite goes on after it. */
  lemma CodeIsTagged(s: string, j: nat)
    requires CodeSpan(s, 0, j)
    ensures Rewrite(Code, s) == "<code>" + s[1..j] + "</code>" + Rewrite(Code, s[j + 1..])
  {
    CodeSpanIs(s, j);
    RewriteUnfold(Code, s);
    hide Rewrite, MatchLength, Emit;
  }

  lemma BoldSpanIs(s: string, j: nat)
    requires BoldSpan(s, 0, j)
    ensures MatchLength(Bold, s) == j + 2 && Emit(Bold, s) == "<strong>" + s[2..j] + "</strong>"
  {
    assert s[0..2] == s[..2];
    assert s[j..j + 2] == s[j..][..2];
    assert s[2..][j - 2] == s[j] == s[j..j + 2][0];
    SpanAt(Not('*'), s[2..], j - 2);
  }

  /** So is a bold span. */
  lemma BoldIsTagged(s: string, j: nat)
    requires BoldSpan(s, 0, j)
    ensures Rewrite(Bold, s) == "<strong>" + s[2..j] + "</strong>" + Rewrite(Bold, s[j + 2..])
  {
    BoldSpanIs(s, j);
    RewriteUnfold(Bold, s);
    hide Rewrite, MatchLength, Emit;
  }

  lemma LinkSpanIs(s: string, j: nat, k: nat)
    requires LinkSpan(s, 0, j, k)
    ensures MatchLength(Link, s) == k + 1 && Emit(Link, s) == Anchor(s[j + 2..k]) + s[1..j] + "</a>"
  {
    hide UrlLength, IsUrl, Anchor;
    Slice(s, j, j + 2);
    assert s[1..][j - 1] == s[j] == s[j..j + 2][0];
    assert forall i | 0 <= i < j - 1 :: s[1..][i] == s[i + 1];
    SpanAt(Not(']'), s[1..], j - 1);
    Slice(s, j + 2, k);
    UrlSpan(s[j + 2..], k - j - 2);
    PositiveUrl(s[j + 2..k]);
  }

  /** And a link: its text becomes an anchor that opens the url in a new tab. */
  lemma LinkIsAnchored(s: string, j: nat, k: nat)
    requires LinkSpan(s, 0, j, k)
    ensures Rewrite(Link, s) ==
      "<a href=\"" + s[j + 2..k] + "\" target=\"_blank\" rel=\"noopener noreferrer\">" + s[1..j] + "</a>"
      + Rewrite(Link, s[k + 1..])
  {
    LinkSpanIs(s, j, k);
    RewriteUnfold(Link, s);
    hide Rewrite, MatchLength, Emit, IsUrl;
  }

  /** One span at most starts at a place, so nothing is left open. */
  lemma OneSpanStarts(s: string, j: nat, k: nat, j': nat, k': nat)
    ensures CodeSpan(s, 0, j) && CodeSpan(s, 0, j') ==> j == j'
    ensures BoldSpan(s, 0, j) && BoldSpan(s, 0, j') ==> j == j'
    ensures LinkSpan(s, 0, j, k) && LinkSpan(s, 0, j', k') ==> j == j' && k == k'
  {
    if CodeSpan(s, 0, j) && CodeSpan(s, 0, j') {
      CodeSpanIs(s, j);
      CodeSpanIs(s, j');
    }
    if BoldSpan(s, 0, j) && BoldSpan(s, 0, j') {
      BoldSpanIs(s, j);
      BoldSpanIs(s, j');
    }
    if LinkSpan(s, 0, j, k) && LinkSpan(s, 0, j', k') {
      LinkSpanIs(s, j, k);
      LinkSpanIs(s, j', k');
      hide IsUrl;
      assert s[j..j + 2][0] == s[j] && s[j'..j' + 2][0] == s[j'];
    }
  }
}

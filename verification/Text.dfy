/** String operations the source takes from JavaScript: trim, and numerals in a radix. */
module Text {
  // White space and line terminators, the characters of `\s` and of trim().
  predicate IsSpace(c: char) {
    || '\t' <= c <= '\r' || c == ' ' || c == '\U{00a0}' || c == '\U{1680}' || '\U{2000}' <= c <= '\U{200a}'
    || c == '\U{2028}' || c == '\U{2029}' || c == '\U{202f}' || c == '\U{205f}' || c == '\U{3000}' || c == '\U{feff}'
  }

  // The 25 of them one by one: those of ASCII, then the others.
  lemma SpaceIff(c: char)
    ensures IsSpace(c) <==>
      || c in "\t\n\U{000b}\U{000c}\r "
      || c in "\U{00a0}\U{1680}\U{2000}\U{2001}\U{2002}\U{2003}\U{2004}\U{2005}\U{2006}\U{2007}\U{2008}\U{2009}\U{200a}"
      || c in "\U{2028}\U{2029}\U{202f}\U{205f}\U{3000}\U{feff}"
  {
    var n := c as int;
    assert 9 <= n <= 13 ==> n in {9, 10, 11, 12, 13};
    assert 0x2000 <= n <= 0x200a ==>
      n in {0x2000, 0x2001, 0x2002, 0x2003, 0x2004, 0x2005, 0x2006, 0x2007, 0x2008, 0x2009, 0x200a};
  }

  predicate IsDigit(c: char) {
    '0' <= c <= '9'
  }

  function TrimStart(s: string): (r: string)
    ensures |r| <= |s|
    ensures r != "" ==> !IsSpace(r[0])
  {
    if s != "" && IsSpace(s[0]) then TrimStart(s[1..]) else s
  }

  function TrimEnd(s: string): (r: string)
    ensures |r| <= |s| && (r != "" ==> r[0] == s[0])
    ensures r != "" ==> !IsSpace(r[|r| - 1])
  {
    if s != "" && IsSpace(s[|s| - 1]) then TrimEnd(s[..|s| - 1]) else s
  }

  function Trim(s: string): (r: string)
    ensures r != "" ==> !IsSpace(r[0]) && !IsSpace(r[|r| - 1])
  {
    TrimEnd(TrimStart(s))
  }

  predicate IsBlank(s: string) {
    Trim(s) == ""
  }

  // The maximal prefix of characters that satisfy `p`.
  function Span(p: char -> bool, s: string): (n: nat)
    ensures n <= |s|
    ensures forall i | 0 <= i < n :: p(s[i])
    ensures n < |s| ==> !p(s[n])
  {
    if s != "" && p(s[0]) then 1 + Span(p, s[1..]) else 0
  }

  function Not(c: char): char -> bool {
    (x: char) => x != c
  }

  lemma {:induction false} SpanAt(p: char -> bool, s: string, k: nat)
    requires k < |s| && !p(s[k]) && forall i | 0 <= i < k :: p(s[i])
    ensures Span(p, s) == k
  {
    if k > 0 {
      SpanAt(p, s[1..], k - 1);
    }
  }

  // A separator that the first parts do not contain splits one way only.
  lemma SplitsAtFirst(sep: char, a: string, b: string, c: string, d: string)
    requires a + [sep] + b == c + [sep] + d && sep !in a && sep !in c
    ensures a == c && b == d
  {
    var s := a + [sep] + b;
    SpanAt(Not(sep), s, |a|);
    SpanAt(Not(sep), s, |c|);
    assert s[..|a|] == a && s[..|c|] == c && s[|a| + 1..] == b && s[|c| + 1..] == d;
  }

  // Nor does one that the last parts do not contain.
  lemma {:induction false} SplitsAtLast(sep: char, a: string, b: string, c: string, d: string)
    requires a + [sep] + b == c + [sep] + d && sep !in b && sep !in d
    ensures a == c && b == d
    decreases |b|
  {
    var s := a + [sep] + b;
    assert b != "" ==> s[|s| - 1] == b[|b| - 1];
    assert d != "" ==> s[|s| - 1] == d[|d| - 1];
    if b != "" && d != "" {
      assert s[..|s| - 1] == a + [sep] + b[..|b| - 1] == c + [sep] + d[..|d| - 1];
      SplitsAtLast(sep, a, b[..|b| - 1], c, d[..|d| - 1]);
      assert b == b[..|b| - 1] + [b[|b| - 1]] && d == d[..|d| - 1] + [d[|d| - 1]];
    } else {
      assert b == "" && d == "" by {
        assert b == "" ==> s[|s| - 1] == sep;
        assert d == "" ==> s[|s| - 1] == sep;
      }
      assert s[..|s| - 1] == a == c;
    }
  }

  // A text that starts and ends with something else than space is its own trimming.
  lemma TrimFixed(s: string)
    requires s == "" || (!IsSpace(s[0]) && !IsSpace(s[|s| - 1]))
    ensures Trim(s) == s
  {
  }

  predicate AllSpace(s: string) {
    forall c | c in s :: IsSpace(c)
  }

  lemma {:induction false} TrimStartCuts(s: string) returns (before: string)
    ensures s == before + TrimStart(s) && AllSpace(before)
  {
    if s != "" && IsSpace(s[0]) {
      var rest := TrimStartCuts(s[1..]);
      before := [s[0]] + rest;
    } else {
      before := "";
    }
  }

  lemma {:induction false} TrimEndCuts(s: string) returns (after: string)
    ensures s == TrimEnd(s) + after && AllSpace(after)
  {
    if s != "" && IsSpace(s[|s| - 1]) {
      var rest := TrimEndCuts(s[..|s| - 1]);
      after := rest + [s[|s| - 1]];
      assert s == s[..|s| - 1] + [s[|s| - 1]];
    } else {
      after := "";
    }
  }

  // Trimming cuts off space only.
  lemma TrimCutsSpace(s: string) returns (before: string, after: string)
    ensures s == before + Trim(s) + after && AllSpace(before) && AllSpace(after)
  {
    before := TrimStartCuts(s);
    after := TrimEndCuts(TrimStart(s));
    assert before + (TrimEnd(TrimStart(s)) + after) == before + TrimEnd(TrimStart(s)) + after;
  }

  lemma BlankIsSpace(s: string)
    ensures IsBlank(s) <==> AllSpace(s)
  {
    var before, after := TrimCutsSpace(s);
    if Trim(s) != "" {
      assert s[|before|] == Trim(s)[0];
    }
  }

  // A text between space is what trimming leaves.
  lemma TrimOf(before: string, s: string, after: string)
    requires AllSpace(before) && AllSpace(after) && s != "" && !IsSpace(s[0]) && !IsSpace(s[|s| - 1])
    ensures Trim(before + s + after) == s
  {
    assert before + s + after == before + (s + after);
    TrimStartOf(before, s + after);
    TrimEndOf(s, after);
  }

  lemma {:induction false} TrimStartOf(before: string, s: string)
    requires AllSpace(before) && s != "" && !IsSpace(s[0])
    ensures TrimStart(before + s) == s
  {
    if before == "" {
      assert before + s == s;
    } else {
      assert (before + s)[1..] == before[1..] + s;
      TrimStartOf(before[1..], s);
    }
  }

  lemma {:induction false} TrimEndOf(s: string, after: string)
    requires AllSpace(after) && s != "" && !IsSpace(s[|s| - 1])
    ensures TrimEnd(s + after) == s
  {
    if after == "" {
      assert s + after == s;
    } else {
      var t := s + after;
      assert t[..|t| - 1] == s + after[..|after| - 1];
      TrimEndOf(s, after[..|after| - 1]);
    }
  }

  lemma TrimTwice(s: string)
    ensures Trim(Trim(s)) == Trim(s)
  {
    TrimFixed(Trim(s));
  }

  // ---- Numerals -------------------------------------------------------------------

  predicate ValidRadix(radix: int) {
    radix == 10 || radix == 36
  }

  function Quotient(n: nat, radix: int): nat
    requires ValidRadix(radix)
  {
    if radix == 10 then n / 10 else n / 36
  }

  function Remainder(n: nat, radix: int): nat
    requires ValidRadix(radix)
  {
    if radix == 10 then n % 10 else n % 36
  }

  function Shifted(q: nat, radix: int): nat
    requires ValidRadix(radix)
  {
    if radix == 10 then q * 10 else q * 36
  }

  function DigitChar(d: nat): (c: char)
    requires d < 36
    ensures IsDigit(c) || 'a' <= c <= 'z'
    ensures !IsSpace(c)
    ensures d < 10 ==> IsDigit(c)
  {
    if d < 10 then ('0' as int + d) as char else ('a' as int + d - 10) as char
  }

  function DigitValue(c: char): nat {
    if IsDigit(c) then c as int - '0' as int
    else if 'a' <= c <= 'z' then c as int - 'a' as int + 10 else 0
  }

  predicate Numeral(s: string, radix: int) {
    && s != ""
    && (forall c | c in s :: (IsDigit(c) || 'a' <= c <= 'z') && !IsSpace(c))
    && (radix == 10 ==> forall c | c in s :: IsDigit(c))
  }

  // n.toString(radix)
  function Print(n: nat, radix: int): (s: string)
    requires ValidRadix(radix)
    ensures Numeral(s, radix)
    decreases n
  {
    if n < radix then [DigitChar(n)] else Print(Quotient(n, radix), radix) + [DigitChar(Remainder(n, radix))]
  }

  // BigInt of a digit string; the empty string counts as zero.
  function Parse(s: string, radix: int): nat
    requires ValidRadix(radix)
  {
    if s == "" then 0 else Shifted(Parse(s[..|s| - 1], radix), radix) + DigitValue(s[|s| - 1])
  }

  lemma ParseLast(s: string, c: char, radix: int)
    requires ValidRadix(radix)
    ensures Parse(s + [c], radix) == Shifted(Parse(s, radix), radix) + DigitValue(c)
  {
    assert (s + [c])[..|s|] == s;
  }

  lemma DigitRoundTrip(d: nat)
    requires d < 36
    ensures DigitValue(DigitChar(d)) == d
  {
  }

  lemma PrintMore(n: nat, radix: int)
    requires ValidRadix(radix)
    ensures n < radix ==> Print(n, radix) == "" + [DigitChar(n)]
    ensures n >= radix ==> Print(n, radix) == Print(Quotient(n, radix), radix) + [DigitChar(Remainder(n, radix))]
    ensures Parse("", radix) == 0
  {
  }

  lemma {:induction false} ParsePrint(n: nat, radix: int)
    requires ValidRadix(radix)
    ensures Parse(Print(n, radix), radix) == n
  {
    PrintMore(n, radix);
    hide Print, Parse, Numeral, DigitChar, DigitValue;
    if n < radix {
      DigitRoundTrip(n);
      ParseLast("", DigitChar(n), radix);
    } else {
      ParsePrint(Quotient(n, radix), radix);
      DigitRoundTrip(Remainder(n, radix));
      ParseLast(Print(Quotient(n, radix), radix), DigitChar(Remainder(n, radix)), radix);
    }
  }

  function Pow10(n: nat): (p: nat)
    ensures p > 0
  {
    if n == 0 then 1 else 10 * Pow10(n - 1)
  }

  lemma {:induction false} Pow10Add(m: nat, n: nat)
    ensures Pow10(m) * Pow10(n) == Pow10(m + n)
  {
    if m > 0 {
      Pow10Add(m - 1, n);
    }
  }

  lemma ScaledDigit(p: nat, k: nat, r: nat, d: nat)
    ensures (p * Pow10(k) + r) * 10 + d == p * Pow10(k + 1) + (r * 10 + d)
  {
    assert p * (10 * Pow10(k)) == 10 * (p * Pow10(k));
  }

  lemma {:induction false} ParseConcat(s: string, t: string)
    ensures Parse(s + t, 10) == Parse(s, 10) * Pow10(|t|) + Parse(t, 10)
  {
    if t == "" {
      assert s + t == s;
    } else {
      var front, c := t[..|t| - 1], t[|t| - 1];
      ParseConcat(s, front);
      assert (s + front) + [c] == s + t && front + [c] == t;
      ParseLast(s + front, c, 10);
      ParseLast(front, c, 10);
      hide Parse, Pow10;
      ScaledDigit(Parse(s, 10), |front|, Parse(front, 10), DigitValue(c));
    }
  }

  function Zeros(n: nat): (s: string)
    ensures |s| == n && forall i | 0 <= i < n :: s[i] == '0'
  {
    if n == 0 then "" else Zeros(n - 1) + "0"
  }

  lemma {:induction false} ParseZeros(n: nat)
    ensures Parse(Zeros(n), 10) == 0
  {
    if n > 0 {
      ParseZeros(n - 1);
      assert Zeros(n)[..n - 1] == Zeros(n - 1);
    }
  }

  lemma ParsePadded(n: nat, digits: string)
    ensures Parse(Zeros(n) + digits, 10) == Parse(digits, 10)
  {
    ParseConcat(Zeros(n), digits);
    ParseZeros(n);
    hide Parse, Zeros, Pow10;
    NoneOf(Pow10(|digits|));
  }

  lemma NoneOf(n: nat)
    ensures 0 * n == 0
  {
  }

  // A numeral with k digits is below 10^k.
  lemma {:induction false} PrintLength(n: nat, k: nat)
    requires n < Pow10(k)
    ensures k > 0 ==> |Print(n, 10)| <= k
  {
    if n >= 10 {
      assert k > 0;
      PrintLength(n / 10, k - 1);
    }
  }
}

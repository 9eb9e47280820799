/** That the codec of BridgeE2ee is base64url (RFC 4648, section 5): as numbers, a text in base 64 and its bytes in
    base 256 agree; and which texts it accepts. */
module BridgeE2eeNumbers {
  import opened BridgeE2ee
  import opened Sequences
  import opened Wrappers

  // RFC 4648, section 5
  const UPPER_CASE := "ABCDEFGHIJKLMNOPQRSTUVWXYZ"
  const LOWER_CASE := "abcdefghijklmnopqrstuvwxyz"
  const DIGITS := "0123456789"
  const URL_ALPHABET := UPPER_CASE + LOWER_CASE + DIGITS + "-_"

  function Number(digits: seq<int>, radix: int): int {
    if digits == [] then 0 else Number(digits[..|digits| - 1], radix) * radix + digits[|digits| - 1]
  }

  lemma OneDigitMore(digits: seq<int>, d: int, radix: int)
    ensures Number(digits + [d], radix) == Number(digits, radix) * radix + d
  {
    assert (digits + [d])[..|digits|] == digits;
  }

  // A group as a number, with as many bits as its bytes have and zeros for the rest.
  lemma GroupsOfThree(a: Byte, b: Byte, c: Byte)
    ensures Group0(a) * 262144 + Group1(a, b) * 4096 + Group2(b, c) * 64 + Group3(c) == a * 65536 + b * 256 + c
    ensures Group0(a) * 64 + Group1(a, 0) == a * 16
    ensures Group0(a) * 4096 + Group1(a, b) * 64 + Group2(b, 0) == (a * 256 + b) * 4
  {
    DivMod(a, 4);
    DivMod(b, 16);
    DivMod(c, 64);
  }

  lemma DivMod(n: nat, d: nat)
    requires d > 0
    ensures n == n / d * d + n % d
  {
  }

  lemma BytesOfFour(w: Sextet, x: Sextet, y: Sextet, z: Sextet)
    ensures Byte0(w, x) * 65536 + Byte1(x, y) * 256 + Byte2(y, z) == w * 262144 + x * 4096 + y * 64 + z
    ensures Byte0(w, x) == w * 4 + x / 16
    ensures Byte0(w, x) * 256 + Byte1(x, y) == w * 1024 + x * 16 + y / 4
  {
    DivMod(x, 16);
    DivMod(y, 4);
  }

  lemma {:induction false} SextetsConcat(front: seq<Byte>, last: seq<Byte>)
    requires |front| % 3 == 0
    ensures ToSextets(front + last) == ToSextets(front) + ToSextets(last)
  {
    if front == [] {
      NoneThen(last);
      NoneThen(ToSextets(last));
    } else {
      SextetsUnfold(front);
      SextetsUnfold(front + last);
      hide ToSextets, Quad;
      SplitConcat(front, last, 3);
      SextetsConcat(front[3..], last);
      SameQuad(front, last);
      Assoc(Quad(front), ToSextets(front[3..]), ToSextets(last));
    }
  }

  lemma SameQuad(front: seq<Byte>, last: seq<Byte>)
    requires |front| > 2
    ensures Quad(front + last) == Quad(front)
  {
  }

  lemma TwoDigitsMore(digits: seq<int>, d: int, e: int)
    ensures Number(digits + [d, e], 64) == Number(digits, 64) * 4096 + d * 64 + e
    ensures Number(digits + [d, e], 256) == Number(digits, 256) * 65536 + d * 256 + e
  {
    hide Number;
    assert digits + [d, e] == (digits + [d]) + [e];
    OneDigitMore(digits, d, 64);
    OneDigitMore(digits + [d], e, 64);
    OneDigitMore(digits, d, 256);
    OneDigitMore(digits + [d], e, 256);
  }

  lemma ThreeDigitsMore(digits: seq<int>, d: int, e: int, f: int)
    ensures Number(digits + [d, e, f], 64) == Number(digits, 64) * 262144 + d * 4096 + e * 64 + f
    ensures Number(digits + [d, e, f], 256) == Number(digits, 256) * 16777216 + d * 65536 + e * 256 + f
  {
    hide Number;
    assert digits + [d, e, f] == (digits + [d, e]) + [f];
    TwoDigitsMore(digits, d, e);
    OneDigitMore(digits + [d, e], f, 64);
    OneDigitMore(digits + [d, e], f, 256);
  }

  lemma FourDigitsMore(digits: seq<int>, d: int, e: int, f: int, g: int)
    ensures Number(digits + [d, e, f, g], 64) == Number(digits, 64) * 16777216 + d * 262144 + e * 4096 + f * 64 + g
  {
    hide Number;
    assert digits + [d, e, f, g] == (digits + [d, e, f]) + [g];
    ThreeDigitsMore(digits, d, e, f);
    OneDigitMore(digits + [d, e, f], g, 64);
  }

  // What a last group of so many bytes, or a last group of so many characters, leaves over.
  function Scale(bytes: nat): int {
    if bytes % 3 == 0 then 1 else if bytes % 3 == 2 then 4 else 16
  }

  lemma {:induction false} SextetsNumber(b: seq<Byte>)
    ensures Number(ToSextets(b), 64) == Number(b, 256) * Scale(|b|)
    decreases |b|
  {
    hide Number, ToSextets, Group0, Group1, Group2, Group3;
    if b == [] {
      NoDigits();
    } else {
      var r := if |b| % 3 == 0 then 3 else |b| % 3;
      LastGroup(|b|);
      var front, last := b[..|b| - r], b[|b| - r..];
      assert b == front + last;
      SextetsNumber(front);
      SextetsConcat(front, last);
      LastGroupNumber(front, last);
    }
  }

  lemma LastGroup(n: nat)
    requires n > 0
    ensures var r := if n % 3 == 0 then 3 else n % 3; r <= n && (n - r) % 3 == 0 && Scale(n - r) == 1 && Scale(n) == Scale(r)
  {
  }

  lemma NoDigits()
    ensures ToSextets([]) == [] && Number([], 64) == Number([], 256) == 0
  {
  }

  lemma LastGroupNumber(front: seq<Byte>, last: seq<Byte>)
    requires 0 < |last| <= 3 && Number(ToSextets(front), 64) == Number(front, 256)
    ensures Number(ToSextets(front) + ToSextets(last), 64) == Number(front + last, 256) * Scale(|last|)
  {
    ShortSextets(last);
    hide Number, ToSextets, Group0, Group1, Group2, Group3;
    var x := ToSextets(front);
    var a := last[0];
    if |last| == 1 {
      GroupsOfThree(a, 0, 0);
      TwoDigitsMore(x, Group0(a), Group1(a, 0));
      OneDigitMore(front, a, 256);
      assert last == [a];
    } else if |last| == 2 {
      var b := last[1];
      GroupsOfThree(a, b, 0);
      ThreeDigitsMore(x, Group0(a), Group1(a, b), Group2(b, 0));
      TwoDigitsMore(front, a, b);
      assert last == [a, b];
    } else {
      var b, c := last[1], last[2];
      GroupsOfThree(a, b, c);
      FourDigitsMore(x, Group0(a), Group1(a, b), Group2(b, c), Group3(c));
      ThreeDigitsMore(front, a, b, c);
      assert last == [a, b, c];
    }
  }

  lemma ShortSextets(b: seq<Byte>)
    requires 0 < |b| <= 3
    ensures |b| == 1 ==> ToSextets(b) == [Group0(b[0]), Group1(b[0], 0)]
    ensures |b| == 2 ==> ToSextets(b) == [Group0(b[0]), Group1(b[0], b[1]), Group2(b[1], 0)]
    ensures |b| == 3 ==> ToSextets(b) == [Group0(b[0]), Group1(b[0], b[1]), Group2(b[1], b[2]), Group3(b[2])]
  {
    hide Group0, Group1, Group2, Group3;
    if |b| == 3 {
      SextetsUnfold(b);
      assert b[3..] == [];
    }
  }

  lemma UpperCaseAt(v: nat)
    requires v < |UPPER_CASE|
    ensures UPPER_CASE[v] == ('A' as int + v) as char
  {
    if v < 13 {
      assert v in {0, 1, 2, 3, 4, 5, 6, 7, 8, 9, 10, 11, 12};
    }
  }

  lemma LowerCaseAt(v: nat)
    requires v < |LOWER_CASE|
    ensures LOWER_CASE[v] == ('a' as int + v) as char
  {
    if v < 13 {
      assert v in {0, 1, 2, 3, 4, 5, 6, 7, 8, 9, 10, 11, 12};
    }
  }

  lemma DigitAt(v: nat)
    requires v < |DIGITS|
    ensures DIGITS[v] == ('0' as int + v) as char
  {
  }

  lemma AlphabetParts(v: nat)
    requires v < 64
    ensures |UPPER_CASE| == |LOWER_CASE| == 26 && |DIGITS| == 10 && |URL_ALPHABET| == 64
    ensures URL_ALPHABET[v] ==
      if v < 26 then UPPER_CASE[v] else if v < 52 then LOWER_CASE[v - 26] else if v < 62 then DIGITS[v - 52]
      else if v == 62 then '-' else '_'
  {
    var u, l, d, e := UPPER_CASE, LOWER_CASE, DIGITS, "-_";
    assert |u| == |l| == 26 && |d| == 10 && |e| == 2 && e[0] == '-' && e[1] == '_';
    hide UPPER_CASE, LOWER_CASE, DIGITS;
  }

  // The value of a character is its place in the alphabet.
  lemma ValueIsPlace(c: char)
    requires UrlSafe(c)
    ensures |URL_ALPHABET| == 64 && URL_ALPHABET[UrlValue(c)] == c
  {
    hide UPPER_CASE, LOWER_CASE, DIGITS, URL_ALPHABET;
    AlphabetParts(UrlValue(c));
    if 'A' <= c <= 'Z' {
      UpperCaseAt(c as int - 'A' as int);
    } else if 'a' <= c <= 'z' {
      LowerCaseAt(c as int - 'a' as int);
    } else if '0' <= c <= '9' {
      DigitAt(c as int - '0' as int);
    }
  }

  lemma ValuesOfUrlChars(s: string, x: seq<Sextet>)
    requires |s| == |x| && forall i | 0 <= i < |s| :: s[i] == UrlChar(x[i]) && UrlSafe(s[i])
    ensures AllUrlSafe(s) && UrlValues(s) == x
  {
    forall i | 0 <= i < |s| ensures UrlValue(s[i]) == x[i] {
      UrlValueChar(s[i]);
      UrlCharInjective(x[i], UrlValue(s[i]));
    }
  }

  // The characters of a text are the digits of its number in base 64.
  ghost predicate AreDigits(x: seq<Sextet>, s: string) {
    |x| == |s| && forall i | 0 <= i < |s| :: x[i] < |URL_ALPHABET| && URL_ALPHABET[x[i]] == s[i]
  }

  lemma UrlValuesAreDigits(s: string)
    requires AllUrlSafe(s)
    ensures AreDigits(UrlValues(s), s)
  {
    hide URL_ALPHABET, UrlValue, UrlSafe;
    forall i | 0 <= i < |s| ensures |URL_ALPHABET| == 64 && URL_ALPHABET[UrlValue(s[i])] == s[i] {
      ValueIsPlace(s[i]);
    }
  }

  /** The encoding is base64url: its characters, by their places in the alphabet, are the digits in base 64 of the number
      that the bytes make in base 256, with two or four zero bits after a last group of two bytes or one. */
  lemma EncodingIsBase64Url(b: seq<Byte>) returns (x: seq<Sextet>)
    ensures AreDigits(x, UrlEncode(b)) && |x| == (4 * |b| + 2) / 3
    ensures Number(x, 64) == Number(b, 256) * (if |b| % 3 == 0 then 1 else if |b| % 3 == 2 then 4 else 16)
  {
    hide UrlEncode, ToSextets, Number, URL_ALPHABET, UrlChar, UrlSafe, UrlValues;
    x := ToSextets(b);
    EncodedForm(b);
    SextetsNumber(b);
    ValuesOfUrlChars(UrlEncode(b), x);
    UrlValuesAreDigits(UrlEncode(b));
  }

  // The bytes of the first group.
  function FirstBytes(x: seq<Sextet>): seq<Byte>
    requires |x| >= 4
  {
    [Byte0(x[0], x[1]), Byte1(x[1], x[2]), Byte2(x[2], x[3])]
  }

  lemma FirstBytesThen(x: seq<Sextet>)
    requires |x| >= 4 && |x| % 4 != 1
    ensures |x[4..]| % 4 != 1 && FromSextets(x) == FirstBytes(x) + FromSextets(x[4..])
  {
    FromUnfold(x);
    hide FromSextets, Byte0, Byte1, Byte2;
  }

  lemma FirstFour(front: seq<Sextet>, last: seq<Sextet>)
    requires |front| >= 4
    ensures FirstBytes(front + last) == FirstBytes(front) && (front + last)[4..] == front[4..] + last
  {
    hide Byte0, Byte1, Byte2;
  }

  lemma {:induction false} FromSextetsConcat(front: seq<Sextet>, last: seq<Sextet>)
    requires |front| % 4 == 0 && |last| % 4 != 1
    ensures |front + last| % 4 != 1 && FromSextets(front + last) == FromSextets(front) + FromSextets(last)
  {
    hide FromSextets, FirstBytes;
    if front == [] {
      NoneThen(last);
      NoneThen(FromSextets(last));
      NoBytes();
    } else {
      FirstBytesThen(front);
      FirstBytesThen(front + last);
      FirstFour(front, last);
      FromSextetsConcat(front[4..], last);
      Assoc(FirstBytes(front), FromSextets(front[4..]), FromSextets(last));
    }
  }

  lemma {:induction false} BytesNumber(x: seq<Sextet>)
    requires |x| % 4 != 1
    ensures Number(FromSextets(x), 256)
      == Number(x, 64) / (if |x| % 4 == 0 then 1 else if |x| % 4 == 3 then 4 else 16)
    decreases |x|
  {
    hide Number, FromSextets, Byte0, Byte1, Byte2;
    if x == [] {
      NoBytes();
    } else {
      var r := if |x| % 4 == 0 then 4 else |x| % 4;
      LastFour(|x|);
      var front, last := x[..|x| - r], x[|x| - r..];
      assert x == front + last;
      BytesNumber(front);
      FromSextetsConcat(front, last);
      LastBytesNumber(front, last);
    }
  }

  lemma LastFour(n: nat)
    requires n > 0 && n % 4 != 1
    ensures var r := if n % 4 == 0 then 4 else n % 4; 1 < r <= n && (n - r) % 4 == 0
  {
  }

  lemma NoBytes()
    ensures FromSextets([]) == [] && Number([], 64) == Number([], 256) == 0
  {
  }

  lemma LastBytesNumber(front: seq<Sextet>, last: seq<Sextet>)
    requires |front| % 4 == 0 && 1 < |last| <= 4 && Number(FromSextets(front), 256) == Number(front, 64)
    ensures Number(FromSextets(front) + FromSextets(last), 256)
      == Number(front + last, 64) / (if |last| == 4 then 1 else if |last| == 3 then 4 else 16)
  {
    ShortBytes(last);
    hide *;
    var b := FromSextets(front);
    if |last| == 2 {
      assert last == [last[0], last[1]];
      OneByteMore(b, front, last[0], last[1]);
    } else if |last| == 3 {
      assert last == [last[0], last[1], last[2]];
      TwoBytesMore(b, front, last[0], last[1], last[2]);
    } else {
      assert last == [last[0], last[1], last[2], last[3]];
      ThreeBytesMore(b, front, last[0], last[1], last[2], last[3]);
    }
  }

  lemma OneByteMore(b: seq<int>, x: seq<int>, w: Sextet, v: Sextet)
    requires Number(b, 256) == Number(x, 64)
    ensures Number(b + [Byte0(w, v)], 256) == Number(x + [w, v], 64) / 16
  {
    BytesOfFour(w, v, 0, 0);
    hide Number, Byte0, Byte1, Byte2;
    OneDigitMore(b, Byte0(w, v), 256);
    TwoDigitsMore(x, w, v);
  }

  lemma TwoBytesMore(b: seq<int>, x: seq<int>, w: Sextet, v: Sextet, y: Sextet)
    requires Number(b, 256) == Number(x, 64)
    ensures Number(b + [Byte0(w, v), Byte1(v, y)], 256) == Number(x + [w, v, y], 64) / 4
  {
    BytesOfFour(w, v, y, 0);
    hide Number, Byte0, Byte1, Byte2;
    TwoDigitsMore(b, Byte0(w, v), Byte1(v, y));
    ThreeDigitsMore(x, w, v, y);
  }

  lemma ThreeBytesMore(b: seq<int>, x: seq<int>, w: Sextet, v: Sextet, y: Sextet, z: Sextet)
    requires Number(b, 256) == Number(x, 64)
    ensures Number(b + [Byte0(w, v), Byte1(v, y), Byte2(y, z)], 256) == Number(x + [w, v, y, z], 64) / 1
  {
    BytesOfFour(w, v, y, z);
    hide Number, Byte0, Byte1, Byte2;
    ThreeDigitsMore(b, Byte0(w, v), Byte1(v, y), Byte2(y, z));
    FourDigitsMore(x, w, v, y, z);
  }

  lemma ShortBytes(x: seq<Sextet>)
    requires 1 < |x| <= 4
    ensures |x| == 2 ==> FromSextets(x) == [Byte0(x[0], x[1])]
    ensures |x| == 3 ==> FromSextets(x) == [Byte0(x[0], x[1]), Byte1(x[1], x[2])]
    ensures |x| == 4 ==> FromSextets(x) == [Byte0(x[0], x[1]), Byte1(x[1], x[2]), Byte2(x[2], x[3])]
  {
    hide Byte0, Byte1, Byte2;
    if |x| == 4 {
      FromUnfold(x);
      assert x[4..] == [];
    }
  }

  /** And decoding reads the digits of a url-safe text back to the bytes of their number, without its spare bits. */
  lemma DecodingIsBase64Url(s: string) returns (x: seq<Sextet>)
    requires AllUrlSafe(s) && |s| % 4 != 1
    ensures AreDigits(x, s) && UrlDecode(s).Some? && |UrlDecode(s).value| == |s| * 3 / 4
    ensures Number(UrlDecode(s).value, 256)
      == Number(x, 64) / (if |s| % 4 == 0 then 1 else if |s| % 4 == 3 then 4 else 16)
  {
    hide UrlDecode, Number, URL_ALPHABET, UrlSafe, UrlValues;
    x := UrlValues(s);
    UrlDecodeReads(s);
    UrlValuesAreDigits(s);
    BytesNumber(x);
    ByteCount(|s|);
    hide FromSextets;
  }

  lemma ByteCount(n: nat)
    requires n % 4 != 1
    ensures n / 4 * 3 + (if n % 4 == 0 then 0 else n % 4 - 1) == n * 3 / 4
  {
  }

  // ---- What is accepted ---------------------------------------------------------------------------------

  // Of one of the two alphabets.
  predicate IsBase64(c: char) {
    'A' <= c <= 'Z' || 'a' <= c <= 'z' || '0' <= c <= '9' || c in "+/-_"
  }

  lemma StandardValues(s: string)
    ensures |Standard(s)| == |s| && (AllValues(Standard(s)) <==> forall i | 0 <= i < |s| :: IsBase64(s[i]))
    ensures forall i | 0 <= i < |s| :: (Standard(s)[i] == '=' <==> s[i] == '=') && (IsAsciiSpace(Standard(s)[i]) <==> IsAsciiSpace(s[i]))
  {
    var t := Standard(s);
    forall i | 0 <= i < |s|
      ensures Base64Value(t[i]).Some? <==> IsBase64(s[i])
      ensures (t[i] == '=' <==> s[i] == '=') && (IsAsciiSpace(t[i]) <==> IsAsciiSpace(s[i]))
    {
      var u := Replace(s, '-', '+');
      assert u[i] == (if s[i] == '-' then '+' else s[i]) && t[i] == if u[i] == '_' then '/' else u[i];
    }
  }

  predicate IsAsciiSpace(c: char) {
    c == '\t' || c == '\n' || c == '\U{000c}' || c == '\r' || c == ' '
  }

  lemma {:induction false} NoSpaceStays(s: string)
    requires forall i | 0 <= i < |s| :: !IsAsciiSpace(s[i])
    ensures WithoutAsciiSpace(s) == s
  {
    if s != "" {
      NoSpaceStays(s[1..]);
      FirstThenRest(s);
    }
  }

  // Of the padding two characters go at most, and the text with them only at a multiple of four.
  lemma PaddingGoes(s: string, n: nat)
    requires (|s| + n) % 4 == 0 && (s != "" ==> s[|s| - 1] != '=')
    ensures n <= 2 ==> WithoutPadding(s + Padding(n)) == s
    ensures n > 2 ==> !AllValues(WithoutPadding(s + Padding(n)))
  {
    if n <= 2 {
      PaddingStripped(s, n);
    } else {
      PaddingChars(n);
      hide Padding;
      var t := s + Padding(n);
      assert t[|s|] == '=' && t[|t| - 1] == '=' && t[|t| - 2] == '=';
      var data := t[..|t| - 2];
      assert data[|s|] == '=' && Base64Value('=') == None;
    }
  }

  lemma PaddingConcat(s: string, k: nat, n: nat)
    ensures s + Padding(k) + Padding(n) == s + Padding(k + n)
  {
    PaddingChars(k);
    PaddingChars(n);
    PaddingChars(k + n);
    hide Padding;
  }

  lemma StandardPadding(s: string, k: nat)
    ensures Standard(s + Padding(k)) == Standard(s) + Padding(k)
  {
    PaddingChars(k);
    hide Padding;
  }

  // How many padding characters the text has once it is padded to a multiple of four.
  function PaddingOf(length: nat, k: nat): nat {
    k + (4 - (length + k) % 4) % 4
  }

  lemma AtobSomeIff(text: string, data: string)
    requires WithoutPadding(WithoutAsciiSpace(text)) == data
    ensures Atob(text).Some? <==> |data| % 4 != 1 && AllValues(data)
  {
    hide WithoutPadding, WithoutAsciiSpace, AllValues, FromSextets;
  }

  lemma NoSpaceInPadded(s: string, n: nat)
    requires forall i | 0 <= i < |s| :: !IsAsciiSpace(s[i])
    ensures WithoutAsciiSpace(s + Padding(n)) == s + Padding(n)
  {
    PaddingChars(n);
    hide Padding, WithoutAsciiSpace;
    var t := s + Padding(n);
    assert forall i | 0 <= i < |t| :: !IsAsciiSpace(t[i]);
    NoSpaceStays(t);
  }

  lemma NotOneOver(length: nat, n: nat)
    requires (length + n) % 4 == 0 && n <= 2
    ensures length % 4 != 1
  {
  }

  lemma AtobOfPadded(s: string, n: nat)
    requires (|s| + n) % 4 == 0 && (s != "" ==> s[|s| - 1] != '=') && forall i | 0 <= i < |s| :: !IsAsciiSpace(s[i])
    ensures Atob(s + Padding(n)).Some? <==> n <= 2 && AllValues(s)
  {
    hide *;
    PaddingGoes(s, n);
    NoSpaceInPadded(s, n);
    AtobSomeIff(s + Padding(n), WithoutPadding(s + Padding(n)));
    if n <= 2 {
      NotOneOver(|s|, n);
    }
  }

  predicate AllBase64(s: string) {
    forall i | 0 <= i < |s| :: IsBase64(s[i])
  }

  // Neither white space nor padding at the end.
  predicate IsBare(s: string) {
    (s != "" ==> s[|s| - 1] != '=') && forall i | 0 <= i < |s| :: !IsAsciiSpace(s[i])
  }

  lemma StandardIsBare(s: string)
    requires IsBare(s)
    ensures IsBare(Standard(s)) && |Standard(s)| == |s| && (AllValues(Standard(s)) <==> AllBase64(s))
  {
    StandardValues(s);
    hide Standard, IsBase64, IsAsciiSpace;
  }

  lemma BareIsRead(s: string, n: nat)
    requires IsBare(s) && (|s| + n) % 4 == 0
    ensures Atob(s + Padding(n)).Some? <==> n <= 2 && AllValues(s)
  {
    AtobOfPadded(s, n);
    hide Atob, Padding, AllValues, IsAsciiSpace;
  }

  lemma PaddedTo(s: string, k: nat)
    ensures UrlDecode(s + Padding(k)) == Atob(Standard(s) + Padding(PaddingOf(|s|, k)))
  {
    hide *;
    var n := (4 - (|s| + k) % 4) % 4;
    Lengths(s, k);
    StandardPadding(s, k);
    DecodesPadded(s + Padding(k));
    PaddedIs(s + Padding(k), n);
    PaddingConcat(Standard(s), k, n);
  }

  lemma Lengths(s: string, k: nat)
    ensures |Standard(s)| == |s| && |Standard(s + Padding(k))| == |s| + k
    ensures PaddingOf(|s|, k) == k + (4 - (|s| + k) % 4) % 4
  {
    PaddingChars(k);
    hide Padding;
  }

  /** A text without white space is accepted exactly if it is of the two alphabets, but for padding at its end, and at most
      two padding characters fill it up to a multiple of four. */
  lemma AcceptedIff(s: string, k: nat)
    requires IsBare(s)
    ensures UrlDecode(s + Padding(k)).Some? <==> PaddingOf(|s|, k) <= 2 && AllBase64(s)
  {
    hide *;
    StandardIsBare(s);
    PaddedTo(s, k);
    FillsUp(|s|, k);
    BareIsRead(Standard(s), PaddingOf(|s|, k));
  }

  lemma FillsUp(length: nat, k: nat)
    ensures (length + PaddingOf(length, k)) % 4 == 0
  {
  }
}

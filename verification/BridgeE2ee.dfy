/** The base64url codec and the stored session of apps/browser-demo/src/bridgeE2ee.ts.
    btoa and atob are the base64 of RFC 4648 section 4; atob is the forgiving decoder of browsers. */
module BridgeE2ee {
  import opened Wrappers

  type Byte = x: int | 0 <= x < 256
  type Sextet = x: int | 0 <= x < 64

  // ---- Bytes and six-bit groups ------------------------------------------------------

  function Group0(a: Byte): Sextet { (a as int) / 4 }
  function Group1(a: Byte, b: Byte): Sextet { (a as int) % 4 * 16 + (b as int) / 16 }
  function Group2(b: Byte, c: Byte): Sextet { (b as int) % 16 * 4 + (c as int) / 64 }
  function Group3(c: Byte): Sextet { (c as int) % 64 }

  function Byte0(w: Sextet, x: Sextet): Byte { (w as int) * 4 + (x as int) / 16 }
  function Byte1(x: Sextet, y: Sextet): Byte { (x as int) % 16 * 16 + (y as int) / 4 }
  function Byte2(y: Sextet, z: Sextet): Byte { (y as int) % 4 * 64 + (z as int) }

  lemma GroupsOfBytes(w: Sextet, x: Sextet, y: Sextet, z: Sextet)
    ensures Group0(Byte0(w, x)) == w && Group1(Byte0(w, x), Byte1(x, y)) == x
    ensures Group2(Byte1(x, y), Byte2(y, z)) == y && Group3(Byte2(y, z)) == z
    ensures Group1(Byte0(w, x), 0) == x / 16 * 16 && Group1(Byte0(w, x), 0) == x - x % 16
    ensures Group2(Byte1(x, y), 0) == y - y % 4
  {
  }

  lemma BytesOfGroups(a: Byte, b: Byte, c: Byte)
    ensures Byte0(Group0(a), Group1(a, b)) == a && Byte1(Group1(a, b), Group2(b, c)) == b
    ensures Byte2(Group2(b, c), Group3(c)) == c
    ensures Group1(a, 0) % 16 == 0 && Group2(b, 0) % 4 == 0
  {
    FirstByte(a, b);
    SecondByte(a, b, c);
    ThirdByte(b, c);
    LowFour(a % 4, 0);
    assert Group1(a, 0) == a % 4 * 16 && Group2(b, 0) == b % 16 * 4;
    hide Byte0, Byte1, Byte2, Group0, Group1, Group2, Group3;
  }

  lemma FirstByte(a: Byte, b: Byte)
    ensures Byte0(Group0(a), Group1(a, b)) == a
  {
  }

  lemma SecondByte(a: Byte, b: Byte, c: Byte)
    ensures Byte1(Group1(a, b), Group2(b, c)) == b
  {
    LowFour(a % 4, b / 16);
    HighFour(b % 16, c / 64);
  }

  lemma LowFour(high: nat, low: nat)
    requires low < 16
    ensures (high * 16 + low) % 16 == low
  {
  }

  lemma HighFour(high: nat, low: nat)
    requires low < 4
    ensures (high * 4 + low) / 4 == high
  {
  }

  lemma ThirdByte(b: Byte, c: Byte)
    ensures Byte2(Group2(b, c), Group3(c)) == c
  {
    var high: nat, low: nat := (b as int) % 16, (c as int) / 64;
    LowTwo(high, low);
    assert Group2(b, c) == high * 4 + low && Group3(c) == (c as int) % 64;
    assert low * 64 + (c as int) % 64 == c as int;
    hide Group2, Group3;
  }

  lemma LowTwo(high: nat, low: nat)
    requires low < 4
    ensures (high * 4 + low) % 4 == low
  {
  }

  // Three bytes make four groups; a last single byte makes two, a last pair three.
  function ToSextets(b: seq<Byte>): seq<Sextet> {
    if b == [] then []
    else if |b| == 1 then [Group0(b[0]), Group1(b[0], 0)]
    else if |b| == 2 then [Group0(b[0]), Group1(b[0], b[1]), Group2(b[1], 0)]
    else Quad(b) + ToSextets(b[3..])
  }

  // The bits a short last group leaves over are dropped.
  function FromSextets(x: seq<Sextet>): (b: seq<Byte>)
    requires |x| % 4 != 1
    ensures |b| == |x| / 4 * 3 + (if |x| % 4 == 0 then 0 else |x| % 4 - 1)
  {
    if x == [] then []
    else if |x| == 2 then [Byte0(x[0], x[1])]
    else if |x| == 3 then [Byte0(x[0], x[1]), Byte1(x[1], x[2])]
    else [Byte0(x[0], x[1]), Byte1(x[1], x[2]), Byte2(x[2], x[3])] + FromSextets(x[4..])
  }

  predicate NoSpareBits(x: seq<Sextet>) {
    && (|x| % 4 == 2 ==> x[|x| - 1] % 16 == 0)
    && (|x| % 4 == 3 ==> x[|x| - 1] % 4 == 0)
  }

  lemma NoSpareBitsTail(x: seq<Sextet>)
    requires |x| >= 4
    ensures NoSpareBits(x) <==> NoSpareBits(x[4..])
  {
    assert |x| > 4 ==> x[|x| - 1] == x[4..][|x[4..]| - 1];
  }

  lemma {:induction false} SextetCount(b: seq<Byte>)
    ensures |ToSextets(b)| == |b| / 3 * 4 + (if |b| % 3 == 0 then 0 else |b| % 3 + 1)
  {
    hide Group0, Group1, Group2, Group3;
    if |b| > 2 {
      SextetsUnfold(b);
      hide ToSextets;
      SextetCount(b[3..]);
      assert |b[3..]| == |b| - 3;
    }
  }

  lemma CountForms(n: nat, count: nat)
    requires count == n / 3 * 4 + (if n % 3 == 0 then 0 else n % 3 + 1)
    ensures count == (4 * n + 2) / 3 && count % 4 == (if n % 3 == 0 then 0 else n % 3 + 1)
    ensures (4 - count % 4) % 4 == (3 - n % 3) % 3
  {
    var k := n / 3;
    assert n == 3 * k + n % 3;
    assert count == 4 * k + (if n % 3 == 0 then 0 else n % 3 + 1);
  }

  function Quad(b: seq<Byte>): seq<Sextet>
    requires |b| > 2
  {
    [Group0(b[0]), Group1(b[0], b[1]), Group2(b[1], b[2]), Group3(b[2])]
  }

  lemma SextetsUnfold(b: seq<Byte>)
    requires |b| > 2
    ensures ToSextets(b) == Quad(b) + ToSextets(b[3..])
  {
    hide Group0, Group1, Group2, Group3, Quad;
  }

  lemma SextetsStep(b: seq<Byte>)
    requires |b| > 2
    ensures var x := ToSextets(b);
      && x[4..] == ToSextets(b[3..])
      && [Byte0(x[0], x[1]), Byte1(x[1], x[2]), Byte2(x[2], x[3])] == b[..3]
  {
    hide ToSextets, Byte0, Byte1, Byte2, Group0, Group1, Group2, Group3;
    var q, rest := Quad(b), ToSextets(b[3..]);
    var x := q + rest;
    SextetsUnfold(b);
    assert |q| == 4;
    Front(q, rest);
    assert x[4..] == rest && x[0] == q[0] && x[1] == q[1] && x[2] == q[2] && x[3] == q[3];
    BytesOfGroups(b[0], b[1], b[2]);
    FirstThree(b);
  }

  lemma FromUnfold(x: seq<Sextet>)
    requires |x| >= 4 && |x| % 4 != 1
    ensures FromSextets(x) == [Byte0(x[0], x[1]), Byte1(x[1], x[2]), Byte2(x[2], x[3])] + FromSextets(x[4..])
  {
    hide Byte0, Byte1, Byte2;
  }

  lemma FirstThreeThenRest<T>(b: seq<T>)
    requires |b| > 2
    ensures b == b[..3] + b[3..]
  {
  }

  lemma FirstThree<T>(b: seq<T>)
    requires |b| > 2
    ensures b[..3] == [b[0], b[1], b[2]]
  {
  }

  lemma Front(front: seq<Sextet>, rest: seq<Sextet>)
    ensures (front + rest)[|front|..] == rest && forall i | 0 <= i < |front| :: (front + rest)[i] == front[i]
  {
  }

  lemma {:induction false} SextetsRoundTrip(b: seq<Byte>)
    ensures |ToSextets(b)| % 4 != 1
    ensures FromSextets(ToSextets(b)) == b && NoSpareBits(ToSextets(b))
  {
    hide Byte0, Byte1, Byte2;
    SextetCount(b);
    CountForms(|b|, |ToSextets(b)|);
    if |b| == 1 {
      BytesOfGroups(b[0], 0, 0);
    } else if |b| == 2 {
      BytesOfGroups(b[0], b[1], 0);
    } else if |b| > 2 {
      SextetsStep(b);
      var x := ToSextets(b);
      assert |b| > 2 ==> |x| >= 4;
      FromUnfold(x);
      hide ToSextets, FromSextets, NoSpareBits;
      SextetsRoundTrip(b[3..]);
      NoSpareBitsTail(x);
      FirstThreeThenRest(b);
    }
  }

  lemma {:induction false} BytesRoundTrip(x: seq<Sextet>)
    requires |x| % 4 != 1
    ensures ToSextets(FromSextets(x)) == x <==> NoSpareBits(x)
  {
    hide Byte0, Byte1, Byte2, Group0, Group1, Group2, Group3;
    if |x| == 2 {
      GroupsOfBytes(x[0], x[1], 0, 0);
      assert ToSextets(FromSextets(x)) == [x[0], x[1] - x[1] % 16];
    } else if |x| == 3 {
      GroupsOfBytes(x[0], x[1], x[2], 0);
      assert ToSextets(FromSextets(x)) == [x[0], x[1], x[2] - x[2] % 4];
    } else if |x| >= 4 {
      var rest := FromSextets(x[4..]);
      BytesRoundTrip(x[4..]);
      NoSpareBitsTail(x);
      BytesStep(x, rest);
      assert x == x[..4] + x[4..];
      assert ToSextets(FromSextets(x))[4..] == ToSextets(rest);
    }
  }

  lemma BytesStep(x: seq<Sextet>, rest: seq<Byte>)
    requires |x| >= 4 && |x| % 4 != 1 && rest == FromSextets(x[4..])
    ensures ToSextets(FromSextets(x)) == x[..4] + ToSextets(rest)
  {
    hide Byte0, Byte1, Byte2, Group0, Group1, Group2, Group3;
    var b := FromSextets(x);
    GroupsOfBytes(x[0], x[1], x[2], x[3]);
    assert b == [Byte0(x[0], x[1]), Byte1(x[1], x[2]), Byte2(x[2], x[3])] + rest;
    assert b[3..] == rest;
    SextetsUnfold(b);
    assert x[..4] == [x[0], x[1], x[2], x[3]];
  }

  // ---- Alphabets ------------------------------------------------------------------------

  function Base64Char(v: Sextet): char {
    if v < 26 then ('A' as int + v) as char
    else if v < 52 then ('a' as int + v - 26) as char
    else if v < 62 then ('0' as int + v - 52) as char
    else if v == 62 then '+' else '/'
  }

  function Base64Value(c: char): Option<Sextet> {
    if 'A' <= c <= 'Z' then Some(c as int - 'A' as int)
    else if 'a' <= c <= 'z' then Some(c as int - 'a' as int + 26)
    else if '0' <= c <= '9' then Some(c as int - '0' as int + 52)
    else if c == '+' then Some(62) else if c == '/' then Some(63) else None
  }

  lemma Base64CharValue(v: Sextet)
    ensures Base64Value(Base64Char(v)) == Some(v) && Base64Char(v) != '='
  {
  }

  function Chars(x: seq<Sextet>): (s: string)
    ensures |s| == |x| && forall i | 0 <= i < |x| :: s[i] == Base64Char(x[i])
  {
    seq(|x|, i requires 0 <= i < |x| => Base64Char(x[i]))
  }

  predicate AllValues(s: string) {
    forall i | 0 <= i < |s| :: Base64Value(s[i]).Some?
  }

  function Values(s: string): (x: seq<Sextet>)
    requires AllValues(s)
    ensures |x| == |s| && forall i | 0 <= i < |s| :: x[i] == Base64Value(s[i]).value
  {
    seq(|s|, i requires 0 <= i < |s| => Base64Value(s[i]).value)
  }

  lemma ValuesOfChars(x: seq<Sextet>)
    ensures AllValues(Chars(x)) && Values(Chars(x)) == x
    ensures forall i | 0 <= i < |x| :: Chars(x)[i] != '='
  {
    forall i | 0 <= i < |x| ensures Base64Value(Chars(x)[i]) == Some(x[i]) && Chars(x)[i] != '=' {
      Base64CharValue(x[i]);
    }
  }

  // ---- btoa and atob on the bytes of a binary string --------------------------------------

  function Padding(n: nat): string {
    if n == 0 then "" else "=" + Padding(n - 1)
  }

  function Btoa(b: seq<Byte>): string {
    Chars(ToSextets(b)) + Padding((3 - |b| % 3) % 3)
  }

  function WithoutAsciiSpace(s: string): string {
    if s == "" then ""
    else
      var c := s[0];
      (if c == '\t' || c == '\n' || c == '\U{000c}' || c == '\r' || c == ' ' then "" else [c]) + WithoutAsciiSpace(s[1..])
  }

  function WithoutPadding(s: string): string {
    if |s| % 4 == 0 && |s| > 0 && s[|s| - 1] == '=' then
      if s[|s| - 2] == '=' then s[..|s| - 2] else s[..|s| - 1]
    else s
  }

  // None is the thrown InvalidCharacterError.
  function Atob(s: string): Option<seq<Byte>> {
    var data := WithoutPadding(WithoutAsciiSpace(s));
    if |data| % 4 == 1 || !AllValues(data) then None else Some(FromSextets(Values(data)))
  }

  // ---- The url-safe codec --------------------------------------------------------------------

  function Replace(s: string, from: char, to: char): (r: string)
    ensures |r| == |s| && forall i | 0 <= i < |s| :: r[i] == if s[i] == from then to else s[i]
  {
    seq(|s|, i requires 0 <= i < |s| => if s[i] == from then to else s[i])
  }

  // .replace(/=+$/, '')
  function StripPadding(s: string): string {
    if s != "" && s[|s| - 1] == '=' then StripPadding(s[..|s| - 1]) else s
  }

  function UrlEncode(b: seq<Byte>): string {
    StripPadding(Replace(Replace(Btoa(b), '+', '-'), '/', '_'))
  }

  function Padded(value: string): string {
    var normalized := Replace(Replace(value, '-', '+'), '_', '/');
    normalized + Padding((4 - |normalized| % 4) % 4)
  }

  function UrlDecode(value: string): Option<seq<Byte>> {
    Atob(Padded(value))
  }

  // The binary string of charCodes is the byte sequence itself.
  method Base64UrlEncode(bytes: seq<Byte>) returns (encoded: string)
    ensures encoded == UrlEncode(bytes)
    ensures UrlDecode(encoded) == Some(bytes)
    ensures |encoded| == (4 * |bytes| + 2) / 3 && forall i | 0 <= i < |encoded| :: UrlSafe(encoded[i])
  {
    var binary: seq<Byte> := [];
    for i := 0 to |bytes|
      invariant binary == bytes[..i]
    {
      binary := binary + [bytes[i]];
    }
    assert bytes[..|bytes|] == bytes;
    encoded := StripPadding(Replace(Replace(Btoa(binary), '+', '-'), '/', '_'));
    hide UrlDecode, ToSextets, UrlSafe;
    DecodeEncode(bytes);
    EncodedForm(bytes);
  }

  method Base64UrlDecode(value: string) returns (ok: bool, out: array<Byte>)
    ensures fresh(out)
    ensures ok <==> UrlDecode(value).Some?
    ensures ok ==> Some(out[..]) == UrlDecode(value)
  {
    var decoded := Atob(Padded(value));
    ok := decoded.Some?;
    var binary := decoded.GetOr([]);
    out := new Byte[|binary|](_ => 0);
    for i := 0 to |binary|
      invariant out[..i] == binary[..i]
    {
      out[i] := binary[i];
    }
    assert binary[..|binary|] == binary && out[..out.Length] == out[..];
  }

  predicate UrlSafe(c: char) {
    'A' <= c <= 'Z' || 'a' <= c <= 'z' || '0' <= c <= '9' || c == '-' || c == '_'
  }

  function UrlChar(v: Sextet): char {
    if v == 62 then '-' else if v == 63 then '_' else Base64Char(v)
  }

  lemma PaddingChars(n: nat)
    ensures |Padding(n)| == n && forall i | 0 <= i < n :: Padding(n)[i] == '='
  {
  }

  lemma {:induction false} StripPadded(s: string, n: nat)
    requires s == "" || s[|s| - 1] != '='
    ensures StripPadding(s + Padding(n)) == s
  {
    PaddingChars(n);
    if n > 0 {
      var t := s + Padding(n);
      PaddingChars(n - 1);
      assert t[..|t| - 1] == s + Padding(n - 1);
      StripPadded(s, n - 1);
    } else {
      assert s + Padding(0) == s;
    }
  }

  lemma UrlAlphabet(x: seq<Sextet>, n: nat)
    ensures var s := StripPadding(Replace(Replace(Chars(x) + Padding(n), '+', '-'), '/', '_'));
      |s| == |x| && forall i | 0 <= i < |x| :: s[i] == UrlChar(x[i])
  {
    var s := Replace(Replace(Chars(x), '+', '-'), '/', '_');
    PaddingChars(n);
    forall i | 0 <= i < |x| ensures s[i] == UrlChar(x[i]) && s[i] != '=' {
      Base64CharValue(x[i]);
    }
    assert Replace(Replace(Chars(x) + Padding(n), '+', '-'), '/', '_') == s + Padding(n);
    StripPadded(s, n);
  }

  /** The encoding is the groups in the url-safe alphabet: no padding, length never 1 mod 4. */
  lemma EncodedForm(b: seq<Byte>)
    ensures var s := UrlEncode(b);
      && |s| == |ToSextets(b)| == (4 * |b| + 2) / 3 && |s| % 4 != 1
      && (forall i | 0 <= i < |s| :: s[i] == UrlChar(ToSextets(b)[i]) && UrlSafe(s[i]))
  {
    SextetCount(b);
    CountForms(|b|, |ToSextets(b)|);
    UrlAlphabet(ToSextets(b), (3 - |b| % 3) % 3);
  }

  lemma BackFromUrl(s: string, x: seq<Sextet>)
    requires |s| == |x| && forall i | 0 <= i < |x| :: s[i] == UrlChar(x[i])
    ensures Replace(Replace(s, '-', '+'), '_', '/') == Chars(x)
  {
  }

  /** Re-padding restores exactly what the encoder stripped. */
  lemma PaddingRestored(b: seq<Byte>)
    ensures Padded(UrlEncode(b)) == Btoa(b)
  {
    EncodedForm(b);
    SextetCount(b);
    CountForms(|b|, |ToSextets(b)|);
    BackFromUrl(UrlEncode(b), ToSextets(b));
  }

  lemma {:induction false} NoAsciiSpace(s: string)
    requires forall i | 0 <= i < |s| :: Base64Value(s[i]).Some? || s[i] == '='
    ensures WithoutAsciiSpace(s) == s
  {
    if s != "" {
      NoAsciiSpace(s[1..]);
    }
  }

  lemma LastHasValue(s: string)
    requires AllValues(s)
    ensures s != "" ==> s[|s| - 1] != '='
  {
    assert s != "" ==> Base64Value(s[|s| - 1]).Some?;
  }

  // What atob reads from padded groups.
  lemma AtobReads(s: string, n: nat)
    requires AllValues(s) && |s| % 4 != 1 && n == (4 - |s| % 4) % 4
    ensures Atob(s + Padding(n)) == Some(FromSextets(Values(s)))
  {
    LastHasValue(s);
    PadLength(|s|);
    hide *;
    PaddedChars(s, n);
    NoAsciiSpace(s + Padding(n));
    PaddingStripped(s, n);
    AtobOf(s + Padding(n), s);
  }

  lemma PadLength(length: nat)
    requires length % 4 != 1
    ensures (4 - length % 4) % 4 <= 2 && (length + (4 - length % 4) % 4) % 4 == 0
  {
  }

  lemma AtobOf(text: string, data: string)
    requires WithoutPadding(WithoutAsciiSpace(text)) == data && AllValues(data) && |data| % 4 != 1
    ensures Atob(text) == Some(FromSextets(Values(data)))
  {
    hide WithoutPadding, WithoutAsciiSpace, AllValues;
  }

  lemma PaddingStripped(s: string, n: nat)
    requires n <= 2 && (|s| + n) % 4 == 0 && (s != "" ==> s[|s| - 1] != '=')
    ensures WithoutPadding(s + Padding(n)) == s
  {
    PaddingChars(n);
    hide Padding;
    var t := s + Padding(n);
    assert t[..|s|] == s;
    assert forall i | |s| <= i < |t| :: t[i] == '=';
    assert s != "" ==> t[|s| - 1] == s[|s| - 1];
  }

  lemma PaddedChars(s: string, n: nat)
    requires AllValues(s)
    ensures var t := s + Padding(n);
      && |t| == |s| + n
      && (forall i | 0 <= i < |t| :: Base64Value(t[i]).Some? || t[i] == '=')
      && (forall i | |s| <= i < |t| :: t[i] == '=')
  {
    PaddingChars(n);
  }

  /** Decoding undoes encoding, for every byte sequence. */
  lemma DecodeEncode(b: seq<Byte>)
    ensures UrlDecode(UrlEncode(b)) == Some(b)
  {
    hide ToSextets, FromSextets;
    var s := Chars(ToSextets(b));
    PaddingRestored(b);
    SextetsRoundTrip(b);
    SextetCount(b);
    CountForms(|b|, |ToSextets(b)|);
    ValuesOfChars(ToSextets(b));
    AtobReads(s, (3 - |b| % 3) % 3);
  }

  lemma EncodeIsInjective(a: seq<Byte>, b: seq<Byte>)
    requires UrlEncode(a) == UrlEncode(b)
    ensures a == b
  {
    DecodeEncode(a);
    DecodeEncode(b);
  }

  function UrlValue(c: char): Sextet
    requires UrlSafe(c)
  {
    if c == '-' then 62 else if c == '_' then 63 else Base64Value(c).value
  }

  function UrlValues(s: string): (x: seq<Sextet>)
    requires forall i | 0 <= i < |s| :: UrlSafe(s[i])
    ensures |x| == |s| && forall i | 0 <= i < |s| :: x[i] == UrlValue(s[i])
  {
    seq(|s|, i requires 0 <= i < |s| => UrlValue(s[i]))
  }

  lemma UrlValueChar(c: char)
    requires UrlSafe(c)
    ensures UrlChar(UrlValue(c)) == c
  {
  }

  lemma UrlDecodeReads(s: string)
    requires forall i | 0 <= i < |s| :: UrlSafe(s[i])
    ensures UrlDecode(s) == if |s| % 4 == 1 then None else Some(FromSextets(UrlValues(s)))
  {
    var normalized := Replace(Replace(s, '-', '+'), '_', '/');
    NormalizedValues(s);
    hide Replace, FromSextets, Values, UrlValues, Atob, Padding;
    if |s| % 4 != 1 {
      AtobReads(normalized, (4 - |s| % 4) % 4);
    } else {
      OddGroupFails(normalized);
    }
  }

  lemma NormalizedValues(s: string)
    requires forall i | 0 <= i < |s| :: UrlSafe(s[i])
    ensures var normalized := Replace(Replace(s, '-', '+'), '_', '/');
      |normalized| == |s| && AllValues(normalized) && Values(normalized) == UrlValues(s)
  {
    var normalized := Replace(Replace(s, '-', '+'), '_', '/');
    forall i | 0 <= i < |s| ensures Base64Value(normalized[i]) == Some(UrlValue(s[i])) {
    }
  }

  // A text in the url-safe alphabet decodes unless its length is 1 mod 4, and it is the encoding of what it decodes to
  // exactly when the bits its last group leaves over are zero.
  lemma UrlSafeRoundTrip(s: string)
    requires AllUrlSafe(s)
    ensures UrlDecode(s).Some? <==> |s| % 4 != 1
    ensures |s| % 4 != 1 ==> (UrlEncode(UrlDecode(s).value) == s <==> NoSpareBits(UrlValues(s)))
  {
    var x := UrlValues(s);
    UrlDecodeReads(s);
    if |s| % 4 != 1 {
      EncodedForm(FromSextets(x));
      BytesRoundTrip(x);
      SameEncoding(s, UrlEncode(FromSextets(x)), ToSextets(FromSextets(x)));
    }
  }

  predicate AllUrlSafe(s: string) {
    forall i | 0 <= i < |s| :: UrlSafe(s[i])
  }

  /** Whatever the decoder accepts, padded, spaced or in the other alphabet too: a text is the encoding of what it decodes
      to if and only if it is in the url-safe alphabet and the bits that its last group leaves over are zero. */
  lemma EncodeDecode(s: string)
    requires UrlDecode(s).Some?
    ensures UrlEncode(UrlDecode(s).value) == s <==> AllUrlSafe(s) && NoSpareBits(UrlValues(s))
  {
    var b := UrlDecode(s).value;
    hide UrlDecode, UrlEncode, NoSpareBits, UrlValues, UrlSafe, ToSextets;
    EncodedForm(b);
    if AllUrlSafe(s) {
      UrlSafeRoundTrip(s);
    }
  }

  /** A text in the url-safe alphabet is accepted unless its length is 1 mod 4. */
  lemma UrlSafeDecodes(s: string)
    requires AllUrlSafe(s)
    ensures UrlDecode(s).Some? <==> |s| % 4 != 1
  {
    hide UrlDecode, UrlEncode, NoSpareBits, UrlValues, UrlSafe;
    UrlSafeRoundTrip(s);
  }

  lemma SameEncoding(s: string, t: string, x: seq<Sextet>)
    requires forall i | 0 <= i < |s| :: UrlSafe(s[i])
    requires |t| == |x| && forall i | 0 <= i < |t| :: t[i] == UrlChar(x[i])
    ensures t == s <==> x == UrlValues(s)
  {
    forall i | 0 <= i < |s| ensures UrlChar(UrlValue(s[i])) == s[i] {
      UrlValueChar(s[i]);
    }
    if t == s {
      forall i | 0 <= i < |s| ensures x[i] == UrlValue(s[i]) {
        UrlCharInjective(x[i], UrlValue(s[i]));
      }
    }
  }

  lemma UrlCharInjective(v: Sextet, w: Sextet)
    requires UrlChar(v) == UrlChar(w)
    ensures v == w
  {
    Base64CharValue(v);
    Base64CharValue(w);
  }

  // Three padding characters: two are dropped, the third is not in the alphabet.
  lemma OddGroupFails(normalized: string)
    requires AllValues(normalized) && |normalized| % 4 == 1
    ensures Atob(normalized + Padding((4 - |normalized| % 4) % 4)) == None
  {
    PaddedChars(normalized, 3);
    NoAsciiSpace(normalized + Padding(3));
    hide WithoutAsciiSpace, WithoutPadding, Padding, Base64Value;
    ThirdPaddingStays(normalized);
  }

  lemma ThirdPaddingStays(s: string)
    requires |s| % 4 == 1
    ensures var data := WithoutPadding(s + Padding(3));
      |data| == |s| + 1 && !AllValues(data)
  {
    PaddingChars(3);
    hide Padding;
    var t := s + Padding(3);
    assert t[|s|] == '=' && t[|s| + 1] == '=' && t[|s| + 2] == '=';
    var data := t[..|s| + 1];
    assert data[|s|] == '=';
  }

  /** Two different texts can decode alike, so decoding alone does not identify a text. */
  lemma SpareBitsCollide()
    ensures UrlDecode("QQ") == UrlDecode("QR") == Some([65])
  {
    hide UrlDecode;
    SpareBit('Q');
    SpareBit('R');
    assert "QQ" == ['Q', 'Q'] && "QR" == ['Q', 'R'];
  }

  lemma SpareBit(c: char)
    requires c == 'Q' || c == 'R'
    ensures UrlDecode(['Q', c]) == Some([65])
  {
    TwoChars(c);
    hide UrlDecode, UrlValues;
    UrlDecodeReads(['Q', c]);
  }

  lemma TwoChars(c: char)
    requires c == 'Q' || c == 'R'
    ensures forall i | 0 <= i < |['Q', c]| :: UrlSafe(['Q', c][i])
    ensures UrlValues(['Q', c]) == [16, if c == 'Q' then 16 else 17]
  {
  }

  /** Texts with padding and in the standard alphabet are read as well. */
  lemma StandardFormIsRead(s: string)
    requires |s| % 4 != 1
    ensures UrlDecode(Standard(s) + Padding((4 - |s| % 4) % 4)) == UrlDecode(s)
  {
    hide *;
    var n := (4 - |s| % 4) % 4;
    PadLength(|s|);
    StandardAgain(s, n);
    NoPadding(Standard(s) + Padding(n));
    PaddedIs(s, n);
    PaddedIs(Standard(s) + Padding(n), 0);
    DecodesPadded(s);
    DecodesPadded(Standard(s) + Padding(n));
  }

  function Standard(s: string): string {
    Replace(Replace(s, '-', '+'), '_', '/')
  }

  lemma StandardAgain(s: string, n: nat)
    ensures |Standard(s) + Padding(n)| == |Standard(s + Padding(n))| == |s| + n && |Standard(s)| == |s|
    ensures Standard(Standard(s) + Padding(n)) == Standard(s) + Padding(n)
  {
    PaddingChars(n);
    hide Padding;
  }

  lemma PaddedIs(s: string, n: nat)
    requires n == (4 - |Standard(s)| % 4) % 4
    ensures Padded(s) == Standard(s) + Padding(n)
  {
    hide Padding, Replace;
  }

  lemma DecodesPadded(s: string)
    ensures UrlDecode(s) == Atob(Padded(s))
  {
    hide Atob, Padded;
  }

  lemma NoPadding(s: string)
    ensures s + Padding(0) == s
  {
  }

  // ---- Sessions -----------------------------------------------------------------------------------

  datatype Session = Session(requestKey: seq<Byte>, responseKey: seq<Byte>)
  datatype StoredSession = StoredSession(requestKey: string, responseKey: string)

  function SerializeSession(session: Session): StoredSession {
    StoredSession(UrlEncode(session.requestKey), UrlEncode(session.responseKey))
  }

  function DeserializeSession(stored: StoredSession): Option<Session> {
    var request, response := UrlDecode(stored.requestKey), UrlDecode(stored.responseKey);
    if request.None? || response.None? then None else Some(Session(request.value, response.value))
  }

  /** A stored session is restored as it was, and two different sessions are stored differently. */
  lemma SessionSurvivesStorage(session: Session, other: Session)
    ensures DeserializeSession(SerializeSession(session)) == Some(session)
    ensures SerializeSession(session) == SerializeSession(other) <==> session == other
  {
    DecodeEncode(session.requestKey);
    DecodeEncode(session.responseKey);
    DecodeEncode(other.requestKey);
    DecodeEncode(other.responseKey);
  }
}

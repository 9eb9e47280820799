/** SOL amounts typed into a draft (normalizeSolDecimalDraftValue in
    apps/browser-demo/src/connectorDrafting.ts). */
module SolAmount {
  import Sequences
  import opened Wrappers
  import opened Text

  const LAMPORTS_PER_SOL := 1_000_000_000

  predicate Digits(s: string) {
    forall i | 0 <= i < |s| :: IsDigit(s[i])
  }

  function DotAt(s: string): (k: nat)
    ensures k <= |s|
    ensures k < |s| ==> s[k] == '.'
    ensures forall i | 0 <= i < k :: s[i] != '.'
  {
    if s == "" || s[0] == '.' then 0 else 1 + DotAt(s[1..])
  }

  // The two sides of s.split('.') for a text with at most one dot.
  function Whole(s: string): string {
    s[..DotAt(s)]
  }

  function Fraction(s: string): string {
    if DotAt(s) == |s| then "" else s[DotAt(s) + 1..]
  }

  // digits, digits with a dot before, inside or after them: at least one digit, at most one dot
  predicate IsDecimal(s: string) {
    Digits(Whole(s)) && Digits(Fraction(s)) && (Whole(s) != "" || Fraction(s) != "")
  }

  function PadEnd9(s: string): string {
    if |s| < 9 then s + Zeros(9 - |s|) else s
  }

  function PadStart9(s: string): string {
    if |s| < 9 then Zeros(9 - |s|) + s else s
  }

  function StripZeros(s: string): (r: string)
    ensures |r| <= |s| && r == s[..|r|]
    ensures s == r + Zeros(|s| - |r|)
  {
    if s != "" && s[|s| - 1] == '0' then
      var front := s[..|s| - 1];
      assert s == front + "0";
      var r := StripZeros(front);
      assert s == r + (Zeros(|front| - |r|) + "0");
      r
    else s
  }

  lemma {:induction false} StrippedEnd(s: string)
    ensures var r := StripZeros(s); r != "" ==> r[|r| - 1] != '0'
  {
    if s != "" && s[|s| - 1] == '0' {
      StrippedEnd(s[..|s| - 1]);
    }
  }

  function FormatLamports(lamports: nat): string {
    var whole, fraction := lamports / LAMPORTS_PER_SOL, lamports % LAMPORTS_PER_SOL;
    if fraction == 0 then Print(whole, 10)
    else Print(whole, 10) + "." + StripZeros(PadStart9(Print(fraction, 10)))
  }

  function NormalizeSolDecimal(value: string): string {
    var trimmed := Trim(value);
    if !IsDecimal(trimmed) then trimmed
    else if |Fraction(trimmed)| > 9 then trimmed
    else
      var lamports := Parse(Whole(trimmed), 10) * LAMPORTS_PER_SOL + Parse(PadEnd9(Fraction(trimmed)), 10);
      if lamports <= 0 then trimmed else FormatLamports(lamports)
  }

  // ---- Meaning ------------------------------------------------------------------------

  /** The lamports an amount denotes: its digits without the dot, scaled by the places it leaves open. */
  function Lamports(s: string): Option<nat> {
    if IsDecimal(s) && |Fraction(s)| <= 9
    then Some(Parse(Whole(s) + Fraction(s), 10) * Pow10(9 - |Fraction(s)|))
    else None
  }

  predicate PositiveAmount(s: string) {
    Lamports(s).Some? && Lamports(s).value > 0
  }

  lemma ComputedLamports(s: string)
    requires IsDecimal(s) && |Fraction(s)| <= 9
    ensures Lamports(s) == Some(Parse(Whole(s), 10) * LAMPORTS_PER_SOL + Parse(PadEnd9(Fraction(s)), 10))
  {
    var w, f := Whole(s), Fraction(s);
    var open := 9 - |f|;
    ParseConcat(w, f);
    ParseConcat(f, Zeros(open));
    ParseZeros(open);
    assert f + Zeros(open) == PadEnd9(f);
    Pow10Add(|f|, open);
    Pow9();
    hide IsDecimal, Parse, Pow10, Zeros, PadEnd9, Whole, Fraction;
    Scale(Parse(w, 10), Pow10(|f|), Parse(f, 10), Pow10(open));
  }

  lemma Scale(w: nat, p: nat, f: nat, q: nat)
    ensures (w * p + f) * q == w * (p * q) + f * q
  {
  }

  lemma Pow9()
    ensures Pow10(9) == LAMPORTS_PER_SOL
  {
    assert Pow10(3) == 1000;
    Pow10Add(3, 3);
    Pow10Add(6, 3);
  }

  lemma Parts(whole: string, fraction: string)
    requires Digits(whole)
    ensures Whole(whole) == whole && Fraction(whole) == ""
    ensures Whole(whole + "." + fraction) == whole && Fraction(whole + "." + fraction) == fraction
  {
    var s := whole + "." + fraction;
    assert s[|whole|] == '.';
    assert forall i | 0 <= i < |whole| :: s[i] == whole[i];
    assert DotAt(s) == |whole| && DotAt(whole) == |whole|;
    assert s[..|whole|] == whole && s[|whole| + 1..] == fraction;
  }

  lemma LamportsOfWhole(n: nat)
    ensures Lamports(Print(n, 10)) == Some(n * LAMPORTS_PER_SOL)
  {
    var w := Print(n, 10);
    Parts(w, "");
    ParsePrint(n, 10);
    Pow9();
    assert w + "" == w;
  }

  lemma LamportsOfPair(n: nat, fraction: string)
    requires Digits(fraction) && 0 < |fraction| <= 9
    ensures Lamports(Print(n, 10) + "." + fraction) == Some(n * LAMPORTS_PER_SOL + Parse(PadEnd9(fraction), 10))
  {
    var w := Print(n, 10);
    Parts(w, fraction);
    ParsePrint(n, 10);
    ComputedLamports(w + "." + fraction);
  }

  lemma StrippedFraction(fraction: nat)
    requires 0 < fraction < LAMPORTS_PER_SOL
    ensures var f := StripZeros(PadStart9(Print(fraction, 10)));
      Digits(f) && 0 < |f| <= 9 && Parse(PadEnd9(f), 10) == fraction
  {
    PaddedFraction(fraction);
    StrippedNine(PadStart9(Print(fraction, 10)));
  }

  lemma StrippedNine(nine: string)
    requires |nine| == 9 && Digits(nine) && Parse(nine, 10) > 0
    ensures var f := StripZeros(nine); Digits(f) && f != "" && PadEnd9(f) == nine
  {
    var f := StripZeros(nine);
    var zeros := Zeros(9);
    ParseZeros(9);
    assert f == "" ==> nine == zeros;
    assert |f| == 9 ==> f == nine;
  }

  lemma PaddedFraction(fraction: nat)
    requires 0 < fraction < LAMPORTS_PER_SOL
    ensures var nine := PadStart9(Print(fraction, 10));
      |nine| == 9 && Digits(nine) && Parse(nine, 10) == fraction
  {
    var digits := Print(fraction, 10);
    FractionDigits(fraction);
    hide *;
    ParsePadded(9 - |digits|, digits);
    PadsToNine(digits);
  }

  lemma FractionDigits(fraction: nat)
    requires 0 < fraction < LAMPORTS_PER_SOL
    ensures var digits := Print(fraction, 10);
      |digits| <= 9 && (forall c | c in digits :: IsDigit(c)) && Parse(digits, 10) == fraction
  {
    Pow9();
    PrintLength(fraction, 9);
    ParsePrint(fraction, 10);
    hide Numeral, Pow10, Parse;
  }

  lemma PadsToNine(digits: string)
    requires |digits| <= 9 && forall c | c in digits :: IsDigit(c)
    ensures PadStart9(digits) == Zeros(9 - |digits|) + digits && |PadStart9(digits)| == 9 && Digits(PadStart9(digits))
  {
    var zeros := Zeros(9 - |digits|);
    assert forall i | 0 <= i < |digits| :: digits[i] in digits;
    hide Zeros;
    assert |digits| == 9 ==> zeros == "";
    Sequences.NoneThen(digits);
  }

  /** The printed form denotes the lamports it was printed from. */
  lemma FormatDenotes(lamports: nat)
    requires lamports > 0
    ensures Lamports(FormatLamports(lamports)) == Some(lamports)
    ensures Trim(FormatLamports(lamports)) == FormatLamports(lamports)
  {
    hide Trim, Lamports, Print, StripZeros, PadStart9;
    var whole, fraction := lamports / LAMPORTS_PER_SOL, lamports % LAMPORTS_PER_SOL;
    assert lamports == whole * LAMPORTS_PER_SOL + fraction;
    if fraction == 0 {
      LamportsOfWhole(whole);
      TrimFixed(Print(whole, 10));
    } else {
      var f := StripZeros(PadStart9(Print(fraction, 10)));
      StrippedFraction(fraction);
      LamportsOfPair(whole, f);
      TrimmedPair(whole, f);
    }
  }

  lemma TrimmedPair(n: nat, fraction: string)
    requires Digits(fraction) && fraction != ""
    ensures Trim(Print(n, 10) + "." + fraction) == Print(n, 10) + "." + fraction
  {
    var s := Print(n, 10) + "." + fraction;
    assert s[0] == Print(n, 10)[0] && s[|s| - 1] == fraction[|fraction| - 1];
    TrimFixed(s);
  }

  /** An amount is digits, with a dot before, inside or after them or with none. */
  lemma DecimalIff(s: string)
    ensures IsDecimal(s) <==>
      exists w, f :: Digits(w) && Digits(f) && ((s == w && w != "") || (s == w + "." + f && w + f != ""))
  {
    if IsDecimal(s) {
      var w, f := Whole(s), Fraction(s);
      assert DotAt(s) < |s| ==> s == w + "." + f;
      assert DotAt(s) == |s| ==> s == w;
    }
    if w, f :| Digits(w) && Digits(f) && ((s == w && w != "") || (s == w + "." + f && w + f != "")) {
      Parts(w, f);
    }
  }

  lemma LamportsFrom(s: string, w: string, f: string)
    requires Whole(s) == w && Fraction(s) == f && Digits(w) && Digits(f) && (w != "" || f != "")
    ensures Lamports(s) == if |f| <= 9 then Some(Parse(w + f, 10) * Pow10(9 - |f|)) else None
  {
    hide Whole, Fraction, Digits, Parse, Pow10, DotAt;
  }

  /** What it denotes: its digits without the dot, scaled by the places it leaves open. */
  lemma LamportsOf(w: string, f: string)
    requires Digits(w) && Digits(f) && (w != "" || f != "")
    ensures Lamports(w + "." + f) == if |f| <= 9 then Some(Parse(w + f, 10) * Pow10(9 - |f|)) else None
    ensures w != "" ==> Lamports(w) == Some(Parse(w, 10) * 1_000_000_000)
  {
    Parts(w, f);
    Pow9();
    hide *;
    LamportsFrom(w + "." + f, w, f);
    if w != "" {
      NoDigits();
      LamportsFrom(w, w, "");
      Sequences.NoneThen(w);
    }
  }

  lemma NoDigits()
    ensures Digits("")
  {
  }

  lemma {:induction false} PrintStarts(n: nat)
    ensures Digits(Print(n, 10)) && Print(n, 10) != "" && (n > 0 ==> Print(n, 10)[0] != '0') && (n == 0 ==> Print(n, 10) == "0")
  {
    PrintMore(n, 10);
    if n >= 10 {
      PrintStarts(n / 10);
    }
  }

  /** The normal form has no superfluous digit: no zero in front but a lone one, none at the end of the fraction, and no
      dot without a fraction. */
  lemma NormalFormIsShortest(value: string) returns (w: string, f: string)
    requires PositiveAmount(Trim(value))
    ensures NormalizeSolDecimal(value) == if f == "" then w else w + "." + f
    ensures Digits(w) && Digits(f) && w != "" && (w == "0" || w[0] != '0') && (f != "" ==> f[|f| - 1] != '0')
  {
    NormalizeIsFormat(value);
    hide NormalizeSolDecimal, Trim, Lamports, Print, StripZeros, PadStart9;
    var lamports := Lamports(Trim(value)).value;
    w := Print(lamports / LAMPORTS_PER_SOL, 10);
    PrintStarts(lamports / LAMPORTS_PER_SOL);
    var fraction := lamports % LAMPORTS_PER_SOL;
    if fraction == 0 {
      f := "";
    } else {
      f := StripZeros(PadStart9(Print(fraction, 10)));
      StrippedFraction(fraction);
      StrippedEnd(PadStart9(Print(fraction, 10)));
    }
  }

  lemma NormalizeIsFormat(value: string)
    ensures var s := Trim(value);
      NormalizeSolDecimal(value) == if PositiveAmount(s) then FormatLamports(Lamports(s).value) else s
  {
    hide Trim, Parse, FormatLamports, PadEnd9, Whole, Fraction;
    var s := Trim(value);
    if IsDecimal(s) && |Fraction(s)| <= 9 {
      ComputedLamports(s);
      var lamports := Parse(Whole(s), 10) * LAMPORTS_PER_SOL + Parse(PadEnd9(Fraction(s)), 10);
      assert Lamports(s) == Some(lamports);
    } else {
      assert Lamports(s) == None;
    }
  }

  /** Normalizing keeps the amount, and leaves every text that is not a positive amount as it is. */
  lemma NormalizeKeepsLamports(value: string)
    ensures Lamports(NormalizeSolDecimal(value)) == Lamports(Trim(value))
    ensures !PositiveAmount(Trim(value)) ==> NormalizeSolDecimal(value) == Trim(value)
  {
    NormalizeIsFormat(value);
    if PositiveAmount(Trim(value)) {
      FormatDenotes(Lamports(Trim(value)).value);
    }
  }

  lemma NormalizeIsIdempotent(value: string)
    ensures NormalizeSolDecimal(NormalizeSolDecimal(value)) == NormalizeSolDecimal(value)
  {
    NormalizeIsFormat(value);
    NormalizeIsFormat(NormalizeSolDecimal(value));
    TrimTwice(value);
    if PositiveAmount(Trim(value)) {
      FormatDenotes(Lamports(Trim(value)).value);
    }
  }

  /** Two positive amounts get one normal form if and only if they are the same number of lamports. */
  lemma NormalFormIsCanonical(a: string, b: string)
    requires PositiveAmount(Trim(a)) && PositiveAmount(Trim(b))
    ensures NormalizeSolDecimal(a) == NormalizeSolDecimal(b) <==> Lamports(Trim(a)) == Lamports(Trim(b))
  {
    NormalizeIsFormat(a);
    NormalizeIsFormat(b);
    FormatDenotes(Lamports(Trim(a)).value);
    FormatDenotes(Lamports(Trim(b)).value);
  }

  /** Zero has no normal form: "0", "0.0", "00.000" denote the same lamports and stay different. */
  lemma ZeroIsNotCanonical(m: nat, n: nat)
    requires m > 0 && n <= 9
    ensures var a, b := Zeros(m), Zeros(m) + "." + Zeros(n);
      && Lamports(a) == Lamports(b) == Some(0)
      && NormalizeSolDecimal(a) == a != b == NormalizeSolDecimal(b)
  {
    var a, b := Zeros(m), Zeros(m) + "." + Zeros(n);
    ZeroTexts(m, n);
    hide *;
    StaysZero(a);
    StaysZero(b);
    assert |b| == |a| + 1 + |Zeros(n)|;
  }

  lemma StaysZero(s: string)
    requires Lamports(s) == Some(0) && Trim(s) == s
    ensures NormalizeSolDecimal(s) == s
  {
    hide NormalizeSolDecimal, Lamports, Trim;
    NormalizeKeepsLamports(s);
  }

  lemma ZeroTexts(m: nat, n: nat)
    requires m > 0 && n <= 9
    ensures var a, b := Zeros(m), Zeros(m) + "." + Zeros(n);
      Lamports(a) == Lamports(b) == Some(0) && Trim(a) == a && Trim(b) == b
  {
    hide *;
    var a, b := Zeros(m), Zeros(m) + "." + Zeros(n);
    ZeroPairTrimmed(m, n);
    ZerosAreDigits(m);
    ZerosAreDigits(n);
    Parts(a, Zeros(n));
    ZerosConcat(m, n);
    Sequences.NoneThen(a);
    ZeroAmount(a, a, "", m);
    ZeroAmount(b, a, Zeros(n), m + n);
  }

  lemma ZerosAreDigits(n: nat)
    ensures Digits(Zeros(n)) && Digits("") && |Zeros(n)| == n
  {
    hide Zeros;
  }

  lemma ZeroPairTrimmed(m: nat, n: nat)
    requires m > 0
    ensures Trim(Zeros(m)) == Zeros(m) && Trim(Zeros(m) + "." + Zeros(n)) == Zeros(m) + "." + Zeros(n)
  {
    hide Zeros, Trim;
    var b := Zeros(m) + "." + Zeros(n);
    assert b[0] == '0' && b[|b| - 1] == if n == 0 then '.' else Zeros(n)[n - 1];
    TrimFixed(Zeros(m));
    TrimFixed(b);
  }

  lemma {:induction false} ZerosConcat(m: nat, n: nat)
    ensures Zeros(m) + Zeros(n) == Zeros(m + n)
  {
    if n > 0 {
      ZerosConcat(m, n - 1);
    }
  }

  lemma ZeroAmount(s: string, whole: string, fraction: string, n: nat)
    requires Whole(s) == whole && Fraction(s) == fraction && Digits(whole) && Digits(fraction)
    requires whole != "" && |fraction| <= 9 && whole + fraction == Zeros(n)
    ensures Lamports(s) == Some(0)
  {
    hide Whole, Fraction, DotAt, Zeros, Parse, Digits;
    ParseZeros(n);
    NoneOf(Pow10(9 - |fraction|));
  }
}

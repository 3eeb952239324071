/** Base58: a string of bytes re-read as a number and written again in another base. */
module Base58 {
  import opened Wrappers
  import opened Bytes
  import opened NumberTheory
  import opened Sequences

  // ---- Positional notation ----

  predicate DigitsBelow(s: seq<int>, base: int) {
    forall i :: 0 <= i < |s| ==> 0 <= s[i] < base
  }

  /** The value of a list of digits, least significant first. */
  function Value(s: seq<int>, base: int): int {
    if s == [] then 0 else s[0] + base * Value(s[1..], base)
  }

  /** The value of a list of digits, most significant first. */
  function BigEndian(s: seq<int>, base: int): int {
    Value(Reversed(s), base)
  }

  /** No digit is wasted on a leading zero. */
  predicate Canonical(s: seq<int>) {
    s == [] || s[|s| - 1] != 0
  }

  /** The digits of a number, least significant first. */
  function DigitsOf(n: nat, base: int): (s: seq<int>)
    requires base > 1
    ensures DigitsBelow(s, base)
  {
    if n == 0 then []
    else
      QuotientIsSmaller(n, base);
      [n % base] + DigitsOf(n / base, base)
  }

  lemma QuotientIsSmaller(n: nat, base: int)
    requires base > 1 && n > 0
    ensures 0 <= n / base < n
  {
    var q, r := n / base, n % base;
    assert n == base * q + r;
    HalvesAtLeast(q, base, n);
  }

  lemma HalvesAtLeast(q: int, base: int, n: int)
    requires base > 1 && 0 <= q && base * q <= n && n > 0
    ensures q < n
  {
    assert (base - 1) * q >= q;
  }

  lemma {:induction false} ValueIsNat(s: seq<int>, base: int)
    requires base > 0 && DigitsBelow(s, base)
    ensures 0 <= Value(s, base)
  {
    if s != [] {
      ValueIsNat(s[1..], base);
    }
  }

  lemma FirstDigit(n: nat, base: int)
    requires base > 1 && n > 0
    ensures n / base >= 0 && DigitsOf(n, base) == [n % base] + DigitsOf(n / base, base)
    ensures Value(DigitsOf(n, base), base) == n % base + base * Value(DigitsOf(n / base, base), base)
  {
    QuotientIsSmaller(n, base);
    var rest := DigitsOf(n / base, base);
    assert ([n % base] + rest)[1..] == rest;
  }

  lemma {:induction false} ValueOfDigits(n: nat, base: int)
    requires base > 1
    ensures Value(DigitsOf(n, base), base) == n && Canonical(DigitsOf(n, base))
    ensures n > 0 ==> DigitsOf(n, base) != []
  {
    hide Value, DigitsOf;
    if n == 0 {
      NoDigits(base);
    } else {
      QuotientIsSmaller(n, base);
      FirstDigit(n, base);
      ValueOfDigits(n / base, base);
      assert n == base * (n / base) + n % base;
      DivisionOfSmall(n, base);
      if n / base == 0 {
        NoDigits(base);
      }
    }
  }

  lemma NoDigits(base: int)
    requires base > 1
    ensures DigitsOf(0, base) == [] && Value([], base) == 0
  {
  }

  /** A number has one canonical list of digits. */
  lemma {:induction false} DigitsAreUnique(s: seq<int>, base: int)
    requires base > 1 && DigitsBelow(s, base) && Canonical(s)
    ensures Value(s, base) >= 0 && s == DigitsOf(Value(s, base), base)
    ensures s != [] ==> Value(s, base) > 0
  {
    if s != [] {
      var rest := s[1..];
      assert DigitsBelow(rest, base);
      assert Canonical(rest) by {
        assert rest != [] ==> rest[|rest| - 1] == s[|s| - 1];
      }
      DigitsAreUnique(rest, base);
      var v := Value(rest, base);
      assert Value(s, base) == v * base + s[0];
      assert rest == [] ==> s[0] > 0;
      assert v > 0 ==> v * base > 0;
      DivisionIsUnique(Value(s, base), base, v, s[0]);
      assert s == [s[0]] + rest;
    }
  }

  lemma {:induction false} ValueOfAppend(s: seq<int>, d: int, base: int)
    ensures Value(s + [d], base) == Value(s, base) + Pow(base, |s|) * d
  {
    if s == [] {
      assert [d][1..] == [];
    } else {
      var v, p := Value(s[1..], base), Pow(base, |s| - 1);
      ValueOfAppend(s[1..], d, base);
      assert (s + [d])[1..] == s[1..] + [d];
      Distribute(base, v, p, d);
    }
  }

  lemma Distribute(base: int, v: int, p: int, d: int)
    ensures base * (v + p * d) == base * v + (base * p) * d
  {
  }

  /** A list whose top digit is zero is worth less than its length could carry. */
  lemma {:induction false} ValueIsBounded(s: seq<int>, base: int)
    requires base > 1 && DigitsBelow(s, base)
    ensures Value(s, base) < Pow(base, |s|)
  {
    if s != [] {
      ValueIsBounded(s[1..], base);
      BoundStep(s[0], base, Value(s[1..], base), Pow(base, |s| - 1));
    }
  }

  lemma BoundStep(d: int, base: int, v: int, p: int)
    requires 0 <= d < base && v < p
    ensures d + base * v < base * p
  {
    assert base * (p - v - 1) >= 0;
    assert base * (p - v - 1) == base * p - base * v - base;
  }

  lemma TopDigit(s: seq<int>, base: int)
    requires base > 1 && DigitsBelow(s, base) && s != []
    ensures Pow(base, |s| - 1) <= Value(s, base) <==> s[|s| - 1] != 0
  {
    hide Value, Pow;
    var init, d := s[..|s| - 1], s[|s| - 1];
    assert s == init + [d];
    ValueOfAppend(init, d, base);
    ValueIsBounded(init, base);
    ValueIsNat(init, base);
    TopAlgebra(Value(init, base), Pow(base, |init|), d);
  }

  lemma TopAlgebra(v: int, p: int, d: int)
    requires 0 <= v < p && 0 <= d
    ensures p <= v + p * d <==> d != 0
  {
    if d != 0 {
      assert p * (d - 1) >= 0;
    }
  }

  // ---- Leading zeros, and the conversion ----

  function LeadingZeros(s: seq<int>): (n: nat)
    ensures n <= |s| && forall i :: 0 <= i < n ==> s[i] == 0
    ensures n < |s| ==> s[n] != 0
  {
    if s == [] || s[0] != 0 then 0 else 1 + LeadingZeros(s[1..])
  }

  function Zeros(n: nat): (s: seq<int>)
    ensures |s| == n && forall i :: 0 <= i < n ==> s[i] == 0
  {
    seq(n, _ => 0)
  }

  /** As many leading zeros as there were, then the same number in the other base. */
  function Converted(s: seq<int>, from: int, to: int): seq<int>
    requires from > 1 && to > 1 && DigitsBelow(s, from)
  {
    ReversedBelow(s, from);
    ValueIsNat(Reversed(s), from);
    Zeros(LeadingZeros(s)) + Reversed(DigitsOf(BigEndian(s, from), to))
  }

  lemma ReversedBelow(s: seq<int>, base: int)
    requires DigitsBelow(s, base)
    ensures DigitsBelow(Reversed(s), base)
  {
  }

  lemma {:induction false} ValueOfPaddedDigits(s: seq<int>, n: nat, base: int)
    ensures Value(s + Zeros(n), base) == Value(s, base)
  {
    if n == 0 {
      assert s + Zeros(0) == s;
    } else {
      ValueOfPaddedDigits(s, n - 1, base);
      assert s + Zeros(n) == (s + Zeros(n - 1)) + [0];
      ValueOfAppend(s + Zeros(n - 1), 0, base);
    }
  }

  /** Splitting off the leading zeros leaves a canonical number of the same value. */
  lemma WithoutLeadingZeros(s: seq<int>, base: int)
    requires base > 1 && DigitsBelow(s, base)
    ensures
      var rest := s[LeadingZeros(s)..];
      && Canonical(Reversed(rest)) && BigEndian(s, base) == BigEndian(rest, base) >= 0
      && Reversed(rest) == DigitsOf(BigEndian(rest, base), base)
  {
    var n := LeadingZeros(s);
    var rest := s[n..];
    assert Reversed(s) == Reversed(rest) + Zeros(n);
    ValueOfPaddedDigits(Reversed(rest), n, base);
    ReversedBelow(rest, base);
    DigitsAreUnique(Reversed(rest), base);
  }

  lemma {:induction false} LeadingZerosOfPadded(n: nat, s: seq<int>)
    requires s == [] || s[0] != 0
    ensures LeadingZeros(Zeros(n) + s) == n
  {
    if n == 0 {
      assert Zeros(0) + s == s;
    } else {
      LeadingZerosOfPadded(n - 1, s);
      assert (Zeros(n) + s)[1..] == Zeros(n - 1) + s;
    }
  }

  lemma ConvertedBelow(s: seq<int>, from: int, to: int)
    requires from > 1 && to > 1 && DigitsBelow(s, from)
    ensures DigitsBelow(Converted(s, from, to), to)
  {
    WithoutLeadingZeros(s, from);
    ReversedBelow(DigitsOf(BigEndian(s, from), to), to);
  }

  lemma ReversedTwice(s: seq<int>)
    ensures Reversed(Reversed(s)) == s
  {
  }

  /** A conversion keeps the leading zeros and the value. */
  lemma ConversionKeeps(s: seq<int>, from: int, to: int)
    requires from > 1 && to > 1 && DigitsBelow(s, from)
    ensures DigitsBelow(Converted(s, from, to), to)
    ensures LeadingZeros(Converted(s, from, to)) == LeadingZeros(s)
    ensures BigEndian(s, from) >= 0 && BigEndian(Converted(s, from, to), to) == BigEndian(s, from)
  {
    hide Value, Pow;
    ConvertedBelow(s, from, to);
    WithoutLeadingZeros(s, from);
    var n, t, value := LeadingZeros(s), Converted(s, from, to), BigEndian(s, from);
    var digits := DigitsOf(value, to);
    ValueOfDigits(value, to);
    hide DigitsOf;
    ReversedTwice(digits);
    assert Reversed(digits) == [] || Reversed(digits)[0] != 0;
    LeadingZerosOfPadded(n, Reversed(digits));
    hide LeadingZeros;
    assert t[n..] == Reversed(digits);
    WithoutLeadingZeros(t, to);
  }

  /** Converting there and back gives back every list of digits, leading zeros and all. */
  lemma ConversionRoundTrip(s: seq<int>, from: int, to: int)
    requires from > 1 && to > 1 && DigitsBelow(s, from)
    ensures DigitsBelow(Converted(s, from, to), to)
    ensures Converted(Converted(s, from, to), to, from) == s
  {
    hide Value, Pow, DigitsOf, LeadingZeros;
    ConversionKeeps(s, from, to);
    WithoutLeadingZeros(s, from);
    var n := LeadingZeros(s);
    ReversedTwice(s[n..]);
    assert s == Zeros(n) + s[n..];
  }

  // ---- The alphabet ----

  /** The digits and letters without 0, O, I and l. */
  const ALPHABET := "123456789" + "ABCDEFGH" + "JKLMN" + "PQRSTUVWXYZ" + "abcdefghijk" + "mnopqrstuvwxyz"

  function IndexIn(c: char, k: nat): Option<int>
    requires k <= 58
  {
    if k == 0 then None else if ALPHABET[k - 1] == c then Some(k - 1) else IndexIn(c, k - 1)
  }

  function DigitOf(c: char): Option<int> {
    IndexIn(c, 58)
  }

  predicate InAlphabet(text: string) {
    forall i :: 0 <= i < |text| ==> DigitOf(text[i]).Some?
  }

  lemma {:induction false} IndexInIs(c: char, k: nat)
    requires k <= 58
    ensures IndexIn(c, k).Some? ==> 0 <= IndexIn(c, k).value < k && ALPHABET[IndexIn(c, k).value] == c
  {
    if k > 0 && ALPHABET[k - 1] != c {
      IndexInIs(c, k - 1);
    }
  }

  predicate AscendsTo(k: nat)
    requires k <= 58
  {
    k < 2 || (ALPHABET[k - 2] < ALPHABET[k - 1] && AscendsTo(k - 1))
  }

  lemma AlphabetIsAscending()
    ensures AscendsTo(58)
  {
    assert AscendsTo(10);
    assert AscendsTo(20);
    assert AscendsTo(30);
    assert AscendsTo(40);
    assert AscendsTo(50);
  }

  /** The alphabet is in ascending order, so no character stands for two digits. */
  lemma {:induction false} AlphabetAscends(i: nat, j: nat, k: nat)
    requires i < j < k <= 58 && AscendsTo(k)
    ensures ALPHABET[i] < ALPHABET[j]
  {
    if j < k - 1 {
      AlphabetAscends(i, j, k - 1);
    } else if i < j - 1 {
      AlphabetAscends(i, j - 1, k - 1);
    }
  }

  lemma {:induction false} IndexInFinds(d: nat, k: nat)
    requires d < k <= 58
    ensures IndexIn(ALPHABET[d], k) == Some(d)
  {
    if d < k - 1 {
      AlphabetIsAscending();
      AlphabetAscends(d, k - 1, 58);
      IndexInFinds(d, k - 1);
    }
  }

  function TextDigits(text: string): (s: seq<int>)
    requires InAlphabet(text)
    ensures |s| == |text| && forall i :: 0 <= i < |s| ==> s[i] == DigitOf(text[i]).value
  {
    seq(|text|, i requires 0 <= i < |text| => DigitOf(text[i]).value)
  }

  function DigitsText(s: seq<int>): (text: string)
    requires DigitsBelow(s, 58)
    ensures |text| == |s| && forall i :: 0 <= i < |s| ==> text[i] == ALPHABET[s[i]]
  {
    seq(|s|, i requires 0 <= i < |s| => ALPHABET[s[i]])
  }

  lemma TextRoundTrip(s: seq<int>)
    requires DigitsBelow(s, 58)
    ensures InAlphabet(DigitsText(s)) && TextDigits(DigitsText(s)) == s
  {
    forall i | 0 <= i < |s| ensures DigitOf(DigitsText(s)[i]) == Some(s[i]) {
      IndexInFinds(s[i], 58);
    }
  }

  lemma DigitsRoundTrip(text: string)
    requires InAlphabet(text)
    ensures DigitsBelow(TextDigits(text), 58) && DigitsText(TextDigits(text)) == text
  {
    forall i | 0 <= i < |text| ensures 0 <= TextDigits(text)[i] < 58 && ALPHABET[TextDigits(text)[i]] == text[i] {
      IndexInIs(text[i], 58);
    }
  }

  // ---- The codec ----

  function Encoded(bytes: seq<Byte>): string {
    ConvertedBelow(bytes, 256, 58);
    DigitsText(Converted(bytes, 256, 58))
  }

  /** None for a text with a character outside the alphabet. */
  function Decoded(text: string): Option<seq<Byte>> {
    if !InAlphabet(text) then None
    else
      DigitsRoundTrip(text);
      ConvertedBelow(TextDigits(text), 58, 256);
      var s := Converted(TextDigits(text), 58, 256);
      Some(seq(|s|, i requires 0 <= i < |s| => s[i]))
  }

  /** Decoding undoes encoding, for every sequence of bytes. */
  lemma DecodeAfterEncode(bytes: seq<Byte>)
    ensures Decoded(Encoded(bytes)) == Some(bytes)
  {
    ConversionRoundTrip(bytes, 256, 58);
    TextRoundTrip(Converted(bytes, 256, 58));
    var back := Decoded(Encoded(bytes)).value;
    var same: seq<int> := Converted(Converted(bytes, 256, 58), 58, 256);
    assert forall i :: 0 <= i < |back| ==> back[i] == same[i];
    assert back == bytes;
  }

  /** Encoding undoes decoding, for every text over the alphabet; every other text is refused. */
  lemma EncodeAfterDecode(text: string)
    ensures Decoded(text).Some? <==> InAlphabet(text)
    ensures Decoded(text).Some? ==> Encoded(Decoded(text).value) == text
  {
    if InAlphabet(text) {
      DigitsRoundTrip(text);
      var digits := TextDigits(text);
      ConversionRoundTrip(digits, 58, 256);
      var bytes: seq<int> := Decoded(text).value;
      assert bytes == Converted(digits, 58, 256);
    }
  }

  // ---- The loops ----

  /** The carry stays below the multiplier: at most 255 when encoding, at most 57 when decoding. */
  lemma CarryBound(carry: int, d: int, mul: int, base: int)
    requires base > 1 && 0 <= carry < mul && 0 <= d < base
    ensures 0 <= (carry + d * mul) / base < mul
  {
    var c := carry + d * mul;
    assert 0 <= d * mul <= (base - 1) * mul;
    assert c < base * mul;
    assert c == base * (c / base) + c % base;
    QuotientBelow(c / base, c % base, mul, base);
  }

  lemma QuotientBelow(q: int, r: int, mul: int, base: int)
    requires base > 1 && 0 <= r < base && 0 <= base * q + r < base * mul
    ensures 0 <= q < mul
  {
    assert q >= mul ==> base * (q - mul) >= 0;
    assert q < 0 ==> base * q <= -base;
  }

  /** One digit settled: what it gives up goes into the carry. */
  lemma CarryStep(low: int, p: int, carry: int, d: int, rest: int, mul: int, base: int)
    requires base > 1
    ensures
      var c := carry + d * mul;
      low + p * (c % base) + (base * p) * (c / base + mul * rest) == low + p * (carry + mul * (d + base * rest))
  {
    var c := carry + d * mul;
    var q, r := c / base, c % base;
    assert c == base * q + r;
    CarryAlgebra(p, carry, d, rest, mul, base, q, r);
  }

  lemma CarryAlgebra(p: int, carry: int, d: int, rest: int, mul: int, base: int, q: int, r: int)
    requires carry + d * mul == base * q + r
    ensures p * r + (base * p) * (q + mul * rest) == p * (carry + mul * (d + base * rest))
  {
    assert (base * p) * (q + mul * rest) == p * (base * q + base * (mul * rest));
    assert carry + mul * (d + base * rest) == base * q + r + base * (mul * rest);
    assert p * r + p * (base * q + base * (mul * rest)) == p * (r + (base * q + base * (mul * rest)));
  }

  lemma DigitSettled(before: seq<int>, out: seq<int>, digits: seq<int>, j: nat, carry: int, mul: int, base: int)
    requires base > 1 && j < |digits| == |before| == |out| && before[j] == digits[j]
    requires out == before[j := (carry + digits[j] * mul) % base]
    ensures
      Value(out[..j + 1], base)
      + Pow(base, j + 1) * ((carry + digits[j] * mul) / base + mul * Value(digits[j + 1..], base))
      == Value(before[..j], base) + Pow(base, j) * (carry + mul * Value(digits[j..], base))
  {
    var c := carry + digits[j] * mul;
    assert out[..j + 1] == before[..j] + [c % base];
    ValueOfAppend(before[..j], c % base, base);
    assert digits[j..][1..] == digits[j + 1..];
    assert Value(digits[j..], base) == digits[j] + base * Value(digits[j + 1..], base);
    assert Pow(base, j + 1) == base * Pow(base, j);
    hide Value, Pow;
    CarryStep(Value(before[..j], base), Pow(base, j), carry, digits[j], Value(digits[j + 1..], base), mul, base);
  }

  lemma GrowsBy(v: int, mul: int, start: int)
    requires mul > 1 && 0 <= v && 0 <= start
    ensures v <= mul * v + start
  {
    assert (mul - 1) * v >= 0;
  }

  lemma NoCarryKeepsTop(digits: seq<int>, out: seq<int>, mul: int, start: int, base: int)
    requires base > 1 && mul > 1 && 0 <= start && DigitsBelow(digits, base) && DigitsBelow(out, base)
             && |out| == |digits|
    requires Canonical(digits) && Value(out, base) == mul * Value(digits, base) + start
    ensures Canonical(out)
  {
    hide Value, Pow;
    if digits != [] {
      TopDigit(digits, base);
      TopDigit(out, base);
      ValueIsNat(digits, base);
      GrowsBy(Value(digits, base), mul, start);
    }
  }

  lemma StartOfCarry(digits: seq<int>, start: int, mul: int, base: int)
    ensures Value(digits[..0], base) + Pow(base, 0) * (start + mul * Value(digits[0..], base))
            == mul * Value(digits, base) + start
  {
    assert digits[0..] == digits;
  }

  lemma EndOfCarry(out: seq<int>, digits: seq<int>, carry: int, mul: int, base: int)
    requires |out| == |digits|
    ensures Value(out[..|out|], base) + Pow(base, |out|) * (carry + mul * Value(digits[|digits|..], base))
            == Value(out, base) + Pow(base, |out|) * carry
  {
    assert out[..|out|] == out;
  }

  lemma PowNext(base: int, n: nat)
    ensures Pow(base, n + 1) == base * Pow(base, n)
  {
  }

  lemma Pushed(out: seq<int>, carry: int, base: int)
    requires base > 1
    ensures Value(out + [carry % base], base) + Pow(base, |out| + 1) * (carry / base)
            == Value(out, base) + Pow(base, |out|) * carry
  {
    hide Value, Pow;
    ValueOfAppend(out, carry % base, base);
    PowNext(base, |out|);
    PushAlgebra(Pow(base, |out|), base, carry);
  }

  lemma PushAlgebra(p: int, base: int, carry: int)
    requires base > 1
    ensures p * (carry % base) + (base * p) * (carry / base) == p * carry
  {
    var q, r := carry / base, carry % base;
    assert carry == base * q + r;
    SplitAlgebra(p, base, q, r);
  }

  lemma SplitAlgebra(p: int, base: int, q: int, r: int)
    ensures p * r + (base * p) * q == p * (base * q + r)
  {
    assert (base * p) * q == p * (base * q);
  }

  /** Multiplies a number by `mul` and adds `start`, digit by digit in place, then lets the carry grow the list. */
  method MultiplyAdd(digits: seq<int>, start: int, mul: int, base: int) returns (out: seq<int>)
    requires base > 1 && mul > 1 && 0 <= start < mul && DigitsBelow(digits, base) && Canonical(digits)
    ensures DigitsBelow(out, base) && Canonical(out)
    ensures Value(out, base) == mul * Value(digits, base) + start
  {
    hide Value, Pow;
    ghost var goal := mul * Value(digits, base) + start;
    var carry := start;
    out := digits;
    StartOfCarry(digits, start, mul, base);
    for j := 0 to |digits|
      invariant |out| == |digits| && DigitsBelow(out, base) && out[j..] == digits[j..] && 0 <= carry < mul
      invariant Value(out[..j], base) + Pow(base, j) * (carry + mul * Value(digits[j..], base)) == goal
    {
      ghost var before, was := out, carry;
      assert out[j] == out[j..][0] == digits[j];
      carry := carry + out[j] * mul;
      out := out[j := carry % base];
      carry := carry / base;
      CarryBound(was, digits[j], mul, base);
      DigitSettled(before, out, digits, j, was, mul, base);
      assert out[j + 1..] == before[j..][1..] == digits[j..][1..] == digits[j + 1..];
    }
    EndOfCarry(out, digits, carry, mul, base);
    if carry == 0 {
      NoCarryKeepsTop(digits, out, mul, start, base);
    }
    while carry > 0
      invariant 0 <= carry && DigitsBelow(out, base) && (carry > 0 || Canonical(out))
      invariant Value(out, base) + Pow(base, |out|) * carry == goal
      decreases carry
    {
      Pushed(out, carry, base);
      QuotientIsSmaller(carry, base);
      DivisionOfSmall(carry, base);
      out := out + [carry % base];
      carry := carry / base;
    }
  }

  lemma DivisionOfSmall(carry: int, base: int)
    requires base > 1 && carry > 0
    ensures carry / base == 0 ==> carry % base > 0
  {
  }

  lemma {:induction false} BigEndianNext(s: seq<int>, k: nat, base: int)
    requires k < |s|
    ensures BigEndian(s[..k + 1], base) == base * BigEndian(s[..k], base) + s[k]
  {
    var r := Reversed(s[..k + 1]);
    assert r[0] == s[k] && r[1..] == Reversed(s[..k]);
  }

  lemma ConversionOfTail(s: seq<int>, digits: seq<int>, from: int, to: int)
    requires from > 1 && to > 1 && DigitsBelow(s, from) && DigitsBelow(digits, to) && Canonical(digits)
    requires Value(digits, to) == BigEndian(s[LeadingZeros(s)..], from)
    ensures Converted(s, from, to) == Zeros(LeadingZeros(s)) + Reversed(digits)
  {
    hide Value, LeadingZeros, DigitsOf;
    WithoutLeadingZeros(s, from);
    DigitsAreUnique(digits, to);
  }

  method EncodeBase58(bytes: seq<Byte>) returns (text: string)
    ensures text == Encoded(bytes)
  {
    hide Value, DigitsOf, LeadingZeros, BigEndian;
    ghost var whole: seq<int> := bytes;
    var zeros := CountLeading(bytes);
    ghost var rest := whole[zeros..];
    var digits: seq<int> := [];
    NothingYet(rest, 256, 58);
    for i := zeros to |bytes|
      invariant DigitsBelow(digits, 58) && Canonical(digits)
      invariant Value(digits, 58) == BigEndian(rest[..i - zeros], 256)
    {
      BigEndianNext(rest, i - zeros, 256);
      digits := MultiplyAdd(digits, bytes[i], 256, 58);
    }
    assert rest[..|bytes| - zeros] == rest;
    ConversionOfTail(whole, digits, 256, 58);
    ConvertedBelow(whole, 256, 58);
    text := Spell(zeros, digits);
  }

  lemma NothingYet(s: seq<int>, from: int, to: int)
    ensures Value([], to) == BigEndian(s[..0], from)
  {
  }

  method Spell(zeros: nat, digits: seq<int>) returns (text: string)
    requires DigitsBelow(digits, 58) && DigitsBelow(Zeros(zeros) + Reversed(digits), 58)
    ensures text == DigitsText(Zeros(zeros) + Reversed(digits))
  {
    ghost var all := Zeros(zeros) + Reversed(digits);
    assert ALPHABET[0] == '1';
    text := Repeat('1', zeros);
    for i := |digits| downto 0
      invariant |text| == zeros + |digits| - i && forall k :: 0 <= k < |text| ==> text[k] == ALPHABET[all[k]]
    {
      assert all[|text|] == digits[i];
      text := text + [ALPHABET[digits[i]]];
    }
  }

  function Repeat(c: char, n: nat): string {
    seq(n, _ => c)
  }

  method CountLeading(s: seq<int>) returns (n: nat)
    ensures n == LeadingZeros(s)
  {
    n := 0;
    while n < |s| && s[n] == 0
      invariant n <= |s| && LeadingZeros(s) == n + LeadingZeros(s[n..])
    {
      assert s[n..][1..] == s[n + 1..];
      n := n + 1;
    }
  }

  method DecodeBase58(text: string) returns (r: Option<seq<Byte>>)
    ensures r == Decoded(text)
  {
    hide Value, DigitsOf, LeadingZeros, BigEndian, DigitOf;
    var zeros := 0;
    while zeros < |text| && text[zeros] == '1'
      invariant zeros <= |text| && forall k :: 0 <= k < zeros ==> text[k] == '1'
    {
      zeros := zeros + 1;
    }
    OneIsZero();
    var bytes: seq<int> := [];
    ghost var values: seq<int> := [];
    NothingYet(values, 58, 256);
    for i := zeros to |text|
      invariant forall k :: 0 <= k < i ==> DigitOf(text[k]).Some?
      invariant values == TextDigits(text[zeros..i]) && DigitsBelow(values, 58)
      invariant DigitsBelow(bytes, 256) && Canonical(bytes) && Value(bytes, 256) == BigEndian(values, 58)
    {
      var value := DigitOf(text[i]);
      if value.None? {
        return None;
      }
      DigitIsBelow(text[i]);
      ghost var longer := values + [value.value];
      BigEndianNext(longer, |values|, 58);
      assert longer[..|values| + 1] == longer && longer[..|values|] == values;
      bytes := MultiplyAdd(bytes, value.value, 58, 256);
      values := longer;
    }
    assert text[zeros..|text|] == text[zeros..];
    DigitsRoundTrip(text);
    TextSplits(text, zeros, values);
    ConversionOfTail(TextDigits(text), bytes, 58, 256);
    var out := Fill(zeros, bytes);
    assert forall k :: 0 <= k < |out| ==> out[k] == Decoded(text).value[k];
    assert out == Decoded(text).value;
    r := Some(out);
  }

  lemma OneIsZero()
    ensures DigitOf('1') == Some(0)
  {
    assert ALPHABET[0] == '1';
    IndexInFinds(0, 58);
  }

  lemma DigitIsBelow(c: char)
    ensures DigitOf(c).Some? ==> 0 <= DigitOf(c).value < 58 && ALPHABET[DigitOf(c).value] == c
  {
    IndexInIs(c, 58);
  }

  /** The bytes end up after the zeros, most significant first. */
  method Fill(zeros: nat, bytes: seq<int>) returns (out: seq<Byte>)
    requires DigitsBelow(bytes, 256)
    ensures |out| == zeros + |bytes|
    ensures forall k :: 0 <= k < |out| ==> out[k] == (Zeros(zeros) + Reversed(bytes))[k]
  {
    ghost var all := Zeros(zeros) + Reversed(bytes);
    out := seq(zeros, _ => 0);
    for i := 0 to |bytes|
      invariant |out| == zeros + i && forall k :: 0 <= k < |out| ==> out[k] == all[k]
    {
      assert all[zeros + i] == bytes[|bytes| - 1 - i];
      var next: Byte := bytes[|bytes| - 1 - i];
      out := out + [next];
    }
  }

  /** Ones are the digit zero, so the leading ones are the leading zeros. */
  lemma TextSplits(text: string, zeros: nat, values: seq<int>)
    requires InAlphabet(text) && zeros <= |text| && (forall k :: 0 <= k < zeros ==> text[k] == '1')
    requires zeros < |text| ==> text[zeros] != '1'
    requires values == TextDigits(text[zeros..])
    ensures LeadingZeros(TextDigits(text)) == zeros && TextDigits(text)[zeros..] == values
  {
    assert ALPHABET[0] == '1';
    IndexInFinds(0, 58);
    if zeros < |text| {
      IndexInIs(text[zeros], 58);
    }
    var s := TextDigits(text);
    assert s == Zeros(zeros) + s[zeros..];
    LeadingZerosOfPadded(zeros, s[zeros..]);
  }
}

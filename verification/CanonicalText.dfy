/**
 Text as UTF-16 code units, and the JSON quoting of it (section 7 of RFC 8259, in
 the well-formed variant that escapes lone surrogates).
 */
module CanonicalText {

  type CodeUnit = u: int | 0 <= u < 0x10000

  type Text = seq<CodeUnit>

  const QUOTE: CodeUnit := 34
  const BACKSLASH: CodeUnit := 92
  const LOWER_U: CodeUnit := 117

  predicate IsHigh(u: CodeUnit) {
    0xD800 <= u < 0xDC00
  }

  predicate IsLow(u: CodeUnit) {
    0xDC00 <= u < 0xE000
  }

  /** The letter after the backslash of a two-character escape; 0 when there is none. */
  function ShortEscape(u: CodeUnit): CodeUnit {
    if u == 8 then 98         // \b
    else if u == 9 then 116   // \t
    else if u == 10 then 110  // \n
    else if u == 12 then 102  // \f
    else if u == 13 then 114  // \r
    else if u == QUOTE || u == BACKSLASH then u
    else 0
  }

  function HexDigit(d: int): CodeUnit
    requires 0 <= d < 16
  {
    if d < 10 then 48 + d else 87 + d
  }

  function Hex4(u: CodeUnit): Text {
    [HexDigit(u / 4096), HexDigit(u / 256 % 16), HexDigit(u / 16 % 16), HexDigit(u % 16)]
  }

  predicate NeedsLongEscape(u: CodeUnit) {
    u < 32 || IsHigh(u) || IsLow(u)
  }

  /** One code unit that is not half of a pair. */
  function EscapedUnit(u: CodeUnit): Text {
    if ShortEscape(u) != 0 then [BACKSLASH, ShortEscape(u)]
    else if NeedsLongEscape(u) then [BACKSLASH, LOWER_U] + Hex4(u)
    else [u]
  }

  predicate StartsWithPair(t: Text) {
    |t| > 1 && IsHigh(t[0]) && IsLow(t[1])
  }

  function Escaped(t: Text): Text {
    if t == [] then []
    else if StartsWithPair(t) then t[..2] + Escaped(t[2..])
    else EscapedUnit(t[0]) + Escaped(t[1..])
  }

  /** What JSON.stringify makes of a string. */
  function Stringified(t: Text): Text {
    [QUOTE] + Escaped(t) + [QUOTE]
  }

  // ---- Quoted text can be read back in only one way ----

  lemma FourDigits(u: int)
    requires 0 <= u < 0x10000
    ensures u == 4096 * (u / 4096) + 256 * (u / 256 % 16) + 16 * (u / 16 % 16) + u % 16
    ensures 0 <= u / 4096 < 16
  {
    assert u / 256 == 16 * (u / 4096) + u / 256 % 16;
    assert u / 16 == 16 * (u / 256) + u / 16 % 16;
    assert u == 16 * (u / 16) + u % 16;
  }

  lemma Hex4Injective(u: CodeUnit, v: CodeUnit)
    requires Hex4(u) == Hex4(v)
    ensures u == v
  {
    hide HexDigit;
    assert Hex4(u)[0] == Hex4(v)[0] && Hex4(u)[1] == Hex4(v)[1] && Hex4(u)[2] == Hex4(v)[2] && Hex4(u)[3] == Hex4(v)[3];
    FourDigits(u);
    FourDigits(v);
    HexDigitInjective(u / 4096, v / 4096, Hex4(u)[0], Hex4(v)[0]);
    HexDigitInjective(u / 256 % 16, v / 256 % 16, Hex4(u)[1], Hex4(v)[1]);
    HexDigitInjective(u / 16 % 16, v / 16 % 16, Hex4(u)[2], Hex4(v)[2]);
    HexDigitInjective(u % 16, v % 16, Hex4(u)[3], Hex4(v)[3]);
  }

  lemma HexDigitInjective(d: int, e: int, x: CodeUnit, y: CodeUnit)
    requires 0 <= d < 16 && 0 <= e < 16 && x == HexDigit(d) && y == HexDigit(e) && x == y
    ensures d == e
  {
  }

  lemma EscapedUnitReadsBack(u: CodeUnit, v: CodeUnit, r: Text, q: Text)
    requires EscapedUnit(u) + r == EscapedUnit(v) + q
    ensures u == v && r == q
  {
    var s, t := EscapedUnit(u), EscapedUnit(v);
    var x, y := s + r, t + q;
    assert x[0] == s[0] && y[0] == t[0];
    assert |s| > 1 ==> x[1] == s[1];
    assert |t| > 1 ==> y[1] == t[1];
    assert |s| == |t|;
    assert x[..|s|] == s && y[..|t|] == t;
    assert x[|s|..] == r && y[|t|..] == q;
    if |s| == 6 {
      assert s[2..] == Hex4(u) && t[2..] == Hex4(v);
      Hex4Injective(u, v);
    }
  }

  /** How many code units the next piece of the output stands for, and that piece. */
  function Taken(t: Text): (n: nat)
    requires t != []
    ensures 1 <= n <= |t| && n <= 2
  {
    if StartsWithPair(t) then 2 else 1
  }

  function Piece(t: Text): (p: Text)
    requires t != []
    ensures p != [] && p[0] != QUOTE && (IsHigh(p[0]) <==> StartsWithPair(t))
  {
    if StartsWithPair(t) then t[..2] else EscapedUnit(t[0])
  }

  lemma PieceByPiece(t: Text)
    requires t != []
    ensures Escaped(t) == Piece(t) + Escaped(t[Taken(t)..])
  {
  }

  lemma PieceReadsBack(s: Text, t: Text, r: Text, q: Text)
    requires s != [] && t != [] && Piece(s) + r == Piece(t) + q
    ensures Taken(s) == Taken(t) && s[..Taken(s)] == t[..Taken(t)] && r == q
  {
    var x, y := Piece(s) + r, Piece(t) + q;
    assert x[0] == Piece(s)[0] && y[0] == Piece(t)[0];
    if StartsWithPair(s) {
      assert x[..2] == s[..2] && y[..2] == t[..2];
      assert x[2..] == r && y[2..] == q;
    } else {
      EscapedUnitReadsBack(s[0], t[0], r, q);
    }
  }

  lemma {:induction false} EscapedReadsBack(s: Text, t: Text, r: Text, q: Text)
    requires Escaped(s) + [QUOTE] + r == Escaped(t) + [QUOTE] + q
    ensures s == t && r == q
  {
    hide Escaped, Piece, Taken;
    NothingEscaped();
    var x, y := Escaped(s) + [QUOTE] + r, Escaped(t) + [QUOTE] + q;
    assert s == [] ==> x[0] == QUOTE && x[1..] == r;
    assert t == [] ==> y[0] == QUOTE && y[1..] == q;
    if s != [] {
      PieceByPiece(s);
      assert x[0] == Piece(s)[0];
    }
    if t != [] {
      PieceByPiece(t);
      assert y[0] == Piece(t)[0];
    }
    if s != [] || t != [] {
      assert s != [] && t != [];
      var m, n := Taken(s), Taken(t);
      var rest, rest' := Escaped(s[m..]) + [QUOTE] + r, Escaped(t[n..]) + [QUOTE] + q;
      assert x == Piece(s) + rest && y == Piece(t) + rest';
      PieceReadsBack(s, t, rest, rest');
      EscapedReadsBack(s[m..], t[n..], r, q);
      assert s == s[..m] + s[m..] && t == t[..n] + t[n..];
    }
  }

  lemma NothingEscaped()
    ensures Escaped([]) == []
  {
  }

  /** Whatever follows two quoted texts, if the whole reads the same, so do the texts and what follows. */
  lemma QuotedReadsBack(s: Text, t: Text, r: Text, q: Text)
    requires Stringified(s) + r == Stringified(t) + q
    ensures s == t && r == q
  {
    var x, y := Stringified(s) + r, Stringified(t) + q;
    assert x[1..] == Escaped(s) + [QUOTE] + r && y[1..] == Escaped(t) + [QUOTE] + q;
    EscapedReadsBack(s, t, r, q);
  }

  // ---- The order of keys ----

  /** Code unit by code unit, a prefix before its extensions: how JavaScript compares strings. */
  predicate Below(a: Text, b: Text) {
    if b == [] then false
    else if a == [] then true
    else if a[0] != b[0] then a[0] < b[0]
    else Below(a[1..], b[1..])
  }

  lemma {:induction false} BelowIsTotal(a: Text, b: Text)
    ensures Below(a, b) || Below(b, a) || a == b
    ensures !(Below(a, b) && Below(b, a))
    ensures a == b ==> !Below(a, b)
  {
    if a != [] && b != [] {
      BelowIsTotal(a[1..], b[1..]);
      assert a == [a[0]] + a[1..] && b == [b[0]] + b[1..];
    }
  }

  lemma {:induction false} BelowIsTransitive(a: Text, b: Text, c: Text)
    requires Below(a, b) && Below(b, c)
    ensures Below(a, c)
  {
    if a != [] && a[0] == b[0] == c[0] {
      BelowIsTransitive(a[1..], b[1..], c[1..]);
    }
  }
}

/** The `#RGB` / `#RRGGBB` / `#RRGGBBAA` colour-code parser of base.go,
    over the bytes of the code string. */
module ColorCodes {
  import opened Optional
  import opened Image

  const Hash: Byte := 35
  const Plus: Byte := 43
  const Minus: Byte := 45

  predicate IsHexDigit(c: Byte) {
    48 <= c <= 57 || 65 <= c <= 70 || 97 <= c <= 102
  }

  predicate AllHex(s: seq<Byte>) {
    forall i | 0 <= i < |s| :: IsHexDigit(s[i])
  }

  function DigitValue(c: Byte): (v: nat)
    requires IsHexDigit(c)
    ensures v < 16
  {
    if c <= 57 then c - 48 else if c <= 70 then c - 55 else c - 87
  }

  /** The value of a run of hex digits, most significant first. */
  function HexValue(ds: seq<Byte>): nat
    requires AllHex(ds)
    decreases |ds|
  {
    if |ds| == 0 then 0 else 16 * HexValue(ds[..|ds| - 1]) + DigitValue(ds[|ds| - 1])
  }

  /** `strconv.ParseInt(s, 16, 64)` with its error discarded: an optional
      sign and at least one hex digit give the signed value, anything else
      gives 0. A range error needs more than 15 digits, which a colour code
      never has, so at most 8 bytes are considered. */
  function ParseHex(s: seq<Byte>): int
    requires |s| <= 8
  {
    if |s| > 0 && (s[0] == Plus || s[0] == Minus) then
      var digits := s[1..];
      if |digits| > 0 && AllHex(digits) then
        var magnitude: int := HexValue(digits);
        if s[0] == Minus then -magnitude else magnitude
      else 0
    else if |s| > 0 && AllHex(s) then HexValue(s)
    else 0
  }

  /** base.go's `colorCodeToColor`. The first byte is skipped without being
      looked at; the rest is parsed as one hex number, whose digits are then
      read as channels according to the code's length. Any other length
      panics, here `None`. Dafny's `/` and `%` round toward negative
      infinity, so on a negative number they pick the same bits as Go's
      masks and shifts pick from its two's complement form. */
  function ColorCodeToColor(code: seq<Byte>): (r: Option<Color>)
    ensures r.Some? <==> |code| == 4 || |code| == 7 || |code| == 9
    ensures |code| != 9 && r.Some? ==> r.value.a == 255
  {
    if |code| == 4 then
      var num := ParseHex(code[1..]);
      Some(Color((num / 256) % 16 * 17, (num / 16) % 16 * 17, num % 16 * 17, 255))
    else if |code| == 7 then
      var num := ParseHex(code[1..]);
      Some(Color((num / 65536) % 256, (num / 256) % 256, num % 256, 255))
    else if |code| == 9 then
      var num := ParseHex(code[1..]);
      Some(Color((num / 16777216) % 256, (num / 65536) % 256, (num / 256) % 256, num % 256))
    else
      None
  }

  /** The byte two hex digits spell. */
  function Pair(hi: Byte, lo: Byte): Byte
    requires IsHexDigit(hi) && IsHexDigit(lo)
  {
    16 * DigitValue(hi) + DigitValue(lo)
  }

  // ---- arithmetic facts the channel lemmas rest on

  lemma MulAtLeast(d: int, k: int)
    requires d > 0 && k >= 1
    ensures d * k >= d
  {
  }

  /** Division by a positive number recovers quotient and remainder. */
  lemma DivUnique(q: int, r: int, d: int)
    requires d > 0 && 0 <= r < d
    ensures (q * d + r) / d == q && (q * d + r) % d == r
  {
    var a := q * d + r;
    var k := q - a / d;
    assert a == d * (a / d) + a % d;
    assert d * k == d * q - d * (a / d);
    assert d * k == a % d - r;
    if k >= 1 {
      MulAtLeast(d, k);
    } else if k <= -1 {
      MulAtLeast(d, -k);
    }
  }

  lemma HexValueSnoc(ds: seq<Byte>, c: Byte)
    requires AllHex(ds) && IsHexDigit(c)
    ensures AllHex(ds + [c])
    ensures HexValue(ds + [c]) == 16 * HexValue(ds) + DigitValue(c)
  {
    assert (ds + [c])[..|ds|] == ds;
  }

  lemma HexValueSnocPair(ds: seq<Byte>, x: Byte, y: Byte)
    requires AllHex(ds) && IsHexDigit(x) && IsHexDigit(y)
    ensures AllHex(ds + [x, y])
    ensures HexValue(ds + [x, y]) == 256 * HexValue(ds) + Pair(x, y)
  {
    HexValueSnoc(ds, x);
    HexValueSnoc(ds + [x], y);
    assert ds + [x, y] == (ds + [x]) + [y];
  }

  lemma HexValueOfPairs(ds: seq<Byte>)
    requires |ds| == 6 && AllHex(ds)
    ensures HexValue(ds) == Pair(ds[0], ds[1]) * 65536 + Pair(ds[2], ds[3]) * 256 + Pair(ds[4], ds[5])
  {
    var p0 := [ds[0], ds[1]];
    var p1 := p0 + [ds[2], ds[3]];
    HexValueSnocPair([], ds[0], ds[1]);
    assert [] + [ds[0], ds[1]] == p0;
    HexValueSnocPair(p0, ds[2], ds[3]);
    HexValueSnocPair(p1, ds[4], ds[5]);
    assert ds == p1 + [ds[4], ds[5]];
  }

  lemma HexValueOfFourPairs(ds: seq<Byte>)
    requires |ds| == 8 && AllHex(ds)
    ensures HexValue(ds) == Pair(ds[0], ds[1]) * 16777216 + Pair(ds[2], ds[3]) * 65536
                          + Pair(ds[4], ds[5]) * 256 + Pair(ds[6], ds[7])
  {
    HexValueOfPairs(ds[..6]);
    HexValueSnocPair(ds[..6], ds[6], ds[7]);
    assert ds == ds[..6] + [ds[6], ds[7]];
  }

  /** Four bytes packed big-endian unpack channel by channel. */
  lemma Unpack(r: Byte, g: Byte, b: Byte, a: Byte)
    ensures var num := r * 16777216 + g * 65536 + b * 256 + a;
            && (num / 16777216) % 256 == r
            && (num / 65536) % 256 == g
            && (num / 256) % 256 == b
            && num % 256 == a
  {
    var num := r * 16777216 + g * 65536 + b * 256 + a;
    DivUnique(r, g * 65536 + b * 256 + a, 16777216);
    DivUnique(r, 0, 256);
    DivUnique(r * 256 + g, b * 256 + a, 65536);
    assert num == (r * 256 + g) * 65536 + (b * 256 + a);
    DivUnique(r, g, 256);
    DivUnique(r * 65536 + g * 256 + b, a, 256);
    assert num == (r * 65536 + g * 256 + b) * 256 + a;
    DivUnique(r * 256 + g, b, 256);
    assert r * 65536 + g * 256 + b == (r * 256 + g) * 256 + b;
    assert num == (r * 65536 + g * 256 + b) * 256 + a;
  }

  // ---- the three forms

  /** `#RGB`: each channel is its digit times 17 (the digit repeated), alpha is opaque. */
  lemma {:induction false} ShortForm(code: seq<Byte>)
    requires |code| == 4 && AllHex(code[1..])
    ensures ColorCodeToColor(code) ==
            Some(Color(DigitValue(code[1]) * 17, DigitValue(code[2]) * 17, DigitValue(code[3]) * 17, 255))
  {
    var ds := code[1..];
    HexValueSnoc([], ds[0]);
    assert [] + [ds[0]] == [ds[0]];
    HexValueSnocPair([ds[0]], ds[1], ds[2]);
    assert ds == [ds[0]] + [ds[1], ds[2]];
    var x, y, z := DigitValue(ds[0]), DigitValue(ds[1]), DigitValue(ds[2]);
    var num := HexValue(ds);
    assert num == x * 256 + y * 16 + z;
    DivUnique(x * 16 + y, z, 16);
    assert num == (x * 16 + y) * 16 + z;
    DivUnique(x, y, 16);
    DivUnique(x, y * 16 + z, 256);
    DivUnique(0, x, 16);
  }

  /** `#RRGGBB`: the three digit pairs in order, alpha opaque. */
  lemma LongForm(code: seq<Byte>)
    requires |code| == 7 && AllHex(code[1..])
    ensures ColorCodeToColor(code) ==
            Some(Color(Pair(code[1], code[2]), Pair(code[3], code[4]), Pair(code[5], code[6]), 255))
  {
    var ds := code[1..];
    HexValueOfPairs(ds);
    Unpack(0, Pair(ds[0], ds[1]), Pair(ds[2], ds[3]), Pair(ds[4], ds[5]));
  }

  /** `#RRGGBBAA`: exactly the four digit pairs as R, G, B, A. */
  lemma AlphaForm(code: seq<Byte>)
    requires |code| == 9 && AllHex(code[1..])
    ensures ColorCodeToColor(code) ==
            Some(Color(Pair(code[1], code[2]), Pair(code[3], code[4]), Pair(code[5], code[6]), Pair(code[7], code[8])))
  {
    var ds := code[1..];
    HexValueOfFourPairs(ds);
    Unpack(Pair(ds[0], ds[1]), Pair(ds[2], ds[3]), Pair(ds[4], ds[5]), Pair(ds[6], ds[7]));
  }

  /** `#abc` is the same colour as `#aabbcc`. */
  lemma ShortFormDoublesDigits(lead: Byte, x: Byte, y: Byte, z: Byte)
    requires IsHexDigit(x) && IsHexDigit(y) && IsHexDigit(z)
    ensures ColorCodeToColor([lead, x, y, z]) == ColorCodeToColor([lead, x, x, y, y, z, z])
  {
    var short := [lead, x, y, z];
    var long := [lead, x, x, y, y, z, z];
    assert short[1..] == [x, y, z];
    assert long[1..] == [x, x, y, y, z, z];
    ShortForm(short);
    LongForm(long);
  }

  /** A digit that is not hex makes the whole number 0: black, transparent in
      the 9-byte form and opaque otherwise. */
  lemma BadDigitGivesZero(code: seq<Byte>, i: int)
    requires |code| == 4 || |code| == 7 || |code| == 9
    requires code[1] != Plus && code[1] != Minus
    requires 1 <= i < |code| && !IsHexDigit(code[i])
    ensures ColorCodeToColor(code) == Some(Color(0, 0, 0, if |code| == 9 then 0 else 255))
  {
    assert code[1..][i - 1] == code[i];
  }

  // ---- an encoder, and the round trip

  function HexDigit(n: nat): (c: Byte)
    requires n < 16
    ensures IsHexDigit(c) && DigitValue(c) == n
  {
    if n < 10 then 48 + n else 87 + n
  }

  function TwoDigits(b: Byte): (ds: seq<Byte>)
    ensures |ds| == 2 && AllHex(ds) && Pair(ds[0], ds[1]) == b
  {
    [HexDigit(b / 16), HexDigit(b % 16)]
  }

  /** The lower-case code of a colour: `#rrggbb` when opaque, `#rrggbbaa` otherwise. */
  function ColorToCode(c: Color): (code: seq<Byte>)
    ensures |code| == (if c.a == 255 then 7 else 9)
    ensures code[0] == Hash && AllHex(code[1..])
  {
    var rgb := [Hash] + TwoDigits(c.r) + TwoDigits(c.g) + TwoDigits(c.b);
    if c.a == 255 then rgb else rgb + TwoDigits(c.a)
  }

  /** Parsing the code of a colour gives that colour back. */
  lemma {:induction false} CodeRoundTrip(c: Color)
    ensures ColorCodeToColor(ColorToCode(c)) == Some(c)
  {
    var code := ColorToCode(c);
    var r, g, b := TwoDigits(c.r), TwoDigits(c.g), TwoDigits(c.b);
    assert code[1] == r[0] && code[2] == r[1];
    assert code[3] == g[0] && code[4] == g[1];
    assert code[5] == b[0] && code[6] == b[1];
    if c.a == 255 {
      LongForm(code);
    } else {
      var a := TwoDigits(c.a);
      assert code[7] == a[0] && code[8] == a[1];
      AlphaForm(code);
    }
  }
}

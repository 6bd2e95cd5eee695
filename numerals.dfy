/**
 * The number conversions the listing parsers apply to field values:
 * Python's `int()` on a decimal string, and the CRC conversion
 * `reduce(lambda x, y: x * 256 + y, struct.unpack('BBBB', binascii.unhexlify(h)), 0)`.
 */
module Numerals {

  import opened Errors
  import opened Text

  function DigitValue(c: char): nat
    requires IsDigit(c)
  {
    c as int - '0' as int
  }

  predicate AllDigits(s: string) {
    forall i :: 0 <= i < |s| ==> IsDigit(s[i])
  }

  /** The value of a string of decimal digits, most significant first. */
  function DigitsValue(s: string): nat
    requires AllDigits(s)
  {
    if s == [] then 0 else 10 * DigitsValue(s[..|s| - 1]) + DigitValue(s[|s| - 1])
  }

  /** Digits with single underscores between them, as `int()` accepts them. */
  predicate DigitGroups(s: string) {
    && |s| > 0
    && IsDigit(s[0]) && IsDigit(s[|s| - 1])
    && (forall i :: 0 <= i < |s| ==> IsDigit(s[i]) || s[i] == '_')
    && (forall i :: 0 <= i < |s| - 1 ==> !(s[i] == '_' && s[i + 1] == '_'))
  }

  function DropUnderscores(s: string): (r: string)
    requires forall i :: 0 <= i < |s| ==> IsDigit(s[i]) || s[i] == '_'
    ensures AllDigits(r)
  {
    if s == [] then []
    else if s[0] == '_' then DropUnderscores(s[1..])
    else [s[0]] + DropUnderscores(s[1..])
  }

  function StripSpace(s: string): string
    decreases |s|
  {
    if s != [] && IsPySpace(s[0]) then StripSpace(s[1..])
    else if s != [] && IsPySpace(s[|s| - 1]) then StripSpace(s[..|s| - 1])
    else s
  }

  /** `int(s)` for a decimal string: surrounding whitespace, an optional sign,
      digit groups; anything else is a ValueError. */
  function ParseInt(s: string): (r: Result<int>)
    ensures r.Err? ==> r.exc.ValueError?
  {
    var t := StripSpace(s);
    var body := if t != [] && (t[0] == '-' || t[0] == '+') then t[1..] else t;
    if !DigitGroups(body) then Err(ValueError("invalid literal for int() with base 10"))
    else
      var magnitude: int := DigitsValue(DropUnderscores(body));
      Ok(if t[0] == '-' then -magnitude else magnitude)
  }

  /** `str(n)` for a natural number. */
  function Decimal(n: nat): (r: string)
    ensures |r| > 0 && AllDigits(r)
  {
    if n < 10 then [('0' as int + n) as char]
    else Decimal(n / 10) + [('0' as int + n % 10) as char]
  }

  lemma {:induction false} DecimalValue(n: nat)
    ensures DigitsValue(Decimal(n)) == n
  {
    if n >= 10 {
      DecimalValue(n / 10);
      var d := Decimal(n);
      assert d[..|d| - 1] == Decimal(n / 10);
    }
  }

  lemma {:induction false} DropUnderscoresOfDigits(s: string)
    requires AllDigits(s)
    ensures DropUnderscores(s) == s
  {
    if s != [] {
      DropUnderscoresOfDigits(s[1..]);
    }
  }

  /** `int(str(n)) == n`: decimal printing and parsing are inverse. */
  lemma ParseDecimal(n: nat)
    ensures ParseInt(Decimal(n)) == Ok(n)
  {
    var d := Decimal(n);
    assert StripSpace(d) == d;
    DropUnderscoresOfDigits(d);
    DecimalValue(n);
  }

  /** `int()` strips the ASCII file, group, record and unit separators
      like other whitespace: `int("\x1c5\x1f")` is 5. */
  lemma SeparatorsStripped()
    ensures ParseInt("\U{1c}5\U{1f}") == Ok(5)
  {
    assert StripSpace("\U{1c}5\U{1f}") == StripSpace("5\U{1f}") == StripSpace("5") == "5";
    assert DigitGroups("5");
    assert DropUnderscores("5") == "5";
  }

  /** The value of one hexadecimal digit, either case. */
  function HexValue(c: char): Option<nat> {
    if '0' <= c <= '9' then Some(c as int - '0' as int)
    else if 'a' <= c <= 'f' then Some(c as int - 'a' as int + 10)
    else if 'A' <= c <= 'F' then Some(c as int - 'A' as int + 10)
    else None
  }

  /** `binascii.unhexlify`: pairs of hex digits to bytes; an odd length or a
      non-hex character raises binascii.Error, a ValueError. */
  function Unhexlify(s: string): (r: Result<seq<nat>>)
    ensures r.Ok? ==> |r.value| * 2 == |s| && forall i :: 0 <= i < |r.value| ==> r.value[i] < 256
    ensures r.Err? ==> r.exc.ValueError?
  {
    if |s| % 2 == 1 then Err(ValueError("Odd-length string"))
    else if s == [] then Ok([])
    else
      var hi := HexValue(s[0]);
      var lo := HexValue(s[1]);
      if hi.None? || lo.None? then Err(ValueError("Non-hexadecimal digit found"))
      else
        match Unhexlify(s[2..])
        case Err(e) => Err(e)
        case Ok(rest) => Ok([hi.value * 16 + lo.value] + rest)
  }

  /** `reduce(lambda x, y: x * 256 + y, bytes, 0)`. */
  function FoldBigEndian(bytes: seq<nat>): nat {
    if bytes == [] then 0 else FoldBigEndian(bytes[..|bytes| - 1]) * 256 + bytes[|bytes| - 1]
  }

  lemma {:induction false} FoldBound(bytes: seq<nat>)
    requires forall i :: 0 <= i < |bytes| ==> bytes[i] < 256
    ensures FoldBigEndian(bytes) < Pow256(|bytes|)
  {
    if bytes != [] {
      FoldBound(bytes[..|bytes| - 1]);
    }
  }

  function Pow256(n: nat): nat {
    if n == 0 then 1 else 256 * Pow256(n - 1)
  }

  /** The CRC field conversion: exactly four bytes are required by
      `struct.unpack('BBBB', ...)`, and they are read big-endian. */
  function Crc32FromHex(s: string): (r: Result<nat>)
    ensures r.Ok? ==> |s| == 8 && r.value < 0x1_0000_0000
    ensures r.Err? ==> (r.exc.ValueError? <==> Unhexlify(s).Err?)
    ensures r.Err? && !r.exc.ValueError? ==> r.exc.StructError? && |s| != 8
  {
    match Unhexlify(s)
    case Err(e) => Err(e)
    case Ok(bytes) =>
      if |bytes| != 4 then Err(StructError)
      else
        FoldBound(bytes);
        assert Pow256(4) == 0x1_0000_0000;
        Ok(FoldBigEndian(bytes))
  }

  /** Lower-case hexadecimal digit for a value below 16. */
  function HexDigit(v: nat): char
    requires v < 16
  {
    if v < 10 then ('0' as int + v) as char else ('a' as int + v - 10) as char
  }

  /** The four bytes of a 32-bit value, most significant first. */
  function Bytes4(v: nat): (r: seq<nat>)
    requires v < 0x1_0000_0000
    ensures |r| == 4 && forall i :: 0 <= i < 4 ==> r[i] < 256
  {
    var r1 := v / 256;
    var r2 := r1 / 256;
    [r2 / 256, r2 % 256, r1 % 256, v % 256]
  }

  /** Eight lower-case hex digits of a 32-bit value, as the archivers print a CRC. */
  function Hex8(v: nat): (r: string)
    requires v < 0x1_0000_0000
    ensures |r| == 8
  {
    var b := Bytes4(v);
    [HexDigit(b[0] / 16), HexDigit(b[0] % 16), HexDigit(b[1] / 16), HexDigit(b[1] % 16),
     HexDigit(b[2] / 16), HexDigit(b[2] % 16), HexDigit(b[3] / 16), HexDigit(b[3] % 16)]
  }

  lemma HexDigitValue(v: nat)
    requires v < 16
    ensures HexValue(HexDigit(v)) == Some(v)
  {
  }

  lemma UnhexlifyStep(s: string, b: nat, rest: seq<nat>)
    requires |s| >= 2 && b < 256
    requires s[0] == HexDigit(b / 16) && s[1] == HexDigit(b % 16)
    requires Unhexlify(s[2..]) == Ok(rest)
    ensures Unhexlify(s) == Ok([b] + rest)
  {
    var hi, lo := b / 16, b % 16;
    HexDigitValue(hi);
    HexDigitValue(lo);
    UnhexlifyPair(s, hi, lo, rest);
    assert b == hi * 16 + lo;
  }

  /** Two hex digits in front of a decodable text add one byte in front. */
  lemma UnhexlifyPair(s: string, hi: nat, lo: nat, rest: seq<nat>)
    requires |s| >= 2 && HexValue(s[0]) == Some(hi) && HexValue(s[1]) == Some(lo)
    requires Unhexlify(s[2..]) == Ok(rest)
    ensures Unhexlify(s) == Ok([hi * 16 + lo] + rest)
  {
    assert |s| % 2 == 0 by {
      assert |s| == |rest| * 2 + 2;
    }
  }

  lemma {:induction false} UnhexlifyHex8(v: nat)
    requires v < 0x1_0000_0000
    ensures Unhexlify(Hex8(v)) == Ok(Bytes4(v))
  {
    var h, b := Hex8(v), Bytes4(v);
    assert Unhexlify(h[8..]) == Ok([]);
    UnhexlifyStep(h[6..], b[3], []);
    assert h[4..][2..] == h[6..];
    UnhexlifyStep(h[4..], b[2], [b[3]] + []);
    assert h[2..][2..] == h[4..];
    UnhexlifyStep(h[2..], b[1], [b[2]] + ([b[3]] + []));
    UnhexlifyStep(h, b[0], [b[1]] + ([b[2]] + ([b[3]] + [])));
    assert [b[0]] + ([b[1]] + ([b[2]] + ([b[3]] + []))) == b;
  }

  lemma {:induction false} FoldBytes4(v: nat)
    requires v < 0x1_0000_0000
    ensures FoldBigEndian(Bytes4(v)) == v
  {
    var bs := Bytes4(v);
    var r1 := v / 256;
    var r2 := r1 / 256;
    assert FoldBigEndian(bs[..1]) == bs[0] by {
      assert bs[..1][..0] == [];
    }
    assert bs[..2][..1] == bs[..1];
    assert FoldBigEndian(bs[..2]) == r2 by {
      assert FoldBigEndian(bs[..2]) == bs[0] * 256 + bs[1];
    }
    assert bs[..3][..2] == bs[..2];
    assert FoldBigEndian(bs[..3]) == r1 by {
      assert FoldBigEndian(bs[..3]) == r2 * 256 + bs[2];
    }
    assert bs[..4][..3] == bs[..3];
    assert bs[..4] == bs;
  }

  /** Reading back the printed CRC gives the same 32-bit value. */
  lemma CrcRoundTrip(v: nat)
    requires v < 0x1_0000_0000
    ensures Crc32FromHex(Hex8(v)) == Ok(v)
  {
    UnhexlifyHex8(v);
    FoldBytes4(v);
  }
}

/**
 * The hexadecimal helpers of the front end: `hexToBytes` reads a string
 * two characters at a time with `parseInt(_, 16)` and stores the results in
 * a `Uint8Array`; `bytesToHex` writes each byte as its high and low nibble;
 * `uuidToBase32` strips the dashes of a UUID before decoding it.
 *
 * JavaScript numbers are modelled as integers, `NaN` as `None`.
 */
module HexUtil {
  import opened Common

  // ---------------------------------------------------------------------
  // `parseInt(s, 16)` and `Uint8Array.from`

  /** The white space and line terminators `parseInt` skips before a number. */
  predicate IsJsWhiteSpace(c: char) {
    || c == '\t' || c == '\U{000B}' || c == '\U{000C}' || c == ' ' || c == '\U{00A0}' || c == '\U{FEFF}'
    || c == '\n' || c == '\r' || c == '\U{2028}' || c == '\U{2029}'
    || c == '\U{1680}' || ('\U{2000}' <= c <= '\U{200A}') || c == '\U{202F}' || c == '\U{205F}' || c == '\U{3000}'
  }

  predicate IsHexDigit(c: char) {
    '0' <= c <= '9' || 'a' <= c <= 'f' || 'A' <= c <= 'F'
  }

  /** The value of a hexadecimal digit (0 for any other character, which is never asked for). */
  function DigitValue(c: char): (v: nat)
    ensures v < 16
  {
    if '0' <= c <= '9' then c as int - '0' as int
    else if 'a' <= c <= 'f' then c as int - 'a' as int + 10
    else if 'A' <= c <= 'F' then c as int - 'A' as int + 10
    else 0
  }

  /** The length of the longest prefix of `s` made of hexadecimal digits. */
  function DigitRun(s: string): (n: nat)
    ensures n <= |s|
  {
    if s == [] || !IsHexDigit(s[0]) then 0 else 1 + DigitRun(s[1..])
  }

  /** The value of a string of hexadecimal digits, most significant first. */
  function HexValue(digits: string): nat
    decreases |digits|
  {
    if digits == [] then 0
    else HexValue(digits[..|digits| - 1]) * 16 + DigitValue(digits[|digits| - 1])
  }

  /** Where `parseInt` is in its reading of the text: before the number, or past its sign. */
  datatype Phase = Leading | Unsigned(negative: bool)

  /** Drops a leading `0x` or `0X`. */
  function StripHexPrefix(s: string): (r: string)
    ensures |r| <= |s|
  {
    if |s| >= 2 && s[0] == '0' && (s[1] == 'x' || s[1] == 'X') then s[2..] else s
  }

  /**
   * `parseInt(s, 16)` from a given phase: white space skipped, then an
   * optional sign, then an optional `0x`/`0X`, then the longest run of
   * hexadecimal digits; `NaN` (`None`) when that run is empty.
   */
  function Scan(s: string, phase: Phase): Option<int>
    decreases |s|, if phase.Leading? then 1 else 0
  {
    match phase
    case Leading =>
      if s != [] && IsJsWhiteSpace(s[0]) then Scan(s[1..], Leading)
      else if s != [] && (s[0] == '-' || s[0] == '+') then Scan(s[1..], Unsigned(s[0] == '-'))
      else Scan(s, Unsigned(false))
    case Unsigned(negative) =>
      var body := StripHexPrefix(s);
      var n := DigitRun(body);
      if n == 0 then None
      else
        var v: int := HexValue(body[..n]);
        Some(if negative then -v else v)
  }

  /** `parseInt(s, 16)`. */
  function ParseIntHex(s: string): Option<int>
  {
    Scan(s, Leading)
  }

  /** `ToUint8`: `NaN` becomes 0, any other integer is taken modulo 256. */
  function ToUint8(x: Option<int>): byte
  {
    match x
    case None => 0
    case Some(v) => v % 256
  }

  // ---------------------------------------------------------------------
  // `hexToBytes`

  /** The length of the chunk read at the front of `s`: two characters, or the one that is left. */
  function ChunkLength(s: string): (n: nat)
    ensures n <= |s| && (s != [] ==> n > 0)
  {
    if |s| < 2 then |s| else 2
  }

  /** The chunks `hexToBytes` reads, in order: two characters each, the last one possibly one. */
  function Chunks(hex: string): (r: seq<string>)
    ensures |r| == (|hex| + 1) / 2
    decreases |hex|
  {
    if hex == [] then []
    else
      var n := ChunkLength(hex);
      [hex[..n]] + Chunks(hex[n..])
  }

  /** `parse` applied to each chunk. */
  function ParseAll(chunks: seq<string>, parse: string -> Option<int>): (r: seq<Option<int>>)
    ensures |r| == |chunks|
  {
    seq(|chunks|, i requires 0 <= i < |chunks| => parse(chunks[i]))
  }

  function Uint8ArrayFrom(xs: seq<Option<int>>): (r: seq<byte>)
    ensures |r| == |xs|
  {
    seq(|xs|, i requires 0 <= i < |xs| => ToUint8(xs[i]))
  }

  /** The chunks of `hex` read with `parse` and converted to bytes. */
  function DecodeWith(hex: string, parse: string -> Option<int>): (r: seq<byte>)
    ensures |r| == (|hex| + 1) / 2
  {
    Uint8ArrayFrom(ParseAll(Chunks(hex), parse))
  }

  /** What `hexToBytes` returns: each chunk read by `parseInt(_, 16)`, then converted by `Uint8Array.from`. */
  function DecodeHex(hex: string): (r: seq<byte>)
    ensures |r| == (|hex| + 1) / 2
  {
    DecodeWith(hex, ParseIntHex)
  }

  /** `hexToBytes`: the counter loop, then the conversion to a `Uint8Array`. */
  method HexToBytes(hex: string) returns (bytes: seq<byte>)
    ensures bytes == DecodeHex(hex)
  {
    var parsed: seq<Option<int>> := [];
    ghost var chunks: seq<string> := [];
    var c := 0;
    while c < |hex|
      invariant c <= |hex| + 1
      invariant chunks + Chunks(hex[Min(c, |hex|)..]) == Chunks(hex)
      invariant parsed == ParseAll(chunks, ParseIntHex)
      decreases |hex| + 1 - c
    {
      var end := if c + 2 <= |hex| then c + 2 else |hex|;
      var chunk := hex[c..end];
      ReadChunk(hex, c, chunks);
      ParseAllAppend(chunks, [chunk], ParseIntHex);
      parsed := parsed + [ParseIntHex(chunk)];
      chunks := chunks + [chunk];
      c := c + 2;
    }
    assert hex[Min(c, |hex|)..] == [];
    bytes := Uint8ArrayFrom(parsed);
  }

  /** One turn of the `hexToBytes` loop moves one chunk from what is left to what was read. */
  lemma ReadChunk(hex: string, c: nat, chunks: seq<string>)
    requires c < |hex|
    requires chunks + Chunks(hex[c..]) == Chunks(hex)
    ensures (chunks + [hex[c..if c + 2 <= |hex| then c + 2 else |hex|]]) + Chunks(hex[Min(c + 2, |hex|)..]) == Chunks(hex)
  {
    ChunksStep(hex, c);
  }

  function Min(a: int, b: int): int {
    if a < b then a else b
  }

  /** The chunk read at position `c`, and the chunks after it. */
  lemma ChunksStep(hex: string, c: nat)
    requires c < |hex|
    ensures var end := if c + 2 <= |hex| then c + 2 else |hex|;
      Chunks(hex[c..]) == [hex[c..end]] + Chunks(hex[Min(c + 2, |hex|)..])
  {
    var end := if c + 2 <= |hex| then c + 2 else |hex|;
    var rest := hex[c..];
    assert rest[..ChunkLength(rest)] == hex[c..end];
    assert rest[ChunkLength(rest)..] == hex[end..];
  }

  // ---------------------------------------------------------------------
  // `bytesToHex`

  /** The hexadecimal digit `Number.prototype.toString(16)` writes for a value below 16. */
  function Digit(v: nat): (c: char)
    requires v < 16
    ensures IsHexDigit(c) && DigitValue(c) == v
  {
    "0123456789abcdef"[v]
  }

  predicate IsLowerHex(c: char) {
    '0' <= c <= '9' || 'a' <= c <= 'f'
  }

  /** `n.toString(16)` for a non-negative integer: no leading zeros, `0` for zero. */
  function ToString16(n: nat): (r: string)
    ensures |r| >= 1
    ensures forall i :: 0 <= i < |r| ==> IsLowerHex(r[i])
    ensures n < 16 ==> r == [Digit(n)]
  {
    if n < 16 then [Digit(n)] else ToString16(n / 16) + [Digit(n % 16)]
  }

  /**
   * The two pieces pushed for one element: a negative value has 256 added,
   * then `current >>> 4` (taken as an unsigned 32-bit value) and
   * `current & 0xF`.
   */
  function ByteHex(b: int): (r: string)
  {
    var current := if b < 0 then b + 256 else b;
    ToString16((current % 0x1_0000_0000) / 16) + ToString16(current % 16)
  }

  /** What `bytesToHex` returns: the pieces of every element, joined. */
  function EncodeHex(bytes: seq<int>): string
    decreases |bytes|
  {
    if bytes == [] then "" else EncodeHex(bytes[..|bytes| - 1]) + ByteHex(bytes[|bytes| - 1])
  }

  /** ASCII lower-casing, which is all `toLowerCase` does to a string of hexadecimal digits. */
  function LowerHex(c: char): char
  {
    if 'A' <= c <= 'F' then (c as int - 'A' as int + 'a' as int) as char else c
  }

  function LowerHexString(s: string): (r: string)
    ensures |r| == |s|
  {
    seq(|s|, i requires 0 <= i < |s| => LowerHex(s[i]))
  }

  /** `bytesToHex`: the counter loop pushing two pieces per element, then `join('')` and `toLowerCase()`. */
  method BytesToHex(bytes: seq<int>) returns (hex: string)
    ensures hex == EncodeHex(bytes)
    ensures forall i :: 0 <= i < |hex| ==> IsLowerHex(hex[i])
  {
    hex := "";
    for i := 0 to |bytes|
      invariant hex == EncodeHex(bytes[..i])
    {
      var current := if bytes[i] < 0 then bytes[i] + 256 else bytes[i];
      hex := hex + ToString16((current % 0x1_0000_0000) / 16);
      hex := hex + ToString16(current % 16);
      assert bytes[..i + 1][..i] == bytes[..i];
    }
    assert bytes[..|bytes|] == bytes;
    EncodeHexLowercase(bytes);
    LowerHexStringLower(hex);
    hex := LowerHexString(hex);
  }

  /** Every character written is a lowercase hexadecimal digit, so `toLowerCase` leaves the text as it is. */
  lemma {:induction false} EncodeHexLowercase(bytes: seq<int>)
    ensures forall i :: 0 <= i < |EncodeHex(bytes)| ==> IsLowerHex(EncodeHex(bytes)[i])
    decreases |bytes|
  {
    if bytes != [] {
      EncodeHexLowercase(bytes[..|bytes| - 1]);
    }
  }

  lemma LowerHexStringLower(s: string)
    requires forall i :: 0 <= i < |s| ==> IsLowerHex(s[i])
    ensures LowerHexString(s) == s
  {
  }

  // ---------------------------------------------------------------------
  // Properties

  /** A value in the range of a byte, or a negative one down to -256, is written as exactly two digits. */
  lemma ByteHexDigits(b: int)
    requires -256 <= b < 256
    ensures var current := if b < 0 then b + 256 else b;
      ByteHex(b) == [Digit(current / 16), Digit(current % 16)]
  {
    var current := if b < 0 then b + 256 else b;
    assert 0 <= current < 256;
    assert current % 0x1_0000_0000 == current;
    assert current / 16 < 16;
  }

  lemma {:induction false} EncodeHexLength(bytes: seq<int>)
    requires forall i :: 0 <= i < |bytes| ==> -256 <= bytes[i] < 256
    ensures |EncodeHex(bytes)| == 2 * |bytes|
    decreases |bytes|
  {
    if bytes != [] {
      EncodeHexLength(bytes[..|bytes| - 1]);
      ByteHexDigits(bytes[|bytes| - 1]);
    }
  }

  lemma NotWhiteSpace(c: char)
    requires IsHexDigit(c)
    ensures !IsJsWhiteSpace(c) && c != '-' && c != '+' && c != 'x' && c != 'X'
  {
  }

  /** Two hexadecimal digits parse to their value: no white space, sign or `0x` is seen. */
  lemma ParsePair(hi: char, lo: char)
    requires IsHexDigit(hi) && IsHexDigit(lo)
    ensures ParseIntHex([hi, lo]) == Some(DigitValue(hi) * 16 + DigitValue(lo))
  {
    var s := [hi, lo];
    NotWhiteSpace(hi);
    NotWhiteSpace(lo);
    assert Scan(s, Leading) == Scan(s, Unsigned(false));
    assert StripHexPrefix(s) == s;
    assert DigitRun(s) == 2 by {
      assert DigitRun(s[1..]) == 1 by {
        assert s[1..][1..] == [];
      }
    }
    assert s[..2] == s;
    assert HexValue(s) == HexValue([hi]) * 16 + DigitValue(lo) by {
      assert s[..1] == [hi];
    }
    assert HexValue([hi]) == DigitValue(hi) by {
      assert [hi][..0] == [];
    }
  }

  lemma {:induction false} ChunksAppend(a: string, b: string, pairs: nat)
    requires |a| == 2 * pairs
    ensures Chunks(a + b) == Chunks(a) + Chunks(b)
    decreases |a|
  {
    if a == [] {
      assert a + b == b;
    } else {
      assert (a + b)[..2] == a[..2];
      assert (a + b)[2..] == a[2..] + b;
      ChunksAppend(a[2..], b, pairs - 1);
    }
  }

  lemma ParseAllAppend(a: seq<string>, b: seq<string>, parse: string -> Option<int>)
    ensures ParseAll(a + b, parse) == ParseAll(a, parse) + ParseAll(b, parse)
  {
    assert forall i :: 0 <= i < |a + b| ==> (a + b)[i] == if i < |a| then a[i] else b[i - |a|];
  }

  lemma Uint8ArrayFromAppend(a: seq<Option<int>>, b: seq<Option<int>>)
    ensures Uint8ArrayFrom(a + b) == Uint8ArrayFrom(a) + Uint8ArrayFrom(b)
  {
  }

  /** Decoding splits at any even position. */
  lemma DecodeWithAppend(a: string, b: string, pairs: nat, parse: string -> Option<int>)
    requires |a| == 2 * pairs
    ensures DecodeWith(a + b, parse) == DecodeWith(a, parse) + DecodeWith(b, parse)
  {
    ChunksAppend(a, b, pairs);
    ParseAllAppend(Chunks(a), Chunks(b), parse);
    Uint8ArrayFromAppend(ParseAll(Chunks(a), parse), ParseAll(Chunks(b), parse));
  }

  /** A parser that reads two hexadecimal digits as their value, as `parseInt(_, 16)` does. */
  ghost predicate ReadsPairs(parse: string -> Option<int>) {
    forall hi, lo :: IsHexDigit(hi) && IsHexDigit(lo) ==> parse([hi, lo]) == Some(DigitValue(hi) * 16 + DigitValue(lo))
  }

  lemma ParseIntHexReadsPairs()
    ensures ReadsPairs(ParseIntHex)
  {
    forall hi, lo | IsHexDigit(hi) && IsHexDigit(lo)
      ensures ParseIntHex([hi, lo]) == Some(DigitValue(hi) * 16 + DigitValue(lo))
    {
      ParsePair(hi, lo);
    }
  }

  /** The bytes decoded from two hexadecimal digits. */
  lemma DecodePair(hi: char, lo: char, parse: string -> Option<int>)
    requires ReadsPairs(parse)
    requires IsHexDigit(hi) && IsHexDigit(lo)
    ensures DecodeWith([hi, lo], parse) == [DigitValue(hi) * 16 + DigitValue(lo)]
  {
    assert [hi, lo][..2] == [hi, lo];
    assert [hi, lo][2..] == [];
    assert Chunks([hi, lo]) == [[hi, lo]];
  }

  /** Each value taken modulo 256, as `Uint8Array.from` does. */
  function Mod256(values: seq<int>): (r: seq<byte>)
    ensures |r| == |values|
  {
    seq(|values|, i requires 0 <= i < |values| => values[i] % 256)
  }

  lemma Mod256Last(values: seq<int>)
    requires values != []
    ensures Mod256(values) == Mod256(values[..|values| - 1]) + [values[|values| - 1] % 256]
  {
  }

  /** The two digits written for one value read back as that value modulo 256. */
  lemma DecodeByteHex(b: int, parse: string -> Option<int>)
    requires ReadsPairs(parse)
    requires -256 <= b < 256
    ensures DecodeWith(ByteHex(b), parse) == [b % 256]
  {
    var hi, lo := Nibbles(b);
    DecodeDigits(ByteHex(b), hi, lo, b % 256, parse);
  }

  lemma DecodeDigits(s: string, hi: nat, lo: nat, v: int, parse: string -> Option<int>)
    requires ReadsPairs(parse)
    requires hi < 16 && lo < 16 && s == [Digit(hi), Digit(lo)] && v == hi * 16 + lo
    ensures DecodeWith(s, parse) == [v]
  {
    DecodePair(Digit(hi), Digit(lo), parse);
  }

  /** The two nibbles written for a value in -256..255. */
  lemma Nibbles(b: int) returns (hi: nat, lo: nat)
    requires -256 <= b < 256
    ensures hi < 16 && lo < 16 && hi * 16 + lo == b % 256
    ensures ByteHex(b) == [Digit(hi), Digit(lo)]
  {
    var current := if b < 0 then b + 256 else b;
    ByteHexDigits(b);
    hi, lo := current / 16, current % 16;
    ModByte(b);
  }

  lemma ModByte(b: int)
    requires -256 <= b < 256
    ensures var current := if b < 0 then b + 256 else b;
      current / 16 * 16 + current % 16 == b % 256
  {
    var current := if b < 0 then b + 256 else b;
    DivMod16(current);
    if b < 0 {
      ModShift(b);
    } else {
      ModSmall(b);
    }
  }

  lemma DivMod16(x: nat)
    ensures x / 16 * 16 + x % 16 == x
  {
  }

  lemma ModSmall(b: int)
    requires 0 <= b < 256
    ensures b % 256 == b
  {
  }

  lemma ModShift(b: int)
    requires -256 <= b < 0
    ensures b % 256 == b + 256
  {
  }

  lemma {:induction false} DecodeEncodeWith(values: seq<int>, parse: string -> Option<int>)
    requires ReadsPairs(parse)
    requires forall i :: 0 <= i < |values| ==> -256 <= values[i] < 256
    ensures DecodeWith(EncodeHex(values), parse) == Mod256(values)
    decreases |values|
  {
    if values != [] {
      var n := |values| - 1;
      var init := values[..n];
      var e, t := EncodeHex(init), ByteHex(values[n]);
      assert EncodeHex(values) == e + t;
      DecodeEncodeWith(init, parse);
      EncodeHexLength(init);
      assert |e| == 2 * n;
      DecodeWithAppend(e, t, n, parse);
      DecodeByteHex(values[n], parse);
      Mod256Last(values);
    }
  }

  /**
   * Reading back what `bytesToHex` wrote gives the values it was given,
   * taken modulo 256: the bytes themselves when they are in 0..255.
   */
  lemma DecodeEncode(values: seq<int>)
    requires forall i :: 0 <= i < |values| ==> -256 <= values[i] < 256
    ensures DecodeHex(EncodeHex(values)) == Mod256(values)
  {
    ParseIntHexReadsPairs();
    DecodeEncodeWith(values, ParseIntHex);
  }

  /** Byte values in 0..255 come back unchanged. */
  lemma RoundTripBytes(bytes: seq<byte>)
    ensures DecodeHex(EncodeHex(bytes)) == bytes
  {
    DecodeEncode(bytes);
    Mod256Bytes(bytes);
  }

  lemma Mod256Bytes(bytes: seq<byte>)
    ensures Mod256(bytes) == bytes
  {
  }

  /** Decoding two digits and writing the byte out again gives the digits in lower case. */
  lemma PairRoundTrip(hi: char, lo: char)
    requires IsHexDigit(hi) && IsHexDigit(lo)
    ensures ByteHex(DigitValue(hi) * 16 + DigitValue(lo)) == [LowerHex(hi), LowerHex(lo)]
  {
    var v := DigitValue(hi) * 16 + DigitValue(lo);
    assert v / 16 == DigitValue(hi) && v % 16 == DigitValue(lo);
    ByteHexDigits(v);
    DigitOfValue(hi);
    DigitOfValue(lo);
  }

  lemma {:induction false} EncodeDecodeWith(hex: string, pairs: nat, parse: string -> Option<int>)
    requires ReadsPairs(parse)
    requires |hex| == 2 * pairs
    requires forall i :: 0 <= i < |hex| ==> IsHexDigit(hex[i])
    ensures EncodeHex(DecodeWith(hex, parse)) == LowerHexString(hex)
    decreases |hex|
  {
    if hex != [] {
      var n := |hex| - 2;
      var init := hex[..n];
      var hi, lo := hex[n], hex[n + 1];
      assert hex == init + [hi, lo];
      EncodeDecodeWith(init, pairs - 1, parse);
      DecodeWithAppend(init, [hi, lo], pairs - 1, parse);
      DecodePair(hi, lo, parse);
      var v := DigitValue(hi) * 16 + DigitValue(lo);
      EncodeHexLast(DecodeWith(init, parse), v);
      PairRoundTrip(hi, lo);
      LowerHexStringLast(init, hi, lo);
    }
  }

  lemma EncodeHexLast(d: seq<int>, v: int)
    ensures EncodeHex(d + [v]) == EncodeHex(d) + ByteHex(v)
  {
    assert (d + [v])[..|d|] == d;
  }

  lemma LowerHexStringLast(init: string, hi: char, lo: char)
    ensures LowerHexString(init + [hi, lo]) == LowerHexString(init) + [LowerHex(hi), LowerHex(lo)]
  {
  }

  /**
   * An even-length string of hexadecimal digits, decoded and written out
   * again, is the same string in lower case.
   */
  lemma EncodeDecode(hex: string)
    requires |hex| % 2 == 0
    requires forall i :: 0 <= i < |hex| ==> IsHexDigit(hex[i])
    ensures EncodeHex(DecodeHex(hex)) == LowerHexString(hex)
  {
    ParseIntHexReadsPairs();
    EncodeDecodeWith(hex, |hex| / 2, ParseIntHex);
  }

  lemma DigitOfValue(c: char)
    requires IsHexDigit(c)
    ensures Digit(DigitValue(c)) == LowerHex(c)
  {
  }

  // ---------------------------------------------------------------------
  // `uuidToBase32`

  /** `replaceAll('-', '')`. */
  function StripDashes(s: string): (r: string)
    ensures |r| <= |s|
    decreases |s|
  {
    if s == [] then "" else StripDashes(s[..|s| - 1]) + (if s[|s| - 1] == '-' then "" else [s[|s| - 1]])
  }

  lemma {:induction false} StripDashesAppend(a: string, b: string)
    ensures StripDashes(a + b) == StripDashes(a) + StripDashes(b)
    decreases |b|
  {
    if b == [] {
      assert a + b == a;
    } else {
      assert (a + b)[..|a + b| - 1] == a + b[..|b| - 1];
      StripDashesAppend(a, b[..|b| - 1]);
    }
  }

  lemma {:induction false} StripDashesNoDash(s: string)
    requires forall i :: 0 <= i < |s| ==> s[i] != '-'
    ensures StripDashes(s) == s
    decreases |s|
  {
    if s != [] {
      StripDashesNoDash(s[..|s| - 1]);
    }
  }

  /**
   * A UUID written with its four dashes and written without them decode
   * to the same bytes.
   */
  lemma DashedUuid(h: string)
    requires |h| == 32
    requires forall i :: 0 <= i < |h| ==> h[i] != '-'
    ensures var dashed := h[..8] + "-" + h[8..12] + "-" + h[12..16] + "-" + h[16..20] + "-" + h[20..];
      StripDashes(dashed) == h && DecodeHex(StripDashes(dashed)) == DecodeHex(h)
  {
    var p0, p1, p2, p3, p4 := h[..8], h[8..12], h[12..16], h[16..20], h[20..];
    StripDashesNoDash(p0);
    StripDashesNoDash(p1);
    StripDashesNoDash(p2);
    StripDashesNoDash(p3);
    StripDashesNoDash(p4);
    var d1 := p0 + "-" + p1;
    var d2 := d1 + "-" + p2;
    var d3 := d2 + "-" + p3;
    var d4 := d3 + "-" + p4;
    StripDashesJoin(p0, p1);
    StripDashesJoin(d1, p2);
    StripDashesJoin(d2, p3);
    StripDashesJoin(d3, p4);
    assert p0 + p1 + p2 + p3 + p4 == h;
  }

  /** A dash between two texts disappears. */
  lemma StripDashesJoin(a: string, b: string)
    ensures StripDashes(a + "-" + b) == StripDashes(a) + StripDashes(b)
  {
    StripDashesAppend(a + "-", b);
    StripDashesAppend(a, "-");
    assert "-"[..0] == [];
    assert StripDashes("-") == StripDashes([]) + "";
  }

  /** ASCII lower-casing of the Crockford alphabet, which is all `toLowerCase` does to it. */
  function AsciiLower(s: string): (r: string)
    ensures |r| == |s|
    ensures forall i :: 0 <= i < |s| ==> !('A' <= r[i] <= 'Z')
  {
    seq(|s|, i requires 0 <= i < |s| => if 'A' <= s[i] <= 'Z' then (s[i] as int - 'A' as int + 'a' as int) as char else s[i])
  }

  /**
   * `uuidToBase32`: dashes removed, the rest decoded as hexadecimal, the
   * bytes given to the Crockford encoder (a parameter: it is library code)
   * and its output lower-cased.
   */
  method UuidToBase32(input: string, base32Encode: seq<byte> -> string) returns (r: string)
    ensures r == AsciiLower(base32Encode(DecodeHex(StripDashes(input))))
  {
    var replaced := StripDashes(input);
    var bytes := HexToBytes(replaced);
    r := AsciiLower(base32Encode(bytes));
  }
}

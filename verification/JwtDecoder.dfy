/**
 * The hand-written base64url and UTF-8 decoder for token payloads. Its accumulator is a 32-bit
 * integer that is never masked: it overflows on the sixth character and keeps overflowing.
 */
module JwtDecoder {
  // ── 32-bit arithmetic ──

  /** The signed 32-bit integer that shift results are truncated to. */
  function ToInt32(x: int): int {
    (x + 0x8000_0000) % 0x1_0000_0000 - 0x8000_0000
  }

  function Pow2(n: nat): (r: nat)
    ensures r > 0
  {
    if n == 0 then 1 else 2 * Pow2(n - 1)
  }

  /** (buffer << 6) | value: the shift leaves the low six bits zero, so "or" adds. */
  function Append6(buffer: int, value: nat): int {
    ToInt32(buffer * 64) + value
  }

  /** (buffer >> bits) & 0xff, the shift keeping the sign. */
  function TakeByte(buffer: int, bits: nat): (b: nat)
    ensures b < 256
  {
    buffer / Pow2(bits) % 256
  }

  // ── base64url ──

  /** Position in the alphabet A-Z a-z 0-9 + /, or -1. */
  function IndexOf(c: char): (v: int)
    ensures -1 <= v < 64
    ensures v >= 0 ==> c == AlphabetAt(v)
  {
    if 'A' <= c <= 'Z' then c as int - 'A' as int
    else if 'a' <= c <= 'z' then 26 + (c as int - 'a' as int)
    else if '0' <= c <= '9' then 52 + (c as int - '0' as int)
    else if c == '+' then 62
    else if c == '/' then 63
    else -1
  }

  /** The alphabet, section 4 of RFC 4648. */
  function AlphabetAt(v: nat): (c: char)
    requires v < 64
  {
    if v < 26 then ('A' as int + v) as char
    else if v < 52 then ('a' as int + (v - 26)) as char
    else if v < 62 then ('0' as int + (v - 52)) as char
    else if v == 62 then '+' else '/'
  }

  function NormalizeChar(c: char): char {
    if c == '-' then '+' else if c == '_' then '/' else c
  }

  function Normalize(s: string): (r: string)
    ensures |r| == |s|
  {
    seq(|s|, i requires 0 <= i < |s| => NormalizeChar(s[i]))
  }

  function Equals(n: nat): (r: string)
    ensures |r| == n && forall i :: 0 <= i < n ==> r[i] == '='
  {
    seq(n, i => '=')
  }

  function Pad(s: string): string {
    s + Equals((4 - |s| % 4) % 4)
  }

  /** The bytes the loop pushes while reading `s`, from accumulator `buffer` with `bits` pending bits. */
  function BytesFrom(s: string, buffer: int, bits: nat): seq<nat> {
    if s == [] || s[0] == '=' then []
    else if IndexOf(s[0]) < 0 then BytesFrom(s[1..], buffer, bits)
    else
      var buffer' := Append6(buffer, IndexOf(s[0]));
      if bits + 6 >= 8 then [TakeByte(buffer', bits + 6 - 8)] + BytesFrom(s[1..], buffer', bits + 6 - 8)
      else BytesFrom(s[1..], buffer', bits + 6)
  }

  function DecodedBytes(input: string): seq<nat> {
    BytesFrom(Pad(Normalize(input)), 0, 0)
  }

  /** What counts of a text: its characters of the alphabet, up to the first sign of padding. */
  function Counted(s: string): string {
    if s == [] || s[0] == '=' then []
    else if exists v: nat :: v < 64 && AlphabetAt(v) == s[0] then [s[0]] + Counted(s[1..])
    else Counted(s[1..])
  }

  lemma InAlphabetIff(c: char)
    ensures IndexOf(c) >= 0 <==> exists v: nat :: v < 64 && AlphabetAt(v) == c
  {
    if v: nat :| v < 64 && AlphabetAt(v) == c {
      assert IndexOf(AlphabetAt(v)) == v;
    }
  }

  /** Other characters are skipped, and nothing after padding is read. */
  lemma {:induction false} OthersAreSkipped(s: string, buffer: int, bits: nat)
    ensures BytesFrom(s, buffer, bits) == BytesFrom(Counted(s), buffer, bits)
    decreases |s|
  {
    if s != [] && s[0] != '=' {
      InAlphabetIff(s[0]);
      if IndexOf(s[0]) < 0 {
        OthersAreSkipped(s[1..], buffer, bits);
      } else {
        var buffer' := Append6(buffer, IndexOf(s[0]));
        OthersAreSkipped(s[1..], buffer', if bits + 6 >= 8 then bits + 6 - 8 else bits + 6);
        assert Counted(s)[1..] == Counted(s[1..]);
      }
    }
  }

  // ── UTF-8 to UTF-16 ──

  /** A byte's low six bits; past the end of the array, undefined counts as 0. */
  function Low6(bytes: seq<nat>, i: nat): nat {
    if i < |bytes| then bytes[i] % 64 else 0
  }

  function CharCode(x: int): nat {
    x % 0x1_0000
  }

  /** The two code units of a four-byte sequence. */
  function PairOf(codePoint: nat): seq<nat> {
    var offset: int := codePoint - 0x1_0000;
    [CharCode(0xD800 + offset / 1024), CharCode(0xDC00 + offset % 1024)]
  }

  function TwoByteCode(byte1: nat, low2: nat): nat {
    byte1 % 32 * 64 + low2
  }

  function ThreeByteCode(byte1: nat, low2: nat, low3: nat): nat {
    byte1 % 16 * 4096 + low2 * 64 + low3
  }

  function FourByteCode(byte1: nat, low2: nat, low3: nat, low4: nat): nat {
    byte1 % 8 * 262144 + low2 * 4096 + low3 * 64 + low4
  }

  /** How many bytes the lead byte claims. */
  function Width(byte1: nat): (n: nat)
    ensures 1 <= n <= 4
  {
    if byte1 < 0x80 then 1
    else if 0xC0 <= byte1 < 0xE0 then 2
    else if 0xE0 <= byte1 < 0xF0 then 3
    else 4
  }

  /** The code units of the character that starts at `i`. */
  function UnitsAt(bytes: seq<nat>, i: nat): seq<nat>
    requires i < |bytes|
  {
    var byte1 := bytes[i];
    match Width(byte1)
    case 1 => [CharCode(byte1)]
    case 2 => [CharCode(TwoByteCode(byte1, Low6(bytes, i + 1)))]
    case 3 => [CharCode(ThreeByteCode(byte1, Low6(bytes, i + 1), Low6(bytes, i + 2)))]
    case _ => PairOf(FourByteCode(byte1, Low6(bytes, i + 1), Low6(bytes, i + 2), Low6(bytes, i + 3)))
  }

  /** The code units the decoder appends from index `i` on. */
  function UnitsFrom(bytes: seq<nat>, i: nat): seq<nat>
    decreases |bytes| - i
  {
    if i >= |bytes| then [] else UnitsAt(bytes, i) + UnitsFrom(bytes, i + Width(bytes[i]))
  }

  function Base64UrlDecode(input: string): seq<nat> {
    UnitsFrom(DecodedBytes(input), 0)
  }

  // ── The loops ──

  lemma UnitsAppend(bytes: seq<nat>, i: nat, result: seq<nat>, whole: seq<nat>)
    requires i < |bytes| && whole == result + UnitsFrom(bytes, i)
    ensures whole == (result + UnitsAt(bytes, i)) + UnitsFrom(bytes, i + Width(bytes[i]))
  {
    var units, rest := UnitsAt(bytes, i), UnitsFrom(bytes, i + Width(bytes[i]));
    assert (result + units) + rest == result + (units + rest);
  }

  method DecodeUtf8(bytes: seq<nat>) returns (result: seq<nat>)
    ensures result == UnitsFrom(bytes, 0)
  {
    result := [];
    var i: nat := 0;
    while i < |bytes|
      invariant UnitsFrom(bytes, 0) == result + UnitsFrom(bytes, i)
      decreases |bytes| - i
    {
      UnitsAppend(bytes, i, result, UnitsFrom(bytes, 0));
      var byte1 := bytes[i];
      i := i + 1;
      if byte1 < 0x80 {
        result := result + [CharCode(byte1)];
      } else if 0xC0 <= byte1 < 0xE0 {
        result := result + [CharCode(TwoByteCode(byte1, Low6(bytes, i)))];
        i := i + 1;
      } else if 0xE0 <= byte1 < 0xF0 {
        result := result + [CharCode(ThreeByteCode(byte1, Low6(bytes, i), Low6(bytes, i + 1)))];
        i := i + 2;
      } else {
        result := result + PairOf(FourByteCode(byte1, Low6(bytes, i), Low6(bytes, i + 1), Low6(bytes, i + 2)));
        i := i + 3;
      }
    }
  }

  method DecodeBytes(padded: string) returns (bytes: seq<nat>)
    ensures bytes == BytesFrom(padded, 0, 0)
  {
    var buffer: int, bits: nat := 0, 0;
    bytes := [];
    var n := 0;
    while n < |padded|
      invariant n <= |padded|
      invariant BytesFrom(padded, 0, 0) == bytes + BytesFrom(padded[n..], buffer, bits)
    {
      if padded[n] == '=' { break; }
      var value := IndexOf(padded[n]);
      assert padded[n..][1..] == padded[n + 1..];
      n := n + 1;
      if value == -1 { continue; }
      buffer := Append6(buffer, value);
      bits := bits + 6;
      if bits >= 8 {
        bits := bits - 8;
        bytes := bytes + [TakeByte(buffer, bits)];
      }
    }
  }

  method DecodePayload(input: string) returns (result: seq<nat>)
    ensures result == Base64UrlDecode(input)
  {
    var bytes := DecodeBytes(Pad(Normalize(input)));
    result := DecodeUtf8(bytes);
  }

  // ── The encodings decoded ──

  predicate IsByteSeq(bytes: seq<nat>) {
    forall i :: 0 <= i < |bytes| ==> bytes[i] < 256
  }

  /** The url-safe alphabet. */
  function Symbol(v: nat): char
    requires v < 64
  {
    if v == 62 then '-' else if v == 63 then '_' else AlphabetAt(v)
  }

  /** base64url without padding, section 5 of RFC 4648. */
  function Encode(bytes: seq<nat>): string
    requires IsByteSeq(bytes)
  {
    if bytes == [] then []
    else if |bytes| == 1 then [Symbol(bytes[0] / 4), Symbol(bytes[0] % 4 * 16)]
    else if |bytes| == 2 then
      [Symbol(bytes[0] / 4), Symbol(bytes[0] % 4 * 16 + bytes[1] / 16), Symbol(bytes[1] % 16 * 4)]
    else
      [Symbol(bytes[0] / 4), Symbol(bytes[0] % 4 * 16 + bytes[1] / 16),
       Symbol(bytes[1] % 16 * 4 + bytes[2] / 64), Symbol(bytes[2] % 64)] + Encode(bytes[3..])
  }

  predicate IsScalar(c: nat) {
    c < 0xD800 || 0xE000 <= c <= 0x10_FFFF
  }

  /** UTF-8, section 3 of RFC 3629. */
  function Utf8(c: nat): (r: seq<nat>)
    requires IsScalar(c)
    ensures IsByteSeq(r) && r != []
  {
    if c < 0x80 then [c]
    else if c < 0x800 then [0xC0 + c / 64, 0x80 + c % 64]
    else if c < 0x1_0000 then [0xE0 + c / 4096, 0x80 + c / 64 % 64, 0x80 + c % 64]
    else [0xF0 + c / 262144, 0x80 + c / 4096 % 64, 0x80 + c / 64 % 64, 0x80 + c % 64]
  }

  /** UTF-16, section 2.1 of RFC 2781. */
  function Utf16(c: nat): seq<nat>
    requires IsScalar(c)
  {
    if c < 0x1_0000 then [c]
    else [0xD800 + (c - 0x1_0000) / 1024, 0xDC00 + (c - 0x1_0000) % 1024]
  }

  predicate AllScalars(text: seq<nat>) {
    forall i :: 0 <= i < |text| ==> IsScalar(text[i])
  }

  function Utf8All(text: seq<nat>): (r: seq<nat>)
    requires AllScalars(text)
    ensures IsByteSeq(r)
  {
    if text == [] then [] else Utf8(text[0]) + Utf8All(text[1..])
  }

  function Utf16All(text: seq<nat>): seq<nat>
    requires AllScalars(text)
  {
    if text == [] then [] else Utf16(text[0]) + Utf16All(text[1..])
  }

  // ── Round trips ──

  /** Appending six bits in 32-bit arithmetic: some multiple of 4096 on top of the last six bits and
      the new ones. */
  lemma AppendSplits(buffer: int, value: nat) returns (high: int)
    requires value < 64
    ensures Append6(buffer, value) == 4096 * high + (buffer % 64 * 64 + value)
  {
    var wraps := (buffer * 64 + 0x8000_0000) / 0x1_0000_0000;
    assert ToInt32(buffer * 64) == buffer * 64 - 0x1_0000_0000 * wraps;
    high := buffer / 64 - 0x10_0000 * wraps;
  }

  lemma HighBitsIgnored4(high: int, low: nat)
    ensures (4096 * high + low) / 16 % 256 == low / 16 % 256
  {
    assert (4096 * high + low) / 16 == 256 * high + low / 16;
  }

  lemma HighBitsIgnored2(high: int, low: nat)
    ensures (4096 * high + low) / 4 % 256 == low / 4 % 256
  {
    var fours := 4 * high;
    assert (4096 * high + low) / 4 == 256 * fours + low / 4;
  }

  lemma HighBitsIgnored0(high: int, low: nat)
    ensures (4096 * high + low) % 256 == low % 256
  {
    var ones := 16 * high;
    assert 4096 * high + low == 256 * ones + low;
  }

  lemma TopByteOfTwo(v1: nat, v2: nat)
    requires v1 < 64 && v2 < 64
    ensures (v1 * 64 + v2) / 16 % 256 == v1 * 4 + v2 / 16
  {
  }

  lemma MiddleByteOfTwo(v1: nat, v2: nat)
    requires v1 < 64 && v2 < 64
    ensures (v1 * 64 + v2) / 4 % 256 == v1 % 16 * 16 + v2 / 4
  {
  }

  lemma LowByteOfTwo(v1: nat, v2: nat)
    requires v1 < 64 && v2 < 64
    ensures (v1 * 64 + v2) % 256 == v1 % 4 * 64 + v2
  {
  }

  lemma Powers()
    ensures Pow2(0) == 1 && Pow2(2) == 4 && Pow2(4) == 16
  {
  }

  lemma NewLowBits(buffer: int, value: nat)
    requires value < 64
    ensures Append6(buffer, value) % 64 == value
  {
    var high := AppendSplits(buffer, value);
    var tens := 64 * high + buffer % 64;
    assert Append6(buffer, value) == 64 * tens + value;
  }

  /** What was shifted out or overflowed never reaches a byte: only the accumulator's last six bits
      and the new value do. */
  lemma OverflowIsInvisible(buffer: int, value: nat)
    requires value < 64
    ensures TakeByte(Append6(buffer, value), 4) == buffer % 64 * 4 + value / 16
    ensures TakeByte(Append6(buffer, value), 2) == buffer % 64 % 16 * 16 + value / 4
    ensures TakeByte(Append6(buffer, value), 0) == buffer % 64 % 4 * 64 + value
    ensures Append6(buffer, value) % 64 == value
  {
    var high := AppendSplits(buffer, value);
    var low, kept := buffer % 64, buffer % 64 * 64 + value;
    HighBitsIgnored4(high, kept);
    HighBitsIgnored2(high, kept);
    HighBitsIgnored0(high, kept);
    TopByteOfTwo(low, value);
    MiddleByteOfTwo(low, value);
    LowByteOfTwo(low, value);
    NewLowBits(buffer, value);
    Powers();
  }

  lemma ReadSymbol(v: nat)
    requires v < 64
    ensures NormalizeChar(Symbol(v)) != '=' && IndexOf(NormalizeChar(Symbol(v))) == v
  {
  }

  function Letter(v: nat): (c: char)
    requires v < 64
  {
    NormalizeChar(Symbol(v))
  }

  /** Reading a letter of the alphabet: the accumulator takes it in, and gives a byte once it holds
      eight bits. */
  lemma ReadLetter(v: nat, rest: string, buffer: int, bits: nat)
    requires v < 64
    ensures BytesFrom([Letter(v)] + rest, buffer, bits) ==
            if bits >= 2 then [TakeByte(Append6(buffer, v), bits - 2)] + BytesFrom(rest, Append6(buffer, v), bits - 2)
            else BytesFrom(rest, Append6(buffer, v), bits + 6)
  {
    ReadSymbol(v);
    assert ([Letter(v)] + rest)[1..] == rest;
  }

  /** Two characters give their byte, whatever the accumulator held. */
  lemma TwoSymbols(v1: nat, v2: nat, rest: string, buffer: int) returns (buffer2: int)
    requires v1 < 64 && v2 < 64
    ensures BytesFrom([Letter(v1)] + ([Letter(v2)] + rest), buffer, 0) == [v1 * 4 + v2 / 16] + BytesFrom(rest, buffer2, 4)
    ensures buffer2 % 64 == v2
  {
    var buffer1 := Append6(buffer, v1);
    buffer2 := Append6(buffer1, v2);
    NewLowBits(buffer, v1);
    OverflowIsInvisible(buffer1, v2);
    ReadLetter(v1, [Letter(v2)] + rest, buffer, 0);
    ReadLetter(v2, rest, buffer1, 6);
  }

  /** A third character completes the second byte. */
  lemma ThirdSymbol(v2: nat, v3: nat, rest: string, buffer: int) returns (buffer3: int)
    requires v2 < 64 && v3 < 64 && buffer % 64 == v2
    ensures BytesFrom([Letter(v3)] + rest, buffer, 4) == [v2 % 16 * 16 + v3 / 4] + BytesFrom(rest, buffer3, 2)
    ensures buffer3 % 64 == v3
  {
    buffer3 := Append6(buffer, v3);
    OverflowIsInvisible(buffer, v3);
    ReadLetter(v3, rest, buffer, 4);
  }

  /** A fourth character completes the third byte, and no bits are left pending. */
  lemma FourthSymbol(v3: nat, v4: nat, rest: string, buffer: int) returns (buffer4: int)
    requires v3 < 64 && v4 < 64 && buffer % 64 == v3
    ensures BytesFrom([Letter(v4)] + rest, buffer, 2) == [v3 % 4 * 64 + v4] + BytesFrom(rest, buffer4, 0)
  {
    buffer4 := Append6(buffer, v4);
    OverflowIsInvisible(buffer, v4);
    ReadLetter(v4, rest, buffer, 2);
  }

  predicate EndsAtOnce(tail: string) {
    tail == [] || tail[0] == '='
  }

  lemma GroupBytes(a: nat, b: nat, c: nat)
    requires a < 256 && b < 256 && c < 256
    ensures a / 4 * 4 + (a % 4 * 16 + b / 16) / 16 == a
    ensures (a % 4 * 16 + b / 16) % 16 * 16 + (b % 16 * 4 + c / 64) / 4 == b
    ensures (b % 16 * 4 + c / 64) % 4 * 64 + c % 64 == c
  {
  }

  /** Normalising a text that starts with a symbol. */
  lemma NormalizeCons(v: nat, s: string, tail: string)
    requires v < 64
    ensures Normalize([Symbol(v)] + s) + tail == [Letter(v)] + (Normalize(s) + tail)
  {
    assert Normalize([Symbol(v)] + s) == [Letter(v)] + Normalize(s);
  }

  lemma OneByte(a: nat, tail: string, buffer: int)
    requires a < 256 && EndsAtOnce(tail)
    ensures BytesFrom([Letter(a / 4)] + ([Letter(a % 4 * 16)] + tail), buffer, 0) == [a]
  {
    GroupBytes(a, 0, 0);
    var buffer2 := TwoSymbols(a / 4, a % 4 * 16, tail, buffer);
  }

  lemma TwoBytes(a: nat, b: nat, tail: string, buffer: int)
    requires a < 256 && b < 256 && EndsAtOnce(tail)
    ensures BytesFrom([Letter(a / 4)] + ([Letter(a % 4 * 16 + b / 16)] + ([Letter(b % 16 * 4)] + tail)), buffer, 0) == [a, b]
  {
    GroupBytes(a, b, 0);
    var v1, v2, v3 := a / 4, a % 4 * 16 + b / 16, b % 16 * 4;
    var buffer2 := TwoSymbols(v1, v2, [Letter(v3)] + tail, buffer);
    var buffer3 := ThirdSymbol(v2, v3, tail, buffer2);
  }

  lemma ThreeBytes(a: nat, b: nat, c: nat, rest: string, buffer: int) returns (buffer4: int)
    requires a < 256 && b < 256 && c < 256
    ensures BytesFrom([Letter(a / 4)] + ([Letter(a % 4 * 16 + b / 16)] + ([Letter(b % 16 * 4 + c / 64)] + ([Letter(c % 64)] + rest))), buffer, 0)
            == [a] + ([b] + ([c] + BytesFrom(rest, buffer4, 0)))
  {
    GroupBytes(a, b, c);
    var v1, v2, v3, v4 := a / 4, a % 4 * 16 + b / 16, b % 16 * 4 + c / 64, c % 64;
    var buffer2 := TwoSymbols(v1, v2, [Letter(v3)] + ([Letter(v4)] + rest), buffer);
    var buffer3 := ThirdSymbol(v2, v3, [Letter(v4)] + rest, buffer2);
    buffer4 := FourthSymbol(v3, v4, rest, buffer3);
  }

  /** The bytes come back from their base64url form, whatever the accumulator held before and with
      any padding behind. */
  lemma {:induction false} BytesRoundTrip(bytes: seq<nat>, tail: string, buffer: int)
    requires IsByteSeq(bytes) && EndsAtOnce(tail)
    ensures BytesFrom(Normalize(Encode(bytes)) + tail, buffer, 0) == bytes
    decreases |bytes|, 1
  {
    if bytes == [] {
      assert Normalize(Encode(bytes)) + tail == tail;
    } else if |bytes| == 1 {
      LastByte(bytes[0], tail, buffer);
      assert bytes == [bytes[0]];
    } else if |bytes| == 2 {
      LastTwoBytes(bytes[0], bytes[1], tail, buffer);
      assert bytes == [bytes[0], bytes[1]];
    } else {
      GroupRoundTrip(bytes, tail, buffer);
    }
  }

  lemma LastByte(a: nat, tail: string, buffer: int)
    requires a < 256 && EndsAtOnce(tail)
    ensures BytesFrom(Normalize(Encode([a])) + tail, buffer, 0) == [a]
  {
    OneByte(a, tail, buffer);
    assert Normalize(Encode([a])) + tail == [Letter(a / 4)] + ([Letter(a % 4 * 16)] + tail);
  }

  lemma LastTwoBytes(a: nat, b: nat, tail: string, buffer: int)
    requires a < 256 && b < 256 && EndsAtOnce(tail)
    ensures BytesFrom(Normalize(Encode([a, b])) + tail, buffer, 0) == [a, b]
  {
    TwoBytes(a, b, tail, buffer);
    assert Normalize(Encode([a, b])) + tail ==
      [Letter(a / 4)] + ([Letter(a % 4 * 16 + b / 16)] + ([Letter(b % 16 * 4)] + tail));
  }

  lemma {:induction false} GroupRoundTrip(bytes: seq<nat>, tail: string, buffer: int)
    requires IsByteSeq(bytes) && EndsAtOnce(tail) && |bytes| >= 3
    ensures BytesFrom(Normalize(Encode(bytes)) + tail, buffer, 0) == bytes
    decreases |bytes|, 0
  {
    var a, b, c := bytes[0], bytes[1], bytes[2];
    var rest := Normalize(Encode(bytes[3..])) + tail;
    var buffer4 := ThreeBytes(a, b, c, rest, buffer);
    BytesRoundTrip(bytes[3..], tail, buffer4);
    GroupLetters(a / 4, a % 4 * 16 + b / 16, b % 16 * 4 + c / 64, c % 64, Encode(bytes[3..]), tail);
    assert bytes == [a] + ([b] + ([c] + bytes[3..]));
  }

  lemma GroupLetters(v1: nat, v2: nat, v3: nat, v4: nat, s: string, tail: string)
    requires v1 < 64 && v2 < 64 && v3 < 64 && v4 < 64
    ensures Normalize([Symbol(v1), Symbol(v2), Symbol(v3), Symbol(v4)] + s) + tail ==
      [Letter(v1)] + ([Letter(v2)] + ([Letter(v3)] + ([Letter(v4)] + (Normalize(s) + tail))))
  {
    NormalizeCons(v4, s, tail);
    NormalizeCons(v3, [Symbol(v4)] + s, tail);
    NormalizeCons(v2, [Symbol(v3)] + ([Symbol(v4)] + s), tail);
    NormalizeCons(v1, [Symbol(v2)] + ([Symbol(v3)] + ([Symbol(v4)] + s)), tail);
    assert [Symbol(v1), Symbol(v2), Symbol(v3), Symbol(v4)] + s ==
      [Symbol(v1)] + ([Symbol(v2)] + ([Symbol(v3)] + ([Symbol(v4)] + s)));
  }

  /** Padding as section 3.2 of RFC 4648 asks for. */
  function Padding(bytes: seq<nat>): string {
    if |bytes| % 3 == 1 then "==" else if |bytes| % 3 == 2 then "=" else ""
  }

  lemma UnpaddedRoundTrip(bytes: seq<nat>)
    requires IsByteSeq(bytes)
    ensures DecodedBytes(Encode(bytes)) == bytes
  {
    var s := Encode(bytes);
    BytesRoundTrip(bytes, Equals((4 - |s| % 4) % 4), 0);
  }

  lemma PaddedRoundTrip(bytes: seq<nat>)
    requires IsByteSeq(bytes)
    ensures DecodedBytes(Encode(bytes) + Padding(bytes)) == bytes
  {
    var s, p := Encode(bytes), Padding(bytes);
    NormalizePadding(s, p);
    var n := Normalize(s);
    var more := Equals((4 - |n + p| % 4) % 4);
    assert EndsAtOnce(p + more);
    BytesRoundTrip(bytes, p + more, 0);
    assert (n + p) + more == n + (p + more);
  }

  lemma NormalizePadding(s: string, p: string)
    requires p == "" || p == "=" || p == "=="
    ensures Normalize(s + p) == Normalize(s) + p
  {
  }

  /** Every byte sequence comes back from its base64url form, padded or not. */
  lemma DecodedBytesRoundTrip(bytes: seq<nat>)
    requires IsByteSeq(bytes)
    ensures DecodedBytes(Encode(bytes)) == bytes
    ensures DecodedBytes(Encode(bytes) + Padding(bytes)) == bytes
  {
    UnpaddedRoundTrip(bytes);
    PaddedRoundTrip(bytes);
  }

  // ── UTF-8 ──

  lemma RejoinTwo(c: nat)
    requires c < 0x800
    ensures 0xC0 <= 0xC0 + c / 64 < 0xE0 && TwoByteCode(0xC0 + c / 64, (0x80 + c % 64) % 64) == c
  {
  }

  lemma RejoinThree(c: nat)
    requires c < 0x1_0000
    ensures 0xE0 <= 0xE0 + c / 4096 < 0xF0
    ensures ThreeByteCode(0xE0 + c / 4096, (0x80 + c / 64 % 64) % 64, (0x80 + c % 64) % 64) == c
  {
    assert c == c / 4096 * 4096 + c / 64 % 64 * 64 + c % 64;
  }

  lemma Sixty4Twice(c: nat)
    ensures c / 64 / 64 == c / 4096
  {
  }

  lemma Sixty4Thrice(c: nat)
    ensures c / 4096 / 64 == c / 262144
  {
  }

  lemma LowSix(r: nat)
    requires r < 64
    ensures (0x80 + r) % 64 == r
  {
  }

  lemma LeadBits(q: nat)
    requires q < 8
    ensures (0xF0 + q) % 8 == q
  {
  }

  lemma FourParts(c: nat)
    ensures c == c / 262144 * 262144 + c / 4096 % 64 * 4096 + c / 64 % 64 * 64 + c % 64
  {
    Sixty4Twice(c);
    Sixty4Thrice(c);
    var a, b := c / 64, c / 4096;
    assert c == 64 * a + c % 64;
    assert a == 64 * b + a % 64;
    assert b == 64 * (c / 262144) + b % 64;
  }

  lemma RejoinFour(c: nat)
    requires c <= 0x10_FFFF
    ensures FourByteCode(0xF0 + c / 262144, (0x80 + c / 4096 % 64) % 64, (0x80 + c / 64 % 64) % 64, (0x80 + c % 64) % 64) == c
  {
    FourParts(c);
    LeadBits(c / 262144);
    LowSix(c / 4096 % 64);
    LowSix(c / 64 % 64);
    LowSix(c % 64);
  }

  lemma PairIsUtf16(c: nat)
    requires 0x1_0000 <= c <= 0x10_FFFF
    ensures PairOf(c) == [0xD800 + (c - 0x1_0000) / 1024, 0xDC00 + (c - 0x1_0000) % 1024]
  {
  }

  lemma OneByteCharacter(c: nat, bytes: seq<nat>, i: nat)
    requires c < 0x80 && i < |bytes| && bytes[i] == c
    ensures Width(bytes[i]) == 1 && UnitsAt(bytes, i) == [c]
  {
  }

  lemma TwoByteCharacter(c: nat, bytes: seq<nat>, i: nat)
    requires 0x80 <= c < 0x800 && i + 1 < |bytes|
    requires bytes[i] == 0xC0 + c / 64 && bytes[i + 1] == 0x80 + c % 64
    ensures Width(bytes[i]) == 2 && UnitsAt(bytes, i) == [c]
  {
    RejoinTwo(c);
  }

  lemma ThreeByteCharacter(c: nat, bytes: seq<nat>, i: nat)
    requires 0x800 <= c < 0x1_0000 && i + 2 < |bytes|
    requires bytes[i] == 0xE0 + c / 4096 && bytes[i + 1] == 0x80 + c / 64 % 64 && bytes[i + 2] == 0x80 + c % 64
    ensures Width(bytes[i]) == 3 && UnitsAt(bytes, i) == [c]
  {
    RejoinThree(c);
  }

  lemma FourByteCharacter(c: nat, bytes: seq<nat>, i: nat)
    requires 0x1_0000 <= c <= 0x10_FFFF && i + 3 < |bytes|
    requires bytes[i] == 0xF0 + c / 262144 && bytes[i + 1] == 0x80 + c / 4096 % 64
    requires bytes[i + 2] == 0x80 + c / 64 % 64 && bytes[i + 3] == 0x80 + c % 64
    ensures Width(bytes[i]) == 4 && UnitsAt(bytes, i) == PairOf(c)
  {
    RejoinFour(c);
  }

  /** A character's UTF-8 at index `i` gives its UTF-16. */
  lemma ScalarRoundTrip(c: nat, bytes: seq<nat>, i: nat)
    requires IsScalar(c) && i + |Utf8(c)| <= |bytes|
    requires forall k :: 0 <= k < |Utf8(c)| ==> bytes[i + k] == Utf8(c)[k]
    ensures Width(bytes[i]) == |Utf8(c)| && UnitsAt(bytes, i) == Utf16(c)
  {
    assert bytes[i + 0] == Utf8(c)[0];
    if c < 0x80 {
      OneByteCharacter(c, bytes, i);
    } else if c < 0x800 {
      assert bytes[i + 1] == Utf8(c)[1];
      TwoByteCharacter(c, bytes, i);
    } else if c < 0x1_0000 {
      assert bytes[i + 1] == Utf8(c)[1] && bytes[i + 2] == Utf8(c)[2];
      ThreeByteCharacter(c, bytes, i);
    } else {
      assert bytes[i + 1] == Utf8(c)[1] && bytes[i + 2] == Utf8(c)[2] && bytes[i + 3] == Utf8(c)[3];
      FourByteCharacter(c, bytes, i);
      PairIsUtf16(c);
    }
  }

  lemma NextUnits(bytes: seq<nat>, i: nat, width: nat, units: seq<nat>)
    requires i < |bytes| && Width(bytes[i]) == width && UnitsAt(bytes, i) == units
    ensures UnitsFrom(bytes, i) == units + UnitsFrom(bytes, i + width)
  {
  }

  lemma NextCharacter(c: nat, more: seq<nat>, bytes: seq<nat>, i: nat)
    requires IsScalar(c) && i <= |bytes| && bytes[i..] == Utf8(c) + more
    ensures i + |Utf8(c)| <= |bytes| && bytes[i + |Utf8(c)|..] == more
    ensures UnitsFrom(bytes, i) == Utf16(c) + UnitsFrom(bytes, i + |Utf8(c)|)
  {
    var u := Utf8(c);
    SplitBytes(bytes, i, u, more);
    ScalarRoundTrip(c, bytes, i);
    NextUnits(bytes, i, |u|, Utf16(c));
  }

  lemma SplitBytes(bytes: seq<nat>, i: nat, u: seq<nat>, more: seq<nat>)
    requires i <= |bytes| && bytes[i..] == u + more
    ensures i + |u| <= |bytes| && bytes[i + |u|..] == more
    ensures forall k :: 0 <= k < |u| ==> bytes[i + k] == u[k]
  {
    forall k | 0 <= k < |u| ensures bytes[i + k] == u[k] { assert bytes[i..][k] == u[k]; }
    assert bytes[i + |u|..] == bytes[i..][|u|..];
  }

  lemma NothingLeft(bytes: seq<nat>, i: nat)
    requires i <= |bytes| && bytes[i..] == []
    ensures UnitsFrom(bytes, i) == []
  {
  }

  lemma {:induction false} TextRoundTripFrom(text: seq<nat>, bytes: seq<nat>, i: nat)
    requires AllScalars(text) && i <= |bytes| && bytes[i..] == Utf8All(text)
    ensures UnitsFrom(bytes, i) == Utf16All(text)
    decreases |text|, 2
  {
    if text == [] {
      NothingLeft(bytes, i);
    } else {
      TextRoundTripNext(text[0], text[1..], bytes, i);
      assert text == [text[0]] + text[1..];
    }
  }

  lemma {:induction false} TextRoundTripNext(c: nat, more: seq<nat>, bytes: seq<nat>, i: nat)
    requires IsScalar(c) && AllScalars(more) && i <= |bytes| && bytes[i..] == Utf8(c) + Utf8All(more)
    ensures UnitsFrom(bytes, i) == Utf16(c) + Utf16All(more)
    decreases |more| + 1, 1
  {
    NextCharacter(c, Utf8All(more), bytes, i);
    RestRoundTrip(Utf16(c), |Utf8(c)|, more, bytes, i);
  }

  lemma {:induction false} RestRoundTrip(units: seq<nat>, width: nat, more: seq<nat>, bytes: seq<nat>, i: nat)
    requires AllScalars(more) && i + width <= |bytes| && bytes[i + width..] == Utf8All(more)
    requires UnitsFrom(bytes, i) == units + UnitsFrom(bytes, i + width)
    ensures UnitsFrom(bytes, i) == units + Utf16All(more)
    decreases |more| + 1, 0
  {
    TextRoundTripFrom(more, bytes, i + width);
  }

  /** Any text comes back, as UTF-16 and surrogate pairs included, from the base64url form of its
      UTF-8. */
  lemma TextRoundTrip(text: seq<nat>)
    requires AllScalars(text)
    ensures Base64UrlDecode(Encode(Utf8All(text))) == Utf16All(text)
    ensures Base64UrlDecode(Encode(Utf8All(text)) + Padding(Utf8All(text))) == Utf16All(text)
  {
    DecodedBytesRoundTrip(Utf8All(text));
    TextRoundTripFrom(text, Utf8All(text), 0);
  }
}

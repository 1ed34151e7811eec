/** base64url without padding (RFC 4648, sections 3.2 and 5), as RawURLEncoding encodes and decodes. */
module Base64Url {
  import opened Wrappers

  type Byte = n: nat | n < 256

  function EncodeDigit(d: nat): char
    requires d < 64
  {
    if d < 26 then ('A' as int + d) as char
    else if d < 52 then ('a' as int + (d - 26)) as char
    else if d < 62 then ('0' as int + (d - 52)) as char
    else if d == 62 then '-' else '_'
  }

  function DecodeDigit(c: char): Option<nat> {
    if 'A' <= c <= 'Z' then Some(c as int - 'A' as int)
    else if 'a' <= c <= 'z' then Some(c as int - 'a' as int + 26)
    else if '0' <= c <= '9' then Some(c as int - '0' as int + 52)
    else if c == '-' then Some(62)
    else if c == '_' then Some(63)
    else None
  }

  lemma DigitRoundTrip(d: nat)
    requires d < 64
    ensures DecodeDigit(EncodeDigit(d)) == Some(d)
    ensures EncodeDigit(d) !in {'\r', '\n'}
  {
  }

  function Encode(b: seq<Byte>): string {
    if |b| == 0 then ""
    else if |b| == 1 then [EncodeDigit(b[0] / 4), EncodeDigit(b[0] % 4 * 16)]
    else if |b| == 2 then
      [EncodeDigit(b[0] / 4), EncodeDigit(b[0] % 4 * 16 + b[1] / 16), EncodeDigit(b[1] % 16 * 4)]
    else EncodeTriple(b[0], b[1], b[2]) + Encode(b[3..])
  }

  function EncodeTriple(x: Byte, y: Byte, z: Byte): string {
    [EncodeDigit(x / 4), EncodeDigit(x % 4 * 16 + y / 16), EncodeDigit(y % 16 * 4 + z / 64), EncodeDigit(z % 64)]
  }

  /** The decoder skips line breaks, rejects other characters outside the alphabet and a lone last digit,
      and ignores the spare bits of an incomplete last group. */
  function Decode(s: string): Option<seq<Byte>> {
    DecodeDigits(WithoutBreaks(s))
  }

  function WithoutBreaks(s: string): string {
    if s == "" then ""
    else (if s[0] in {'\r', '\n'} then "" else [s[0]]) + WithoutBreaks(s[1..])
  }

  function DecodeDigits(s: string): Option<seq<Byte>> {
    if |s| == 0 then Some([])
    else if |s| == 1 then None
    else
      var v, w := DecodeDigit(s[0]), DecodeDigit(s[1]);
      if v.None? || w.None? then None
      else if |s| == 2 then Some([First(v.value, w.value)])
      else
        var x := DecodeDigit(s[2]);
        if x.None? then None
        else if |s| == 3 then Some([First(v.value, w.value), Second(w.value, x.value)])
        else
          var y, rest := DecodeDigit(s[3]), DecodeDigits(s[4..]);
          if y.None? || rest.None? then None
          else Some([First(v.value, w.value), Second(w.value, x.value), Third(x.value, y.value)] + rest.value)
  }

  // The three bytes of a group of digits.
  function First(v: nat, w: nat): Byte { (v * 4 + w / 16) % 256 }
  function Second(w: nat, x: nat): Byte { (w % 16 * 16 + x / 4) % 256 }
  function Third(x: nat, y: nat): Byte { (x % 4 * 64 + y) % 256 }

  lemma Packed16(a: nat, h: nat)
    requires h < 16
    ensures (a * 16 + h) / 16 == a && (a * 16 + h) % 16 == h
  {
  }

  lemma Packed4(a: nat, h: nat)
    requires h < 4
    ensures (a * 4 + h) / 4 == a && (a * 4 + h) % 4 == h
  {
  }

  // The middle digits of a group carry the low bits of one byte and the high bits of the next.

  lemma FirstBack(x: Byte, h: nat)
    requires h < 16
    ensures First(x / 4, x % 4 * 16 + h) == x
  {
    Packed16(x % 4, h);
  }

  lemma SecondBack(low: nat, y: Byte, h: nat)
    requires low < 4 && h < 4
    ensures Second(low * 16 + y / 16, y % 16 * 4 + h) == y
  {
    Packed16(low, y / 16);
    Packed4(y % 16, h);
  }

  lemma ThirdBack(low: nat, z: Byte)
    requires low < 16
    ensures Third(low * 4 + z / 64, z % 64) == z
  {
    Packed4(low, z / 64);
  }

  lemma {:induction false} NoBreaks(s: string)
    ensures (forall i :: 0 <= i < |s| ==> s[i] !in {'\r', '\n'}) ==> WithoutBreaks(s) == s
  {
    if s != "" {
      NoBreaks(s[1..]);
    }
  }

  lemma {:induction false} EncodedIsSafe(b: seq<Byte>)
    ensures forall i :: 0 <= i < |Encode(b)| ==> DecodeDigit(Encode(b)[i]).Some?
    decreases |b|
  {
    if |b| >= 3 {
      EncodedIsSafe(b[3..]);
    }
  }

  /** Decoding undoes encoding on every byte sequence. */
  lemma {:induction false} RoundTrip(b: seq<Byte>)
    ensures Decode(Encode(b)) == Some(b)
  {
    EncodedIsSafe(b);
    NoBreaks(Encode(b));
    DigitsRoundTrip(b);
  }

  lemma {:induction false} DigitsRoundTrip(b: seq<Byte>)
    ensures DecodeDigits(Encode(b)) == Some(b)
    decreases |b|
  {
    if |b| < 3 {
      LastGroupRoundTrip(b);
    } else {
      DigitsRoundTrip(b[3..]);
      FirstGroupRoundTrip(b[0], b[1], b[2], Encode(b[3..]));
      JoinGroups(b);
    }
  }

  lemma JoinGroups(b: seq<Byte>)
    requires |b| >= 3
    ensures b == [b[0], b[1], b[2]] + b[3..]
  {
  }

  lemma LastGroupRoundTrip(b: seq<Byte>)
    requires |b| < 3
    ensures DecodeDigits(Encode(b)) == Some(b)
  {
    if |b| == 1 {
      var x := b[0];
      assert b == [x];
      assert Encode(b) == [EncodeDigit(x / 4), EncodeDigit(x % 4 * 16)];
      OneByteRoundTrip(x);
    } else if |b| == 2 {
      var x, y := b[0], b[1];
      assert b == [x, y];
      assert Encode(b) == [EncodeDigit(x / 4), EncodeDigit(x % 4 * 16 + y / 16), EncodeDigit(y % 16 * 4)];
      TwoBytesRoundTrip(x, y);
    }
  }

  lemma OneByteRoundTrip(x: Byte)
    ensures DecodeDigits([EncodeDigit(x / 4), EncodeDigit(x % 4 * 16)]) == Some([x])
  {
    DigitRoundTrip(x / 4);
    DigitRoundTrip(x % 4 * 16);
    FirstBack(x, 0);
  }

  lemma TwoBytesRoundTrip(x: Byte, y: Byte)
    ensures DecodeDigits([EncodeDigit(x / 4), EncodeDigit(x % 4 * 16 + y / 16), EncodeDigit(y % 16 * 4)]) ==
            Some([x, y])
  {
    FirstBack(x, y / 16);
    SecondBack(x % 4, y, 0);
    DigitRoundTrip(x / 4);
    DigitRoundTrip(x % 4 * 16 + y / 16);
    DigitRoundTrip(y % 16 * 4);
  }

  lemma FirstGroupRoundTrip(x: Byte, y: Byte, z: Byte, tail: string)
    requires DecodeDigits(tail).Some?
    ensures DecodeDigits(EncodeTriple(x, y, z) + tail) == Some([x, y, z] + DecodeDigits(tail).value)
  {
    DigitRoundTrip(x / 4);
    DigitRoundTrip(x % 4 * 16 + y / 16);
    DigitRoundTrip(y % 16 * 4 + z / 64);
    DigitRoundTrip(z % 64);
    FirstBack(x, y / 16);
    SecondBack(x % 4, y, z / 64);
    ThirdBack(y % 16, z);
    assert (EncodeTriple(x, y, z) + tail)[4..] == tail;
  }

  /** Four characters for three bytes, rounded up without padding. */
  lemma {:induction false} EncodedLength(b: seq<Byte>)
    ensures |Encode(b)| == (4 * |b| + 2) / 3
    decreases |b|
  {
    if |b| >= 3 {
      EncodedLength(b[3..]);
    }
  }

  /** The URL-safe alphabet (RFC 4648, section 5): capitals, small letters, digits, '-' and '_'. */
  lemma DigitsAreTheAlphabet(d: nat)
    requires d < 64
    ensures EncodeDigit(0) == 'A' && EncodeDigit(25) == 'Z' && EncodeDigit(26) == 'a' && EncodeDigit(51) == 'z'
    ensures EncodeDigit(52) == '0' && EncodeDigit(61) == '9' && EncodeDigit(62) == '-' && EncodeDigit(63) == '_'
    ensures d !in {25, 51, 61, 62, 63} ==> EncodeDigit(d + 1) as int == EncodeDigit(d) as int + 1
  {
  }

  /** Three bytes and their four digits are the same 24 bits, most significant first. */
  lemma SameBits(x: Byte, y: Byte, z: Byte)
    ensures var t := EncodeTriple(x, y, z);
            var d := i requires 0 <= i < 4 => DecodeDigit(t[i]);
            && d(0).Some? && d(1).Some? && d(2).Some? && d(3).Some?
            && ((d(0).value * 64 + d(1).value) * 64 + d(2).value) * 64 + d(3).value == (x * 256 + y) * 256 + z
  {
    DigitRoundTrip(x / 4);
    DigitRoundTrip(x % 4 * 16 + y / 16);
    DigitRoundTrip(y % 16 * 4 + z / 64);
    DigitRoundTrip(z % 64);
  }

  /** Line breaks and nothing else are passed over. */
  lemma BreaksAreSkipped(c: char, s: string)
    ensures Decode([c] + s) == if c in {'\r', '\n'} then Decode(s) else DecodeDigits([c] + WithoutBreaks(s))
  {
    assert ([c] + s)[1..] == s && "" + WithoutBreaks(s) == WithoutBreaks(s);
  }

  predicate AllDigits(s: string) {
    forall c :: c in s ==> DecodeDigit(c).Some?
  }

  lemma FirstDigits(s: string)
    requires |s| >= 4
    ensures AllDigits(s) <==> AllDigits(s[..4]) && AllDigits(s[4..])
    ensures AllDigits(s[..4]) <==>
            DecodeDigit(s[0]).Some? && DecodeDigit(s[1]).Some? && DecodeDigit(s[2]).Some? && DecodeDigit(s[3]).Some?
  {
    assert s == s[..4] + s[4..] && s[..4] == [s[0], s[1], s[2], s[3]];
  }

  /** A text without line breaks decodes exactly when it is of the alphabet's characters and its length
      does not leave one lone digit. */
  lemma {:induction false} DecodesExactly(s: string)
    ensures DecodeDigits(s).Some? <==> |s| % 4 != 1 && AllDigits(s)
    decreases |s|
  {
    if |s| >= 4 {
      DecodesExactly(s[4..]);
      FirstDigits(s);
      assert |s[4..]| % 4 == |s| % 4;
    }
  }

  /** Known encodings (RFC 4648, sections 5 and 10). */
  lemma KnownVectors()
    ensures Encode([0x66]) == "Zg" && Encode([0x66, 0x6f]) == "Zm8" && Encode([0x66, 0x6f, 0x6f]) == "Zm9v"
    ensures Encode([0xfb, 0xff]) == "-_8"
  {
    assert Encode([0x66, 0x6f, 0x6f]) == EncodeTriple(0x66, 0x6f, 0x6f) + Encode([]);
  }
}

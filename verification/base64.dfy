/** Base64 with the standard alphabet and `=` padding (section 4 of RFC 4648),
    as configured by the `BASE64_STANDARD` engine the beacon-entry JSON codec uses:
    encoding always pads to a multiple of four characters, and decoding accepts
    only canonical input (length a multiple of four, padding only in the last
    group, unused trailing bits zero). Under that configuration decoding is the
    exact inverse of encoding, which `DecodeEncode` and `EncodeDecode` prove. */
module Base64 {
  import opened Results

  /** A sextet: the value one Base64 character carries. */
  type sextet = x: int | 0 <= x < 64

  const Pad: char := '='

  /** The character that encodes sextet `i`: Table 1 of RFC 4648, whose rows
      run `A`-`Z` for 0-25, `a`-`z` for 26-51, `0`-`9` for 52-61, then `+`, `/`. */
  function CharOf(i: sextet): char
  {
    if i < 26 then (('A' as int) + i) as char
    else if i < 52 then (('a' as int) + (i - 26)) as char
    else if i < 62 then (('0' as int) + (i - 52)) as char
    else if i == 62 then '+'
    else '/'
  }

  predicate IsAlphabetChar(c: char)
  {
    ('A' <= c <= 'Z') || ('a' <= c <= 'z') || ('0' <= c <= '9') || c == '+' || c == '/'
  }

  /** The sextet a character of the alphabet encodes. */
  function SextetOf(c: char): (i: sextet)
    requires IsAlphabetChar(c)
    ensures CharOf(i) == c
  {
    if 'A' <= c <= 'Z' then c as int - 'A' as int
    else if 'a' <= c <= 'z' then c as int - 'a' as int + 26
    else if '0' <= c <= '9' then c as int - '0' as int + 52
    else if c == '+' then 62
    else 63
  }

  /** Every table entry is an alphabet character that decodes back to its own
      index, so the table is a bijection onto the alphabet. */
  lemma AlphabetTable(i: sextet)
    ensures IsAlphabetChar(CharOf(i)) && SextetOf(CharOf(i)) == i
  {
  }

  // ---------------------------------------------------------------------------
  // Encoding

  /** Three bytes become four characters. */
  function EncodeTriple(b0: byte, b1: byte, b2: byte): string
  {
    [CharOf(b0 / 4), CharOf((b0 % 4) * 16 + b1 / 16), CharOf((b1 % 16) * 4 + b2 / 64), CharOf(b2 % 64)]
  }

  /** A final lone byte becomes two characters and two pads. */
  function EncodeSingle(b0: byte): string
  {
    [CharOf(b0 / 4), CharOf((b0 % 4) * 16), Pad, Pad]
  }

  /** A final pair of bytes becomes three characters and one pad. */
  function EncodePair(b0: byte, b1: byte): string
  {
    [CharOf(b0 / 4), CharOf((b0 % 4) * 16 + b1 / 16), CharOf((b1 % 16) * 4), Pad]
  }

  /** Padded standard Base64 of `data`: four characters for every started
      group of three bytes. */
  function Encode(data: seq<byte>): (s: string)
    ensures |s| == 4 * Groups(|data|)
    decreases |data|
  {
    if |data| == 0 then []
    else if |data| == 1 then EncodeSingle(data[0])
    else if |data| == 2 then EncodePair(data[0], data[1])
    else EncodeTriple(data[0], data[1], data[2]) + Encode(data[3..])
  }

  /** The number of started groups of three among `n` bytes. */
  function Groups(n: nat): (g: nat)
    ensures 3 * g - 2 <= n <= 3 * g
  {
    if n == 0 then 0 else 1 + Groups(if n <= 3 then 0 else n - 3)
  }

  /** The length of an encoding is a multiple of four. */
  lemma EncodedLength(data: seq<byte>)
    ensures |Encode(data)| % 4 == 0
  {
    var g := Groups(|data|);
    assert |Encode(data)| == 4 * g;
  }

  // ---------------------------------------------------------------------------
  // Decoding

  predicate AllAlphabet(q: string)
  {
    forall k :: 0 <= k < |q| ==> IsAlphabetChar(q[k])
  }

  /** A group of four alphabet characters: three bytes. */
  function DecodeFull(q: string): (r: Option<seq<byte>>)
    requires |q| == 4
    ensures r.Some? <==> AllAlphabet(q)
    ensures r.Some? ==> |r.value| == 3
  {
    if AllAlphabet(q) then
      var i0, i1, i2, i3 := SextetOf(q[0]), SextetOf(q[1]), SextetOf(q[2]), SextetOf(q[3]);
      Some([i0 * 4 + i1 / 16, (i1 % 16) * 16 + i2 / 4, (i2 % 4) * 64 + i3])
    else None
  }

  /** The last group of an input: either a full group, or `xyz=` whose third
      character leaves no set trailing bits, or `xy==` whose second character
      leaves no set trailing bits. Anything else is rejected. */
  function DecodeLast(q: string): (r: Option<seq<byte>>)
    requires |q| == 4
    ensures r.Some? ==> 1 <= |r.value| <= 3
  {
    if AllAlphabet(q) then DecodeFull(q)
    else if IsAlphabetChar(q[0]) && IsAlphabetChar(q[1]) && IsAlphabetChar(q[2]) && q[3] == Pad
            && SextetOf(q[2]) % 4 == 0 then
      var i0, i1, i2 := SextetOf(q[0]), SextetOf(q[1]), SextetOf(q[2]);
      Some([i0 * 4 + i1 / 16, (i1 % 16) * 16 + i2 / 4])
    else if IsAlphabetChar(q[0]) && IsAlphabetChar(q[1]) && q[2] == Pad && q[3] == Pad
            && SextetOf(q[1]) % 16 == 0 then
      var i0, i1 := SextetOf(q[0]), SextetOf(q[1]);
      Some([i0 * 4 + i1 / 16])
    else None
  }

  /** Canonical padded standard Base64 decoding; `None` is a decode error. */
  function Decode(s: string): (r: Option<seq<byte>>)
    ensures r.Some? ==> |s| == 4 * Groups(|r.value|)
    decreases |s|
  {
    if |s| == 0 then Some([])
    else if |s| < 4 then None
    else if |s| == 4 then DecodeLast(s)
    else
      match DecodeFull(s[..4])
      case None => None
      case Some(head) =>
        match Decode(s[4..])
        case None => None
        case Some(tail) => Some(head + tail)
  }

  // ---------------------------------------------------------------------------
  // Round trips

  /** Unpacking three bytes into sextets and packing them again is the identity. */
  lemma UnpackBytes(b0: byte, b1: byte, b2: byte)
    ensures var i0: int, i1: int, i2: int, i3: int := b0 / 4, (b0 % 4) * 16 + b1 / 16, (b1 % 16) * 4 + b2 / 64, b2 % 64;
            && i0 * 4 + i1 / 16 == b0 && (i1 % 16) * 16 + i2 / 4 == b1 && (i2 % 4) * 64 + i3 == b2
  {
    var i1: int := (b0 % 4) * 16 + b1 / 16;
    var i2: int := (b1 % 16) * 4 + b2 / 64;
    assert i1 / 16 == b0 % 4 && i1 % 16 == b1 / 16;
    assert i2 / 4 == b1 % 16 && i2 % 4 == b2 / 64;
  }

  lemma TripleRoundTrip(b0: byte, b1: byte, b2: byte)
    ensures DecodeFull(EncodeTriple(b0, b1, b2)) == Some([b0, b1, b2])
  {
    var i0: int, i1: int, i2: int, i3: int := b0 / 4, (b0 % 4) * 16 + b1 / 16, (b1 % 16) * 4 + b2 / 64, b2 % 64;
    var q := EncodeTriple(b0, b1, b2);
    assert q == [CharOf(i0), CharOf(i1), CharOf(i2), CharOf(i3)];
    AlphabetTable(i0);
    AlphabetTable(i1);
    AlphabetTable(i2);
    AlphabetTable(i3);
    assert AllAlphabet(q);
    UnpackBytes(b0, b1, b2);
    assert DecodeFull(q).value == [i0 * 4 + i1 / 16, (i1 % 16) * 16 + i2 / 4, (i2 % 4) * 64 + i3];
  }

  lemma SingleRoundTrip(b0: byte)
    ensures DecodeLast(EncodeSingle(b0)) == Some([b0])
  {
    var q := EncodeSingle(b0);
    AlphabetTable(b0 / 4);
    AlphabetTable((b0 % 4) * 16);
    assert !IsAlphabetChar(q[3]);
  }

  lemma PairRoundTrip(b0: byte, b1: byte)
    ensures DecodeLast(EncodePair(b0, b1)) == Some([b0, b1])
  {
    var q := EncodePair(b0, b1);
    AlphabetTable(b0 / 4);
    AlphabetTable((b0 % 4) * 16 + b1 / 16);
    AlphabetTable((b1 % 16) * 4);
    assert !IsAlphabetChar(q[3]);
  }

  /** A full leading group followed by a decodable remainder decodes to the
      concatenation of the two. */
  lemma DecodeCons(q: string, rest: string, head: seq<byte>, tail: seq<byte>)
    requires |q| == 4 && |rest| > 0
    requires DecodeFull(q) == Some(head) && Decode(rest) == Some(tail)
    ensures Decode(q + rest) == Some(head + tail)
  {
    var s := q + rest;
    assert s[..4] == q;
    assert s[4..] == rest;
  }

  /** One or two bytes encode to a single padded group that decodes back. */
  lemma ShortRoundTrip(data: seq<byte>)
    requires 1 <= |data| <= 2
    ensures Decode(Encode(data)) == Some(data)
  {
    if |data| == 1 {
      SingleRoundTrip(data[0]);
      assert data == [data[0]];
      assert Encode(data) == EncodeSingle(data[0]);
    } else {
      PairRoundTrip(data[0], data[1]);
      assert data == [data[0], data[1]];
      assert Encode(data) == EncodePair(data[0], data[1]);
    }
  }

  /** Decoding inverts encoding on every byte sequence. */
  lemma {:induction false} DecodeEncode(data: seq<byte>)
    ensures Decode(Encode(data)) == Some(data)
    decreases |data|
  {
    if |data| == 0 {
    } else if |data| <= 2 {
      ShortRoundTrip(data);
    } else {
      var triple := [data[0], data[1], data[2]];
      var rest := data[3..];
      assert data == triple + rest;
      var head := EncodeTriple(data[0], data[1], data[2]);
      assert Encode(data) == head + Encode(rest);
      TripleRoundTrip(data[0], data[1], data[2]);
      if |rest| == 0 {
        assert Encode(data) == head;
        assert DecodeLast(head) == DecodeFull(head);
        assert data == triple;
      } else {
        DecodeEncode(rest);
        DecodeCons(head, Encode(rest), triple, rest);
      }
    }
  }

  /** Re-packing the bytes that four sextets decode to yields the sextets. */
  lemma RepackSextets(i0: sextet, i1: sextet, i2: sextet, i3: sextet)
    ensures var b0, b1, b2 := i0 * 4 + i1 / 16, (i1 % 16) * 16 + i2 / 4, (i2 % 4) * 64 + i3;
            && b0 / 4 == i0 && (b0 % 4) * 16 + b1 / 16 == i1
            && (b1 % 16) * 4 + b2 / 64 == i2 && b2 % 64 == i3
  {
    var b0, b1, b2 := i0 * 4 + i1 / 16, (i1 % 16) * 16 + i2 / 4, (i2 % 4) * 64 + i3;
    assert b0 / 4 == i0 && b0 % 4 == i1 / 16;
    assert b1 / 16 == i1 % 16 && b1 % 16 == i2 / 4;
    assert b2 / 64 == i2 % 4 && b2 % 64 == i3;
  }

  lemma FullInverse(q: string)
    requires |q| == 4 && AllAlphabet(q)
    ensures var b := DecodeFull(q).value; EncodeTriple(b[0], b[1], b[2]) == q
  {
    assert IsAlphabetChar(q[0]) && IsAlphabetChar(q[1]) && IsAlphabetChar(q[2]) && IsAlphabetChar(q[3]);
    var i0: int, i1: int, i2: int, i3: int := SextetOf(q[0]), SextetOf(q[1]), SextetOf(q[2]), SextetOf(q[3]);
    TripleOfSextets(i0, i1, i2, i3);
    var b0: int, b1: int, b2: int := i0 * 4 + i1 / 16, (i1 % 16) * 16 + i2 / 4, (i2 % 4) * 64 + i3;
    var b := DecodeFull(q).value;
    assert b == [b0, b1, b2];
    assert EncodeTriple(b0, b1, b2) == [CharOf(i0), CharOf(i1), CharOf(i2), CharOf(i3)];
    SextetsChars(q, i0, i1, i2, i3);
  }

  /** Packing four sextets into three bytes and encoding those gives back the
      four sextets' characters. */
  lemma TripleOfSextets(i0: sextet, i1: sextet, i2: sextet, i3: sextet)
    ensures var b0: int, b1: int, b2: int := i0 * 4 + i1 / 16, (i1 % 16) * 16 + i2 / 4, (i2 % 4) * 64 + i3;
            && 0 <= b0 < 256 && 0 <= b1 < 256 && 0 <= b2 < 256
            && EncodeTriple(b0, b1, b2) == [CharOf(i0), CharOf(i1), CharOf(i2), CharOf(i3)]
  {
    RepackSextets(i0, i1, i2, i3);
  }

  /** Four characters are the table entries of their own sextets. */
  lemma SextetsChars(q: string, i0: sextet, i1: sextet, i2: sextet, i3: sextet)
    requires |q| == 4 && AllAlphabet(q)
    requires i0 == SextetOf(q[0]) && i1 == SextetOf(q[1]) && i2 == SextetOf(q[2]) && i3 == SextetOf(q[3])
    ensures [CharOf(i0), CharOf(i1), CharOf(i2), CharOf(i3)] == q
  {
  }

  lemma PairInverse(q: string)
    requires |q| == 4 && IsAlphabetChar(q[0]) && IsAlphabetChar(q[1]) && IsAlphabetChar(q[2])
    requires q[3] == Pad && SextetOf(q[2]) % 4 == 0
    ensures var i0: int, i1: int, i2: int := SextetOf(q[0]), SextetOf(q[1]), SextetOf(q[2]);
            EncodePair(i0 * 4 + i1 / 16, (i1 % 16) * 16 + i2 / 4) == q
  {
    var i0: int, i1: int, i2: int := SextetOf(q[0]), SextetOf(q[1]), SextetOf(q[2]);
    PairOfSextets(i0, i1, i2);
    assert [CharOf(i0), CharOf(i1), CharOf(i2), Pad] == q;
  }

  /** Packing three sextets, the last with two clear low bits, into two bytes
      and encoding those gives back the three sextets' characters and a pad. */
  lemma PairOfSextets(i0: sextet, i1: sextet, i2: sextet)
    requires i2 % 4 == 0
    ensures var b0: int, b1: int := i0 * 4 + i1 / 16, (i1 % 16) * 16 + i2 / 4;
            && 0 <= b0 < 256 && 0 <= b1 < 256
            && EncodePair(b0, b1) == [CharOf(i0), CharOf(i1), CharOf(i2), Pad]
  {
    RepackSextets(i0, i1, i2, 0);
  }

  lemma SingleInverse(q: string)
    requires |q| == 4 && IsAlphabetChar(q[0]) && IsAlphabetChar(q[1])
    requires q[2] == Pad && q[3] == Pad && SextetOf(q[1]) % 16 == 0
    ensures var i0: int, i1: int := SextetOf(q[0]), SextetOf(q[1]);
            EncodeSingle(i0 * 4 + i1 / 16) == q
  {
    var i0: int, i1: int := SextetOf(q[0]), SextetOf(q[1]);
    RepackSextets(i0, i1, 0, 0);
    var e := EncodeSingle(i0 * 4 + i1 / 16);
    assert e == [CharOf(i0), CharOf(i1), Pad, Pad];
  }

  predicate PairGroup(q: string)
    requires |q| == 4
  {
    IsAlphabetChar(q[0]) && IsAlphabetChar(q[1]) && IsAlphabetChar(q[2]) && q[3] == Pad
    && SextetOf(q[2]) % 4 == 0
  }

  lemma LastInverse(q: string)
    requires |q| == 4 && DecodeLast(q).Some?
    ensures var b := DecodeLast(q).value;
            (|b| == 3 && EncodeTriple(b[0], b[1], b[2]) == q)
            || (|b| == 2 && EncodePair(b[0], b[1]) == q)
            || (|b| == 1 && EncodeSingle(b[0]) == q)
  {
    var b := DecodeLast(q).value;
    if AllAlphabet(q) {
      assert b == DecodeFull(q).value;
      FullInverse(q);
    } else if PairGroup(q) {
      var i0: int, i1: int, i2: int := SextetOf(q[0]), SextetOf(q[1]), SextetOf(q[2]);
      assert b == [i0 * 4 + i1 / 16, (i1 % 16) * 16 + i2 / 4];
      PairInverse(q);
    } else {
      assert IsAlphabetChar(q[0]) && IsAlphabetChar(q[1]) && q[2] == Pad && q[3] == Pad
             && SextetOf(q[1]) % 16 == 0;
      var i0: int, i1: int := SextetOf(q[0]), SextetOf(q[1]);
      assert b == [i0 * 4 + i1 / 16];
      SingleInverse(q);
    }
  }

  /** Encoding inverts decoding: the only string that decodes to `data` is
      `Encode(data)`, so decoding accepts exactly the encodings. */
  lemma {:induction false} EncodeDecode(s: string, data: seq<byte>)
    requires Decode(s) == Some(data)
    ensures Encode(data) == s
    decreases |s|
  {
    if |s| == 0 {
    } else if |s| == 4 {
      LastInverse(s);
    } else {
      var head := DecodeFull(s[..4]).value;
      var tail := Decode(s[4..]).value;
      EncodeDecode(s[4..], tail);
      FullInverse(s[..4]);
      assert data == head + tail;
      assert |tail| > 0;
      assert data[3..] == tail;
      assert s == s[..4] + s[4..];
    }
  }

  /** Decoding fails exactly on the strings that are not an encoding. */
  lemma DecodeFailsIffNotEncoding(s: string)
    ensures Decode(s).None? <==> forall data :: Encode(data) != s
  {
    if Decode(s).Some? {
      EncodeDecode(s, Decode(s).value);
    } else {
      forall data | Encode(data) == s
        ensures false
      {
        DecodeEncode(data);
      }
    }
  }
}

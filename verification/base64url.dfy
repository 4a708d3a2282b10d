/** The base64url encoding of section 5 of RFC 4648 without padding
    (section 3.2), as Go's `base64.RawURLEncoding` implements it. */
module Base64Url {
  import opened Results
  import opened Bytes

  /** A 6-bit group, the unit one output character encodes. */
  type Sextet = v: int | 0 <= v < 64

  /** Membership in the URL- and filename-safe alphabet (RFC 4648, table 2). */
  predicate IsUrlSafe(c: char) {
    ('A' <= c <= 'Z') || ('a' <= c <= 'z') || ('0' <= c <= '9') || c == '-' || c == '_'
  }

  /** The character that encodes `v`, by table 2 of RFC 4648: A-Z, a-z, 0-9, '-', '_'. */
  function Digit(v: Sextet): (c: char)
    ensures IsUrlSafe(c)
  {
    if v < 26 then ('A' as int + v) as char
    else if v < 52 then ('a' as int + (v - 26)) as char
    else if v < 62 then ('0' as int + (v - 52)) as char
    else if v == 62 then '-'
    else '_'
  }

  /** The value a character encodes, or None for a character outside the alphabet. */
  function Value(c: char): (r: Option<Sextet>)
    ensures r.Some? <==> IsUrlSafe(c)
  {
    if 'A' <= c <= 'Z' then Some(c as int - 'A' as int)
    else if 'a' <= c <= 'z' then Some(c as int - 'a' as int + 26)
    else if '0' <= c <= '9' then Some(c as int - '0' as int + 52)
    else if c == '-' then Some(62)
    else if c == '_' then Some(63)
    else None
  }

  /** Decoding a digit gives back the sextet it encodes, so Digit is injective. */
  lemma ValueOfDigit(v: Sextet)
    ensures Value(Digit(v)) == Some(v)
  {
  }

  lemma DigitInjective(v: Sextet, w: Sextet)
    ensures Digit(v) == Digit(w) <==> v == w
  {
    ValueOfDigit(v);
    ValueOfDigit(w);
  }

  /** The four sextets of one complete 3-byte group, most significant bits first. */
  function Split(b0: byte, b1: byte, b2: byte): (g: seq<Sextet>)
    ensures |g| == 4
  {
    [b0 / 4, (b0 % 4) * 16 + b1 / 16, (b1 % 16) * 4 + b2 / 64, b2 % 64]
  }

  /** The four characters of one complete 3-byte group. */
  function Quad(b0: byte, b1: byte, b2: byte): (r: string)
    ensures |r| == 4
  {
    var g := Split(b0, b1, b2);
    [Digit(g[0]), Digit(g[1]), Digit(g[2]), Digit(g[3])]
  }

  /** The characters of a final partial group: one byte gives 2, a pair gives 3. */
  function Tail(b: seq<byte>): (r: string)
    requires |b| < 3
    ensures |r| == (4 * |b| + 2) / 3
  {
    if |b| == 0 then ""
    else if |b| == 1 then [Digit(b[0] / 4), Digit((b[0] % 4) * 16)]
    else [Digit(b[0] / 4), Digit((b[0] % 4) * 16 + b[1] / 16), Digit((b[1] % 16) * 4)]
  }

  /** Unpadded base64url encoding: every 3 bytes give 4 characters, and the
      remaining one or two bytes give a partial group without '=' padding. */
  function EncodeRaw(b: seq<byte>): (r: string)
    ensures |r| == (4 * |b| + 2) / 3
    ensures forall i :: 0 <= i < |r| ==> IsUrlSafe(r[i])
    decreases |b|
  {
    if |b| < 3 then Tail(b)
    else Quad(b[0], b[1], b[2]) + EncodeRaw(b[3..])
  }

  /** The three bytes four characters encode, or None when one of them is
      outside the alphabet. */
  function DecodeGroup(s: string): Option<seq<byte>>
    requires |s| == 4
  {
    var v0, v1, v2, v3 := Value(s[0]), Value(s[1]), Value(s[2]), Value(s[3]);
    if v0.None? || v1.None? || v2.None? || v3.None? then None
    else Some([v0.value * 4 + v1.value / 16, (v1.value % 16) * 16 + v2.value / 4, (v2.value % 4) * 64 + v3.value])
  }

  /** The bytes of a final partial group, in Go's non-strict mode: the unused
      low bits are ignored; a single character cannot be a group. */
  function DecodeTail(s: string): Option<seq<byte>>
    requires |s| < 4
  {
    if |s| == 0 then Some([])
    else if |s| == 1 then None
    else
      var v0, v1 := Value(s[0]), Value(s[1]);
      if v0.None? || v1.None? then None
      else if |s| == 2 then Some([v0.value * 4 + v1.value / 16])
      else
        var v2 := Value(s[2]);
        if v2.None? then None
        else Some([v0.value * 4 + v1.value / 16, (v1.value % 16) * 16 + v2.value / 4])
  }

  /** Unpadded decoding: group by group, then the partial group; a length of
      1 modulo 4 or a character outside the alphabet is rejected. */
  function DecodeRaw(s: string): Option<seq<byte>>
    decreases |s|
  {
    if |s| < 4 then DecodeTail(s)
    else
      match DecodeGroup(s[..4])
      case None => None
      case Some(g) =>
        match DecodeRaw(s[4..])
        case None => None
        case Some(rest) => Some(g + rest)
  }

  lemma SplitByte16(b: byte)
    ensures (b / 16) * 16 + b % 16 == b
  {
  }

  lemma SplitByte4(b: byte)
    ensures (b / 4) * 4 + b % 4 == b && (b / 64) * 64 + b % 64 == b
  {
  }

  /** A sextet made of a high part p and a low part q splits back into them. */
  lemma Mix(p: int, q: int, n: int)
    requires n == 4 || n == 16
    requires 0 <= q < n
    ensures (p * n + q) / n == p && (p * n + q) % n == q
  {
  }

  /** A final single byte decodes back to itself. */
  lemma DecodeOne(b0: byte)
    ensures DecodeTail(Tail([b0])) == Some([b0])
  {
    ValueOfDigit(b0 / 4);
    ValueOfDigit((b0 % 4) * 16);
    SplitByte4(b0);
    assert ((b0 % 4) * 16) / 16 == b0 % 4;
  }

  /** A final pair of bytes decodes back to itself. */
  lemma DecodeTwo(b0: byte, b1: byte)
    ensures DecodeTail(Tail([b0, b1])) == Some([b0, b1])
  {
    ValueOfDigit(b0 / 4);
    ValueOfDigit((b0 % 4) * 16 + b1 / 16);
    ValueOfDigit((b1 % 16) * 4);
    Mix(b0 % 4, b1 / 16, 16);
    Mix(b1 % 16, 0, 4);
    SplitByte4(b0);
    SplitByte16(b1);
  }

  /** A final partial group decodes back to itself. */
  lemma DecodeTailOf(b: seq<byte>)
    requires |b| < 3
    ensures DecodeTail(Tail(b)) == Some(b)
  {
    if |b| == 1 {
      assert b == [b[0]];
      DecodeOne(b[0]);
    } else if |b| == 2 {
      assert b == [b[0], b[1]];
      DecodeTwo(b[0], b[1]);
    }
  }

  /** The three bytes of a group are recovered from its four sextets. */
  lemma Regroup(b0: byte, b1: byte, b2: byte)
    ensures var v0, v1, v2, v3 := b0 / 4, (b0 % 4) * 16 + b1 / 16, (b1 % 16) * 4 + b2 / 64, b2 % 64;
            && v0 * 4 + v1 / 16 == b0
            && (v1 % 16) * 16 + v2 / 4 == b1
            && (v2 % 4) * 64 + v3 == b2
  {
    Mix(b0 % 4, b1 / 16, 16);
    Mix(b1 % 16, b2 / 64, 4);
    SplitByte4(b0);
    SplitByte16(b1);
    SplitByte4(b2);
  }

  /** One complete group decodes back to its three bytes. */
  lemma DecodeQuad(b0: byte, b1: byte, b2: byte)
    ensures DecodeGroup(Quad(b0, b1, b2)) == Some([b0, b1, b2])
  {
    ValueOfDigit(b0 / 4);
    ValueOfDigit((b0 % 4) * 16 + b1 / 16);
    ValueOfDigit((b1 % 16) * 4 + b2 / 64);
    ValueOfDigit(b2 % 64);
    Regroup(b0, b1, b2);
  }

  /** The encoding of three or more bytes starts with their first group. */
  lemma EncodeGroup(b: seq<byte>)
    requires |b| >= 3
    ensures EncodeRaw(b) == Quad(b[0], b[1], b[2]) + EncodeRaw(b[3..])
  {
  }

  /** A byte string is its first group followed by the rest. */
  lemma Regather(b: seq<byte>)
    requires |b| >= 3
    ensures [b[0], b[1], b[2]] + b[3..] == b
  {
  }

  /** The round trip for a string of at least three bytes, given the round
      trip for everything after its first group. */
  lemma DecodeGroupStep(b: seq<byte>)
    requires |b| >= 3
    requires DecodeRaw(EncodeRaw(b[3..])) == Some(b[3..])
    ensures DecodeRaw(EncodeRaw(b)) == Some(b)
  {
    Regather(b);
    var rest := EncodeRaw(b[3..]);
    var s := Quad(b[0], b[1], b[2]) + rest;
    EncodeGroup(b);
    assert s[..4] == Quad(b[0], b[1], b[2]) && s[4..] == rest;
    DecodeQuad(b[0], b[1], b[2]);
  }

  /** Decoding the encoding of any byte string gives that byte string back. */
  lemma {:induction false} DecodeEncode(b: seq<byte>)
    ensures DecodeRaw(EncodeRaw(b)) == Some(b)
    decreases |b|
  {
    if |b| < 3 {
      DecodeTailOf(b);
    } else {
      DecodeEncode(b[3..]);
      DecodeGroupStep(b);
    }
  }
}

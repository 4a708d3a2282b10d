/** Short-code derivation: the MD5 digest of the input, base64url-encoded
    without padding and cut to its first seven characters. MD5 itself is a
    parameter: only the encoding and truncation layer is modelled. */
module HashUtil {
  import opened Bytes
  import opened Base64Url

  /** Length of every short code. */
  const CodeLength: nat := 7

  /** An MD5 digest (RFC 1321) is 16 bytes. */
  type Digest = d: seq<byte> | |d| == 16 witness seq(16, i => 0)

  /** The code of one digest: the first seven characters of its encoding. */
  function Code(d: Digest): (code: string)
    ensures |code| == CodeLength
    ensures forall i :: 0 <= i < |code| ==> IsUrlSafe(code[i])
  {
    var full := EncodeRaw(d);
    assert |full| == 22;
    full[..CodeLength]
  }

  /** `hashutil.Encode`: total over every input, the empty one included. The
      input type is generic so that a caller may hash a Go string or a byte
      slice alike; `md5` stands for the digest of those bytes. */
  function Encode<T>(md5: T -> Digest, data: T): (code: string)
    ensures |code| == CodeLength
    ensures forall i :: 0 <= i < |code| ==> IsUrlSafe(code[i])
    ensures code == Code(md5(data))
  {
    Code(md5(data))
  }

  /** The seven sextets the code encodes: the 42 leading bits of the digest. */
  function Sextets(d: Digest): (sx: seq<Sextet>)
    ensures |sx| == CodeLength
  {
    Split(d[0], d[1], d[2]) + Split(d[3], d[4], d[5])[..3]
  }

  /** Character i of the code is the digit of sextet i. */
  lemma CodeIsDigits(d: Digest)
    ensures forall i :: 0 <= i < CodeLength ==> Code(d)[i] == Digit(Sextets(d)[i])
  {
    var rest := d[3..];
    assert rest[0] == d[3] && rest[1] == d[4] && rest[2] == d[5];
    EncodeGroup(d);
    EncodeGroup(rest);
    var g1, g2 := Split(d[0], d[1], d[2]), Split(d[3], d[4], d[5]);
    var q1, q2 := Quad(d[0], d[1], d[2]), Quad(d[3], d[4], d[5]);
    assert EncodeRaw(d) == q1 + (q2 + EncodeRaw(rest[3..]));
    DigitsOfGroups(Code(d), q1, q2, g1, g2);
  }

  /** Seven characters made of a whole group and three quarters of the next
      are the digits of those groups' sextets. */
  lemma DigitsOfGroups(code: string, q1: string, q2: string, g1: seq<Sextet>, g2: seq<Sextet>)
    requires |g1| == 4 && |g2| == 4
    requires q1 == [Digit(g1[0]), Digit(g1[1]), Digit(g1[2]), Digit(g1[3])]
    requires q2 == [Digit(g2[0]), Digit(g2[1]), Digit(g2[2]), Digit(g2[3])]
    requires |code| == CodeLength && code == (q1 + q2)[..CodeLength]
    ensures forall i :: 0 <= i < CodeLength ==> code[i] == Digit((g1 + g2[..3])[i])
  {
  }

  /** Sextets made of the same bits are equal and conversely: the i-th output
      sextet is a bit-field of the input, with no bits lost up to bit 42. */
  lemma SextetsDetermineBits(d1: Digest, d2: Digest)
    ensures Sextets(d1) == Sextets(d2) <==> d1[..5] == d2[..5] && d1[5] / 64 == d2[5] / 64
  {
    var s1, s2 := Sextets(d1), Sextets(d2);
    if s1 == s2 {
      assert s1[0] == s2[0] && s1[1] == s2[1] && s1[2] == s2[2] && s1[3] == s2[3];
      assert s1[4] == s2[4] && s1[5] == s2[5] && s1[6] == s2[6];
      Mix(d1[0] % 4, d1[1] / 16, 16);
      Mix(d2[0] % 4, d2[1] / 16, 16);
      Mix(d1[1] % 16, d1[2] / 64, 4);
      Mix(d2[1] % 16, d2[2] / 64, 4);
      Mix(d1[3] % 4, d1[4] / 16, 16);
      Mix(d2[3] % 4, d2[4] / 16, 16);
      Mix(d1[4] % 16, d1[5] / 64, 4);
      Mix(d2[4] % 16, d2[5] / 64, 4);
      assert d1[0] == d2[0] && d1[1] == d2[1] && d1[2] == d2[2];
      assert d1[3] == d2[3] && d1[4] == d2[4];
      assert d1[..5] == d2[..5];
    }
  }

  /** The seven characters carry exactly 42 bits: the first five digest bytes
      and the top two bits of the sixth. Two digests give the same code if and
      only if they agree on those bits. */
  lemma {:induction false} CodeDeterminedBy42Bits(d1: Digest, d2: Digest)
    ensures Code(d1) == Code(d2) <==> d1[..5] == d2[..5] && d1[5] / 64 == d2[5] / 64
  {
    CodeIsDigits(d1);
    CodeIsDigits(d2);
    SextetsDetermineBits(d1, d2);
    if Code(d1) == Code(d2) {
      forall i | 0 <= i < CodeLength
        ensures Sextets(d1)[i] == Sextets(d2)[i]
      {
        DigitInjective(Sextets(d1)[i], Sextets(d2)[i]);
      }
    }
  }

  /** Inputs whose digests agree on their first six bytes share a code, so
      the code of an input is fixed by 48 bits of its digest. */
  lemma EncodeDependsOnDigestPrefix<T>(md5: T -> Digest, x: T, y: T)
    requires md5(x)[..6] == md5(y)[..6]
    ensures Encode(md5, x) == Encode(md5, y)
  {
    assert md5(x)[..5] == md5(y)[..5] by {
      assert md5(x)[..5] == md5(x)[..6][..5];
      assert md5(y)[..5] == md5(y)[..6][..5];
    }
    assert md5(x)[5] == md5(x)[..6][5];
    assert md5(y)[5] == md5(y)[..6][5];
    CodeDeterminedBy42Bits(md5(x), md5(y));
  }
}

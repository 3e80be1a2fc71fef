/**
 * The content fingerprint of a dependency file: Git's blob object id, the
 * SHA-1 digest (FIPS 180-4) of `"blob " ++ decimal(len) ++ NUL ++ content`,
 * printed in lower-case hexadecimal.
 *
 * SHA-1 itself is not modelled: every member that needs it takes the digest
 * function as a parameter `sha1`. What is modelled exactly is the input the
 * digest is applied to and the way the digest is printed.
 */
module GitBlob {
  import opened Text

  /** A SHA-1 digest: 20 bytes. */
  type Digest = d: seq<byte> | |d| == 20 witness seq(20, _ => 0 as byte)

  /** The SHA-1 function, supplied by the caller. */
  type Hasher = seq<byte> -> Digest

  /** `fmt.Sprintf("blob %d\x00", n)` as bytes. */
  function BlobHeader(n: nat): seq<byte> {
    StringToBytes("blob " + Decimal(n)) + [0]
  }

  /** The header ends with its only NUL byte. */
  lemma BlobHeaderShape(n: nat)
    ensures var h := BlobHeader(n);
      |h| == 5 + |Decimal(n)| + 1 && h[|h| - 1] == 0
      && forall i :: 0 <= i < |h| - 1 ==> h[i] != 0
  {
  }

  /** What the digest is computed over: the header, then the content. */
  function BlobInput(content: seq<byte>): seq<byte> {
    BlobHeader(|content|) + content
  }

  /**
   * The header makes the digest input determine the content: two different
   * contents never present the same bytes to SHA-1.
   */
  lemma BlobInputInjective(c1: seq<byte>, c2: seq<byte>)
    requires BlobInput(c1) == BlobInput(c2)
    ensures c1 == c2
  {
    var h1, h2 := BlobHeader(|c1|), BlobHeader(|c2|);
    BlobHeaderShape(|c1|);
    BlobHeaderShape(|c2|);
    var b := BlobInput(c1);
    // The first NUL of the input ends the header, so both headers have one length.
    assert b[|h1| - 1] == 0 && b[|h2| - 1] == 0;
    assert |h1| == |h2|;
    assert h1 == b[..|h1|] == h2;
    var s1, s2 := "blob " + Decimal(|c1|), "blob " + Decimal(|c2|);
    StringBytesString(s1);
    StringBytesString(s2);
    assert StringToBytes(s1) == h1[..|h1| - 1] == h2[..|h2| - 1] == StringToBytes(s2);
    assert Decimal(|c1|) == s1[5..] == s2[5..] == Decimal(|c2|);
    DecimalInjective(|c1|, |c2|);
    assert c1 == b[|h1|..] == c2;
  }

  /** `GetFileSHA1`'s result for a file holding `content`. */
  function Fingerprint(sha1: Hasher, content: seq<byte>): (s: string)
    ensures |s| == 40
    ensures forall i :: 0 <= i < |s| ==> IsHexDigit(s[i])
  {
    Hex(sha1(BlobInput(content)))
  }

  /**
   * Equal fingerprints of different contents can only come from a SHA-1
   * collision: two different inputs with the same digest.
   */
  lemma SameFingerprintIsCollision(sha1: Hasher, c1: seq<byte>, c2: seq<byte>)
    requires c1 != c2
    requires Fingerprint(sha1, c1) == Fingerprint(sha1, c2)
    ensures BlobInput(c1) != BlobInput(c2)
    ensures sha1(BlobInput(c1)) == sha1(BlobInput(c2))
  {
    if BlobInput(c1) == BlobInput(c2) {
      BlobInputInjective(c1, c2);
    }
    HexInjective(sha1(BlobInput(c1)), sha1(BlobInput(c2)));
  }
}

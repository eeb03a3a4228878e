/** `deterministic_uuid`: a content-derived identifier.

    The content (a string, UTF-8 encoded, or raw bytes) is hashed with SHA-256;
    the lowercase hex digest is then the name of a version-5 UUID in the nil
    namespace, and the UUID is written in its canonical 8-4-4-4-12 form.
    SHA-256 and SHA-1 themselves are opaque: they are the two function values
    of `Hashes`. Everything around them (UTF-8, hex, the namespace, the
    version and variant bits, the text form) is written out. */
module Uuid {
  import opened Common

  type byte = b: int | 0 <= b < 256

  type Digest32 = s: seq<byte> | |s| == 32 witness seq(32, _ => 0)
  type Digest20 = s: seq<byte> | |s| == 20 witness seq(20, _ => 0)

  /** The two cryptographic digests the identifier is built from. */
  datatype Hashes = Hashes(sha256: seq<byte> -> Digest32, sha1: seq<byte> -> Digest20)

  // ---------------------------------------------------------------------
  // UTF-8

  /** UTF-8 encoding of one Unicode scalar value. */
  function Utf8Char(c: char): (r: seq<byte>)
    ensures 1 <= |r| <= 4
    ensures |r| == 1 <==> (c as int) < 0x80
    ensures forall k :: 1 <= k < |r| ==> 0x80 <= r[k] < 0xC0
  {
    var n := c as int;
    if n < 0x80 then [n]
    else if n < 0x800 then [0xC0 + n / 64, 0x80 + n % 64]
    else if n < 0x10000 then [0xE0 + n / 4096, 0x80 + (n / 64) % 64, 0x80 + n % 64]
    else [0xF0 + n / 262144, 0x80 + (n / 4096) % 64, 0x80 + (n / 64) % 64, 0x80 + n % 64]
  }

  /** The code point a well-formed UTF-8 sequence of one character stands for. */
  function CodePoint(r: seq<byte>): int
    requires 1 <= |r| <= 4
  {
    var b := seq(|r|, i requires 0 <= i < |r| => r[i] as int);
    if |r| == 1 then b[0]
    else if |r| == 2 then (b[0] - 0xC0) * 64 + (b[1] - 0x80)
    else if |r| == 3 then (b[0] - 0xE0) * 4096 + (b[1] - 0x80) * 64 + (b[2] - 0x80)
    else (b[0] - 0xF0) * 262144 + (b[1] - 0x80) * 4096 + (b[2] - 0x80) * 64 + (b[3] - 0x80)
  }

  /** Decoding one encoded character gives its code point back. */
  lemma Utf8CharDecodes(c: char)
    ensures CodePoint(Utf8Char(c)) == c as int
  {
    var n := c as int;
    if n < 0x80 {
    } else if n < 0x800 {
      assert n == (n / 64) * 64 + n % 64;
    } else if n < 0x10000 {
      assert n / 64 == (n / 4096) * 64 + (n / 64) % 64;
      assert n == (n / 64) * 64 + n % 64;
    } else {
      assert n / 4096 == (n / 262144) * 64 + (n / 4096) % 64;
      assert n / 64 == (n / 4096) * 64 + (n / 64) % 64;
      assert n == (n / 64) * 64 + n % 64;
    }
  }

  /** `s.encode("utf-8")` */
  function Utf8(s: string): (r: seq<byte>)
    ensures |s| <= |r| <= 4 * |s|
  {
    if s == [] then [] else Utf8Char(s[0]) + Utf8(s[1..])
  }

  predicate IsAscii(s: string) {
    forall i :: 0 <= i < |s| ==> (s[i] as int) < 0x80
  }

  /** An ASCII string encodes to its own character codes, one byte each. */
  lemma {:induction false} Utf8OfAscii(s: string)
    requires IsAscii(s)
    ensures |Utf8(s)| == |s|
    ensures forall i :: 0 <= i < |s| ==> Utf8(s)[i] == s[i] as int
  {
    if s != [] {
      assert IsAscii(s[1..]) by {
        forall i | 0 <= i < |s[1..]| ensures (s[1..][i] as int) < 0x80 {
          assert s[1..][i] == s[i + 1];
        }
      }
      Utf8OfAscii(s[1..]);
    }
  }

  // ---------------------------------------------------------------------
  // Hex digests

  const HexDigits: string := "0123456789abcdef"

  predicate IsHexDigit(c: char) {
    c in HexDigits
  }

  /** `hexdigest()`: two lowercase hex digits per byte, high nibble first. */
  function Hex(bs: seq<byte>): (r: string)
    ensures |r| == 2 * |bs|
    ensures forall i :: 0 <= i < |r| ==> IsHexDigit(r[i])
    ensures IsAscii(r)
  {
    if bs == [] then []
    else [HexDigits[bs[0] / 16], HexDigits[bs[0] % 16]] + Hex(bs[1..])
  }

  /** The digits of byte `k` of a hex text sit at positions 2k and 2k+1. */
  lemma {:induction false} HexAt(bs: seq<byte>, k: nat)
    requires k < |bs|
    ensures Hex(bs)[2 * k] == HexDigits[bs[k] / 16]
    ensures Hex(bs)[2 * k + 1] == HexDigits[bs[k] % 16]
  {
    var head := [HexDigits[bs[0] / 16], HexDigits[bs[0] % 16]];
    assert Hex(bs) == head + Hex(bs[1..]);
    if k > 0 {
      HexAt(bs[1..], k - 1);
      assert bs[1..][k - 1] == bs[k];
      assert Hex(bs)[2 * k] == Hex(bs[1..])[2 * (k - 1)];
      assert Hex(bs)[2 * k + 1] == Hex(bs[1..])[2 * (k - 1) + 1];
    }
  }

  // ---------------------------------------------------------------------
  // Version-5 UUIDs

  /** The nil UUID `00000000-0000-0000-0000-000000000000` as bytes. */
  const NilNamespace: seq<byte> := seq(16, _ => 0)

  /** What SHA-1 is applied to: the namespace bytes, then the UTF-8 name. */
  function Uuid5Input(namespace: seq<byte>, name: string): seq<byte> {
    namespace + Utf8(name)
  }

  /** `uuid.uuid5(namespace, name)`: the first 16 bytes of the SHA-1 digest,
      with the version nibble set to 5 and the variant bits set to `10`. */
  function Uuid5(h: Hashes, namespace: seq<byte>, name: string): (u: seq<byte>)
    ensures |u| == 16
    ensures u[6] / 16 == 5
    ensures u[8] / 64 == 2
    ensures forall k :: 0 <= k < 16 && k != 6 && k != 8 ==> u[k] == h.sha1(Uuid5Input(namespace, name))[k]
  {
    var d := h.sha1(Uuid5Input(namespace, name));
    d[..6] + [d[6] % 16 + 0x50] + [d[7]] + [d[8] % 64 + 0x80] + d[9..16]
  }

  /** The canonical text form `xxxxxxxx-xxxx-xxxx-xxxx-xxxxxxxxxxxx` of a
      version-5 UUID: 36 characters, hyphens at 8, 13, 18 and 23, lowercase
      hex elsewhere, `5` as the version digit and one of `89ab` as the
      variant digit. */
  predicate IsCanonicalUuid5(r: string) {
    && |r| == 36
    && r[8] == '-' && r[13] == '-' && r[18] == '-' && r[23] == '-'
    && (forall i :: 0 <= i < 36 && i != 8 && i != 13 && i != 18 && i != 23 ==> IsHexDigit(r[i]))
    && r[14] == '5'
    && r[19] in "89ab"
  }

  /** `str(uuid)`: the 32 hex digits of the UUID's bytes, grouped 8-4-4-4-12. */
  function UuidText(u: seq<byte>): string
    requires |u| == 16
  {
    var x := Hex(u);
    x[..8] + "-" + x[8..12] + "-" + x[12..16] + "-" + x[16..20] + "-" + x[20..]
  }

  /** Where each hex digit of the UUID lands in its text form. */
  lemma UuidTextAt(u: seq<byte>, i: nat)
    requires |u| == 16 && i < 36
    ensures |UuidText(u)| == 36
    ensures i == 8 || i == 13 || i == 18 || i == 23 ==> UuidText(u)[i] == '-'
    ensures i < 8 ==> UuidText(u)[i] == Hex(u)[i]
    ensures 8 < i < 13 ==> UuidText(u)[i] == Hex(u)[i - 1]
    ensures 13 < i < 18 ==> UuidText(u)[i] == Hex(u)[i - 2]
    ensures 18 < i < 23 ==> UuidText(u)[i] == Hex(u)[i - 3]
    ensures 23 < i ==> UuidText(u)[i] == Hex(u)[i - 4]
  {
    var x := Hex(u);
    var g1, g2, g3 := x[..8] + "-", x[8..12] + "-", x[12..16] + "-";
    var g4, g5 := x[16..20] + "-", x[20..];
    assert UuidText(u) == g1 + (g2 + (g3 + (g4 + g5)));
  }

  /** The text of a version-5 UUID is in canonical form. */
  lemma UuidTextCanonical(u: seq<byte>)
    requires |u| == 16 && u[6] / 16 == 5 && u[8] / 64 == 2
    ensures IsCanonicalUuid5(UuidText(u))
  {
    var r := UuidText(u);
    UuidTextAt(u, 8);
    UuidTextAt(u, 13);
    UuidTextAt(u, 18);
    UuidTextAt(u, 23);
    forall i | 0 <= i < 36 && i != 8 && i != 13 && i != 18 && i != 23
      ensures IsHexDigit(r[i])
    {
      UuidTextAt(u, i);
    }
    UuidTextAt(u, 14);
    UuidTextAt(u, 19);
    HexAt(u, 6);
    HexAt(u, 8);
    assert u[8] / 16 in {8, 9, 10, 11};
  }

  // ---------------------------------------------------------------------
  // deterministic_uuid

  /** What `deterministic_uuid` may be handed. */
  datatype Content = Text(s: string) | Bytes(b: seq<byte>) | Unsupported

  datatype UuidError = ContentTypeNotSupported

  /** The identifier of a byte string: the UUIDv5, in the nil namespace, of
      the hex SHA-256 digest. */
  function UuidOfBytes(h: Hashes, bs: seq<byte>): (r: string)
    ensures IsCanonicalUuid5(r)
  {
    var u := Uuid5(h, NilNamespace, Hex(h.sha256(bs)));
    UuidTextCanonical(u);
    UuidText(u)
  }

  /** `deterministic_uuid(content)`: strings are UTF-8 encoded first; any other
      type raises `ValueError`. */
  function DeterministicUuid(h: Hashes, content: Content): (r: Result<string, UuidError>)
    ensures r.Err? <==> content.Unsupported?
    ensures r.Ok? ==> IsCanonicalUuid5(r.value)
  {
    match content
    case Text(s) => Ok(UuidOfBytes(h, Utf8(s)))
    case Bytes(b) => Ok(UuidOfBytes(h, b))
    case Unsupported => Err(ContentTypeNotSupported)
  }

  /** A string and its UTF-8 encoding get the same identifier. */
  lemma TextSameAsItsBytes(h: Hashes, s: string)
    ensures DeterministicUuid(h, Text(s)) == DeterministicUuid(h, Bytes(Utf8(s)))
  {
  }

  /** The identifier depends on nothing but the content: SHA-1 sees the
      sixteen zero bytes of the nil namespace followed by the 64 ASCII codes
      of the SHA-256 hex digest. */
  lemma Uuid5InputOfDigest(h: Hashes, bs: seq<byte>)
    ensures var input := Uuid5Input(NilNamespace, Hex(h.sha256(bs)));
      && |input| == 80
      && (forall i :: 0 <= i < 16 ==> input[i] == 0)
      && (forall i :: 16 <= i < 80 ==> input[i] == Hex(h.sha256(bs))[i - 16] as int)
  {
    var hex := Hex(h.sha256(bs));
    Utf8OfAscii(hex);
  }
}

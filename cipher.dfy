/** Stand-ins for the browser primitives the crypto service calls: AES-GCM
    (NIST SP 800-38D) sealing and opening, TextEncoder/TextDecoder, and the
    export/import of a key. Nothing here claims to be AES-GCM or UTF-8; each
    stand-in is a concrete function with the one property the service relies
    on, a round trip, proved below. */
module Cipher {
  import opened Wrappers
  import opened Types
  import Base64

  /** A 256-bit key (KEY_LENGTH = 256). */
  type Key = k: seq<byte> | |k| == 32 witness seq(32, _ => 0)

  /** IV_LENGTH: the nonce length used by `encrypt`. */
  const IvLength: nat := 12

  /** The authentication tag length of AES-GCM, in bytes. */
  const TagLength: nat := 16

  function Tag(k: Key, iv: seq<byte>): (t: seq<byte>)
    ensures |t| == TagLength
  {
    seq(TagLength, j requires 0 <= j < TagLength => (k[j] as int + (if j < |iv| then iv[j] as int else 0)) % 256)
  }

  function Mask(k: Key, p: seq<byte>): (c: seq<byte>)
    ensures |c| == |p|
  {
    seq(|p|, i requires 0 <= i < |p| => (p[i] as int + k[i % 32] as int) % 256)
  }

  function Unmask(k: Key, c: seq<byte>): (p: seq<byte>)
    ensures |p| == |c|
  {
    seq(|c|, i requires 0 <= i < |c| => (c[i] as int - k[i % 32] as int) % 256)
  }

  /** `crypto.subtle.encrypt`: the ciphertext followed by its tag. */
  function Seal(k: Key, iv: seq<byte>, plain: seq<byte>): (c: seq<byte>)
    ensures |c| == |plain| + TagLength
  {
    Mask(k, plain) + Tag(k, iv)
  }

  /** `crypto.subtle.decrypt`: `None` is the OperationError it rejects with
      when the input is shorter than a tag or the tag does not check. */
  function Open(k: Key, iv: seq<byte>, c: seq<byte>): Option<seq<byte>> {
    if |c| < TagLength || c[|c| - TagLength..] != Tag(k, iv) then None
    else Some(Unmask(k, c[..|c| - TagLength]))
  }

  /** Opening what was sealed under the same key and nonce gives the
      plaintext back. */
  lemma OpenSeal(k: Key, iv: seq<byte>, plain: seq<byte>)
    ensures Open(k, iv, Seal(k, iv, plain)) == Some(plain)
  {
    var c := Seal(k, iv, plain);
    assert c[|c| - TagLength..] == Tag(k, iv);
    assert c[..|c| - TagLength] == Mask(k, plain);
    var p := Unmask(k, Mask(k, plain));
    forall i | 0 <= i < |plain| ensures p[i] == plain[i] {
      assert p[i] == (((plain[i] as int + k[i % 32] as int) % 256) - k[i % 32] as int) % 256;
    }
    assert p == plain;
  }

  /** A Unicode scalar value: what a Dafny `char` may hold. */
  predicate IsScalar(n: int) {
    0 <= n < 0xD800 || 0xE000 <= n < 0x11_0000
  }

  /** The character TextDecoder substitutes for an undecodable sequence. */
  const Replacement: char := '\U{FFFD}'

  /** TextEncoder.encode: three bytes per character, most significant first. */
  function EncodeText(s: string): (b: seq<byte>)
    ensures |b| == 3 * |s|
  {
    if s == [] then []
    else
      var n := s[0] as int;
      [n / 65536, (n / 256) % 256, n % 256] + EncodeText(s[1..])
  }

  /** TextDecoder.decode: never fails; a group that is no character, and a
      trailing group of fewer than three bytes, become U+FFFD. */
  function DecodeText(b: seq<byte>): string
    decreases |b|
  {
    if b == [] then []
    else if |b| < 3 then [Replacement]
    else
      var n := b[0] as int * 65536 + b[1] as int * 256 + b[2] as int;
      [if IsScalar(n) then n as char else Replacement] + DecodeText(b[3..])
  }

  lemma {:induction false} DecodeEncodeText(s: string)
    ensures DecodeText(EncodeText(s)) == s
  {
    if s != [] {
      var b := EncodeText(s);
      var n := s[0] as int;
      assert b[3..] == EncodeText(s[1..]);
      assert b[0] as int * 65536 + b[1] as int * 256 + b[2] as int == n;
      DecodeEncodeText(s[1..]);
    }
  }

  /** exportKey: the key's serialised form (the JWK text in the source). */
  function ExportKey(k: Key): string {
    Base64.Encode(k)
  }

  /** importKey: `None` is a parse or import failure. */
  function ImportKey(text: string): Option<Key> {
    match Base64.Decode(text)
    case Some(b) => if |b| == 32 then Some(b) else None
    case None => None
  }

  /** A key is re-derived exactly from its exported form. */
  lemma ImportExportKey(k: Key)
    ensures ImportKey(ExportKey(k)) == Some(k)
  {
    Base64.DecodeEncode(k);
  }

  /** The exported form of a key is never the empty text, so the source's
      `if (storedKey)` test sees a stored export as present. */
  lemma ExportKeyNonEmpty(k: Key)
    ensures ExportKey(k) != ""
  {
  }
}

/**
 * The envelope: 22 bytes holding a 64-bit id (big-endian), 8 random bytes, a 2-byte
 * verify tag and a 4-byte sign tag, each tag a truncated HMAC over the bytes before it.
 * Also the collaborators the protocol calls, which the model does not look inside,
 * and the text form of an envelope (its Base32H encoding without leading '0's).
 */
module Envelope {
  import opened Wrappers
  import opened Bytes
  import opened Constants

  /** A SHA-256 digest. */
  type Digest = s: seq<byte> | |s| == SHA256_DIGEST_SIZE witness Zeros(SHA256_DIGEST_SIZE)

  /** The JavaScript value of a key option: undefined, or a string. */
  type Key = Option<string>

  /** A key takes part in validation only when it is truthy: present and not "". */
  predicate Truthy(k: Key): (b: bool)
    ensures b <==> k != None && k != Some("")
  {
    k.Some? && k.value != ""
  }

  /**
   * The collaborators: HMAC over SHA-256 keyed with a key (RFC 2104), the Base32H
   * encodeBin and decodeBin, and the validity flag snowman's explodeId reports for an id.
   */
  datatype Primitives = Primitives(
    hmac: (Key, seq<byte>) -> Digest,
    encodeBin: seq<byte> -> string,
    decodeBin: string -> seq<byte>,
    idValid: u64 -> bool)

  /** 256^8 is the range of a u64. */
  lemma Pow256Of8()
    ensures Pow256(ID_SIZE) == 0x1_0000_0000_0000_0000
  {
  }

  /** The id an envelope carries: its first 8 bytes read big-endian (readBigUInt64BE at 0). */
  function ReadBigUInt64BE(buffer: seq<byte>): (id: u64)
    requires |buffer| >= ID_SIZE
    ensures ToBE(id, ID_SIZE) == buffer[..ID_SIZE]
  {
    Pow256Of8();
    ToBEFromBE(buffer[..ID_SIZE]);
    FromBE(buffer[..ID_SIZE])
  }

  /**
   * The random field after rnd.copy(buffer, ID_SIZE, 0, RND_SIZE) into a zero-filled
   * buffer: the first RND_SIZE bytes of rnd, zeros where rnd is shorter.
   */
  function RandomField(rnd: seq<byte>): (r: seq<byte>)
    ensures |r| == RND_SIZE
    ensures forall i :: 0 <= i < RND_SIZE ==> r[i] == if i < |rnd| then rnd[i] else 0
  {
    if |rnd| >= RND_SIZE then rnd[..RND_SIZE] else rnd + Zeros(RND_SIZE - |rnd|)
  }

  /**
   * The verify field holds the first VERIFY_SIZE bytes of the HMAC of the id and random
   * fields, compared byte by byte as timingSafeEqual compares them.
   */
  predicate VerifyTagMatches(hmac: (Key, seq<byte>) -> Digest, key: Key, buffer: seq<byte>): (b: bool)
    requires |buffer| == ALL_SIZE
    ensures b <==> forall i :: VERIFY_OFFSET <= i < SIGN_OFFSET ==>
                     buffer[i] == hmac(key, buffer[..VERIFY_OFFSET])[i - VERIFY_OFFSET]
  {
    buffer[VERIFY_OFFSET..SIGN_OFFSET] == hmac(key, buffer[..VERIFY_OFFSET])[..VERIFY_SIZE]
  }

  /**
   * The sign field holds the first SIGN_SIZE bytes of the HMAC of every byte before it,
   * compared byte by byte.
   */
  predicate SignTagMatches(hmac: (Key, seq<byte>) -> Digest, key: Key, buffer: seq<byte>): (b: bool)
    requires |buffer| == ALL_SIZE
    ensures b <==> forall i :: SIGN_OFFSET <= i < ALL_SIZE ==>
                     buffer[i] == hmac(key, buffer[..SIGN_OFFSET])[i - SIGN_OFFSET]
  {
    buffer[SIGN_OFFSET..] == hmac(key, buffer[..SIGN_OFFSET])[..SIGN_SIZE]
  }

  /**
   * The envelope built for `id` with random bytes `rnd`: ALL_SIZE bytes whose id field reads
   * back as `id`, whose random field is `rnd`'s, and whose two tags match under the keys
   * used to build it.
   */
  function Assemble(hmac: (Key, seq<byte>) -> Digest, verifyKey: Key, signKey: Key, id: u64, rnd: seq<byte>)
    : (buffer: seq<byte>)
    ensures |buffer| == ALL_SIZE
    ensures ReadBigUInt64BE(buffer) == id
    ensures buffer[RND_OFFSET..VERIFY_OFFSET] == RandomField(rnd)
    ensures VerifyTagMatches(hmac, verifyKey, buffer) && SignTagMatches(hmac, signKey, buffer)
  {
    var head := ToBE(id, ID_SIZE) + RandomField(rnd);
    var verified := head + hmac(verifyKey, head)[..VERIFY_SIZE];
    var buffer := verified + hmac(signKey, verified)[..SIGN_SIZE];
    assert buffer[..ID_SIZE] == ToBE(id, ID_SIZE);
    assert buffer[..VERIFY_OFFSET] == head && buffer[..SIGN_OFFSET] == verified;
    Pow256Of8();
    ToBEInjective(ReadBigUInt64BE(buffer), id);
    buffer
  }

  /**
   * Any change to the tag fields of a built envelope, with the bytes before the sign tag
   * kept, breaks the check of the tag that changed: a changed verify field no longer
   * matches under the verify key, a changed sign field no longer matches under the sign key.
   */
  lemma TagTamperDetected(hmac: (Key, seq<byte>) -> Digest, verifyKey: Key, signKey: Key, id: u64,
                          rnd: seq<byte>, tampered: seq<byte>)
    requires |tampered| == ALL_SIZE
    requires tampered[..VERIFY_OFFSET] == Assemble(hmac, verifyKey, signKey, id, rnd)[..VERIFY_OFFSET]
    ensures tampered[VERIFY_OFFSET..SIGN_OFFSET] != Assemble(hmac, verifyKey, signKey, id, rnd)[VERIFY_OFFSET..SIGN_OFFSET]
            ==> !VerifyTagMatches(hmac, verifyKey, tampered)
    ensures tampered[..SIGN_OFFSET] == Assemble(hmac, verifyKey, signKey, id, rnd)[..SIGN_OFFSET] &&
            tampered[SIGN_OFFSET..] != Assemble(hmac, verifyKey, signKey, id, rnd)[SIGN_OFFSET..]
            ==> !SignTagMatches(hmac, signKey, tampered)
  {
  }

  /**
   * The validator's normalisation of a decoded buffer: trim its leading zero bytes, left-pad
   * with zero bytes back to ALL_SIZE, and give up (None) when the trimmed content is longer.
   * The result keeps exactly the significant bytes of the input.
   */
  function Normalize(decoded: seq<byte>): (r: Option<seq<byte>>)
    ensures r.Some? <==> |DropLeading(decoded, 0)| <= ALL_SIZE
    ensures r.Some? ==> |r.value| == ALL_SIZE && DropLeading(r.value, 0) == DropLeading(decoded, 0)
  {
    var trimmed := DropLeading(decoded, 0);
    var buffer := if |trimmed| < ALL_SIZE then Zeros(ALL_SIZE - |trimmed|) + trimmed else trimmed;
    DropLeadingSpec(decoded, 0);
    DropLeadingUnique(trimmed, 0, 0);
    if |trimmed| < ALL_SIZE then
      DropLeadingPrefixed<byte>(0, ALL_SIZE - |trimmed|, trimmed);
      Some(buffer)
    else if |buffer| != ALL_SIZE then None else Some(buffer)
  }

  /** Normalisation leaves a well-formed envelope as it is, leading zero bytes and all. */
  lemma NormalizeKeepsEnvelope(buffer: seq<byte>)
    requires |buffer| == ALL_SIZE
    ensures Normalize(buffer) == Some(buffer)
  {
    RestoreLeading(buffer, 0);
  }

  /** Leading zero bytes in the decoded buffer never change what normalisation gives. */
  lemma NormalizeIgnoresLeadingZeros(k: nat, decoded: seq<byte>)
    ensures Normalize(Zeros(k) + decoded) == Normalize(decoded)
  {
    DropLeadingPrefixed<byte>(0, k, decoded);
  }

  /** Normalising twice gives what normalising once gives. */
  lemma NormalizeIdempotent(decoded: seq<byte>)
    requires Normalize(decoded).Some?
    ensures Normalize(Normalize(decoded).value) == Normalize(decoded)
  {
    NormalizeKeepsEnvelope(Normalize(decoded).value);
  }

  /** `.replace(/^0+/, '')`: the encoded text without its leading '0' characters. */
  function StripLeadingZeros(text: string): (r: string)
    ensures r == [] || r[0] != '0'
  {
    DropLeadingSpec(text, '0');
    DropLeading(text, '0')
  }

  /**
   * The ident the generator yields for an envelope: Base32H text with no leading '0' which,
   * under the codec contract, decodes to the envelope's significant bytes.
   */
  function Ident(p: Primitives, verifyKey: Key, signKey: Key, id: u64, rnd: seq<byte>): (ident: string)
    ensures ident == [] || ident[0] != '0'
    ensures Base32HContract(p) ==>
              DropLeading(p.decodeBin(ident), 0) == DropLeading(Assemble(p.hmac, verifyKey, signKey, id, rnd), 0)
  {
    StripLeadingZeros(p.encodeBin(Assemble(p.hmac, verifyKey, signKey, id, rnd)))
  }

  /** A string of Base32H digits. */
  predicate IsBase32H(text: string) {
    forall i :: 0 <= i < |text| ==> text[i] in BASE32H_DIGITS
  }

  /**
   * What the model assumes of the Base32H codec and does not prove: encodeBin writes Base32H
   * digits; decoding the encoding of an envelope with its leading '0's stripped gives back
   * the envelope up to leading zero bytes; the empty string decodes to no bytes; and, as
   * each Base32H character carries 5 bits, a text never decodes to more significant bytes
   * than it has characters.
   */
  ghost predicate Base32HContract(p: Primitives) {
    (forall buffer: seq<byte> :: |buffer| == ALL_SIZE ==> IsBase32H(p.encodeBin(buffer))) &&
    (forall buffer: seq<byte> :: |buffer| == ALL_SIZE ==>
       DropLeading(p.decodeBin(StripLeadingZeros(p.encodeBin(buffer))), 0) == DropLeading(buffer, 0)) &&
    p.decodeBin("") == [] &&
    (forall text: string :: |DropLeading(p.decodeBin(text), 0)| <= |text|)
  }

  /**
   * An envelope whose id is not 0 has a nonzero byte in its id field, so at least the random
   * field and both tags, and one byte of the id, survive the trimming of leading zero bytes.
   */
  lemma NonzeroIdIsSignificant(hmac: (Key, seq<byte>) -> Digest, verifyKey: Key, signKey: Key, id: u64, rnd: seq<byte>)
    requires id != 0
    ensures |DropLeading(Assemble(hmac, verifyKey, signKey, id, rnd), 0)| > ALL_SIZE - ID_SIZE
  {
    var buffer := Assemble(hmac, verifyKey, signKey, id, rnd);
    DropLeadingSpec(buffer, 0);
    if |DropLeading(buffer, 0)| <= ALL_SIZE - ID_SIZE {
      assert buffer[..ID_SIZE] == Zeros(ID_SIZE);
      assert ToBE(0, ID_SIZE) == Zeros(ID_SIZE);
      ToBEInjective(id, 0);
      assert false;
    }
  }

  /**
   * Under the codec contract an ident determines its envelope, and so its id and random
   * field: idents generated for different ids are different strings.
   */
  lemma {:induction false} IdentDeterminesEnvelope(
    p: Primitives, verifyKey1: Key, signKey1: Key, id1: u64, rnd1: seq<byte>,
    verifyKey2: Key, signKey2: Key, id2: u64, rnd2: seq<byte>)
    requires Base32HContract(p)
    requires Ident(p, verifyKey1, signKey1, id1, rnd1) == Ident(p, verifyKey2, signKey2, id2, rnd2)
    ensures Assemble(p.hmac, verifyKey1, signKey1, id1, rnd1) == Assemble(p.hmac, verifyKey2, signKey2, id2, rnd2)
    ensures id1 == id2 && RandomField(rnd1) == RandomField(rnd2)
  {
    var b1 := Assemble(p.hmac, verifyKey1, signKey1, id1, rnd1);
    var b2 := Assemble(p.hmac, verifyKey2, signKey2, id2, rnd2);
    var ident := Ident(p, verifyKey1, signKey1, id1, rnd1);
    assert DropLeading(b1, 0) == DropLeading(p.decodeBin(ident), 0) == DropLeading(b2, 0);
    RestoreLeading(b1, 0);
    RestoreLeading(b2, 0);
  }
}

/**
 * The envelope's fixed layout, the HMAC algorithm name and the two validation
 * regular expressions.
 */
module Constants {

  /** Name of the hash the tags are keyed with. */
  const HMAC_ALGO: string := "sha256"

  /** Bytes in a SHA-256 digest (FIPS 180-4, section 1: a 256-bit message digest). */
  const SHA256_DIGEST_SIZE: nat := 32

  /** Field sizes, in bytes, in the order the fields appear in the envelope. */
  const ID_SIZE: nat := 8
  const RND_SIZE: nat := 8
  const VERIFY_SIZE: nat := 2
  const SIGN_SIZE: nat := 4
  const ALL_SIZE: nat := ID_SIZE + RND_SIZE + VERIFY_SIZE + SIGN_SIZE

  /** Start offsets of the fields after the id, each the end of the field before it. */
  const RND_OFFSET: nat := ID_SIZE
  const VERIFY_OFFSET: nat := RND_OFFSET + RND_SIZE
  const SIGN_OFFSET: nat := VERIFY_OFFSET + VERIFY_SIZE

  /** The four fields of an envelope. */
  datatype Field = Id | Random | Verify | Sign

  /** First byte of a field. */
  function Start(f: Field): nat {
    match f
    case Id => 0
    case Random => RND_OFFSET
    case Verify => VERIFY_OFFSET
    case Sign => SIGN_OFFSET
  }

  /** Size of a field, as the size constants give it. */
  function Size(f: Field): nat {
    match f
    case Id => ID_SIZE
    case Random => RND_SIZE
    case Verify => VERIFY_SIZE
    case Sign => SIGN_SIZE
  }

  /** The field a byte position of the envelope belongs to. */
  function FieldAt(pos: nat): (f: Field)
    requires pos < ALL_SIZE
    ensures Start(f) <= pos < Start(f) + Size(f)
  {
    if pos < RND_OFFSET then Id
    else if pos < VERIFY_OFFSET then Random
    else if pos < SIGN_OFFSET then Verify
    else Sign
  }

  /**
   * The envelope is 22 bytes; the fields are laid end to end from offset 0 to ALL_SIZE,
   * so every byte position lies in exactly one field; both tags fit in a SHA-256 digest.
   */
  lemma Layout()
    ensures ALL_SIZE == 22
    ensures Start(Id) == 0 && Start(Sign) + Size(Sign) == ALL_SIZE
    ensures Start(Random) == Start(Id) + Size(Id)
    ensures Start(Verify) == Start(Random) + Size(Random)
    ensures Start(Sign) == Start(Verify) + Size(Verify)
    ensures forall pos: nat, f: Field :: pos < ALL_SIZE ==>
              (Start(f) <= pos < Start(f) + Size(f) <==> FieldAt(pos) == f)
    ensures HMAC_ALGO == "sha256" && VERIFY_SIZE <= SHA256_DIGEST_SIZE && SIGN_SIZE <= SHA256_DIGEST_SIZE
  {
  }

  /** The characters of `re_lax`'s class [0-9A-Za-z]. */
  predicate IsAsciiAlphanumeric(c: char) {
    '0' <= c <= '9' || 'A' <= c <= 'Z' || 'a' <= c <= 'z'
  }

  /** The Base32H digits: the second class of `re_strict`, which leaves out I, O, S and U. */
  const BASE32H_DIGITS: string := "0123456789ABCDEFGHJKLMNPQRTVWXYZ"

  /** The first class of `re_strict`: the Base32H digits other than 0. */
  const BASE32H_NONZERO_DIGITS: string := "123456789ABCDEFGHJKLMNPQRTVWXYZ"

  /** `re_lax` = /^[0-9A-Za-z]+$/: one or more ASCII letters or digits. */
  predicate ReLax(s: string) {
    |s| >= 1 && forall i :: 0 <= i < |s| ==> IsAsciiAlphanumeric(s[i])
  }

  /** `re_strict`: a nonzero Base32H digit followed by one or more Base32H digits. */
  predicate ReStrict(s: string) {
    |s| >= 2 && s[0] in BASE32H_NONZERO_DIGITS &&
    forall i :: 1 <= i < |s| ==> s[i] in BASE32H_DIGITS
  }

  /** Every Base32H digit is an ASCII letter or digit, and none is I, O, S or U. */
  lemma Base32HDigitsAreAlphanumeric(c: char)
    requires c in BASE32H_DIGITS
    ensures IsAsciiAlphanumeric(c) && c !in "IOSU"
  {
  }

  /**
   * Whatever `re_strict` accepts, `re_lax` accepts too; it never starts with '0' and
   * never holds I, O, S or U.
   */
  lemma StrictIsLax(s: string)
    requires ReStrict(s)
    ensures ReLax(s) && s[0] != '0'
    ensures forall i :: 0 <= i < |s| ==> s[i] !in "IOSU"
  {
    forall i | 0 <= i < |s|
      ensures IsAsciiAlphanumeric(s[i]) && s[i] !in "IOSU"
    {
      if i == 0 {
        assert s[0] in BASE32H_DIGITS;
      }
      Base32HDigitsAreAlphanumeric(s[i]);
    }
  }
}

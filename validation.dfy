/**
 * The validator: a predicate over candidate idents, closed over the two keys, that runs
 * its checks in a fixed order and answers false at the first that fails; and the three
 * factories that refuse to build a validator without the keys they require.
 */
module Validation {
  import opened Wrappers
  import opened Bytes
  import opened Constants
  import opened Envelope
  import opened Options

  /** A value handed to the validator: a string, or any other JavaScript value. */
  datatype Input = Str(text: string) | NotAString

  /** The checks, in the order the validator runs them. */
  datatype Stage = NotAlphanumeric | WrongLength | InvalidId | VerifyMismatch | SignMismatch

  /** The outcome of a validation: accepted, or rejected by the first check that failed. */
  datatype Verdict = Accept | Reject(stage: Stage)

  /** The keys a validation closure holds. */
  datatype Validator = Validator(verifyKey: Key, signKey: Key)

  /** validationFactory: the closure keeps the caller's two keys as they are. */
  function ValidationFactory(options: Option<IdentOptions>): (v: Validator)
    ensures options.None? ==> v == Validator(None, None)
    ensures options.Some? ==> v == Validator(options.value.verifyKey, options.value.signKey)
  {
    var built := BuildOptions(options);
    Validator(built.verifyKey, built.signKey)
  }

  const SIGN_KEY_REQUIRED: string := "signKey is required."
  const VERIFY_KEY_REQUIRED: string := "verifyKey is required."

  /** True when the options are present and carry a truthy signKey. */
  predicate HasSignKey(options: Option<IdentOptions>) {
    options.Some? && Truthy(options.value.signKey)
  }

  /** True when the options are present and carry a truthy verifyKey. */
  predicate HasVerifyKey(options: Option<IdentOptions>) {
    options.Some? && Truthy(options.value.verifyKey)
  }

  /**
   * validationSignFactory: throws "signKey is required." unless the options carry a truthy
   * signKey; otherwise the validator validationFactory builds, which checks the sign tag.
   */
  function ValidationSignFactory(options: Option<IdentOptions>): (r: Result<Validator, string>)
    ensures r.Success? <==> HasSignKey(options)
    ensures r.Failure? ==> r.error == SIGN_KEY_REQUIRED
    ensures r.Success? ==> r.value == ValidationFactory(options) && Truthy(r.value.signKey)
  {
    if !HasSignKey(options) then Failure(SIGN_KEY_REQUIRED)
    else Success(ValidationFactory(options))
  }

  /**
   * validationVerifyFactory: throws "verifyKey is required." unless the options carry a
   * truthy verifyKey; otherwise the validator validationFactory builds, which checks the
   * verify tag.
   */
  function ValidationVerifyFactory(options: Option<IdentOptions>): (r: Result<Validator, string>)
    ensures r.Success? <==> HasVerifyKey(options)
    ensures r.Failure? ==> r.error == VERIFY_KEY_REQUIRED
    ensures r.Success? ==> r.value == ValidationFactory(options) && Truthy(r.value.verifyKey)
  {
    if !HasVerifyKey(options) then Failure(VERIFY_KEY_REQUIRED)
    else Success(ValidationFactory(options))
  }

  /**
   * validationBothFactory: the signKey is asked for first, so options missing both keys
   * report signKey; a validator is built only when both keys are truthy.
   */
  function ValidationBothFactory(options: Option<IdentOptions>): (r: Result<Validator, string>)
    ensures r.Success? <==> HasSignKey(options) && HasVerifyKey(options)
    ensures r.Failure? ==> r.error == if HasSignKey(options) then VERIFY_KEY_REQUIRED else SIGN_KEY_REQUIRED
    ensures r.Success? ==> r.value == ValidationFactory(options) && Truthy(r.value.signKey) && Truthy(r.value.verifyKey)
  {
    if !HasSignKey(options) then Failure(SIGN_KEY_REQUIRED)
    else if !HasVerifyKey(options) then Failure(VERIFY_KEY_REQUIRED)
    else Success(ValidationFactory(options))
  }

  /**
   * The checks on a normalised envelope: the id must be valid; the verify tag is compared
   * only under a truthy verifyKey and the sign tag only under a truthy signKey. A tag is
   * compared only once the id, and for the sign tag the verify tag, has passed.
   */
  function CheckEnvelope(p: Primitives, v: Validator, buffer: seq<byte>): (r: Verdict)
    requires |buffer| == ALL_SIZE
    ensures r == Accept <==>
              p.idValid(ReadBigUInt64BE(buffer)) &&
              (Truthy(v.verifyKey) ==> VerifyTagMatches(p.hmac, v.verifyKey, buffer)) &&
              (Truthy(v.signKey) ==> SignTagMatches(p.hmac, v.signKey, buffer))
    ensures r == Reject(InvalidId) <==> !p.idValid(ReadBigUInt64BE(buffer))
    ensures r == Reject(VerifyMismatch) <==>
              p.idValid(ReadBigUInt64BE(buffer)) &&
              Truthy(v.verifyKey) && !VerifyTagMatches(p.hmac, v.verifyKey, buffer)
    ensures r == Reject(SignMismatch) <==>
              p.idValid(ReadBigUInt64BE(buffer)) &&
              (Truthy(v.verifyKey) ==> VerifyTagMatches(p.hmac, v.verifyKey, buffer)) &&
              Truthy(v.signKey) && !SignTagMatches(p.hmac, v.signKey, buffer)
    ensures r != Reject(NotAlphanumeric) && r != Reject(WrongLength)
  {
    if !p.idValid(ReadBigUInt64BE(buffer)) then Reject(InvalidId)
    else if Truthy(v.verifyKey) && !VerifyTagMatches(p.hmac, v.verifyKey, buffer) then Reject(VerifyMismatch)
    else if Truthy(v.signKey) && !SignTagMatches(p.hmac, v.signKey, buffer) then Reject(SignMismatch)
    else Accept
  }

  /**
   * The checks after decoding: a decoded buffer whose significant bytes do not fit in
   * ALL_SIZE is rejected for its length, and any other is normalised and checked.
   */
  function CheckDecoded(p: Primitives, v: Validator, decoded: seq<byte>): (r: Verdict)
    ensures r == Reject(WrongLength) <==> |DropLeading(decoded, 0)| > ALL_SIZE
    ensures r != Reject(NotAlphanumeric)
  {
    match Normalize(decoded)
    case None => Reject(WrongLength)
    case Some(buffer) => CheckEnvelope(p, v, buffer)
  }

  /**
   * The full check: anything but a non-empty string of ASCII letters and digits is rejected
   * before it is decoded.
   */
  function Check(p: Primitives, v: Validator, value: Input): (r: Verdict)
    ensures r == Reject(NotAlphanumeric) <==> !(value.Str? && ReLax(value.text))
  {
    if !value.Str? || !ReLax(value.text) then Reject(NotAlphanumeric)
    else CheckDecoded(p, v, p.decodeBin(value.text))
  }

  /**
   * The validation closure: true exactly when no check fails, that is for a non-empty
   * alphanumeric string whose decoded significant bytes fit in the envelope, and whose
   * normalised envelope carries a valid id and matches the tag of each truthy key.
   */
  function Validation(p: Primitives, v: Validator, value: Input): (ok: bool)
    ensures ok ==> value.Str? && ReLax(value.text)
    ensures ok ==> |DropLeading(p.decodeBin(value.text), 0)| <= ALL_SIZE
    ensures ok <==>
              value.Str? && ReLax(value.text) && Normalize(p.decodeBin(value.text)).Some? &&
              var buffer := Normalize(p.decodeBin(value.text)).value;
              p.idValid(ReadBigUInt64BE(buffer)) &&
              (Truthy(v.verifyKey) ==> VerifyTagMatches(p.hmac, v.verifyKey, buffer)) &&
              (Truthy(v.signKey) ==> SignTagMatches(p.hmac, v.signKey, buffer))
  {
    Check(p, v, value) == Accept
  }

  /** Two decoded buffers with the same significant bytes get the same verdict. */
  lemma CheckDecodedSeesOnlySignificantBytes(p: Primitives, v: Validator, d1: seq<byte>, d2: seq<byte>)
    requires DropLeading(d1, 0) == DropLeading(d2, 0)
    ensures CheckDecoded(p, v, d1) == CheckDecoded(p, v, d2)
  {
  }

  /**
   * Leading zero-equivalent characters: prefixing an alphanumeric ident with characters
   * that decode to nothing but leading zero bytes leaves the verdict unchanged.
   */
  lemma ZeroPrefixValidatesAlike(p: Primitives, v: Validator, prefix: string, text: string)
    requires forall i :: 0 <= i < |prefix| ==> IsAsciiAlphanumeric(prefix[i])
    requires ReLax(text)
    requires DropLeading(p.decodeBin(prefix + text), 0) == DropLeading(p.decodeBin(text), 0)
    ensures Validation(p, v, Str(prefix + text)) == Validation(p, v, Str(text))
  {
    var whole := prefix + text;
    assert ReLax(whole) by {
      forall i | 0 <= i < |whole| ensures IsAsciiAlphanumeric(whole[i]) {
        if i >= |prefix| {
          assert whole[i] == text[i - |prefix|];
        }
      }
    }
    CheckDecodedSeesOnlySignificantBytes(p, v, p.decodeBin(whole), p.decodeBin(text));
  }

  /**
   * An encoded ident has no leading '0' and, under the codec contract, only Base32H digits;
   * so it matches re_strict once it has two characters, which every ident of a nonzero id has.
   */
  lemma IdentShape(p: Primitives, verifyKey: Key, signKey: Key, id: u64, rnd: seq<byte>)
    requires Base32HContract(p)
    ensures Ident(p, verifyKey, signKey, id, rnd) == [] || Ident(p, verifyKey, signKey, id, rnd)[0] != '0'
    ensures IsBase32H(Ident(p, verifyKey, signKey, id, rnd))
    ensures |Ident(p, verifyKey, signKey, id, rnd)| >= 2 ==> ReStrict(Ident(p, verifyKey, signKey, id, rnd))
    ensures id != 0 ==> ReStrict(Ident(p, verifyKey, signKey, id, rnd))
  {
    var encoded := p.encodeBin(Assemble(p.hmac, verifyKey, signKey, id, rnd));
    var ident := Ident(p, verifyKey, signKey, id, rnd);
    DropLeadingSpec(encoded, '0');
    assert IsBase32H(encoded);
    assert ident == encoded[|encoded| - |ident|..];
    forall i | 0 <= i < |ident| ensures ident[i] in BASE32H_DIGITS {
      assert ident[i] == encoded[|encoded| - |ident| + i];
    }
    if |ident| >= 1 {
      NonzeroBase32HDigit(ident[0]);
    }
    if id != 0 {
      NonzeroIdIsSignificant(p.hmac, verifyKey, signKey, id, rnd);
      assert |DropLeading(p.decodeBin(ident), 0)| <= |ident|;
    }
  }

  /** A Base32H digit other than '0' is one re_strict allows first. */
  lemma NonzeroBase32HDigit(c: char)
    requires c in BASE32H_DIGITS && c != '0'
    ensures c in BASE32H_NONZERO_DIGITS
  {
    var i :| 0 <= i < |BASE32H_DIGITS| && BASE32H_DIGITS[i] == c;
    assert i > 0 && BASE32H_NONZERO_DIGITS[i - 1] == BASE32H_DIGITS[i];
  }

  /**
   * Under the codec contract, the ident of an envelope that is not all zero bytes is not
   * empty: the empty text decodes to no bytes at all.
   */
  lemma IdentNotEmpty(p: Primitives, verifyKey: Key, signKey: Key, id: u64, rnd: seq<byte>)
    requires Base32HContract(p)
    requires DropLeading(Assemble(p.hmac, verifyKey, signKey, id, rnd), 0) != []
    ensures Ident(p, verifyKey, signKey, id, rnd) != []
  {
  }

  /**
   * Round trip: an ident generated for a valid id, in an envelope that is not all zero
   * bytes, passes every validator whose truthy keys are the keys it was generated with,
   * whatever the random bytes.
   */
  lemma {:induction false} GeneratedIdentValidates(
    p: Primitives, verifyKey: Key, signKey: Key, id: u64, rnd: seq<byte>, v: Validator)
    requires Base32HContract(p)
    requires p.idValid(id) && DropLeading(Assemble(p.hmac, verifyKey, signKey, id, rnd), 0) != []
    requires Truthy(v.verifyKey) ==> v.verifyKey == verifyKey
    requires Truthy(v.signKey) ==> v.signKey == signKey
    ensures Validation(p, v, Str(Ident(p, verifyKey, signKey, id, rnd)))
  {
    var buffer := Assemble(p.hmac, verifyKey, signKey, id, rnd);
    var ident := Ident(p, verifyKey, signKey, id, rnd);
    IdentNotEmpty(p, verifyKey, signKey, id, rnd);
    IdentShape(p, verifyKey, signKey, id, rnd);
    forall i | 0 <= i < |ident| ensures IsAsciiAlphanumeric(ident[i]) {
      Base32HDigitsAreAlphanumeric(ident[i]);
    }
    assert ReLax(ident);
    assert DropLeading(p.decodeBin(ident), 0) == DropLeading(buffer, 0);
    NormalizeKeepsEnvelope(buffer);
    CheckDecodedSeesOnlySignificantBytes(p, v, p.decodeBin(ident), buffer);
  }

  /**
   * Sign-tag tampering: a validator with a truthy signKey rejects any input that decodes to
   * an envelope built with that signKey with its sign field changed and nothing else.
   */
  lemma TamperedSignRejected(
    p: Primitives, v: Validator, verifyKey: Key, id: u64, rnd: seq<byte>, text: string, tampered: seq<byte>)
    requires Truthy(v.signKey)
    requires Normalize(p.decodeBin(text)) == Some(tampered)
    requires tampered[..SIGN_OFFSET] == Assemble(p.hmac, verifyKey, v.signKey, id, rnd)[..SIGN_OFFSET]
    requires tampered[SIGN_OFFSET..] != Assemble(p.hmac, verifyKey, v.signKey, id, rnd)[SIGN_OFFSET..]
    ensures !Validation(p, v, Str(text))
  {
    assert tampered[..VERIFY_OFFSET] == tampered[..SIGN_OFFSET][..VERIFY_OFFSET];
    TagTamperDetected(p.hmac, verifyKey, v.signKey, id, rnd, tampered);
  }

  /**
   * A validator from validationSignFactory rejects a forged sign field; one from
   * validationBothFactory accepts an envelope only when both of its tags match.
   */
  lemma FactoryValidatorsCheckTheirKeys(p: Primitives, options: Option<IdentOptions>, buffer: seq<byte>)
    requires |buffer| == ALL_SIZE
    ensures ValidationSignFactory(options).Success? && !SignTagMatches(p.hmac, options.value.signKey, buffer)
            ==> CheckEnvelope(p, ValidationSignFactory(options).value, buffer) != Accept
    ensures ValidationVerifyFactory(options).Success? && !VerifyTagMatches(p.hmac, options.value.verifyKey, buffer)
            ==> CheckEnvelope(p, ValidationVerifyFactory(options).value, buffer) != Accept
    ensures ValidationBothFactory(options).Success? && CheckEnvelope(p, ValidationBothFactory(options).value, buffer) == Accept
            ==> VerifyTagMatches(p.hmac, options.value.verifyKey, buffer) && SignTagMatches(p.hmac, options.value.signKey, buffer)
  {
  }

  /**
   * With no truthy key the validator accepts exactly the alphanumeric strings whose
   * normalised decoding carries a valid id: neither tag is looked at.
   */
  lemma KeylessValidatorChecksOnlyTheId(p: Primitives, v: Validator, text: string)
    requires !Truthy(v.verifyKey) && !Truthy(v.signKey)
    ensures Validation(p, v, Str(text)) <==>
              ReLax(text) && Normalize(p.decodeBin(text)).Some? &&
              p.idValid(ReadBigUInt64BE(Normalize(p.decodeBin(text)).value))
  {
  }
}

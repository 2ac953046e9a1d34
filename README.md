# ident envelope protocol — a Dafny model

This project models the core of `@theroyalwhee0/ident`. The library makes short, opaque,
tamper-evident public identifiers, called idents. An ident is a 22-byte envelope written in
Base32H text:

- bytes 0..7: a 64-bit snowman id, big-endian;
- bytes 8..15: random padding;
- bytes 16..17: the first 2 bytes of HMAC-SHA-256(verifyKey, bytes 0..15), the verify tag;
- bytes 18..21: the first 4 bytes of HMAC-SHA-256(signKey, bytes 0..17), the sign tag.

The generator strips the leading `'0'` characters from the Base32H text. The validator does
the reverse and then checks the envelope. It decodes, drops leading zero bytes and pads back
to 22 bytes. It then checks the id, and each tag whose key is truthy.

`src/index.js` and `src/constants.js` are the CommonJS forms of `src/index.ts` and
`src/constants.ts`, and they behave the same. The one difference is that the id check calls
snowman's `explode` instead of `explodeId`. Line correspondences:

- `buildOptions`: index.ts:47-55 and index.js:29-37
- `identGenerator`: index.ts:69-99 and index.js:42-72
- `leftTrimBuffer`: index.ts:108-116 and index.js:77-85
- `validationFactory`: index.ts:127-173 and index.js:92-138
- the three policy factories: index.ts:181-216 and index.js:145-177

The model has these modules:

- `Bytes` (bytes.dfy): bytes, `u64`, big-endian conversion, and `DropLeading`, which is the
  specification of `leftTrimBuffer`. It also holds `LeftTrimBuffer`, the index loop itself,
  proved against `DropLeading`.
- `Constants` (constants.dfy): the field sizes and offsets, `HMAC_ALGO`, and the two regular
  expressions as predicates.
- `Envelope` (envelope.dfy):
  - the collaborators, as function-valued fields of `Primitives`;
  - `Assemble`, the declarative layout;
  - the two tag predicates;
  - `Normalize`, the validator's trim/pad step;
  - `Ident`, the text form;
  - `Base32HContract`, the codec round trip the model assumes and does not prove.
- `Options` (options.dfy): the options object and `buildOptions`.
- `Validation` (validation.dfy): the validation predicate, the policy factories, and the
  protocol lemmas (round trip, tamper detection, leading-zero insensitivity).
- `Generator` (generator.dfy): the generator as a class. Its `Next` fills a zero-filled
  `array<byte>` in place, as the source fills its `Buffer`. It is proved to produce exactly
  `Assemble`'s bytes.

The collaborators are parameters, not code. They are HMAC-SHA-256 (RFC 2104 over FIPS 180-4
SHA-256), `crypto.randomBytes`, Base32H `encodeBin`/`decodeBin`, and snowman's `idSequence`
and `explodeId`:

- HMAC is any function from a key and a message to a 32-byte digest.
- The random bytes of one `next()` call are a parameter of `Next`.
- The id sequence is an `IdSequence` object holding the ids it has left to give.
- The id validity flag is any predicate on `u64`.

The validator in the source returns a boolean. The model's `Check` returns a `Verdict` that
also names the first check that failed, so that the order of the checks can be stated.
`Validation` is `Check(...) == Accept`.

The model follows the code in these details:

- The generator strips only literal `'0'` characters from the front of the text (`/^0+/`);
  other Base32H symbols that also decode to zero stay.
- An undefined `verifyKey` or `signKey` at generation reaches `crypto.createHmac`, which
  throws a TypeError (code `ERR_INVALID_ARG_TYPE`); the id has been consumed by then, and the
  generator is finished. An empty string key is accepted by HMAC.
- The validator has no separate parse step. It checks the length inline and reads the
  fields by offset.

## Model

| member | source | states |
|---|---|---|
| Bytes.LeftTrimBuffer | src/index.ts:108-116 | the loop's result is `DropLeading(buffer, trim)`, and it is the input itself when the first byte already differs from the trim byte |
| Bytes.DropLeadingSpec | src/index.js:77-85 | what leftTrimBuffer keeps is a suffix of its input, every dropped byte equals the trim byte, and the result is empty or starts with a different byte |
| Bytes.DropLeading | src/index.ts:108-116 | trimming never lengthens the buffer |
| Bytes.DropLeadingUnique | src/index.ts:110-115 | the suffix starting at the first index whose byte differs (or at the end) is exactly what trimming returns |
| Bytes.DropLeadingPrefixed | src/index.ts:134 | extra leading trim bytes never change the trimmed result |
| Bytes.RestoreLeading | src/index.ts:135-137 | putting back as many trim bytes as were dropped restores the input |
| Bytes.DropLeadingEmpty | src/index.ts:134 | trimming leaves nothing exactly when every byte is the trim byte |
| Bytes.ToBE | src/index.ts:81 | the big-endian form of a value at width n has exactly n bytes |
| Bytes.FromBE | src/index.ts:142 | the value read from n big-endian bytes is below 256^n |
| Bytes.FromBEToBE | src/index.ts:81 | reading back the big-endian bytes written for a value that fits gives the same value |
| Bytes.ToBEFromBE | src/index.ts:142 | writing back the value read from a byte string, at the same width, gives the same bytes |
| Bytes.ToBEInjective | src/index.js:54 | two u64 ids with the same 8 big-endian bytes are equal |
| Constants.Layout | src/constants.js:18-22 | ALL_SIZE is 8+8+2+4 = 22; the fields are contiguous from offset 0 to ALL_SIZE, every byte lies in exactly one field, and both tag sizes fit in the 32-byte SHA-256 digest of HMAC_ALGO 'sha256' |
| Constants.FieldAt | src/constants.ts:18-22 | every byte position below ALL_SIZE lies inside the range of the field assigned to it |
| Constants.StrictIsLax | src/constants.ts:28-29 | every string re_strict accepts is accepted by re_lax, never starts with '0', and holds no I, O, S or U |
| Constants.Base32HDigitsAreAlphanumeric | src/constants.js:28-29 | every character of re_strict's class is in re_lax's class and is not I, O, S or U |
| Constants.ReLax | src/constants.ts:29 | `re_lax`: a non-empty string of ASCII letters and digits |
| Constants.ReStrict | src/constants.ts:28 | `re_strict`: a Base32H digit other than '0' followed by one or more Base32H digits |
| Envelope.ReadBigUInt64BE | src/index.ts:142 | the id read from a buffer is the u64 whose 8 big-endian bytes are the buffer's first 8 bytes |
| Envelope.Truthy | src/index.ts:153-162 | a key takes part in validation exactly when it is neither undefined nor the empty string, as `if(verifyKey)` and `if(signKey)` decide |
| Envelope.RandomField | src/index.ts:83-84 | the random field is 8 bytes: the provider's bytes where it supplied them, zero where its output was shorter |
| Envelope.VerifyTagMatches | src/index.ts:153-161 | the verify tag matches exactly when each of bytes 16..17 equals the corresponding byte of HMAC(key, bytes 0..15), as timingSafeEqual compares them |
| Envelope.SignTagMatches | src/index.ts:162-170 | the sign tag matches exactly when each of bytes 18..21 equals the corresponding byte of HMAC(key, bytes 0..17) |
| Envelope.Assemble | src/index.ts:75-94 | the envelope is 22 bytes; its first 8 bytes read back as the id; bytes 8..15 are the random field; the verify tag matches HMAC(verifyKey, bytes 0..15) and the sign tag matches HMAC(signKey, bytes 0..17), so the sign tag covers the verify bytes |
| Envelope.NonzeroIdIsSignificant | src/index.ts:81 | an envelope of a nonzero id keeps more than 14 bytes after its leading zero bytes are trimmed |
| Envelope.TagTamperDetected | src/index.ts:153-170 | with the bytes before it unchanged, a changed verify field fails the verify check under the building verify key, and a changed sign field fails the sign check under the building sign key |
| Envelope.Normalize | src/index.ts:134-140 | normalisation succeeds exactly when the trimmed decode has at most 22 bytes; the result then has exactly 22 bytes and the same significant bytes as the decode |
| Envelope.NormalizeKeepsEnvelope | src/index.js:99-105 | a 22-byte buffer, leading zero bytes and all, normalises to itself |
| Envelope.NormalizeIgnoresLeadingZeros | src/index.ts:134-137 | leading zero bytes in the decoded buffer do not change the normalised buffer |
| Envelope.NormalizeIdempotent | src/index.ts:134-140 | normalising an already normalised buffer changes nothing |
| Envelope.StripLeadingZeros | src/index.ts:96 | the stripped text is empty or does not start with '0' |
| Envelope.Ident | src/index.ts:96 | the yielded ident has no leading '0', and under the codec contract decodes to the envelope's bytes up to leading zero bytes |
| Envelope.Base32HContract | src/index.ts:134 | the assumed codec behaviour: encodeBin writes Base32H digits, decoding a stripped encoding gives back the envelope up to leading zero bytes, '' decodes to no bytes, and a text decodes to at most as many significant bytes as it has characters |
| Envelope.IdentDeterminesEnvelope | src/index.ts:75-96 | under the codec contract, equal idents come from equal envelopes, so idents of different ids differ |
| Options.BuildOptions | src/index.ts:47-55 | the caller's keys and node are kept; a caller's random source replaces crypto.randomBytes; idOptions is the caller's (or empty) with node set when given and every other setting unchanged |
| Validation.ValidationFactory | src/index.ts:127-129 | the validator holds exactly the caller's verifyKey and signKey, and holds none when there are no options |
| Validation.ValidationSignFactory | src/index.ts:181-186 | fails with "signKey is required." exactly when the options or their signKey are missing or falsy; otherwise it is validationFactory's validator, whose signKey is truthy |
| Validation.ValidationVerifyFactory | src/index.js:157-162 | fails with "verifyKey is required." exactly when the options or their verifyKey are missing or falsy; otherwise it is validationFactory's validator, whose verifyKey is truthy |
| Validation.ValidationBothFactory | src/index.ts:208-216 | succeeds exactly when both keys are truthy; reports the signKey error when signKey is missing, whether or not verifyKey is, and the verifyKey error otherwise |
| Validation.CheckEnvelope | src/index.ts:141-171 | accepts exactly when the id is valid and each tag whose key is truthy matches; rejects for the id exactly when the id is invalid, for the verify tag exactly when the id is valid and a truthy verifyKey's tag does not match, and for the sign tag exactly when both earlier checks pass and a truthy signKey's tag does not match |
| Validation.CheckDecoded | src/index.ts:134-140 | rejects for length exactly when the trimmed decode is longer than 22 bytes |
| Validation.Check | src/index.ts:130-133 | rejects at the first check, before decoding, exactly the non-strings and the strings that are empty or hold a character outside [0-9A-Za-z] |
| Validation.Validation | src/index.ts:130-172 | true exactly for a non-empty alphanumeric string whose trimmed decode fits in 22 bytes and whose normalised envelope has a valid id and matches the tag of each truthy key |
| Validation.CheckDecodedSeesOnlySignificantBytes | src/index.ts:134-140 | two decodes that agree after trimming leading zero bytes get the same verdict |
| Validation.ZeroPrefixValidatesAlike | src/index.ts:131-140 | prefixing an alphanumeric ident with characters that decode to leading zero bytes does not change the verdict |
| Validation.IdentShape | src/index.ts:96 | under the codec contract, an ident has no leading '0', consists of Base32H digits, matches re_strict when it has at least 2 characters, and always matches re_strict when its id is not 0 |
| Validation.NonzeroBase32HDigit | src/constants.ts:28 | a Base32H digit other than '0' is one that re_strict allows first |
| Validation.IdentNotEmpty | src/index.ts:96 | under the codec contract, the ident of an envelope that is not all zero bytes is not empty |
| Validation.GeneratedIdentValidates | src/index.ts:75-171 | under the codec contract, an ident generated for a valid id in an envelope that is not all zero bytes passes every validator whose truthy keys are the keys it was generated with |
| Validation.TamperedSignRejected | src/index.ts:162-170 | a validator with a truthy signKey rejects input that decodes to an envelope built with that key with only its sign field changed |
| Validation.FactoryValidatorsCheckTheirKeys | src/index.ts:181-216 | a sign-factory validator rejects a bad sign tag, a verify-factory validator rejects a bad verify tag, and a both-factory validator accepts only when both tags match |
| Validation.KeylessValidatorChecksOnlyTheId | src/index.ts:153-171 | with neither key truthy, validation accepts exactly the alphanumeric strings that normalise to a buffer with a valid id |
| Generator.WriteBigUInt64BE | src/index.js:54 | the 8 big-endian bytes of the id are written at the offset, and nothing else in the buffer changes |
| Generator.CopyBytes | src/index.js:57 | copies min(sourceEnd, source length, room in target) bytes from the front of the source to the target offset, and leaves the rest of the target unchanged |
| Generator.RandomFieldIsCopy | src/index.ts:84 | copying the provider's bytes into the zero-filled random field gives the random field |
| Generator.IdSequence.Next | src/index.js:50-53 | the sequence gives its next id and moves past it, or reports done when it has none left |
| Generator.IdentGenerator.constructor | src/index.ts:69-72 | the generator uses the caller's keys, the built idOptions and the built random source |
| Generator.IdentGenerator.Next | src/index.ts:73-98 | when the id sequence is done, throws "id sequence should never be done." and is finished afterwards; otherwise consumes one id; with an undefined verifyKey or signKey it throws the TypeError of createHmac and is finished; with both keys defined it yields the ident of `Assemble` for that id and the random bytes, built in place in a zero-filled buffer |

## Left out

- HMAC-SHA-256 (RFC 2104, FIPS 180-4), `crypto.randomBytes`, Base32H `encodeBin`/`decodeBin` and snowman's `idSequence`/`explodeId` are foreign code. They are parameters with no behaviour beyond their types: HMAC returns 32 bytes, and the id check is any predicate.
- The Base32H round trip, that decoding the stripped encoding gives back the envelope up to leading zero bytes, and the bound of at most one significant byte per character, are assumptions (`Envelope.Base32HContract`) and are not proved.
- `crypto.timingSafeEqual` is plain sequence equality. Its constant-time behaviour cannot be expressed. The compared slices always have equal length, so its length exception cannot occur.
- Rejection of an ident under a wrong key, and the cryptographic meaning of the sign tag covering the verify bytes, depend on the collision resistance of HMAC. They cannot be stated of an abstract function. The model proves only the structural facts (`Envelope.Assemble`, `Envelope.TagTamperDetected`).
- No two of thousands of consecutive idents repeat. This depends on snowman never repeating an id. The model proves only that equal idents have equal ids (`Envelope.IdentDeterminesEnvelope`).
- The exact literal idents in the tests depend on real SHA-256 and Base32H output.
- test/index.js exercises an older API whose implementation is not part of this model.
- Generator.IdentGenerator.Next: the TypeError of `createHmac` is represented by its code `ERR_INVALID_ARG_TYPE`, not by Node's message text. An exception from a caller-supplied random source is not modelled.
- Generator.IdentGenerator.constructor: options are built when the generator is made. The JavaScript generator body, which builds them, first runs on the first `next()`. That suspension is not modelled.
- Options.BuildOptions: options are values, so the fresh-object copy of `idOptions` (no aliasing with the caller's object) is implicit. Properties set explicitly to `undefined` count as absent.
- Validation.GeneratedIdentValidates: requires an envelope that is not all zero bytes, which every nonzero id gives (`Envelope.NonzeroIdIsSignificant`). An all-zero envelope need not encode to a non-empty ident, and re_lax rejects the empty string.
- `isString` becomes the `Input` datatype, which separates strings from every other JavaScript value.
- The snowman id stream is infinite. The model holds the finite list of ids it still has to give before it reports done.

/**
 * The ident generator: each call of next() pulls an id from the snowman id sequence, fills
 * a zero-filled ALL_SIZE buffer in place (the id big-endian, the random bytes, the verify
 * tag, the sign tag), and yields the buffer's Base32H text with its leading '0's stripped.
 */
module Generator {
  import opened Wrappers
  import opened Bytes
  import opened Constants
  import opened Envelope
  import opened Options

  /** One answer of the id sequence's next(): an id, or done. */
  datatype IdStep = Value(id: u64) | Done

  /**
   * The snowman id sequence seen from outside: the ids it still has to give, after which
   * it reports done (which a correct sequence never does).
   */
  class IdSequence {
    var pending: seq<u64>

    constructor (ids: seq<u64>)
      ensures pending == ids
    {
      pending := ids;
    }

    /** Gives the next id, or Done once none is left. */
    method Next() returns (step: IdStep)
      modifies this
      ensures old(pending) == [] ==> step == Done && pending == []
      ensures old(pending) != [] ==> step == Value(old(pending)[0]) && pending == old(pending)[1..]
    {
      if pending == [] {
        step := Done;
      } else {
        step := Value(pending[0]);
        pending := pending[1..];
      }
    }
  }

  /**
   * buffer.writeBigUInt64BE(value, offset): the 8 big-endian bytes of value go to
   * [offset, offset + 8) and nothing else in the buffer changes.
   */
  method WriteBigUInt64BE(buffer: array<byte>, value: u64, offset: nat)
    requires offset + ID_SIZE <= buffer.Length
    modifies buffer
    ensures buffer[..] == old(buffer[..offset]) + ToBE(value, ID_SIZE) + old(buffer[offset + ID_SIZE..])
  {
    var bytes := ToBE(value, ID_SIZE);
    forall i | offset <= i < offset + ID_SIZE {
      buffer[i] := bytes[i - offset];
    }
    assert buffer[..] == old(buffer[..offset]) + bytes + old(buffer[offset + ID_SIZE..]);
  }

  /**
   * source.copy(target, targetStart, 0, sourceEnd): copies as many bytes from the front of
   * source as are there (up to sourceEnd) and as fit after targetStart, returns how many,
   * and leaves the rest of target as it was.
   */
  method CopyBytes(source: seq<byte>, target: array<byte>, targetStart: nat, sourceEnd: nat) returns (copied: nat)
    requires targetStart <= target.Length
    modifies target
    ensures copied == Min(Min(sourceEnd, |source|), target.Length - targetStart)
    ensures target[..] == old(target[..targetStart]) + source[..copied] + old(target[targetStart + copied..])
  {
    copied := Min(Min(sourceEnd, |source|), target.Length - targetStart);
    forall i | targetStart <= i < targetStart + copied {
      target[i] := source[i - targetStart];
    }
    assert target[..] == old(target[..targetStart]) + source[..copied] + old(target[targetStart + copied..]);
  }

  /** Copying min(RND_SIZE, |rnd|) bytes of rnd into zeros leaves the random field. */
  lemma RandomFieldIsCopy(rnd: seq<byte>, n: nat)
    requires n == Min(Min(RND_SIZE, |rnd|), ALL_SIZE - ID_SIZE)
    ensures rnd[..n] + Zeros(RND_SIZE - n) == RandomField(rnd)
  {
  }

  function Min(a: int, b: int): int {
    if a <= b then a else b
  }

  /** What a call of the generator's next() gives: an ident, the error it throws, or done. */
  datatype GeneratorStep = Yield(ident: string) | Throw(message: string) | Finished

  const ID_SEQUENCE_DONE: string := "id sequence should never be done."

  /** The code of the TypeError Node's crypto.createHmac throws for an undefined key. */
  const ERR_INVALID_ARG_TYPE: string := "ERR_INVALID_ARG_TYPE"

  /** identGenerator(options): the generator object and the id sequence it pulls from. */
  class IdentGenerator {
    const p: Primitives
    const verifyKey: Key
    const signKey: Key
    /** The settings handed to snowman's idSequence, and the random source used. */
    const idOptions: map<string, Setting>
    const getRandomBytes: RandomSource
    const ids: IdSequence
    /** Set once the generator has thrown; a finished generator only reports done. */
    var finished: bool

    /** Builds the options; `ids` is the sequence idSequence returns for `idOptions`. */
    constructor (p: Primitives, options: IdentOptions, ids: IdSequence)
      ensures this.p == p && this.ids == ids && !finished
      ensures verifyKey == options.verifyKey && signKey == options.signKey
      ensures idOptions == BuildOptions(Some(options)).idOptions
      ensures getRandomBytes == BuildOptions(Some(options)).getRandomBytes
    {
      var built := BuildOptions(Some(options));
      this.p := p;
      verifyKey, signKey := built.verifyKey, built.signKey;
      idOptions, getRandomBytes := built.idOptions, built.getRandomBytes;
      this.ids := ids;
      finished := false;
    }

    /**
     * next(), where `rnd` is what getRandomBytes(RND_SIZE) returns on this call. Pulls one
     * id: when the sequence is done it throws and the generator is finished. Otherwise the id
     * is consumed; an undefined verifyKey, and then an undefined signKey, makes createHmac
     * throw and finishes the generator; with both keys defined it yields the ident of the
     * envelope for that id and those random bytes.
     */
    method Next(rnd: seq<byte>) returns (step: GeneratorStep)
      modifies this, ids
      ensures old(finished) ==> step == Finished && finished && ids.pending == old(ids.pending)
      ensures !old(finished) && old(ids.pending) == [] ==>
                step == Throw(ID_SEQUENCE_DONE) && finished && ids.pending == []
      ensures !old(finished) && old(ids.pending) != [] ==> ids.pending == old(ids.pending)[1..]
      ensures !old(finished) && old(ids.pending) != [] && (verifyKey.None? || signKey.None?) ==>
                step == Throw(ERR_INVALID_ARG_TYPE) && finished
      ensures !old(finished) && old(ids.pending) != [] && verifyKey.Some? && signKey.Some? ==>
                step == Yield(Ident(p, verifyKey, signKey, old(ids.pending)[0], rnd)) && !finished
    {
      if finished {
        return Finished;
      }
      var buffer := new byte[ALL_SIZE](_ => 0);
      var next := ids.Next();
      if next.Done? {
        finished := true;
        return Throw(ID_SEQUENCE_DONE);
      }
      var id := next.id;
      WriteBigUInt64BE(buffer, id, 0);
      assert buffer[..] == ToBE(id, ID_SIZE) + Zeros(ALL_SIZE - ID_SIZE);
      var n := CopyBytes(rnd, buffer, ID_SIZE, RND_SIZE);
      ghost var head := ToBE(id, ID_SIZE) + RandomField(rnd);
      RandomFieldIsCopy(rnd, n);
      assert buffer[..] == head + Zeros(VERIFY_SIZE + SIGN_SIZE);
      if verifyKey.None? {
        finished := true;
        return Throw(ERR_INVALID_ARG_TYPE);
      }
      var verify := p.hmac(verifyKey, buffer[..ID_SIZE + RND_SIZE]);
      assert buffer[..ID_SIZE + RND_SIZE] == head;
      var _ := CopyBytes(verify, buffer, ID_SIZE + RND_SIZE, VERIFY_SIZE);
      ghost var verified := head + verify[..VERIFY_SIZE];
      assert buffer[..] == verified + Zeros(SIGN_SIZE);
      if signKey.None? {
        finished := true;
        return Throw(ERR_INVALID_ARG_TYPE);
      }
      var sign := p.hmac(signKey, buffer[..ID_SIZE + RND_SIZE + VERIFY_SIZE]);
      assert buffer[..ID_SIZE + RND_SIZE + VERIFY_SIZE] == verified;
      var _ := CopyBytes(sign, buffer, ID_SIZE + RND_SIZE + VERIFY_SIZE, SIGN_SIZE);
      assert buffer[..] == verified + sign[..SIGN_SIZE];
      assert buffer[..] == Assemble(p.hmac, verifyKey, signKey, id, rnd);
      step := Yield(StripLeadingZeros(p.encodeBin(buffer[..])));
    }
  }
}

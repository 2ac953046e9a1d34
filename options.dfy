/**
 * The options object shared by the generator and the validators, and buildOptions, which
 * layers the caller's options over the defaults and gives the id sequence its own copy of
 * `idOptions` with `node` filled in.
 */
module Options {
  import opened Wrappers
  import opened Envelope

  /** A value in snowman's options object: a number, or a function such as getTimestamp. */
  datatype Setting = Number(n: int) | Callback(name: string)

  /** Where random bytes come from: crypto.randomBytes, or a function the caller supplied. */
  datatype RandomSource = CryptoRandomBytes | CustomRandomBytes(name: string)

  /** The options a caller passes; None is a property the caller left out. */
  datatype IdentOptions = IdentOptions(
    signKey: Key,
    verifyKey: Key,
    node: Option<int>,
    idOptions: Option<map<string, Setting>>,
    getRandomBytes: Option<RandomSource>)

  /** The options after buildOptions: a random source and an idOptions object are always present. */
  datatype BuiltOptions = BuiltOptions(
    signKey: Key,
    verifyKey: Key,
    node: Option<int>,
    idOptions: map<string, Setting>,
    getRandomBytes: RandomSource)

  /** The caller's options object, or {} when there is none (Object.assign skips undefined). */
  function Given(options: Option<IdentOptions>): IdentOptions {
    match options
    case None => IdentOptions(None, None, None, None, None)
    case Some(o) => o
  }

  /**
   * buildOptions: the caller's keys and node are kept; the caller's random source replaces
   * the default crypto.randomBytes; idOptions is the caller's (or empty) with "node" set to
   * the caller's node when one is given, and every other setting left as the caller gave it.
   */
  function BuildOptions(options: Option<IdentOptions>): (built: BuiltOptions)
    ensures built.signKey == Given(options).signKey && built.verifyKey == Given(options).verifyKey
    ensures built.node == Given(options).node
    ensures built.getRandomBytes ==
              if Given(options).getRandomBytes.Some? then Given(options).getRandomBytes.value else CryptoRandomBytes
    ensures built.node.Some? ==> "node" in built.idOptions && built.idOptions["node"] == Number(built.node.value)
    ensures forall name :: name != "node" ==>
              (name in built.idOptions <==> Given(options).idOptions.Some? && name in Given(options).idOptions.value)
    ensures forall name :: name != "node" && name in built.idOptions ==>
              built.idOptions[name] == Given(options).idOptions.value[name]
    ensures built.node.None? ==> built.idOptions == if Given(options).idOptions.Some? then Given(options).idOptions.value else map[]
  {
    var o := Given(options);
    var idOptions := if o.idOptions.Some? then o.idOptions.value else map[];
    var random := if o.getRandomBytes.Some? then o.getRandomBytes.value else CryptoRandomBytes;
    BuiltOptions(
      o.signKey, o.verifyKey, o.node,
      if o.node.Some? then idOptions["node" := Number(o.node.value)] else idOptions,
      random)
  }
}

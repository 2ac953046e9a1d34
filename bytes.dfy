/**
 * Bytes, unsigned 64-bit integers, big-endian conversion and left trimming:
 * the byte-level vocabulary the envelope is built from.
 */
module Bytes {

  /** A byte of a Node.js Buffer. */
  type byte = x: int | 0 <= x < 256

  /** An unsigned 64-bit integer (a BigInt written by writeBigUInt64BE). */
  type u64 = x: int | 0 <= x < 0x1_0000_0000_0000_0000

  /** 256 to the power n: the number of values an n-byte big-endian field can hold. */
  function Pow256(n: nat): (r: nat)
    ensures r > 0
  {
    if n == 0 then 1 else 256 * Pow256(n - 1)
  }

  /** n copies of x. */
  function Repeat<T>(x: T, n: nat): (r: seq<T>)
    ensures |r| == n && forall i :: 0 <= i < n ==> r[i] == x
  {
    seq(n, _ => x)
  }

  /** A zero-filled buffer of n bytes, as Buffer.alloc(n, 0) makes. */
  function Zeros(n: nat): (r: seq<byte>)
    ensures |r| == n && forall i :: 0 <= i < n ==> r[i] == 0
  {
    Repeat(0, n)
  }

  /** The low n bytes of v, most significant first. */
  function ToBE(v: nat, n: nat): (r: seq<byte>)
    ensures |r| == n
  {
    if n == 0 then [] else ToBE(v / 256, n - 1) + [v % 256]
  }

  /** The number whose big-endian bytes are s. */
  function FromBE(s: seq<byte>): (r: nat)
    ensures r < Pow256(|s|)
  {
    if s == [] then 0 else FromBE(s[..|s| - 1]) * 256 + s[|s| - 1]
  }

  /** Reading back n big-endian bytes gives the value written, when it fits in n bytes. */
  lemma {:induction false} FromBEToBE(v: nat, n: nat)
    requires v < Pow256(n)
    ensures FromBE(ToBE(v, n)) == v
  {
    if n > 0 {
      var s := ToBE(v, n);
      assert s[..n - 1] == ToBE(v / 256, n - 1);
      FromBEToBE(v / 256, n - 1);
    }
  }

  /** Writing back the value of a byte string, at its own width, gives the same bytes. */
  lemma {:induction false} ToBEFromBE(s: seq<byte>)
    ensures ToBE(FromBE(s), |s|) == s
  {
    if s != [] {
      var front, last := s[..|s| - 1], s[|s| - 1];
      ToBEFromBE(front);
      var v := FromBE(s);
      assert v == FromBE(front) * 256 + last;
      assert v / 256 == FromBE(front) && v % 256 == last;
      assert s == front + [last];
    }
  }

  /** Two u64 values with the same 8 big-endian bytes are equal. */
  lemma ToBEInjective(a: u64, b: u64)
    requires ToBE(a, 8) == ToBE(b, 8)
    ensures a == b
  {
    FromBEToBE(a, 8);
    FromBEToBE(b, 8);
  }

  /** s with every leading occurrence of x removed. */
  function DropLeading<T(==)>(s: seq<T>, x: T): (r: seq<T>)
    ensures |r| <= |s|
  {
    if |s| > 0 && s[0] == x then DropLeading(s[1..], x) else s
  }

  /**
   * What DropLeading keeps is a suffix of s, everything it drops equals x, and what
   * remains does not start with x.
   */
  lemma {:induction false} DropLeadingSpec<T>(s: seq<T>, x: T)
    ensures DropLeading(s, x) == s[|s| - |DropLeading(s, x)|..]
    ensures forall i :: 0 <= i < |s| - |DropLeading(s, x)| ==> s[i] == x
    ensures DropLeading(s, x) == [] || DropLeading(s, x)[0] != x
  {
    if |s| > 0 && s[0] == x {
      DropLeadingSpec(s[1..], x);
    }
  }

  /** Any suffix that drops only x's and does not start with x is the one DropLeading returns. */
  lemma {:induction false} DropLeadingUnique<T>(s: seq<T>, x: T, k: nat)
    requires k <= |s|
    requires forall i :: 0 <= i < k ==> s[i] == x
    requires k == |s| || s[k] != x
    ensures DropLeading(s, x) == s[k..]
  {
    if k > 0 {
      DropLeadingUnique(s[1..], x, k - 1);
      assert s[1..][k - 1..] == s[k..];
    }
  }

  /** Prepending copies of x never changes what DropLeading keeps. */
  lemma {:induction false} DropLeadingPrefixed<T>(x: T, k: nat, s: seq<T>)
    ensures DropLeading(Repeat(x, k) + s, x) == DropLeading(s, x)
  {
    if k == 0 {
      assert Repeat(x, k) + s == s;
    } else {
      var t := Repeat(x, k) + s;
      assert t[0] == x && t[1..] == Repeat(x, k - 1) + s;
      DropLeadingPrefixed(x, k - 1, s);
    }
  }

  /** Putting back as many x's as were dropped restores the input. */
  lemma RestoreLeading<T>(s: seq<T>, x: T)
    ensures Repeat(x, |s| - |DropLeading(s, x)|) + DropLeading(s, x) == s
  {
    DropLeadingSpec(s, x);
    var r := DropLeading(s, x);
    var k := |s| - |r|;
    assert s == s[..k] + s[k..];
    assert s[..k] == Repeat(x, k);
  }

  /** DropLeading leaves nothing exactly when every element is x. */
  lemma DropLeadingEmpty<T>(s: seq<T>, x: T)
    ensures DropLeading(s, x) == [] <==> forall i :: 0 <= i < |s| ==> s[i] == x
  {
    DropLeadingSpec(s, x);
    if DropLeading(s, x) != [] {
      assert s[|s| - |DropLeading(s, x)|] != x;
    }
  }

  /**
   * Drops the leading bytes equal to `trim` with an index loop that stops at the first
   * byte that differs; returns the input itself when its first byte already differs.
   */
  method LeftTrimBuffer(buffer: seq<byte>, trim: byte := 0) returns (trimmed: seq<byte>)
    ensures trimmed == DropLeading(buffer, trim)
    ensures |buffer| > 0 && buffer[0] != trim ==> trimmed == buffer
  {
    var idx := 0;
    while idx < |buffer|
      invariant 0 <= idx <= |buffer|
      invariant forall j :: 0 <= j < idx ==> buffer[j] == trim
    {
      if buffer[idx] != trim {
        break;
      }
      idx := idx + 1;
    }
    DropLeadingUnique(buffer, trim, idx);
    trimmed := if idx == 0 then buffer else buffer[idx..];
  }
}

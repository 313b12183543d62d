/**
 * The fixed-width byte codec of mjs.h (`toBytes<T>` / `fromBytes<T>`).
 * Both copy the object representation of a `T` with `memcpy`; on the
 * little-endian hosts the interpreter targets, byte 0 is the least
 * significant one.  A `T` of `n` bytes is modelled as an unsigned
 * integer below 256^n.
 */
module Bytes {

  /** `uint8_t` */
  newtype byte = x: int | 0 <= x < 256

  /** 256^n: the number of distinct values of an n-byte type. */
  function Pow256(n: nat): (r: nat)
    ensures r >= 1
    ensures n >= 1 ==> r >= 256
  {
    if n == 0 then 1 else 256 * Pow256(n - 1)
  }

  /** `toBytes<T>(u)` with sizeof(T) == n: the n bytes of `u`, least significant first. */
  function ToBytes(u: nat, n: nat): (b: seq<byte>)
    requires u < Pow256(n)
    ensures |b| == n
  {
    if n == 0 then [] else [(u % 256) as byte] + ToBytes(u / 256, n - 1)
  }

  /** `fromBytes<T>(bytes)` with sizeof(T) == |b|: the value whose representation is `b`. */
  function FromBytes(b: seq<byte>): (u: nat)
    ensures u < Pow256(|b|)
  {
    if |b| == 0 then 0
    else
      var rest := FromBytes(b[1..]);
      assert rest <= Pow256(|b| - 1) - 1;
      assert 256 * rest <= 256 * (Pow256(|b| - 1) - 1);
      b[0] as nat + 256 * rest
  }

  /** Decoding the encoding of `u` gives `u` back. */
  lemma {:induction false} FromToBytes(u: nat, n: nat)
    requires u < Pow256(n)
    ensures FromBytes(ToBytes(u, n)) == u
  {
    if n > 0 {
      var b := ToBytes(u, n);
      assert b[1..] == ToBytes(u / 256, n - 1);
      FromToBytes(u / 256, n - 1);
    }
  }

  /** Encoding the value decoded from `b` gives `b` back: every byte string is some value's representation. */
  lemma {:induction false} ToFromBytes(b: seq<byte>)
    ensures ToBytes(FromBytes(b), |b|) == b
  {
    if |b| > 0 {
      var u := FromBytes(b);
      var rest := FromBytes(b[1..]);
      assert u % 256 == b[0] as nat && u / 256 == rest;
      ToFromBytes(b[1..]);
    }
  }

  /** Encoding is injective: two values of one width with the same bytes are equal. */
  lemma ToBytesInjective(u: nat, v: nat, n: nat)
    requires u < Pow256(n) && v < Pow256(n)
    requires ToBytes(u, n) == ToBytes(v, n)
    ensures u == v
  {
    FromToBytes(u, n);
    FromToBytes(v, n);
  }

  /**
   * `Push<T>(x)` then `Pop<T>()`: pushing the n bytes of `x` onto a stack
   * grows it by exactly n bytes, and popping n bytes off the result yields
   * `x` and leaves the stack as it was.
   */
  lemma PushPop(below: seq<byte>, x: nat, n: nat)
    requires x < Pow256(n)
    ensures var st := below + ToBytes(x, n);
            && |st| == |below| + n
            && st[..|st| - n] == below
            && FromBytes(st[|st| - n..]) == x
  {
    var st := below + ToBytes(x, n);
    assert st[..|st| - n] == below;
    assert st[|st| - n..] == ToBytes(x, n);
    FromToBytes(x, n);
  }
}

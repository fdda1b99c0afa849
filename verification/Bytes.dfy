/** Byte buffers and the big-endian integers the contracts and the serializers exchange. */
module Bytes {

  type Byte = n: int | 0 <= n < 256

  type Buffer = seq<Byte>

  function Pow256(n: nat): (p: int)
    ensures p >= 1
  {
    if n == 0 then 1 else 256 * Pow256(n - 1)
  }

  /** Big-endian reading of a buffer as an unsigned integer. */
  function ToUint(b: Buffer): (v: nat)
    ensures v < Pow256(|b|)
  {
    if b == [] then 0 else 256 * ToUint(b[..|b| - 1]) + b[|b| - 1]
  }

  /** The n low-order bytes of v, big-endian. */
  function FromUint(v: nat, n: nat): (b: Buffer)
    ensures |b| == n
  {
    if n == 0 then [] else FromUint(v / 256, n - 1) + [v % 256]
  }

  /** Two's-complement reading. */
  function ToInt(b: Buffer): (v: int)
    ensures -Pow256(|b|) <= 2 * v < Pow256(|b|)
  {
    var u := ToUint(b);
    if 2 * u < Pow256(|b|) then u else u - Pow256(|b|)
  }

  predicate FitsSigned(v: int, n: nat) {
    -Pow256(n) <= 2 * v < Pow256(n)
  }

  /** Two's-complement writing of a value that fits. */
  function FromInt(v: int, n: nat): (b: Buffer)
    requires -Pow256(n) <= v
    ensures |b| == n
  {
    FromUint(if v >= 0 then v else v + Pow256(n), n)
  }

  lemma {:induction false} UintRoundTrip(v: nat, n: nat)
    requires v < Pow256(n)
    ensures ToUint(FromUint(v, n)) == v
  {
    if n == 0 {
    } else {
      UintRoundTrip(v / 256, n - 1);
      assert FromUint(v, n)[..n - 1] == FromUint(v / 256, n - 1);
    }
  }

  lemma ToUintAppend(b: Buffer, x: Byte)
    ensures ToUint(b + [x]) == 256 * ToUint(b) + x
  {
    assert (b + [x])[..|b|] == b;
  }

  lemma OneByte(x: Byte)
    ensures ToUint([x]) == x
  {
    ToUintAppend([], x);
    assert [] + [x] == [x];
  }

  lemma FromUintAppend(q: nat, x: Byte, n: nat)
    ensures FromUint(256 * q + x, n + 1) == FromUint(q, n) + [x]
  {
    assert (256 * q + x) / 256 == q && (256 * q + x) % 256 == x;
  }

  lemma {:induction false} BufferRoundTrip(b: Buffer)
    ensures FromUint(ToUint(b), |b|) == b
  {
    if b == [] {
    } else {
      var front, last := b[..|b| - 1], b[|b| - 1];
      BufferRoundTrip(front);
      assert b == front + [last];
      hide ToUint, FromUint;
      ToUintAppend(front, last);
      FromUintAppend(ToUint(front), last, |front|);
    }
  }

  /** Equal-length buffers with the same value are the same buffer. */
  lemma UintInjective(a: Buffer, b: Buffer)
    requires |a| == |b| && ToUint(a) == ToUint(b)
    ensures a == b
  {
    BufferRoundTrip(a);
    BufferRoundTrip(b);
  }

  lemma IntRoundTrip(v: int, n: nat)
    requires FitsSigned(v, n)
    ensures ToInt(FromInt(v, n)) == v
  {
    UintRoundTrip(if v >= 0 then v else v + Pow256(n), n);
  }

  /** Buffer.concat. */
  function Concat(parts: seq<Buffer>): Buffer {
    if parts == [] then [] else parts[0] + Concat(parts[1..])
  }

  lemma {:induction false} ConcatAppend(parts: seq<Buffer>, tail: seq<Buffer>)
    ensures Concat(parts + tail) == Concat(parts) + Concat(tail)
  {
    if parts == [] {
      assert parts + tail == tail;
    } else {
      ConcatAppend(parts[1..], tail);
      assert (parts + tail)[1..] == parts[1..] + tail;
      assert Concat(parts + tail) == parts[0] + Concat(parts[1..] + tail);
      hide Concat;
    }
  }

  lemma OneMore(w: nat, n: nat)
    ensures w * (n + 1) == w + w * n
  {
  }

  /** Buffers of width w laid end to end hold w bytes each. */
  lemma {:induction false} ConcatWidth(parts: seq<Buffer>, w: nat)
    requires forall p :: p in parts ==> |p| == w
    ensures |Concat(parts)| == w * |parts|
  {
    if parts == [] {
    } else {
      ConcatWidth(parts[1..], w);
      assert |Concat(parts)| == |parts[0]| + |Concat(parts[1..])|;
      hide Concat;
      OneMore(w, |parts| - 1);
    }
  }

  lemma SliceOfSlice(b: Buffer, lo: nat, hi: nat, i: nat, j: nat)
    requires lo <= hi <= |b| && i <= j <= hi - lo
    ensures b[lo..hi][i..j] == b[lo + i..lo + j]
  {
    forall k | 0 <= k < j - i
      ensures b[lo..hi][i..j][k] == b[lo + i..lo + j][k]
    {
      assert b[lo..hi][i + k] == b[lo + i + k];
    }
  }
}

/** The helper that writes a bigint into a buffer of a given length by way of a hexadecimal string. */
module BigintBuffer {
  import opened Bytes

  type Nibble = n: int | 0 <= n < 16

  /** toString(16) of a non-negative number. */
  function ToHex(v: nat): (h: seq<Nibble>)
    ensures |h| > 0
  {
    if v < 16 then [v] else ToHex(v / 16) + [v % 16]
  }

  function HexValue(h: seq<Nibble>): nat {
    if h == [] then 0 else 16 * HexValue(h[..|h| - 1]) + h[|h| - 1]
  }

  function Pair(x: Nibble, y: Nibble): (b: Byte) {
    16 * (x as int) + y as int
  }

  function Pairs(h: seq<Nibble>): (b: Buffer)
    requires |h| % 2 == 0
    ensures |b| == |h| / 2
  {
    if h == [] then []
    else Pairs(h[..|h| - 2]) + [Pair(h[|h| - 2], h[|h| - 1])]
  }

  /** Buffer.from(h, "hex") : a trailing odd digit is dropped. */
  function FromHex(h: seq<Nibble>): (b: Buffer)
    ensures |b| == |h| / 2
  {
    Pairs(h[..2 * (|h| / 2)])
  }

  lemma {:induction false} HexRoundTrip(v: nat)
    ensures HexValue(ToHex(v)) == v
  {
    if v >= 16 {
      HexRoundTrip(v / 16);
      assert ToHex(v)[..|ToHex(v)| - 1] == ToHex(v / 16);
    } else {
      assert HexValue([]) == 0 && [v][..0] == [];
    }
  }

  lemma {:induction false} PadValue(h: seq<Nibble>)
    ensures HexValue([0] + h) == HexValue(h)
  {
    if h == [] {
      assert HexValue([]) == 0 && ([0] + h)[..0] == [];
    } else {
      PadValue(h[..|h| - 1]);
      assert ([0] + h)[..|h|] == [0] + h[..|h| - 1];
    }
  }

  lemma HexAppend(h: seq<Nibble>, x: Nibble)
    ensures HexValue(h + [x]) == 16 * HexValue(h) + x as int
  {
    assert (h + [x])[..|h|] == h;
  }

  lemma PairsAppend(h: seq<Nibble>, x: Nibble, y: Nibble)
    requires |h| % 2 == 0
    ensures Pairs(h + [x] + [y]) == Pairs(h) + [Pair(x, y)]
  {
    var all := h + [x] + [y];
    assert all[..|all| - 2] == h && all[|all| - 2] == x && all[|all| - 1] == y;
  }

  lemma {:induction false} PairsValue(h: seq<Nibble>)
    requires |h| % 2 == 0
    ensures ToUint(Pairs(h)) == HexValue(h)
  {
    if h == [] {
    } else {
      hide HexValue, Pairs, ToUint;
      var front, x, y := h[..|h| - 2], h[|h| - 2], h[|h| - 1];
      assert h == front + [x] + [y];
      PairsValue(front);
      HexAppend(front, x);
      HexAppend(front + [x], y);
      PairsAppend(front, x, y);
      ToUintAppend(Pairs(front), Pair(x, y));
    }
  }

  /** The digits of a number that fits n bytes fit 2n places. */
  lemma {:induction false} HexLength(v: nat, n: nat)
    requires v < Pow256(n) && n > 0
    ensures |ToHex(v)| <= 2 * n
    decreases n
  {
    if v < 256 {
    } else {
      HexLength(v / 256, n - 1);
      assert v / 16 / 16 == v / 256;
    }
  }

  /** bigintToBuffer. Read back unsigned, a number survives exactly when it is in [0, 256^n); read
      back as two's complement, exactly when it is in [-256^n / 2, 256^n / 2). */
  method BigintToBuffer(v: int, byteLength: nat) returns (b: Buffer)
    ensures |b| == byteLength && ToUint(b) == v <==> 0 <= v < Pow256(byteLength)
    ensures |b| == byteLength && ToInt(b) == v <==> FitsSigned(v, byteLength)
    ensures 0 <= v < Pow256(byteLength) ==> b == FromUint(v, byteLength)
    ensures FitsSigned(v, byteLength) ==> b == FromInt(v, byteLength)
    decreases if v < 0 then 0 - v else 0
  {
    if v >= 0 {
      var hexString := ToHex(v);
      var padding := byteLength * 2 - |hexString|;
      HexRoundTrip(v);
      var i := 0;
      while i < padding
        invariant i <= if padding > 0 then padding else 0
        invariant |hexString| == |ToHex(v)| + i
        invariant HexValue(hexString) == v
      {
        PadValue(hexString);
        hexString := [0] + hexString;
        i := i + 1;
      }
      b := FromHex(hexString);
      if v < Pow256(byteLength) && byteLength > 0 {
        HexLength(v, byteLength);
        assert hexString[..|hexString|] == hexString;
        PairsValue(hexString);
        BufferRoundTrip(b);
      }
    } else {
      b := BigintToBuffer(Pow256(byteLength) + v, byteLength);
    }
  }
}

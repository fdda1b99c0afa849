/** The parts of the Clarity runtime the contracts lean on: responses and runtime aborts, the
    128-bit integer bound, and the cursor contract (hk-cursor-v2) through its assumed contract. */
module Clarity {
  import opened Bytes

  datatype Option<+T> = None | Some(value: T) {
    predicate IsFailure() { None? }

    function PropagateFailure<U>(): Option<U>
      requires None?
    {
      None
    }

    function Extract(): T
      requires Some?
    {
      value
    }

    /** unwrap! : an absent value becomes the given error. */
    function OrErr(code: nat): Outcome<T> {
      if Some? then Ok(value) else Err(code)
    }

    /** unwrap-panic : an absent value aborts the transaction. */
    function OrAbort(): Outcome<T> {
      if Some? then Ok(value) else Abort
    }
  }

  /** The result of a call: an ok or err response, or a runtime error that aborts the transaction. */
  datatype Outcome<+T> = Ok(value: T) | Err(code: nat) | Abort {
    predicate IsFailure() { !Ok? }

    function PropagateFailure<U>(): Outcome<U>
      requires IsFailure()
    {
      if Err? then Err(code) else Abort
    }

    function Extract(): T
      requires Ok?
    {
      value
    }
  }

  /** asserts! : nothing to extract, an err response to propagate. */
  datatype Check = Pass | Fail(code: nat) {
    predicate IsFailure() { Fail? }

    function PropagateFailure<U>(): Outcome<U>
      requires Fail?
    {
      Err(code)
    }
  }

  function Require(condition: bool, code: nat): Check {
    if condition then Pass else Fail(code)
  }

  const U128_LIMIT: nat := 0x1_00000000_00000000_00000000_00000000

  /** Arithmetic on uint aborts outside 128 bits. */
  function Uint128(v: int): Outcome<nat> {
    if 0 <= v < U128_LIMIT then Ok(v) else Abort
  }

  type Hash256 = b: Buffer | |b| == 32 witness seq(32, _ => 0)
  type Hash160 = b: Buffer | |b| == 20 witness seq(20, _ => 0)
  type CompressedKey = b: Buffer | |b| == 33 witness seq(33, _ => 0)

  datatype Principal = Principal(name: string)

  /** The host functions of the chain: arbitrary total functions of the right shape. */
  datatype Host = Host(
    keccak256: Buffer -> Hash256,
    recover: (Hash256, Buffer) -> Option<CompressedKey>,
    principal: Buffer -> Option<Principal>)

  // ---------- hk-cursor-v2 ----------

  datatype Cursor = Cursor(bytes: Buffer, pos: nat)

  datatype Read<+T> = Read(value: T, next: Cursor)

  /** The error code the cursor contract returns itself when a read runs off the buffer. */
  const ERR_CURSOR: nat := 1

  /** read-buff-n : n bytes at the position, absent when they run off the end. */
  function ReadBuff(c: Cursor, n: nat): (r: Option<Read<Buffer>>)
    ensures r.Some? ==> |r.value.value| == n
  {
    if c.pos + n <= |c.bytes| then
      Some(Read(c.bytes[c.pos..c.pos + n], Cursor(c.bytes, c.pos + n)))
    else None
  }

  /** read-uint-n, for a width in bytes. */
  function ReadUint(c: Cursor, n: nat): Option<Read<nat>> {
    var r :- ReadBuff(c, n);
    Some(Read(ToUint(r.value), r.next))
  }

  /** read-int-n, for a width in bytes. */
  function ReadInt(c: Cursor, n: nat): Option<Read<int>> {
    var r :- ReadBuff(c, n);
    Some(Read(ToInt(r.value), r.next))
  }

  /** read-buff-8192-max without a size: everything from the position on, possibly nothing. */
  function ReadRest(c: Cursor): Option<Read<Buffer>> {
    if c.pos <= |c.bytes| then Some(Read(c.bytes[c.pos..], Cursor(c.bytes, |c.bytes|))) else None
  }

  /** slice with a size: empty when the range runs off the buffer. */
  function Slice(c: Cursor, n: nat): Buffer {
    if c.pos + n <= |c.bytes| then c.bytes[c.pos..c.pos + n] else []
  }

  /** slice without a size. */
  function SliceRest(c: Cursor): Buffer {
    if c.pos <= |c.bytes| then c.bytes[c.pos..] else []
  }

  // ---------- reading back what was laid end to end ----------

  /** From the cursor on, the buffer holds exactly these bytes. */
  predicate Holds(c: Cursor, rest: Buffer) {
    c.pos <= |c.bytes| && c.bytes[c.pos..] == rest
  }

  function Skip(c: Cursor, n: nat): Cursor {
    Cursor(c.bytes, c.pos + n)
  }

  lemma ReadsBuff(c: Cursor, part: Buffer, rest: Buffer)
    requires Holds(c, part + rest)
    ensures ReadBuff(c, |part|) == Some(Read(part, Skip(c, |part|)))
    ensures Holds(Skip(c, |part|), rest)
  {
    var tail := c.bytes[c.pos..];
    assert |tail| == |c.bytes| - c.pos;
    assert c.bytes[c.pos..c.pos + |part|] == tail[..|part|] == part;
    assert c.bytes[c.pos + |part|..] == tail[|part|..] == rest;
  }

  lemma ReadsUint(c: Cursor, v: nat, n: nat, rest: Buffer)
    requires Holds(c, FromUint(v, n) + rest) && v < Pow256(n)
    ensures ReadUint(c, n) == Some(Read(v, Skip(c, n)))
    ensures Holds(Skip(c, n), rest)
  {
    ReadsBuff(c, FromUint(v, n), rest);
    UintRoundTrip(v, n);
  }

  lemma ReadsInt(c: Cursor, v: int, n: nat, rest: Buffer)
    requires FitsSigned(v, n) && Holds(c, FromInt(v, n) + rest)
    ensures ReadInt(c, n) == Some(Read(v, Skip(c, n)))
    ensures Holds(Skip(c, n), rest)
  {
    ReadsBuff(c, FromInt(v, n), rest);
    IntRoundTrip(v, n);
  }

  // ---------- twenty-byte chunks ----------

  function Chunks(bytes: Buffer, n: nat): (chunks: seq<Hash160>)
    requires |bytes| == 20 * n
    ensures |chunks| == n && Concat(chunks) == bytes
  {
    if n == 0 then [] else [bytes[..20]] + Chunks(bytes[20..], n - 1)
  }

  lemma {:induction false} ChunksOfConcat(chunks: seq<Hash160>)
    ensures |Concat(chunks)| == 20 * |chunks|
    ensures Chunks(Concat(chunks), |chunks|) == chunks
  {
    ConcatWidth(chunks, 20);
    if chunks == [] {
    } else {
      ChunksOfConcat(chunks[1..]);
      assert Concat(chunks)[20..] == Concat(chunks[1..]);
    }
  }

  lemma {:induction false} ChunkAt(bytes: Buffer, n: nat, i: nat)
    requires |bytes| == 20 * n && i < n
    ensures Chunks(bytes, n)[i] == bytes[20 * i..20 * i + 20]
  {
    if i == 0 {
    } else {
      ChunkAt(bytes[20..], n - 1, i - 1);
      SliceOfSlice(bytes, 20, |bytes|, 20 * (i - 1), 20 * (i - 1) + 20);
    }
  }
}

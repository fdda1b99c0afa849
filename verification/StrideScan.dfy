/** The contracts have no loop over variable-length records. They fold over every byte of a buffer,
    keep an index and the position of the next record, and act only where the two meet. This
    module holds that fold once, and the direct record-by-record parser it refines. */
module StrideScan {
  import opened Clarity

  /** The item read at a position and the distance to the next record. */
  datatype Item<+T> = Item(value: T, stride: nat)

  type Reader<T> = nat -> Outcome<Item<T>>

  datatype Acc<T> = Acc(index: nat, nextUpdateIndex: nat, result: seq<T>)

  function Start<T>(): Acc<T> {
    Acc(0, 0, [])
  }

  /** One step of the fold; cap is the declared length of the result list. */
  function Step<T>(read: Reader<T>, limit: nat, cap: nat, acc: Acc<T>): Outcome<Acc<T>> {
    if |acc.result| == limit then Ok(acc)
    else if acc.index == acc.nextUpdateIndex then
      var item :- read(acc.index);
      if |acc.result| == cap then Abort
      else Ok(Acc(acc.index + 1, acc.index + item.stride, acc.result + [item.value]))
    else Ok(acc.(index := acc.index + 1))
  }

  /** The fold over n further bytes. */
  function Fold<T>(read: Reader<T>, limit: nat, cap: nat, n: nat, acc: Acc<T>): Outcome<Acc<T>> {
    if n == 0 then Ok(acc)
    else
      var acc' :- Step(read, limit, cap, acc);
      Fold(read, limit, cap, n - 1, acc')
  }

  /** What a scan of len bytes returns. */
  function Scan<T>(read: Reader<T>, limit: nat, cap: nat, len: nat): Outcome<seq<T>> {
    var acc :- Fold(read, limit, cap, len, Start());
    Ok(acc.result)
  }

  /** The direct parser: a record at p, then one at p + stride, until limit records or the end. */
  function Records<T>(read: Reader<T>, limit: nat, cap: nat, len: nat, p: nat): Outcome<seq<T>>
    decreases limit
  {
    if limit == 0 || p >= len then Ok([])
    else
      var item :- read(p);
      if cap == 0 then Abort
      else
        var rest :- Records(read, limit - 1, cap - 1, len, p + item.stride);
        Ok([item.value] + rest)
  }

  ghost predicate Advances<T>(read: Reader<T>) {
    forall p: nat :: read(p).Ok? ==> read(p).value.stride > 0
  }

  /** Records at the end of what is already there. */
  function Onto<T>(done: seq<T>, rest: Outcome<seq<T>>): Outcome<seq<T>> {
    var more :- rest;
    Ok(done + more)
  }

  function ResultOf<T>(acc: Outcome<Acc<T>>): Outcome<seq<T>> {
    var a :- acc;
    Ok(a.result)
  }

  lemma {:induction false} FoldAtLimit<T>(read: Reader<T>, limit: nat, cap: nat, n: nat, acc: Acc<T>)
    requires |acc.result| == limit
    ensures Fold(read, limit, cap, n, acc) == Ok(acc)
  {
    if n == 0 {
    } else {
      FoldAtLimit(read, limit, cap, n - 1, acc);
    }
  }

  lemma {:induction false} FoldRefines<T>(read: Reader<T>, limit: nat, cap: nat, n: nat, len: nat, acc: Acc<T>)
    requires Advances(read)
    requires acc.index <= acc.nextUpdateIndex && acc.index + n == len
    requires |acc.result| <= limit && |acc.result| <= cap
    ensures ResultOf(Fold(read, limit, cap, n, acc))
            == Onto(acc.result, Records(read, limit - |acc.result|, cap - |acc.result|, len, acc.nextUpdateIndex))
  {
    if |acc.result| == limit {
      FoldAtLimit(read, limit, cap, n, acc);
    } else if n > 0 {
      var step := Step(read, limit, cap, acc);
      if step.Ok? {
        FoldRefines(read, limit, cap, n - 1, len, step.value);
        if acc.index == acc.nextUpdateIndex {
          var item := read(acc.index).value;
          var rest := Records(read, limit - |acc.result| - 1, cap - |acc.result| - 1, len, acc.index + item.stride);
          if rest.Ok? {
            assert acc.result + [item.value] + rest.value == acc.result + ([item.value] + rest.value);
          }
        }
      }
    } else {
      assert acc.result + [] == acc.result;
    }
  }

  /** The byte-by-byte scan is the record-by-record parser, for every reader that moves forward. */
  lemma ScanRefinesRecords<T>(read: Reader<T>, limit: nat, cap: nat, len: nat)
    requires Advances(read)
    ensures Scan(read, limit, cap, len) == Records(read, limit, cap, len, 0)
  {
    FoldRefines(read, limit, cap, len, len, Start());
    var direct := Records(read, limit, cap, len, 0);
    assert direct.Ok? ==> [] + direct.value == direct.value;
  }

  lemma {:induction false} RecordsCapped<T>(read: Reader<T>, limit: nat, cap: nat, len: nat, p: nat)
    ensures Records(read, limit, cap, len, p).Ok? ==> |Records(read, limit, cap, len, p).value| <= Min(limit, cap)
    decreases limit
  {
    if limit == 0 || p >= len || !read(p).Ok? || cap == 0 {
    } else {
      RecordsCapped(read, limit - 1, cap - 1, len, p + read(p).value.stride);
    }
  }

  /** Among the first limit records from p on, one starts at i. */
  ghost predicate StopsAt<T>(read: Reader<T>, limit: nat, len: nat, p: nat, i: nat)
    decreases limit
  {
    && limit > 0 && p < len
    && (i == p || (read(p).Ok? && StopsAt(read, limit - 1, len, p + read(p).value.stride, i)))
  }

  /** Every value returned was read at one of the stops. */
  lemma {:induction false} RecordsAreRead<T>(read: Reader<T>, limit: nat, cap: nat, len: nat, p: nat, k: nat)
      returns (i: nat)
    requires Records(read, limit, cap, len, p).Ok? && k < |Records(read, limit, cap, len, p).value|
    ensures StopsAt(read, limit, len, p, i)
    ensures read(i).Ok? && read(i).value.value == Records(read, limit, cap, len, p).value[k]
    decreases limit
  {
    if k == 0 {
      i := p;
    } else {
      i := RecordsAreRead(read, limit - 1, cap - 1, len, p + read(p).value.stride, k - 1);
    }
  }

  // ---------- buffers that hold a list of records ----------

  /** From p to len the reader finds exactly these items, one after the other. */
  ghost predicate LaidOut<T>(read: Reader<T>, len: nat, p: nat, items: seq<Item<T>>)
    decreases |items|
  {
    if items == [] then p == len
    else p < len && read(p) == Ok(items[0]) && LaidOut(read, len, p + items[0].stride, items[1..])
  }

  function Values<T>(items: seq<Item<T>>): (values: seq<T>)
    ensures |values| == |items|
  {
    if items == [] then [] else [items[0].value] + Values(items[1..])
  }

  function Min(a: nat, b: nat): nat {
    if a <= b then a else b
  }

  /** The parser returns the items up to the announced count, all of them when fewer are there, and
      aborts when that is more than the list can hold. */
  lemma {:induction false} RecordsOfLaidOut<T>(
      read: Reader<T>, limit: nat, cap: nat, len: nat, p: nat, items: seq<Item<T>>)
    requires LaidOut(read, len, p, items)
    ensures Records(read, limit, cap, len, p)
            == if Min(limit, |items|) <= cap then Ok(Values(items)[..Min(limit, |items|)]) else Abort
    decreases |items|
  {
    if items == [] || limit == 0 || cap == 0 {
    } else {
      RecordsOfLaidOut(read, limit - 1, cap - 1, len, p + items[0].stride, items[1..]);
      var k := Min(limit - 1, |items| - 1);
      assert Values(items)[..k + 1] == [items[0].value] + Values(items[1..])[..k];
    }
  }
}

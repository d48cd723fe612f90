/**
 The single-producer, single-consumer ring of net_channel/src/spsc.rs, as an object used by one
 side at a time.
 */
module Spsc {
  import opened Arith
  import opened Wrappers

  // The slots from h up to t, around the end.
  ghost function Shown<T>(buf: seq<T>, h: nat, t: nat): (s: seq<T>)
    requires h < |buf| && t < |buf|
  {
    if h <= t then buf[h..t] else buf[h..] + buf[..t]
  }

  function Succ(i: nat, n: nat): (j: nat) {
    if i + 1 < n then i + 1 else 0
  }

  lemma SuccIs(i: nat, n: nat)
    requires i < n
    ensures (i + 1) % n == Succ(i, n) < n && Succ(i, n) % n == Succ(i, n)
  {
    Wrap(i + 1, n);
    Wrap(Succ(i, n), n);
  }

  lemma ShownPush<T>(buf: seq<T>, h: nat, t: nat, val: T)
    requires h < |buf| && t < |buf| && Succ(t, |buf|) != h
    ensures Shown(buf[t := val], h, Succ(t, |buf|)) == Shown(buf, h, t) + [val]
  {
  }

  lemma ShownPop<T>(buf: seq<T>, h: nat, t: nat)
    requires h < |buf| && t < |buf| && h != t
    ensures Shown(buf, h, t) == [buf[h]] + Shown(buf, Succ(h, |buf|), t)
  {
  }

  lemma ShownLength<T>(buf: seq<T>, h: nat, t: nat)
    requires h < |buf| && t < |buf|
    ensures |Shown(buf, h, t)| == if h <= t then t - h else t + |buf| - h
  {
  }

  class SpscQueue<T(0)> {
    var head: nat
    var tail: nat
    const buffer: array<T>

    constructor (n: nat)
      requires n > 0
      ensures Valid() && fresh(buffer) && buffer.Length == n && Contents() == []
    {
      head, tail := 0, 0;
      buffer := new T[n];
    }

    ghost predicate Valid() {
      buffer.Length > 0
    }

    // What the ring holds. Every load masks the index, so any stored index names a slot.
    ghost function Contents(): (s: seq<T>)
      reads this, buffer
      requires Valid()
    {
      Shown(buffer[..], head % buffer.Length, tail % buffer.Length)
    }

    method Enqueue(val: T) returns (ok: bool)
      requires Valid()
      modifies this`tail, buffer
      ensures ok <==> |old(Contents())| < buffer.Length - 1
      ensures Contents() == if ok then old(Contents()) + [val] else old(Contents())
      ensures if ok then tail < buffer.Length else tail == old(tail) && buffer[..] == old(buffer[..])
    {
      var n := buffer.Length;
      var t := tail % n;
      var next := (t + 1) % n;
      SuccIs(t, n);
      ShownLength(buffer[..], head % n, t);
      if next == head % n { return false; }
      ShownPush(buffer[..], head % n, t, val);
      hide Shown;
      ghost var was := buffer[..];
      buffer[t] := val;
      assert buffer[..] == was[t := val];
      tail := next;
      return true;
    }

    method Dequeue() returns (r: Option<T>)
      requires Valid()
      modifies this`head
      ensures r.Some? ==> old(Contents()) == [r.value] + Contents() && head < buffer.Length
      ensures r.None? ==> old(Contents()) == [] && head == old(head)
    {
      var n := buffer.Length;
      var h := head % n;
      if h == tail % n { return None; }
      ShownPop(buffer[..], h, tail % n);
      SuccIs(h, n);
      hide Shown;
      var val := buffer[h];
      head := (h + 1) % n;
      return Some(val);
    }

    method IsEmpty() returns (b: bool)
      requires Valid()
      ensures b <==> Contents() == []
    {
      ShownLength(buffer[..], head % buffer.Length, tail % buffer.Length);
      b := head % buffer.Length == tail % buffer.Length;
    }

    method IsFull() returns (b: bool)
      requires Valid()
      ensures b <==> |Contents()| == buffer.Length - 1
    {
      var n := buffer.Length;
      SuccIs(tail % n, n);
      ShownLength(buffer[..], head % n, tail % n);
      b := (tail % n + 1) % n == head % n;
    }

    method Len() returns (k: nat)
      requires Valid()
      ensures k == |Contents()|
    {
      var n := buffer.Length;
      Wrap(tail % n + n - head % n, n);
      ShownLength(buffer[..], head % n, tail % n);
      k := (tail % n + n - head % n) % n;
    }

    // Each side zeroes its own index. Until the other side has zeroed its own, the queue shows old
    // slots, unless the other index was at zero already.
    method ResetProducer()
      requires Valid()
      modifies this`tail
      ensures tail == 0
      ensures Contents() == buffer[if head % buffer.Length == 0 then buffer.Length else head % buffer.Length..]
    {
      tail := 0;
    }

    method ResetConsumer()
      requires Valid()
      modifies this`head
      ensures head == 0
      ensures Contents() == buffer[..tail % buffer.Length]
    {
      head := 0;
    }
  }
}

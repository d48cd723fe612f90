/**
 The same ring with `enqueue` and `dequeue` cut into their separate loads, slot accesses and
 stores (net_channel/src/spsc.rs:77-101), one producer and one consumer interleaved in any
 order over sequentially consistent memory.
 */
module SpscSteps {
  import opened Arith

  // Where each side is inside its operation.
  datatype Producer<T> =
    | Idle
    | LoadedTail(val: T, t: nat)
    | FoundRoom(val: T, t: nat)
    | WroteSlot(val: T, t: nat)

  datatype Consumer<T> =
    | Resting
    | LoadedHead(h: nat)
    | FoundItem(h: nat)
    | ReadSlot(h: nat, val: T)

  // enq and deq list the values whose index store has completed.
  datatype Ring<T> = Ring(head: nat, tail: nat, buf: seq<T>, p: Producer<T>, c: Consumer<T>, enq: seq<T>, deq: seq<T>)

  datatype Step<T> = Begin(val: T) | Produce | Consume

  function Next<T>(r: Ring<T>, step: Step<T>): (r': Ring<T>)
    requires |r.buf| > 0
    ensures |r'.buf| == |r.buf|
  {
    match step
    case Begin(v) => if r.p.Idle? then r.(p := LoadedTail(v, r.tail % |r.buf|)) else r
    case Produce => NextProduce(r)
    case Consume => NextConsume(r)
  }

  function NextProduce<T>(r: Ring<T>): (r': Ring<T>)
    requires |r.buf| > 0
    ensures |r'.buf| == |r.buf|
  {
    var n := |r.buf|;
    match r.p
    case Idle => r
    case LoadedTail(v, t) => r.(p := if (t + 1) % n == r.head % n then Idle else FoundRoom(v, t))
    case FoundRoom(v, t) => if t < n then r.(buf := r.buf[t := v], p := WroteSlot(v, t)) else r
    case WroteSlot(v, t) => r.(tail := (t + 1) % n, p := Idle, enq := r.enq + [v])
  }

  function NextConsume<T>(r: Ring<T>): (r': Ring<T>)
    requires |r.buf| > 0
    ensures |r'.buf| == |r.buf|
  {
    var n := |r.buf|;
    match r.c
    case Resting => r.(c := LoadedHead(r.head % n))
    case LoadedHead(h) => r.(c := if h == r.tail % n then Resting else FoundItem(h))
    case FoundItem(h) => if h < n then r.(c := ReadSlot(h, r.buf[h])) else r
    case ReadSlot(h, v) => r.(head := (h + 1) % n, c := Resting, deq := r.deq + [v])
  }

  // ---- The invariant ----

  // With k values out and m values in, the indices are k and m modulo n, and the slots from k to m
  // hold the values in between.
  ghost predicate Inv<T>(r: Ring<T>) {
    var n, k, m := |r.buf|, |r.deq|, |r.enq|;
    && n > 0 && k <= m < k + n
    && r.head == k % n && r.tail == m % n
    && r.deq == r.enq[..k]
    && (forall i :: k <= i < m ==> r.buf[i % n] == r.enq[i])
    && (match r.p
        case Idle => true
        case LoadedTail(_, t) => t == r.tail
        case FoundRoom(_, t) => t == r.tail && m + 1 < k + n
        case WroteSlot(v, t) => t == r.tail && m + 1 < k + n && r.buf[t] == v)
    && (match r.c
        case Resting => true
        case LoadedHead(h) => h == r.head
        case FoundItem(h) => h == r.head && k < m
        case ReadSlot(h, v) => h == r.head && k < m && v == r.enq[k])
  }

  // The full test compares the next index with head: equal exactly when n - 1 values are queued.
  lemma FullTest(k: nat, m: nat, n: nat)
    requires n > 0 && k <= m < k + n
    ensures (m % n + 1) % n == k % n <==> m + 1 == k + n
    ensures m % n == k % n <==> m == k
  {
    var r := m % n;
    ModStep(m, n);
    Wrap(r + 1, n);
    if m + 1 < k + n && (m + 1) % n == k % n { ModEqual(k, m + 1, n); }
    if m + 1 == k + n { DivUnique(m + 1, n, k / n + 1, k % n); }
    if m % n == k % n { ModEqual(k, m, n); }
  }

  lemma Slots(i: nat, m: nat, n: nat)
    requires n > 0 && i < m < i + n
    ensures i % n != m % n
  {
    if i % n == m % n { ModEqual(i, m, n); }
  }

  lemma Advance(m: nat, n: nat)
    requires n > 0
    ensures (m % n + 1) % n == (m + 1) % n
  {
    ModStep(m, n);
    Wrap(m % n + 1, n);
  }

  // The producer never overwrites a slot that is still to be read.
  lemma UnreadKept<T>(r: Ring<T>, step: Step<T>)
    requires Inv(r)
    ensures forall i :: |r.deq| <= i < |r.enq| ==> Next(r, step).buf[i % |r.buf|] == r.buf[i % |r.buf|]
  {
    if step == Produce && r.p.FoundRoom? {
      forall i | |r.deq| <= i < |r.enq| ensures i % |r.buf| != r.p.t {
        Slots(i, |r.enq|, |r.buf|);
      }
    }
  }

  lemma StepKeepsInv<T>(r: Ring<T>, step: Step<T>)
    requires Inv(r)
    ensures Inv(Next(r, step))
  {
    var n, k, m := |r.buf|, |r.deq|, |r.enq|;
    FullTest(k, m, n);
    Advance(m, n);
    Advance(k, n);
    UnreadKept(r, step);
    Wrap(r.head, n);
    Wrap(r.tail, n);
  }

  // ---- Who is turned away, and what a completed operation does ----

  // At its test the producer is turned away exactly if n - 1 values are queued then, and the consumer
  // exactly if none is.
  lemma TurnedAway<T>(r: Ring<T>)
    requires Inv(r)
    ensures r.p.LoadedTail? ==> (Next(r, Produce).p.Idle? <==> |r.enq| - |r.deq| == |r.buf| - 1)
    ensures r.p.LoadedTail? && Next(r, Produce).p != Idle ==> Next(r, Produce).p == FoundRoom(r.p.val, r.p.t)
    ensures r.c.LoadedHead? ==> (Next(r, Consume).c.Resting? <==> |r.enq| == |r.deq|)
    ensures r.c.LoadedHead? && Next(r, Consume).c != Resting ==> Next(r, Consume).c == FoundItem(r.c.h)
  {
    FullTest(|r.deq|, |r.enq|, |r.buf|);
    Wrap(r.head, |r.buf|);
    Wrap(r.tail, |r.buf|);
  }

  // A producer that found room gets its value in, and a consumer that found a value gets the oldest
  // one out, whatever the other side does in between.
  lemma StepsOn<T>(r: Ring<T>)
    requires Inv(r)
    ensures r.p.FoundRoom? ==> Next(r, Produce).p == WroteSlot(r.p.val, r.p.t)
    ensures r.p.WroteSlot? ==> Next(r, Produce).p == Idle && Next(r, Produce).enq == r.enq + [r.p.val]
    ensures r.c.FoundItem? ==> Next(r, Consume).c == ReadSlot(r.c.h, r.enq[|r.deq|])
    ensures r.c.ReadSlot? ==> Next(r, Consume).c == Resting && Next(r, Consume).deq == r.deq + [r.enq[|r.deq|]]
    ensures Next(r, Consume).p == r.p && Next(r, Consume).enq == r.enq
    ensures Next(r, Produce).c == r.c && Next(r, Produce).deq == r.deq
  {
    Wrap(r.head, |r.buf|);
  }

  // An enqueue on its own appends its value unless n - 1 are queued, and a dequeue on its own takes
  // the oldest value unless there is none.
  lemma AloneEnqueues<T>(r: Ring<T>, v: T)
    requires Inv(r) && r.p.Idle?
    ensures var r' := Next(Next(Next(Next(r, Begin(v)), Produce), Produce), Produce);
            && r'.p.Idle? && r'.deq == r.deq
            && r'.enq == if |r.enq| - |r.deq| == |r.buf| - 1 then r.enq else r.enq + [v]
  {
    var r1 := Next(r, Begin(v));
    StepKeepsInv(r, Begin(v));
    TurnedAway(r1);
    var r2 := Next(r1, Produce);
    StepKeepsInv(r1, Produce);
    StepsOn(r1);
    StepsOn(r2);
    var r3 := Next(r2, Produce);
    StepKeepsInv(r2, Produce);
    StepsOn(r3);
  }

  lemma AloneDequeues<T>(r: Ring<T>)
    requires Inv(r) && r.c.Resting?
    ensures var r' := Next(Next(Next(Next(r, Consume), Consume), Consume), Consume);
            && r'.c.Resting? && r'.enq == r.enq
            && r'.deq == if |r.enq| == |r.deq| then r.deq else r.deq + [r.enq[|r.deq|]]
  {
    var r1 := Next(r, Consume);
    StepKeepsInv(r, Consume);
    StepsOn(r);
    TurnedAway(r1);
    var r2 := Next(r1, Consume);
    StepKeepsInv(r1, Consume);
    StepsOn(r1);
    var r3 := Next(r2, Consume);
    StepKeepsInv(r2, Consume);
    StepsOn(r2);
    TurnedAway(r3);
    StepsOn(r3);
  }

  ghost function Run<T>(r: Ring<T>, steps: seq<Step<T>>): (r': Ring<T>)
    requires |r.buf| > 0
    decreases |steps|
  {
    if steps == [] then r else Run(Next(r, steps[0]), steps[1..])
  }

  // The last step of an interleaving acts on what the others left.
  lemma {:induction false} RunLast<T>(r: Ring<T>, steps: seq<Step<T>>, s: Step<T>)
    requires |r.buf| > 0
    ensures |Run(r, steps).buf| > 0 && Run(r, steps + [s]) == Next(Run(r, steps), s)
    decreases |steps|
  {
    hide Next;
    if steps == [] {
      assert (steps + [s])[1..] == [];
    } else {
      assert (steps + [s])[1..] == steps[1..] + [s];
      RunLast(Next(r, steps[0]), steps[1..], s);
    }
  }

  // A zeroed region is an empty ring.
  lemma ZeroedInv<T>(buf: seq<T>)
    requires |buf| > 0
    ensures Inv(Ring(0, 0, buf, Idle, Resting, [], []))
  {
    Wrap(0, |buf|);
  }

  // Over every interleaving: what comes out is a prefix of what went in, and at most n - 1 values
  // are queued.
  lemma {:induction false} RunIsFifo<T>(r: Ring<T>, steps: seq<Step<T>>)
    requires Inv(r)
    ensures Inv(Run(r, steps))
    ensures var q := Run(r, steps);
            q.deq <= q.enq && |q.enq| - |q.deq| <= |q.buf| - 1
    decreases |steps|
  {
    if steps != [] {
      StepKeepsInv(r, steps[0]);
      RunIsFifo(Next(r, steps[0]), steps[1..]);
    }
  }
}

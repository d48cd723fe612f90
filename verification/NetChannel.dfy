/**
 The kernel's reconciler for one network channel, `NetChannel::update_tcp`
 (net_channel/src/lib.rs:975-1390), as a function of the channel, the shared rings and what
 the outside does. The socket is an oracle. The rings live in memory that the user
 can write at any moment: before every ring operation of a poll (each dequeue, the emptiness test and
 the enqueue of a staging) an interference function may change them in any way.
 */
module NetChannel {
  import opened Powers
  import opened Wrappers

  datatype BindSpec =
    | ClientOneShot(addr: nat, port: nat)
    | ClientRetain(addr: nat, port: nat)
    | ServerOneShot(port: nat)
    | ServerRetain(port: nat)

  predicate IsRetain(b: BindSpec) {
    b.ClientRetain? || b.ServerRetain?
  }

  predicate IsServer(b: BindSpec) {
    b.ServerOneShot? || b.ServerRetain?
  }

  datatype Phase = FreshIdle | Listening | Connecting | Active | Closing | Failed

  // channel_state codes and sticky failure causes.
  const IDLE: int := 0
  const IN_FLIGHT: int := 1
  const ACTIVE: int := 2
  const CLOSING: int := 3
  const FAILED: int := -1

  const NO_CAUSE: nat := 0
  const EBIND_LISTEN: nat := 1
  const EBIND_CONNECT: nat := 2
  const EBIND_DONE: nat := 3
  const EBIND_IO: nat := 4

  const BACKOFF_MIN_MS: nat := 100
  const BACKOFF_CAP_MS: nat := 30_000
  const CLOCK_MAX: nat := 0xFFFF_FFFF_FFFF_FFFF

  // ---- One direction of the rings ----

  datatype Which = Rx | Tx

  // The slice ring and the increment ring of one direction, and the slice in the user's hand.
  // Slices are represented by their lengths.
  datatype Lane = Lane(slices: seq<nat>, incs: seq<nat>, hand: Option<nat>)

  const EMPTY_LANE: Lane := Lane([], [], None)
  const RING_CAPACITY: nat := 15

  datatype Shared = Shared(rx: Lane, tx: Lane)

  function Get(sh: Shared, w: Which): (r: Lane) {
    if w == Rx then sh.rx else sh.tx
  }

  function Put(sh: Shared, w: Which, r: Lane): (sh': Shared) {
    if w == Rx then sh.(rx := r) else sh.(tx := r)
  }

  // The moments of a poll at which the user may get in between.
  datatype Point = Start | Pop(w: Which, k: nat) | Stage(w: Which) | Push(w: Which) | Reset

  type Env = (Point, Shared) -> Shared

  // ---- Kernel state ----

  // A slice staged and not yet acknowledged, with the length that bounds its increment.
  datatype Dir = Dir(pending: bool, staged: nat)

  // Slices handed to the user, and counts handed to socket.recv / socket.send.
  datatype Event = Staged(w: Which, len: nat) | Passed(w: Which, count: nat)

  datatype Chan = Chan(
    bind: BindSpec, phase: Phase, rx: Dir, tx: Dir, lastEngaged: bool, backoffMs: nat, nextAttemptUs: nat,
    state: int, cause: nat, log: seq<Event>,
    // history: sessions entered, dials failed in a row and when the last one did
    activations: nat, fails: nat, lastFailUs: nat)

  const IDLE_DIR: Dir := Dir(false, 0)

  function NewChan(bind: BindSpec): (c: Chan) {
    Chan(bind, FreshIdle, IDLE_DIR, IDLE_DIR, false, 0, 0, IDLE, NO_CAUSE, [], 0, 0, 0)
  }

  function GetDir(c: Chan, w: Which): (d: Dir) {
    if w == Rx then c.rx else c.tx
  }

  function PutDir(c: Chan, w: Which, d: Dir): (c': Chan) {
    if w == Rx then c.(rx := d) else c.(tx := d)
  }

  // What the socket and the clock answer during one poll, call site by call site.
  datatype Socket = Socket(
    flushMaySend: bool,  // may_send at the disengage edge
    drained: bool,  // state() == Closed while closing
    listenOk: bool, connectOk: bool,
    up: bool,  // may_send() || may_recv() during the handshake
    refused: bool,  // state() == Closed while connecting
    mayRecv: bool, maySend: bool,  // in the active block
    recvOk: nat -> bool, sendOk: nat -> bool,  // result of the k-th recv / send
    nextRx: nat, nextTx: nat)  // lengths from get_next_rx / get_next_tx

  datatype Outcome = Outcome(stateChanged: bool, ringProgress: bool)

  const QUIET: Outcome := Outcome(false, false)
  const CHANGED: Outcome := Outcome(true, false)

  predicate ShouldWake(o: Outcome) {
    o.stateChanged || o.ringProgress
  }

  // ---- Elementary transitions ----

  function Fail(c: Chan, cause: nat): (c': Chan) {
    c.(phase := Failed, cause := cause, state := FAILED)
  }

  function Publish(c: Chan, phase: Phase, state: int): (c': Chan) {
    c.(phase := phase, state := state)
  }

  // schedule_retry.
  function ScheduleRetry(c: Chan, now: nat): (c': Chan) {
    var next := if c.backoffMs == 0 then BACKOFF_MIN_MS else Min(Min(2 * c.backoffMs, 0xFFFF_FFFF), BACKOFF_CAP_MS);
    c.(backoffMs := next, nextAttemptUs := Min(now + next * 1000, CLOCK_MAX), fails := c.fails + 1, lastFailUs := now)
  }

  function ClearBackoff(c: Chan): (c': Chan) {
    c.(backoffMs := 0, nextAttemptUs := 0, fails := 0)
  }

  // ---- Draining increments ----

  datatype End = Drained | Bogus | IoError

  predicate BogusCount(d: Dir, v: nat) {
    !d.pending || v == 0 || v > d.staged
  }

  // The result of a drain: the channel, the rings, how it ended, and how many increments it popped.
  datatype Drain = Drain(c: Chan, sh: Shared, end: End, pops: nat)

  // The drain loop of one direction from its k-th pop on. `strict` is false at the disengage edge,
  // where the result of socket.send is ignored.
  function DrainLane(c: Chan, sh: Shared, w: Which, k: nat, ok: nat -> bool, strict: bool, env: Env): (r: Drain)
    decreases GetDir(c, w).pending
  {
    var sh1 := env(Pop(w, k), sh);
    var lane := Get(sh1, w);
    if lane.incs == [] then Drain(c, sh1, Drained, k)
    else
      var v := lane.incs[0];
      var sh2 := Put(sh1, w, lane.(incs := lane.incs[1..]));
      if BogusCount(GetDir(c, w), v) then Drain(c, sh2, Bogus, k + 1)
      else
        var c1 := c.(log := c.log + [Passed(w, v)]);
        if strict && !ok(k) then Drain(c1, sh2, IoError, k + 1)
        else DrainLane(PutDir(c1, w, IDLE_DIR), sh2, w, k + 1, ok, strict, env)
  }

  // enqueue_slice, whose result the kernel ignores.
  function Enqueued(sh: Shared, w: Which, len: nat): (sh': Shared) {
    var lane := Get(sh, w);
    if |lane.slices| < RING_CAPACITY then Put(sh, w, lane.(slices := lane.slices + [len])) else sh
  }

  // Stage the next slice of one direction if nothing is pending there.
  function StageLane(c: Chan, sh: Shared, w: Which, len: nat, env: Env): (r: (Chan, Shared, bool)) {
    var sh1 := env(Stage(w), sh);
    var lane := Get(sh1, w);
    if GetDir(c, w).pending || (w == Tx && lane.slices != []) || len == 0 then (c, sh1, false)
    else
      var sh2 := env(Push(w), sh1);
      (PutDir(c, w, Dir(true, len)).(log := c.log + [Staged(w, len)]), Enqueued(sh2, w, len), true)
  }

  // ---- The blocks of update_tcp ----

  datatype Poll = Poll(c: Chan, sh: Shared, out: Outcome)

  // The 1 -> 0 edge of `engaged` during a session.
  function Disengage(c: Chan, sh: Shared, s: Socket, env: Env): (r: Poll) {
    var d := if s.flushMaySend then DrainLane(c, sh, Tx, 0, s.sendOk, false, env) else Drain(c, sh, Drained, 0);
    if d.end == Bogus then Poll(Fail(d.c, EBIND_IO), d.sh, CHANGED)
    else Poll(Publish(d.c, Closing, CLOSING), d.sh, CHANGED)
  }

  // The end of a session: reset the kernel's ring halves, forget both directions and go where the
  // binding says. What the rings hold then is up to the user, who owns the other halves.
  function Recycle(c: Chan, sh: Shared, s: Socket, env: Env): (r: Poll) {
    if !s.drained then Poll(c, sh, QUIET)
    else
      var c1 := c.(rx := IDLE_DIR, tx := IDLE_DIR);
      var sh1 := env(Reset, sh);
      match c.bind
      case ServerRetain(_) =>
        Poll(if s.listenOk then Publish(c1, Listening, IN_FLIGHT) else Fail(c1, EBIND_LISTEN), sh1, CHANGED)
      case ClientRetain(_, _) => Poll(Publish(ClearBackoff(c1), FreshIdle, IDLE), sh1, CHANGED)
      case _ => Poll(Fail(c1, EBIND_DONE), sh1, CHANGED)
  }

  // First poll of a binding, or of a retained client after a recycle or a failed dial.
  function Arm(c: Chan, engaged: bool, now: nat, s: Socket): (r: (Chan, bool)) {
    match c.bind
    case ServerOneShot(_) => (if s.listenOk then Publish(c, Listening, IN_FLIGHT) else Fail(c, EBIND_LISTEN), true)
    case ServerRetain(_) => (if s.listenOk then Publish(c, Listening, IN_FLIGHT) else Fail(c, EBIND_LISTEN), true)
    case ClientRetain(_, _) =>
      if now < c.nextAttemptUs then (c, false)
      else if s.connectOk then (Publish(c, Connecting, IN_FLIGHT), true)
      else (ScheduleRetry(c, now), false)
    case ClientOneShot(_, _) =>
      if !engaged then (c, false)
      else if s.connectOk then (Publish(c, Connecting, IN_FLIGHT), true)
      else (Fail(c, EBIND_CONNECT), true)
  }

  function Enter(c: Chan): (c': Chan) {
    Publish(c, Active, ACTIVE).(activations := c.activations + 1)
  }

  function Handshake(c: Chan, now: nat, s: Socket): (r: (Chan, bool)) {
    if c.phase == Listening && s.up then (Enter(c), true)
    else if c.phase == Connecting then
      if s.up then (ClearBackoff(Enter(c)), true)
      else if s.refused then
        match c.bind
        case ClientOneShot(_, _) => (Fail(c, EBIND_CONNECT), true)
        case ClientRetain(_, _) => (ScheduleRetry(Publish(c, FreshIdle, IDLE), now), true)
        case _ => (c, false)
      else (c, false)
    else (c, false)
  }

  // One direction of the active block.
  function PumpLane(c: Chan, sh: Shared, w: Which, may: bool, ok: nat -> bool, len: nat, env: Env): (r: Poll) {
    if !may then Poll(c, sh, QUIET)
    else
      var d := DrainLane(c, sh, w, 0, ok, true, env);
      if d.end != Drained then Poll(Fail(d.c, EBIND_IO), d.sh, CHANGED)
      else
        var (c1, sh1, staged) := StageLane(d.c, d.sh, w, len, env);
        Poll(c1, sh1, Outcome(false, staged))
  }

  function Pump(c: Chan, sh: Shared, s: Socket, env: Env): (r: Poll) {
    var p := PumpLane(c, sh, Rx, s.mayRecv, s.recvOk, s.nextRx, env);
    if p.c.phase == Failed then p
    else
      var q := PumpLane(p.c, p.sh, Tx, s.maySend, s.sendOk, s.nextTx, env);
      Poll(q.c, q.sh, Outcome(q.out.stateChanged, p.out.ringProgress || q.out.ringProgress))
  }

  function UpdateTcp(c: Chan, sh: Shared, engaged: bool, now: nat, s: Socket, env: Env): (r: Poll) {
    var sh0 := env(Start, sh);
    var was := c.lastEngaged;
    var c0 := c.(lastEngaged := engaged);
    if c.phase == Failed then Poll(c0, sh0, QUIET)
    else if was && !engaged && c.phase == Active then Disengage(c0, sh0, s, env)
    else if c.phase == Closing then Recycle(c0, sh0, s, env)
    else
      var (c1, b1) := if c.phase == FreshIdle then Arm(c0, engaged, now, s) else (c0, false);
      if c1.phase == Failed then Poll(c1, sh0, CHANGED)
      else
        var (c2, b2) := Handshake(c1, now, s);
        if c2.phase != Active then Poll(c2, sh0, Outcome(b1 || b2, false))
        else
          var p := Pump(c2, sh0, s, env);
          Poll(p.c, p.sh, Outcome(b1 || b2 || p.out.stateChanged, p.out.ringProgress))
  }

  // ---- Runs ----

  datatype Input = Input(engaged: bool, now: nat, s: Socket, env: Env)

  function After(c: Chan, sh: Shared, ins: seq<Input>): (r: (Chan, Shared))
    decreases |ins|
  {
    if ins == [] then (c, sh)
    else
      var p := UpdateTcp(c, sh, ins[0].engaged, ins[0].now, ins[0].s, ins[0].env);
      After(p.c, p.sh, ins[1..])
  }
}

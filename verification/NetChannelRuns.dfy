/**
 What holds of the reconciler over every run, whatever the socket answers and whatever the user
 writes into the rings.
 */
module NetChannelRuns {
  import opened Powers
  import opened Wrappers
  import opened NetChannel

  // ---- The event log ----

  // The slice of direction w that is staged and not yet passed to the socket.
  function LastStaged(log: seq<Event>, w: Which): (r: Option<nat>) {
    if log == [] then None
    else
      var e := log[|log| - 1];
      if e.w == w then Left(e) else LastStaged(log[..|log| - 1], w)
  }

  // What an event leaves staged in its direction.
  function Left(e: Event): (r: Option<nat>) {
    if e.Staged? then Some(e.len) else None
  }

  // Every count passed to the socket acknowledges the last staged slice of its direction, once, and
  // lies between 1 and that slice's length.
  predicate Disciplined(log: seq<Event>) {
    log == [] || (Disciplined(log[..|log| - 1]) && Fits(log[..|log| - 1], log[|log| - 1]))
  }

  predicate Fits(log: seq<Event>, e: Event) {
    if e.Staged? then e.len > 0
    else LastStaged(log, e.w).Some? && 1 <= e.count <= LastStaged(log, e.w).value
  }

  lemma Append(log: seq<Event>, e: Event)
    ensures Disciplined(log + [e]) <==> Disciplined(log) && Fits(log, e)
    ensures forall w :: LastStaged(log + [e], w) == if e.w == w then Left(e) else LastStaged(log, w)
  {
    assert (log + [e])[..|log|] == log;
  }

  // ---- The invariant ----

  function Code(p: Phase): (s: int) {
    match p
    case FreshIdle => IDLE
    case Listening => IN_FLIGHT
    case Connecting => IN_FLIGHT
    case Active => ACTIVE
    case Closing => CLOSING
    case Failed => FAILED
  }

  // min(100 * 2^(k-1), 30000) ms after k >= 1 failed dials in a row.
  function Backoff(k: nat): (ms: nat) {
    if k == 0 then 0 else Min(BACKOFF_MIN_MS * Pow2(k - 1), BACKOFF_CAP_MS)
  }

  predicate DirOk(d: Dir) {
    d.pending <==> d.staged > 0
  }

  predicate BindingOk(c: Chan) {
    && (c.phase == Listening ==> IsServer(c.bind))
    && (c.phase == Connecting ==> !IsServer(c.bind))
    && (c.phase == Failed <==> c.cause != NO_CAUSE)
    && (c.cause == EBIND_LISTEN ==> IsServer(c.bind))
    && (c.cause == EBIND_CONNECT ==> c.bind.ClientOneShot? && c.activations == 0)
    && (c.cause == EBIND_DONE ==> !IsRetain(c.bind) && c.activations == 1)
    && (c.cause == EBIND_IO || c.phase in {Active, Closing} ==> c.activations > 0)
    && (!IsRetain(c.bind) ==> c.activations <= 1)
    && (!IsRetain(c.bind) && c.phase in {FreshIdle, Listening, Connecting} ==> c.activations == 0)
  }

  predicate BackoffOk(c: Chan) {
    && (!c.bind.ClientRetain? || c.phase in {Active, Closing} ==> c.fails == 0)
    && c.backoffMs == Backoff(c.fails)
    && c.nextAttemptUs == if c.fails == 0 then 0 else Min(c.lastFailUs + c.backoffMs * 1000, CLOCK_MAX)
  }

  predicate LogOk(c: Chan) {
    && DirOk(c.rx) && DirOk(c.tx) && Disciplined(c.log)
    && (c.phase != Failed && c.rx.pending ==> LastStaged(c.log, Rx) == Some(c.rx.staged))
    && (c.phase != Failed && c.tx.pending ==> LastStaged(c.log, Tx) == Some(c.tx.staged))
  }

  predicate Inv(c: Chan) {
    c.state == Code(c.phase) && BindingOk(c) && BackoffOk(c) && LogOk(c)
  }

  lemma NewInv(bind: BindSpec)
    ensures Inv(NewChan(bind))
  {
  }

  // ---- Draining ----

  // A drain only touches its own direction and the log.
  predicate OnlyLane(c: Chan, c': Chan, w: Which) {
    c' == PutDir(c, w, GetDir(c', w)).(log := c'.log)
  }

  // The log grew without new slices.
  predicate NothingStaged(log: seq<Event>, log': seq<Event>) {
    log <= log' && forall i :: |log| <= i < |log'| ==> log'[i].Passed?
  }

  lemma {:induction false} DrainFacts(c: Chan, sh: Shared, w: Which, k: nat, ok: nat -> bool, strict: bool, env: Env)
    requires LogOk(c) && c.phase != Failed
    ensures var d := DrainLane(c, sh, w, k, ok, strict, env);
            && OnlyLane(c, d.c, w) && NothingStaged(c.log, d.c.log)
            && DirOk(GetDir(d.c, w)) && Disciplined(d.c.log) && (d.end == Drained ==> LogOk(d.c))
            && k <= d.pops <= k + 2
            && (d.end == IoError ==> strict)
            && (!GetDir(c, w).pending ==> d.pops <= k + 1 && d.c == c && d.end != IoError)
    decreases GetDir(c, w).pending
  {
    hide Disciplined, LastStaged;
    var sh1 := env(Pop(w, k), sh);
    var lane := Get(sh1, w);
    if lane.incs != [] && !BogusCount(GetDir(c, w), lane.incs[0]) {
      var v := lane.incs[0];
      Append(c.log, Passed(w, v));
      if !(strict && !ok(k)) {
        var c1 := PutDir(c.(log := c.log + [Passed(w, v)]), w, IDLE_DIR);
        DrainFacts(c1, Put(sh1, w, lane.(incs := lane.incs[1..])), w, k + 1, ok, strict, env);
      }
    }
  }

  lemma StageFacts(c: Chan, sh: Shared, w: Which, len: nat, env: Env)
    requires LogOk(c) && c.phase != Failed
    ensures var (c', sh', staged) := StageLane(c, sh, w, len, env);
            && OnlyLane(c, c', w) && LogOk(c') && c'.log == if staged then c.log + [Staged(w, len)] else c.log
  {
    Append(c.log, Staged(w, len));
  }

  // ---- Backoff ----

  lemma BackoffStep(k: nat)
    ensures Backoff(k + 1) == if Backoff(k) == 0 then BACKOFF_MIN_MS
                              else Min(Min(2 * Backoff(k), 0xFFFF_FFFF), BACKOFF_CAP_MS)
  {
  }

  lemma RetryInv(c: Chan, now: nat)
    requires BackoffOk(c) && c.bind.ClientRetain? && c.phase == FreshIdle
    ensures BackoffOk(ScheduleRetry(c, now))
  {
    BackoffStep(c.fails);
  }

  // ---- Every block keeps the invariant ----

  lemma DisengageInv(c: Chan, sh: Shared, s: Socket, env: Env)
    requires Inv(c) && c.phase == Active
    ensures Inv(Disengage(c, sh, s, env).c) && Disengage(c, sh, s, env).c.phase in {Closing, Failed}
    ensures Disengage(c, sh, s, env).c.phase == Failed ==> Disengage(c, sh, s, env).c.cause == EBIND_IO
  {
    hide Disciplined, LastStaged, Backoff;
    DrainFacts(c, sh, Tx, 0, s.sendOk, false, env);
  }

  lemma RecycleInv(c: Chan, sh: Shared, s: Socket, env: Env)
    requires Inv(c) && c.phase == Closing
    ensures Inv(Recycle(c, sh, s, env).c) && Recycle(c, sh, s, env).c.log == c.log
  {
    hide Disciplined, LastStaged;
  }

  lemma ArmInv(c: Chan, engaged: bool, now: nat, s: Socket)
    requires Inv(c) && c.phase == FreshIdle
    ensures Inv(Arm(c, engaged, now, s).0) && Arm(c, engaged, now, s).0.log == c.log
  {
    hide Disciplined, LastStaged, Backoff;
    if c.bind.ClientRetain? { RetryInv(c, now); }
  }

  lemma HandshakeInv(c: Chan, now: nat, s: Socket)
    requires Inv(c) && c.phase in {FreshIdle, Listening, Connecting, Active}
    ensures Inv(Handshake(c, now, s).0) && Handshake(c, now, s).0.log == c.log
  {
    hide Disciplined, LastStaged;
    if c.phase == Connecting && c.bind.ClientRetain? { RetryInv(Publish(c, FreshIdle, IDLE), now); }
  }

  // Changing one direction and the log, in order, keeps the invariant; so does failing after it.
  lemma LaneInv(c: Chan, c': Chan, w: Which)
    requires Inv(c) && OnlyLane(c, c', w)
    ensures LogOk(c') ==> Inv(c')
    ensures c.phase == Active && DirOk(GetDir(c', w)) && Disciplined(c'.log) ==> Inv(Fail(c', EBIND_IO))
  {
    hide Disciplined, LastStaged, Backoff;
  }

  // A direction of the active block ends the session only by an I/O failure, and reports progress
  // exactly if it stages a slice.
  lemma PumpLaneFacts(c: Chan, sh: Shared, w: Which, may: bool, ok: nat -> bool, len: nat, env: Env)
    requires Inv(c) && c.phase == Active
    ensures var p := PumpLane(c, sh, w, may, ok, len, env);
            && Inv(p.c) && p.c.bind == c.bind && p.c.activations == c.activations
            && p.c.phase in {Active, Failed} && (p.c.phase == Failed ==> p.c.cause == EBIND_IO)
            && (p.out.stateChanged <==> p.c.phase == Failed) && c.log <= p.c.log
            && (p.out.ringProgress <==> !NothingStaged(c.log, p.c.log))
  {
    hide LogOk, BindingOk, BackoffOk, DirOk, Disciplined, DrainLane;
    if may {
      var d := DrainLane(c, sh, w, 0, ok, true, env);
      DrainFacts(c, sh, w, 0, ok, true, env);
      LaneInv(c, d.c, w);
      if d.end == Drained {
        StageFacts(d.c, d.sh, w, len, env);
        var (c1, _, staged) := StageLane(d.c, d.sh, w, len, env);
        LaneInv(d.c, c1, w);
        if staged { assert c1.log[|d.c.log|].Staged?; }
      }
    }
  }

  lemma PumpFacts(c: Chan, sh: Shared, s: Socket, env: Env)
    requires Inv(c) && c.phase == Active
    ensures var p := Pump(c, sh, s, env);
            && Inv(p.c) && p.c.bind == c.bind && p.c.activations == c.activations
            && p.c.phase in {Active, Failed} && (p.c.phase == Failed ==> p.c.cause == EBIND_IO)
            && (p.out.stateChanged <==> p.c.phase == Failed) && c.log <= p.c.log
            && (p.out.ringProgress <==> !NothingStaged(c.log, p.c.log))
  {
    hide Inv, PumpLane, NothingStaged;
    var p := PumpLane(c, sh, Rx, s.mayRecv, s.recvOk, s.nextRx, env);
    PumpLaneFacts(c, sh, Rx, s.mayRecv, s.recvOk, s.nextRx, env);
    if p.c.phase == Active {
      PumpLaneFacts(p.c, p.sh, Tx, s.maySend, s.sendOk, s.nextTx, env);
      StagedTrans(c.log, p.c.log, PumpLane(p.c, p.sh, Tx, s.maySend, s.sendOk, s.nextTx, env).c.log);
    }
  }

  lemma StagedTrans(a: seq<Event>, b: seq<Event>, c: seq<Event>)
    requires a <= b <= c
    ensures NothingStaged(a, c) <==> NothingStaged(a, b) && NothingStaged(b, c)
  {
    assert forall i :: 0 <= i < |b| ==> c[i] == b[i];
  }

  lemma StepInv(c: Chan, sh: Shared, i: Input)
    requires Inv(c)
    ensures Inv(UpdateTcp(c, sh, i.engaged, i.now, i.s, i.env).c)
  {
    hide LogOk, BackoffOk, Backoff;
    var c0, sh0 := c.(lastEngaged := i.engaged), i.env(Start, sh);
    EngagedInv(c, i.engaged);
    if c.phase == Active && c.lastEngaged && !i.engaged {
      DisengageInv(c0, sh0, i.s, i.env);
    } else if c.phase == Closing {
      RecycleInv(c0, sh0, i.s, i.env);
    } else if c.phase != Failed {
      if c.phase == FreshIdle { ArmInv(c0, i.engaged, i.now, i.s); }
      var c1 := if c.phase == FreshIdle then Arm(c0, i.engaged, i.now, i.s).0 else c0;
      if c1.phase != Failed {
        HandshakeInv(c1, i.now, i.s);
        var c2 := Handshake(c1, i.now, i.s).0;
        if c2.phase == Active { PumpFacts(c2, sh0, i.s, i.env); }
      }
    }
  }

  lemma EngagedInv(c: Chan, engaged: bool)
    requires Inv(c)
    ensures Inv(c.(lastEngaged := engaged))
  {
  }

  // Over every run, against any socket and any user: the published code matches the phase, pending
  // flags mark staged lengths, the binding and backoff rules hold, and the log is disciplined.
  lemma {:induction false} RunInv(c: Chan, sh: Shared, ins: seq<Input>)
    requires Inv(c)
    ensures Inv(After(c, sh, ins).0)
    decreases |ins|
  {
    hide Inv, UpdateTcp;
    if ins != [] {
      StepInv(c, sh, ins[0]);
      var p := UpdateTcp(c, sh, ins[0].engaged, ins[0].now, ins[0].s, ins[0].env);
      RunInv(p.c, p.sh, ins[1..]);
    }
  }

  // ---- What one poll can do ----

  function Polled(c: Chan, sh: Shared, i: Input): (r: Poll) {
    UpdateTcp(c, sh, i.engaged, i.now, i.s, i.env)
  }

  // The last poll of a run works on what the others left.
  lemma {:induction false} AfterLast(c: Chan, sh: Shared, ins: seq<Input>, i: Input)
    ensures var (c', sh') := After(c, sh, ins);
            var p := Polled(c', sh', i);
            After(c, sh, ins + [i]) == (p.c, p.sh)
    decreases |ins|
  {
    hide UpdateTcp;
    if ins == [] {
      assert (ins + [i])[1..] == [];
    } else {
      assert (ins + [i])[1..] == ins[1..] + [i];
      var p := Polled(c, sh, ins[0]);
      AfterLast(p.c, p.sh, ins[1..], i);
    }
  }

  // Failed is absorbing, and silent.
  lemma FailedSticks(c: Chan, sh: Shared, i: Input)
    requires c.phase == Failed
    ensures Polled(c, sh, i).c == c.(lastEngaged := i.engaged) && !ShouldWake(Polled(c, sh, i).out)
  {
  }

  lemma {:induction false} FailedForever(c: Chan, sh: Shared, ins: seq<Input>)
    requires c.phase == Failed
    ensures var c' := After(c, sh, ins).0;
            c'.phase == Failed && c'.cause == c.cause && c'.state == c.state && c'.log == c.log
    decreases |ins|
  {
    if ins != [] {
      FailedSticks(c, sh, ins[0]);
      FailedForever(Polled(c, sh, ins[0]).c, Polled(c, sh, ins[0]).sh, ins[1..]);
    }
  }

  // A session ends only by the user letting go, or by an I/O failure.
  lemma ActiveLeft(c: Chan, sh: Shared, i: Input)
    requires Inv(c) && c.phase == Active && Polled(c, sh, i).c.phase != Active
    ensures var c' := Polled(c, sh, i).c;
            || (c'.phase == Closing && c.lastEngaged && !i.engaged)
            || (c'.phase == Failed && c'.cause == EBIND_IO)
  {
    hide LogOk, BackoffOk, DrainLane, PumpLane;
    var c0, sh0 := c.(lastEngaged := i.engaged), i.env(Start, sh);
    EngagedInv(c, i.engaged);
    if c.lastEngaged && !i.engaged {
      DisengageInv(c0, sh0, i.s, i.env);
    } else {
      PumpFacts(c0, sh0, i.s, i.env);
    }
  }

  // A retained client dials and is refused within one poll.
  predicate Bounces(c: Chan, i: Input) {
    && c.bind.ClientRetain? && c.phase == FreshIdle && i.now >= c.nextAttemptUs
    && i.s.connectOk && !i.s.up && i.s.refused
  }

  // A poll reports ring progress if and only if it staged a slice, and a change of state if and only
  // if the published state changed, or came back to where it was after a refused dial.
  lemma WakeIffNews(c: Chan, sh: Shared, i: Input)
    requires Inv(c)
    ensures var p := Polled(c, sh, i);
            && c.log <= p.c.log
            && (p.out.ringProgress <==> !NothingStaged(c.log, p.c.log))
            && (p.out.stateChanged <==> p.c.state != c.state || Bounces(c, i))
  {
    hide LogOk, BackoffOk, DrainLane, PumpLane, Pump, NothingStaged, Disengage, Arm, Handshake, Recycle;
    var c0, sh0 := c.(lastEngaged := i.engaged), i.env(Start, sh);
    EngagedInv(c, i.engaged);
    NoneStaged(c.log);
    if c.phase == Active && c.lastEngaged && !i.engaged {
      DisengageStages(c0, sh0, i.s, i.env);
      DisengageInv(c0, sh0, i.s, i.env);
    } else if c.phase == Closing {
      RecycleNews(c0, sh0, i.s, i.env);
    } else if c.phase != Failed {
      if c.phase == FreshIdle {
        ArmInv(c0, i.engaged, i.now, i.s);
        ArmNews(c0, i.engaged, i.now, i.s);
      }
      var c1 := if c.phase == FreshIdle then Arm(c0, i.engaged, i.now, i.s).0 else c0;
      if c1.phase != Failed {
        HandshakeInv(c1, i.now, i.s);
        HandshakeNews(c1, i.now, i.s);
        var c2 := Handshake(c1, i.now, i.s).0;
        if c2.phase == Active { PumpFacts(c2, sh0, i.s, i.env); }
      }
    }
  }

  lemma NoneStaged(log: seq<Event>)
    ensures NothingStaged(log, log)
  {
  }

  lemma RecycleNews(c: Chan, sh: Shared, s: Socket, env: Env)
    requires Inv(c) && c.phase == Closing
    ensures var p := Recycle(c, sh, s, env);
            p.c.log == c.log && !p.out.ringProgress && (p.out.stateChanged <==> p.c.state != c.state)
  {
    hide LogOk, BackoffOk;
  }

  lemma ArmNews(c: Chan, engaged: bool, now: nat, s: Socket)
    requires Inv(c) && c.phase == FreshIdle
    ensures var (c', changed) := Arm(c, engaged, now, s);
            && c'.log == c.log && c'.bind == c.bind && (changed <==> c'.state != c.state)
            && c'.phase in {FreshIdle, Listening, Connecting, Failed} && (changed <==> c'.phase != FreshIdle)
            && (c'.phase == Connecting && c.bind.ClientRetain? ==> now >= c.nextAttemptUs && s.connectOk)
            && (c.bind.ClientRetain? && now >= c.nextAttemptUs && s.connectOk ==> c'.phase == Connecting)
  {
    hide LogOk, BackoffOk;
  }

  lemma HandshakeNews(c: Chan, now: nat, s: Socket)
    requires Inv(c) && c.phase in {FreshIdle, Listening, Connecting, Active}
    ensures var (c', changed) := Handshake(c, now, s);
            && c'.log == c.log && c'.bind == c.bind && (changed <==> c'.state != c.state)
            && (c'.phase == FreshIdle && changed <==>
                  c.phase == Connecting && c.bind.ClientRetain? && !s.up && s.refused)
            && (c'.phase in {Active, Failed} || c'.phase == c.phase || c'.phase == FreshIdle)
  {
    hide LogOk, BackoffOk;
  }

  lemma DisengageStages(c: Chan, sh: Shared, s: Socket, env: Env)
    requires Inv(c) && c.phase == Active
    ensures var p := Disengage(c, sh, s, env);
            && NothingStaged(c.log, p.c.log) && c.log <= p.c.log && p.out == CHANGED
            && p.c.state in {CLOSING, FAILED}
  {
    hide Disciplined, LastStaged, Backoff;
    DrainFacts(c, sh, Tx, 0, s.sendOk, false, env);
  }

  // Such a poll exists if the socket can read as closed right after it accepted the dial: the owner is
  // woken although the published state is what it was.
  lemma BounceExample() returns (c: Chan, sh: Shared, i: Input)
    ensures Inv(c) && Bounces(c, i)
    ensures var p := Polled(c, sh, i); p.c.state == c.state && p.out.stateChanged && p.c.fails == 1
  {
    c, sh := NewChan(ClientRetain(1, 80)), Shared(EMPTY_LANE, EMPTY_LANE);
    var s := Socket(true, false, true, true, false, true, false, false, _ => true, _ => true, 0, 0);
    i := Input(true, 0, s, (p, sh) => sh);
  }

  // Draining alone is not news: with a transmit slice of 5 bytes pending, acknowledged by the user,
  // and nothing new to stage, the count goes to the socket and the poll wakes nobody.
  lemma DrainWakesNobody() returns (c: Chan, sh: Shared, i: Input)
    ensures Inv(c) && c.phase == Active && c.tx == Dir(true, 5) && sh.tx.incs == [5]
    ensures var p := Polled(c, sh, i);
            p.c.phase == Active && p.c.log == c.log + [Passed(Tx, 5)] && !ShouldWake(p.out)
  {
    c := NewChan(ServerRetain(80));
    c := c.(phase := Active, state := ACTIVE, activations := 1, tx := Dir(true, 5), log := [Staged(Tx, 5)]);
    sh := Shared(EMPTY_LANE, Lane([], [5], None));
    var s := Socket(true, false, true, true, true, false, false, true, _ => true, _ => true, 0, 0);
    i := Input(true, 0, s, (p, sh) => sh);
    Append([], Staged(Tx, 5));
    assert [] + [Staged(Tx, 5)] == [Staged(Tx, 5)];
  }

  // A retained client does not dial before its backoff has passed: until then a poll leaves the
  // channel as it is.
  lemma NoEarlyDial(c: Chan, sh: Shared, i: Input)
    requires Inv(c) && c.bind.ClientRetain? && c.phase == FreshIdle && c.fails > 0
    requires i.now < Min(c.lastFailUs + Min(100 * Pow2(c.fails - 1), 30_000) * 1000, CLOCK_MAX)
    ensures Polled(c, sh, i).c == c.(lastEngaged := i.engaged)
  {
  }

  // The time before which a client does not dial, or never for a one-shot client that is not engaged.
  predicate MayDial(c: Chan, i: Input) {
    match c.bind
    case ClientRetain(_, _) =>
      c.fails == 0 || i.now >= Min(c.lastFailUs + Min(100 * Pow2(c.fails - 1), 30_000) * 1000, CLOCK_MAX)
    case ClientOneShot(_, _) => i.engaged
    case _ => true
  }

  // A client that may not dial yet stays as it is.
  lemma WaitsToDial(c: Chan, sh: Shared, i: Input)
    requires Inv(c) && c.phase == FreshIdle && !MayDial(c, i)
    ensures Polled(c, sh, i).c == c.(lastEngaged := i.engaged)
  {
    if c.bind.ClientRetain? { NoEarlyDial(c, sh, i); }
  }

  // ---- Nothing the user reported is left behind ----

  // A drain that ends well has emptied the ring, and its first increment went to the socket first.
  lemma {:induction false} DrainPasses(c: Chan, sh: Shared, w: Which, k: nat, ok: nat -> bool, strict: bool, env: Env)
    ensures var d := DrainLane(c, sh, w, k, ok, strict, env);
            var incs := Get(env(Pop(w, k), sh), w).incs;
            && c.log <= d.c.log
            && (d.end == Drained ==> Get(d.sh, w).incs == [])
            && (d.end == Drained && incs != [] ==> c.log + [Passed(w, incs[0])] <= d.c.log)
    decreases GetDir(c, w).pending
  {
    var sh1 := env(Pop(w, k), sh);
    var lane := Get(sh1, w);
    if lane.incs != [] && !BogusCount(GetDir(c, w), lane.incs[0]) && !(strict && !ok(k)) {
      var c1 := PutDir(c.(log := c.log + [Passed(w, lane.incs[0])]), w, IDLE_DIR);
      DrainPasses(c1, Put(sh1, w, lane.(incs := lane.incs[1..])), w, k + 1, ok, strict, env);
    }
  }

  // Letting go of a session flushes: what the user reported as written before the last poll is sent
  // before the connection closes.
  lemma DisengageFlushes(c: Chan, sh: Shared, s: Socket, env: Env)
    requires s.flushMaySend && Disengage(c, sh, s, env).c.phase == Closing
    ensures var p := Disengage(c, sh, s, env);
            var incs := env(Pop(Tx, 0), sh).tx.incs;
            p.sh.tx.incs == [] && (incs != [] ==> c.log + [Passed(Tx, incs[0])] <= p.c.log)
  {
    DrainPasses(c, sh, Tx, 0, s.sendOk, false, env);
  }

  // What one poll guarantees, together.
  lemma PollFacts(c: Chan, sh: Shared, i: Input)
    requires Inv(c)
    ensures var p := Polled(c, sh, i);
            && Inv(p.c) && p.c.state == Code(p.c.phase) && c.log <= p.c.log && Disciplined(p.c.log)
            && (p.out.ringProgress <==> !NothingStaged(c.log, p.c.log))
            && (p.out.stateChanged <==> p.c.state != c.state || Bounces(c, i))
            && (c.phase == Failed ==> p.c == c.(lastEngaged := i.engaged) && !ShouldWake(p.out))
            && (c.phase == FreshIdle && !MayDial(c, i) ==> p.c == c.(lastEngaged := i.engaged))
            && (c.phase == Active && p.c.phase != Active ==>
                  || (p.c.phase == Closing && c.lastEngaged && !i.engaged)
                  || (p.c.phase == Failed && p.c.cause == EBIND_IO))
  {
    hide UpdateTcp, NothingStaged, BindingOk, BackoffOk, Bounces, MayDial;
    StepInv(c, sh, i);
    if c.phase == FreshIdle && !MayDial(c, i) { WaitsToDial(c, sh, i); }
    WakeIffNews(c, sh, i);
    if c.phase == Failed { FailedSticks(c, sh, i); }
    if c.phase == Active && Polled(c, sh, i).c.phase != Active { ActiveLeft(c, sh, i); }
  }

  lemma InvBackoff(c: Chan)
    requires Inv(c)
    ensures BackoffOk(c) && (c.phase == Connecting ==> BackoffOk(Publish(c, FreshIdle, IDLE)))
  {
  }

  lemma DrainDiscipline(c: Chan, sh: Shared, w: Which, ok: nat -> bool, strict: bool, env: Env)
    requires Inv(c) && c.phase != Failed
    ensures var d := DrainLane(c, sh, w, 0, ok, strict, env); NothingStaged(c.log, d.c.log) && Disciplined(d.c.log)
  {
    DrainFacts(c, sh, w, 0, ok, strict, env);
  }

  lemma StageInv(c: Chan, sh: Shared, w: Which, len: nat, env: Env)
    requires Inv(c) && c.phase != Failed
    ensures var (c', sh', staged) := StageLane(c, sh, w, len, env);
            Inv(c') && (staged <==> !NothingStaged(c.log, c'.log))
  {
    hide BindingOk, BackoffOk, Disciplined, LastStaged;
    StageFacts(c, sh, w, len, env);
    var (c', sh', staged) := StageLane(c, sh, w, len, env);
    LaneInv(c, c', w);
    if staged { assert c'.log[|c.log|].Staged?; }
  }
}

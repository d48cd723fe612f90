/**
 The token protocol of the rings with a user who keeps to it: takes one slice at a time and
 reports between 1 and its length (net_channel/src/lib.rs:1393-1479). The user may act between
 any two ring accesses of the kernel.
 */
module NetChannelTokens {
  import opened Wrappers
  import opened NetChannel
  import opened NetChannelRuns

  // The two halves of send_tcp / recv_tcp around the caller's closure.
  datatype Act = Take(w: Which) | Report(w: Which, count: nat)

  function Do(sh: Shared, a: Act): (sh': Shared) {
    var lane := Get(sh, a.w);
    match a
    case Take(w) =>
      if lane.hand.None? && lane.slices != [] && |lane.incs| < RING_CAPACITY
      then Put(sh, w, lane.(slices := lane.slices[1..], hand := Some(lane.slices[0])))
      else sh
    case Report(w, n) =>
      if lane.hand.Some? && 1 <= n <= lane.hand.value
      then Put(sh, w, lane.(hand := None, incs := if |lane.incs| < RING_CAPACITY then lane.incs + [n] else lane.incs))
      else sh
  }

  function DoAll(sh: Shared, acts: seq<Act>): (sh': Shared)
    decreases |acts|
  {
    if acts == [] then sh else DoAll(Do(sh, acts[0]), acts[1..])
  }

  // send_tcp and recv_tcp: a call is let through by the published state, takes a slice, and reports
  // what the closure f says it consumed of that slice.
  datatype CallResult = Done(count: nat) | Refused(code: int)

  function UserCall(sh: Shared, w: Which, state: int, f: nat -> nat): (r: (CallResult, Shared)) {
    var lane := Get(sh, w);
    if (if w == Tx then state != ACTIVE else state < ACTIVE) then (Refused(state), sh)
    else if lane.slices == [] then (Refused(-4), sh)
    else if |lane.incs| >= RING_CAPACITY then (Refused(-5), sh)
    else
      var n := f(lane.slices[0]);
      (Done(n), Put(sh, w, lane.(slices := lane.slices[1..], incs := if n == 0 then lane.incs else lane.incs + [n])))
  }

  ghost predicate UserReaches(sh: Shared, sh': Shared) {
    exists acts :: DoAll(sh, acts) == sh'
  }

  // Whenever the user gets in between, it takes some number of steps of its protocol. At the end of
  // a session it has reset its ring halves too before the kernel uses the rings again.
  ghost predicate Honest(env: Env) {
    forall p, sh :: if p == Reset then env(p, sh) == Shared(EMPTY_LANE, EMPTY_LANE) else UserReaches(sh, env(p, sh))
  }

  // ---- Tokens ----

  function Tokens(lane: Lane): (n: nat) {
    |lane.slices| + |lane.incs| + if lane.hand.Some? then 1 else 0
  }

  // The one token of a pending direction: the staged slice, queued or in the user's hand, or an
  // increment within its length.
  predicate LaneOk(lane: Lane, d: Dir) {
    if !d.pending then lane == EMPTY_LANE
    else
      || lane == Lane([d.staged], [], None)
      || lane == Lane([], [], Some(d.staged))
      || (|lane.incs| == 1 && lane == Lane([], lane.incs, None) && 1 <= lane.incs[0] <= d.staged)
  }

  lemma LaneTokens(lane: Lane, d: Dir)
    requires LaneOk(lane, d)
    ensures Tokens(lane) == if d.pending then 1 else 0
  {
  }

  predicate LanesOk(c: Chan, sh: Shared) {
    LaneOk(sh.rx, c.rx) && LaneOk(sh.tx, c.tx)
  }

  predicate TokenInv(c: Chan, sh: Shared) {
    DirOk(c.rx) && DirOk(c.tx) && (c.phase == Failed || LanesOk(c, sh))
  }

  lemma {:induction false} ActsKeepLanes(c: Chan, sh: Shared, acts: seq<Act>)
    requires DirOk(c.rx) && DirOk(c.tx) && LanesOk(c, sh)
    ensures LanesOk(c, DoAll(sh, acts))
    decreases |acts|
  {
    if acts != [] { ActsKeepLanes(c, Do(sh, acts[0]), acts[1..]); }
  }

  lemma EnvKeepsLanes(c: Chan, sh: Shared, env: Env, p: Point)
    requires DirOk(c.rx) && DirOk(c.tx) && LanesOk(c, sh) && Honest(env) && p != Reset
    ensures LanesOk(c, env(p, sh))
  {
    assert UserReaches(sh, env(p, sh));
    var acts :| DoAll(sh, acts) == env(p, sh);
    ActsKeepLanes(c, sh, acts);
  }

  // ---- Drains and stagings against an honest user ----

  // No increment is ever bogus, and only a failing socket call ends a drain early.
  lemma {:induction false} DrainHonest(c: Chan, sh: Shared, w: Which, k: nat, ok: nat -> bool, strict: bool, env: Env)
    requires DirOk(c.rx) && DirOk(c.tx) && LanesOk(c, sh) && Honest(env)
    ensures var d := DrainLane(c, sh, w, k, ok, strict, env);
            && d.end != Bogus && d.c.phase == c.phase && d.c.cause == c.cause && DirOk(d.c.rx) && DirOk(d.c.tx)
            && (d.end == Drained ==> LanesOk(d.c, d.sh))
            && (d.end == IoError ==> strict && !ok(k))
    decreases GetDir(c, w).pending
  {
    hide Honest;
    EnvKeepsLanes(c, sh, env, Pop(w, k));
    var sh1 := env(Pop(w, k), sh);
    var lane := Get(sh1, w);
    if lane.incs != [] && !(strict && !ok(k)) {
      var c1 := PutDir(c.(log := c.log + [Passed(w, lane.incs[0])]), w, IDLE_DIR);
      var sh2 := Put(sh1, w, lane.(incs := lane.incs[1..]));
      DrainHonest(c1, sh2, w, k + 1, ok, strict, env);
      DrainOnce(c1, sh2, w, k + 1, ok, strict, env);
    }
  }

  // With nothing pending the next pop finds the ring empty.
  lemma DrainOnce(c: Chan, sh: Shared, w: Which, k: nat, ok: nat -> bool, strict: bool, env: Env)
    requires DirOk(c.rx) && DirOk(c.tx) && LanesOk(c, sh) && Honest(env) && !GetDir(c, w).pending
    ensures DrainLane(c, sh, w, k, ok, strict, env).end == Drained
  {
    hide Honest;
    EnvKeepsLanes(c, sh, env, Pop(w, k));
  }

  // A staged slice always finds room.
  lemma StageHonest(c: Chan, sh: Shared, w: Which, len: nat, env: Env)
    requires DirOk(c.rx) && DirOk(c.tx) && LanesOk(c, sh) && Honest(env)
    ensures var (c', sh', staged) := StageLane(c, sh, w, len, env);
            && c'.phase == c.phase && c'.cause == c.cause && DirOk(c'.rx) && DirOk(c'.tx) && LanesOk(c', sh')
            && (staged ==> |Get(env(Push(w), env(Stage(w), sh)), w).slices| < RING_CAPACITY)
  {
    hide Honest;
    EnvKeepsLanes(c, sh, env, Stage(w));
    EnvKeepsLanes(c, env(Stage(w), sh), env, Push(w));
  }

  // ---- Polls and runs ----

  lemma PumpLaneHonest(c: Chan, sh: Shared, w: Which, may: bool, ok: nat -> bool, len: nat, env: Env)
    requires DirOk(c.rx) && DirOk(c.tx) && LanesOk(c, sh) && Honest(env) && c.phase == Active
    ensures var p := PumpLane(c, sh, w, may, ok, len, env);
            && TokenInv(p.c, p.sh) && p.c.phase in {Active, Failed}
            && (if p.c.phase == Failed then !ok(0) else p.c.cause == c.cause)
  {
    hide Honest, LanesOk;
    if may {
      DrainHonest(c, sh, w, 0, ok, true, env);
      var d := DrainLane(c, sh, w, 0, ok, true, env);
      if d.end == Drained { StageHonest(d.c, d.sh, w, len, env); }
    }
  }

  lemma PumpHonest(c: Chan, sh: Shared, s: Socket, env: Env)
    requires DirOk(c.rx) && DirOk(c.tx) && LanesOk(c, sh) && Honest(env) && c.phase == Active
    ensures var p := Pump(c, sh, s, env);
            && TokenInv(p.c, p.sh)
            && (if p.c.phase == Failed then !s.recvOk(0) || !s.sendOk(0) else p.c.cause == c.cause)
  {
    hide Honest, LanesOk, PumpLane;
    var p := PumpLane(c, sh, Rx, s.mayRecv, s.recvOk, s.nextRx, env);
    PumpLaneHonest(c, sh, Rx, s.mayRecv, s.recvOk, s.nextRx, env);
    if p.c.phase == Active {
      PumpLaneHonest(p.c, p.sh, Tx, s.maySend, s.sendOk, s.nextTx, env);
    }
  }

  // Arming and the handshake leave both directions alone and never report an I/O failure.
  lemma SetupKeepsDirs(c: Chan, engaged: bool, now: nat, s: Socket)
    ensures var c1 := Arm(c, engaged, now, s).0;
            c1.rx == c.rx && c1.tx == c.tx && (c1.cause == c.cause || c1.cause in {EBIND_LISTEN, EBIND_CONNECT})
    ensures var c2 := Handshake(c, now, s).0;
            c2.rx == c.rx && c2.tx == c.tx && (c2.cause == c.cause || c2.cause == EBIND_CONNECT)
  {
  }

  // A poll keeps one token per pending direction and none otherwise, and reports an I/O failure
  // only when the socket did.
  lemma StepTokens(c: Chan, sh: Shared, i: Input)
    requires TokenInv(c, sh) && Honest(i.env) && (c.phase == Failed <==> c.cause != NO_CAUSE)
    ensures var p := Polled(c, sh, i);
            && TokenInv(p.c, p.sh)
            && (c.phase != Failed && p.c.cause == EBIND_IO ==> !i.s.recvOk(0) || !i.s.sendOk(0))
  {
    hide Honest, LaneOk, Pump, Arm, Handshake, DrainLane, DirOk;
    var c0, sh0 := c.(lastEngaged := i.engaged), i.env(Start, sh);
    if c.phase != Failed {
      EnvKeepsLanes(c0, sh, i.env, Start);
      if c.phase == Active && c.lastEngaged && !i.engaged {
        DrainHonest(c0, sh0, Tx, 0, i.s.sendOk, false, i.env);
      } else if c.phase == Closing {
        ResetEmpties(i.env, sh0);
      } else {
        SetupKeepsDirs(c0, i.engaged, i.now, i.s);
        var c1 := if c.phase == FreshIdle then Arm(c0, i.engaged, i.now, i.s).0 else c0;
        SetupKeepsDirs(c1, i.engaged, i.now, i.s);
        var c2 := Handshake(c1, i.now, i.s).0;
        if c1.phase != Failed && c2.phase == Active { PumpHonest(c2, sh0, i.s, i.env); }
      }
    }
  }

  lemma ResetEmpties(env: Env, sh: Shared)
    requires Honest(env)
    ensures env(Reset, sh) == Shared(EMPTY_LANE, EMPTY_LANE)
    ensures LaneOk(EMPTY_LANE, IDLE_DIR) && DirOk(IDLE_DIR)
  {
  }

  lemma CountTokens(c: Chan, sh: Shared)
    requires TokenInv(c, sh)
    ensures c.phase != Failed ==> forall w :: Tokens(Get(sh, w)) == if GetDir(c, w).pending then 1 else 0
  {
    if c.phase != Failed {
      LaneTokens(sh.rx, c.rx);
      LaneTokens(sh.tx, c.tx);
    }
  }

  ghost predicate HonestRun(ins: seq<Input>) {
    forall j :: 0 <= j < |ins| ==> Honest(ins[j].env)
  }

  predicate SocketsWork(ins: seq<Input>) {
    forall j :: 0 <= j < |ins| ==> ins[j].s.recvOk(0) && ins[j].s.sendOk(0)
  }

  // Over every run with an honest user, whenever it gets in: each pending direction has exactly one
  // token, the others none; and unless a socket call fails the channel never fails with EBIND_IO.
  lemma {:induction false} RunTokens(c: Chan, sh: Shared, ins: seq<Input>)
    requires Inv(c) && TokenInv(c, sh) && HonestRun(ins)
    ensures var (c', sh') := After(c, sh, ins);
            && TokenInv(c', sh')
            && (c'.phase != Failed ==> forall w :: Tokens(Get(sh', w)) == if GetDir(c', w).pending then 1 else 0)
            && (SocketsWork(ins) && c.cause != EBIND_IO ==> c'.cause != EBIND_IO)
    decreases |ins|
  {
    hide TokenInv, Honest, UpdateTcp, LogOk, BackoffOk, Tokens;
    if ins == [] {
      CountTokens(c, sh);
    } else {
      StepInv(c, sh, ins[0]);
      StepTokens(c, sh, ins[0]);
      if c.phase == Failed { FailedSticks(c, sh, ins[0]); }
      var p := Polled(c, sh, ins[0]);
      RunTokens(p.c, p.sh, ins[1..]);
    }
  }

  // ---- No direction is left idle ----

  lemma PumpLaneStages(c: Chan, sh: Shared, w: Which, may: bool, ok: nat -> bool, len: nat, env: Env)
    requires Inv(c) && LanesOk(c, sh) && Honest(env) && c.phase == Active
    ensures var p := PumpLane(c, sh, w, may, ok, len, env);
            p.c.phase == Active ==> OnlyLane(c, p.c, w) && (may && len > 0 ==> GetDir(p.c, w).pending)
  {
    hide Honest, Disciplined, LastStaged, Backoff;
    if may {
      DrainHonest(c, sh, w, 0, ok, true, env);
      DrainFacts(c, sh, w, 0, ok, true, env);
      var d := DrainLane(c, sh, w, 0, ok, true, env);
      if d.end == Drained {
        EnvKeepsLanes(d.c, d.sh, env, Stage(w));
        StageFacts(d.c, d.sh, w, len, env);
      }
    }
  }

  // With an honest user, a poll that keeps the session leaves a slice with the user in every
  // direction in which the socket has something to stage.
  lemma SessionStages(c: Chan, sh: Shared, i: Input)
    requires Inv(c) && TokenInv(c, sh) && Honest(i.env) && c.phase == Active
    requires Polled(c, sh, i).c.phase == Active
    ensures var c' := Polled(c, sh, i).c;
            && (i.s.mayRecv && i.s.nextRx > 0 ==> c'.rx.pending)
            && (i.s.maySend && i.s.nextTx > 0 ==> c'.tx.pending)
  {
    hide Honest, LaneOk, LogOk, BackoffOk, BindingOk, PumpLane;
    var c0, sh0 := c.(lastEngaged := i.engaged), i.env(Start, sh);
    EngagedInv(c, i.engaged);
    EnvKeepsLanes(c0, sh, i.env, Start);
    var p := PumpLane(c0, sh0, Rx, i.s.mayRecv, i.s.recvOk, i.s.nextRx, i.env);
    PumpLaneStages(c0, sh0, Rx, i.s.mayRecv, i.s.recvOk, i.s.nextRx, i.env);
    PumpLaneFacts(c0, sh0, Rx, i.s.mayRecv, i.s.recvOk, i.s.nextRx, i.env);
    PumpLaneHonest(c0, sh0, Rx, i.s.mayRecv, i.s.recvOk, i.s.nextRx, i.env);
    if p.c.phase == Active {
      PumpLaneStages(p.c, p.sh, Tx, i.s.maySend, i.s.sendOk, i.s.nextTx, i.env);
    }
  }

  // ---- Outside the protocol ----

  // With nothing pending, one leftover increment fails the session: a user who has not yet reset its
  // half of the increment ring when the next session goes live loses that session.
  lemma LeftoverFails(c: Chan, sh: Shared, w: Which, ok: nat -> bool, len: nat, env: Env)
    requires c.phase == Active && !GetDir(c, w).pending
    ensures var p := PumpLane(c, sh, w, true, ok, len, env);
            p.c.phase == Failed <==> Get(env(Pop(w, 0), sh), w).incs != []
  {
  }

  // A caller whose closure consumes nothing has taken the slice and reports no increment: the
  // direction's token is gone.
  predicate Wedged(c: Chan, sh: Shared, w: Which) {
    GetDir(c, w).pending && Get(sh, w) == EMPTY_LANE
  }

  lemma {:induction false} WedgedActs(sh: Shared, acts: seq<Act>, w: Which)
    requires Get(sh, w) == EMPTY_LANE
    ensures Get(DoAll(sh, acts), w) == EMPTY_LANE
    decreases |acts|
  {
    if acts != [] { WedgedActs(Do(sh, acts[0]), acts[1..], w); }
  }

  lemma WedgedEnv(sh: Shared, env: Env, p: Point, w: Which)
    requires Get(sh, w) == EMPTY_LANE && Honest(env)
    ensures Get(env(p, sh), w) == EMPTY_LANE
  {
    if p != Reset {
      assert UserReaches(sh, env(p, sh));
      var acts :| DoAll(sh, acts) == env(p, sh);
      WedgedActs(sh, acts, w);
    }
  }

  // Sending is for live sessions; what has arrived can still be received while one closes. Within that,
  // a call is refused with -4 if no slice is queued, and with -5 if it could not report, else served.
  lemma CallServedIff(c: Chan, sh: Shared, w: Which, f: nat -> nat)
    requires Inv(c)
    ensures var (r, sh') := UserCall(sh, w, c.state, f);
            var open := c.phase == Active || (w == Rx && c.phase == Closing);
            && (r.Done? <==> open && Get(sh, w).slices != [] && |Get(sh, w).incs| < RING_CAPACITY)
            && (r.Refused? ==>
                  r.code == if !open then Code(c.phase) else if Get(sh, w).slices == [] then -4 else -5)
            && (r.Refused? ==> sh' == sh)
            && (r.Done? ==> Get(sh', w).slices == Get(sh, w).slices[1..] && r.count == f(Get(sh, w).slices[0]))
            && (r.Done? ==> Get(sh', w).incs == Get(sh, w).incs + if r.count == 0 then [] else [r.count])
  {
    hide LogOk, BindingOk, BackoffOk;
  }

  // With its token a direction is served if its slice is queued, and never refused with -5.
  lemma TokenServes(c: Chan, sh: Shared, w: Which, f: nat -> nat)
    requires Inv(c) && LaneOk(Get(sh, w), GetDir(c, w)) && (c.phase == Active || (w == Rx && c.phase == Closing))
    ensures var (r, _) := UserCall(sh, w, c.state, f);
            var n := GetDir(c, w).staged;
            r == if Get(sh, w) == Lane([n], [], None) then Done(f(n)) else Refused(-4)
  {
    hide LogOk, BindingOk, BackoffOk;
    CallServedIff(c, sh, w, f);
  }

  // A call on a direction with its token takes the two steps of the protocol if the closure reports
  // between 1 and the slice's length, and wedges the direction if and only if it reports 0.
  lemma CallKeepsToken(c: Chan, sh: Shared, w: Which, state: int, f: nat -> nat)
    requires DirOk(GetDir(c, w)) && LaneOk(Get(sh, w), GetDir(c, w))
    ensures var (r, sh') := UserCall(sh, w, state, f);
            if r.Refused? then sh' == sh
            else
              && r.count == f(GetDir(c, w).staged)
              && (1 <= r.count <= GetDir(c, w).staged ==> sh' == DoAll(sh, [Take(w), Report(w, r.count)]))
              && (Wedged(c, sh', w) <==> r.count == 0)
  {
    var (r, sh') := UserCall(sh, w, state, f);
    if r.Done? {
      var taken := Do(sh, Take(w));
      assert [Take(w), Report(w, r.count)][1..] == [Report(w, r.count)];
      assert DoAll(sh, [Take(w), Report(w, r.count)]) == DoAll(taken, [Report(w, r.count)]);
      assert DoAll(taken, [Report(w, r.count)]) == Do(taken, Report(w, r.count));
    }
  }

  // The log grew, but not in direction w.
  predicate NothingIn(log: seq<Event>, log': seq<Event>, w: Which) {
    log <= log' && forall j :: |log| <= j < |log'| ==> log'[j].w != w
  }

  lemma {:induction false} WedgedDrain(c: Chan, sh: Shared, u: Which, k: nat, ok: nat -> bool, env: Env, w: Which)
    requires Wedged(c, sh, w) && Honest(env)
    ensures var d := DrainLane(c, sh, u, k, ok, true, env);
            Wedged(d.c, d.sh, w) && NothingIn(c.log, d.c.log, w) && d.c.phase == c.phase
    decreases GetDir(c, u).pending
  {
    hide Honest;
    WedgedEnv(sh, env, Pop(u, k), w);
    var sh1 := env(Pop(u, k), sh);
    var lane := Get(sh1, u);
    if lane.incs != [] && !BogusCount(GetDir(c, u), lane.incs[0]) && ok(k) {
      var c1 := PutDir(c.(log := c.log + [Passed(u, lane.incs[0])]), u, IDLE_DIR);
      WedgedDrain(c1, Put(sh1, u, lane.(incs := lane.incs[1..])), u, k + 1, ok, env, w);
    }
  }

  lemma WedgedLane(c: Chan, sh: Shared, u: Which, may: bool, ok: nat -> bool, len: nat, env: Env, w: Which)
    requires Wedged(c, sh, w) && Honest(env)
    ensures var p := PumpLane(c, sh, u, may, ok, len, env);
            Wedged(p.c, p.sh, w) && NothingIn(c.log, p.c.log, w) && p.c.phase in {c.phase, Failed}
  {
    hide Honest, DrainLane;
    if may {
      WedgedDrain(c, sh, u, 0, ok, env, w);
      var sh1 := DrainLane(c, sh, u, 0, ok, true, env).sh;
      WedgedEnv(sh1, env, Stage(u), w);
      WedgedEnv(env(Stage(u), sh1), env, Push(u), w);
    }
  }

  // A wedged direction stays wedged, and silent, through every poll that keeps the session alive.
  lemma WedgedStays(c: Chan, sh: Shared, i: Input, w: Which)
    requires c.phase == Active && Wedged(c, sh, w) && Honest(i.env)
    requires Polled(c, sh, i).c.phase == Active
    ensures Wedged(Polled(c, sh, i).c, Polled(c, sh, i).sh, w)
    ensures NothingIn(c.log, Polled(c, sh, i).c.log, w)
  {
    hide Honest, DrainLane, PumpLane;
    var c0, sh0 := c.(lastEngaged := i.engaged), i.env(Start, sh);
    WedgedEnv(sh, i.env, Start, w);
    WedgedLane(c0, sh0, Rx, i.s.mayRecv, i.s.recvOk, i.s.nextRx, i.env, w);
    var p := PumpLane(c0, sh0, Rx, i.s.mayRecv, i.s.recvOk, i.s.nextRx, i.env);
    WedgedLane(p.c, p.sh, Tx, i.s.maySend, i.s.sendOk, i.s.nextTx, i.env, w);
  }

  // The session lives through every poll of the run.
  predicate StaysActive(c: Chan, sh: Shared, ins: seq<Input>)
    decreases |ins|
  {
    c.phase == Active &&
    (ins == [] || StaysActive(Polled(c, sh, ins[0]).c, Polled(c, sh, ins[0]).sh, ins[1..]))
  }

  // So for the rest of the session no slice is staged in that direction and no count is passed on.
  lemma {:induction false} WedgedForSession(c: Chan, sh: Shared, ins: seq<Input>, w: Which)
    requires Wedged(c, sh, w) && HonestRun(ins) && StaysActive(c, sh, ins)
    ensures var (c', sh') := After(c, sh, ins); Wedged(c', sh', w) && NothingIn(c.log, c'.log, w)
    decreases |ins|
  {
    hide Honest, UpdateTcp, Wedged;
    if ins != [] {
      var p := Polled(c, sh, ins[0]);
      WedgedStays(c, sh, ins[0], w);
      WedgedForSession(p.c, p.sh, ins[1..], w);
      NothingInTrans(c.log, p.c.log, After(p.c, p.sh, ins[1..]).0.log, w);
    }
  }

  lemma NothingInTrans(a: seq<Event>, b: seq<Event>, c: seq<Event>, w: Which)
    requires NothingIn(a, b, w) && NothingIn(b, c, w)
    ensures NothingIn(a, c, w)
  {
    assert forall i :: 0 <= i < |b| ==> c[i] == b[i];
  }
}

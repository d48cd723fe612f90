/**
 `NetChannel::update_tcp` as the code runs it: in place on the channel context and the published
 state, with its drain loops and early returns. Every block is proved to do what the reconciler
 function of NetChannel does, and so to keep the invariant that holds over every run.
 */
module NetChannelUpdate {
  import opened Powers
  import opened NetChannel
  import opened NetChannelRuns
  import opened NetChannelPhases

  class Reconciler {
    const bind: BindSpec
    var phase: Phase
    var rx: Dir
    var tx: Dir
    var lastEngaged: bool
    var backoffMs: nat
    var nextAttemptUs: nat
    // Published to the user.
    var state: int
    var failCause: nat
    // The rings, in memory the user writes too.
    var shared: Shared

    ghost var log: seq<Event>
    ghost var activations: nat
    ghost var fails: nat
    ghost var lastFailUs: nat

    ghost function Value(): (c: Chan)
      reads this
    {
      Chan(bind, phase, rx, tx, lastEngaged, backoffMs, nextAttemptUs, state, failCause,
           log, activations, fails, lastFailUs)
    }

    // Between polls: published code, phase, pending slices, binding, backoff and log agree.
    ghost predicate Valid()
      reads this
    {
      Inv(Value())
    }

    constructor (bind: BindSpec, shared: Shared)
      ensures Valid() && Value() == NewChan(bind) && this.shared == shared
    {
      this.bind, phase, rx, tx := bind, FreshIdle, IDLE_DIR, IDLE_DIR;
      lastEngaged, backoffMs, nextAttemptUs := false, 0, 0;
      state, failCause, this.shared := IDLE, NO_CAUSE, shared;
      log, activations, fails, lastFailUs := [], 0, 0, 0;
    }

    // schedule_retry: after k failed dials in a row the next one is due min(100 * 2^(k-1), 30000) ms
    // after the last.
    method Retry(now: nat)
      requires BackoffOk(Value()) && bind.ClientRetain? && phase == FreshIdle
      modifies this
      ensures Value() == ScheduleRetry(old(Value()), now) && shared == old(shared)
      ensures BackoffOk(Value()) && fails == old(fails) + 1 && backoffMs == Min(100 * Pow2(fails - 1), 30_000)
      ensures nextAttemptUs == Min(now + backoffMs * 1000, CLOCK_MAX)
    {
      RetryInv(Value(), now);
      if backoffMs == 0 {
        backoffMs := BACKOFF_MIN_MS;
      } else {
        var doubled := Min(2 * backoffMs, 0xFFFF_FFFF);
        backoffMs := Min(doubled, BACKOFF_CAP_MS);
      }
      nextAttemptUs := Min(now + backoffMs * 1000, CLOCK_MAX);
      fails, lastFailUs := fails + 1, now;
    }

    method SetDir(w: Which, d: Dir)
      modifies this
      ensures Value() == PutDir(old(Value()), w, d) && shared == old(shared)
    {
      if w == Rx { rx := d; } else { tx := d; }
    }

    method DrainIncrements(w: Which, ok: nat -> bool, strict: bool, env: Env) returns (end: End)
      modifies this
      ensures var d := DrainLane(old(Value()), old(shared), w, 0, ok, strict, env);
              Value() == d.c && shared == d.sh && end == d.end
      // Whoever writes the ring meanwhile, nothing is staged and every count passed to the socket is
      // within the slice it acknowledges.
      ensures old(Valid() && phase != Failed) ==> NothingStaged(old(log), log) && Disciplined(log)
    {
      hide Inv, NothingStaged, Disciplined;
      if Valid() && phase != Failed { DrainDiscipline(Value(), shared, w, ok, strict, env); }
      var k := 0;
      ghost var goal := DrainLane(Value(), shared, w, 0, ok, strict, env);
      while true
        invariant DrainLane(Value(), shared, w, k, ok, strict, env) == goal
        decreases GetDir(Value(), w).pending
      {
        shared := env(Pop(w, k), shared);
        var lane := Get(shared, w);
        if lane.incs == [] { return Drained; }
        var count := lane.incs[0];
        shared := Put(shared, w, lane.(incs := lane.incs[1..]));
        var d := if w == Rx then rx else tx;
        if !d.pending || count == 0 || count > d.staged { return Bogus; }
        log := log + [Passed(w, count)];
        if strict && !ok(k) { return IoError; }
        SetDir(w, IDLE_DIR);
        k := k + 1;
      }
    }

    method StageSlice(w: Which, len: nat, env: Env) returns (staged: bool)
      modifies this
      ensures (Value(), shared, staged) == StageLane(old(Value()), old(shared), w, len, env)
      ensures old(Valid() && phase != Failed) ==> Valid() && (staged <==> !NothingStaged(old(log), log))
    {
      hide Inv, NothingStaged;
      if Valid() && phase != Failed { StageInv(Value(), shared, w, len, env); }
      shared := env(Stage(w), shared);
      var lane := Get(shared, w);
      var d := if w == Rx then rx else tx;
      if d.pending || (w == Tx && lane.slices != []) || len == 0 { return false; }
      shared := env(Push(w), shared);
      lane := Get(shared, w);
      if |lane.slices| < RING_CAPACITY {
        shared := Put(shared, w, lane.(slices := lane.slices + [len]));
      }
      log := log + [Staged(w, len)];
      SetDir(w, Dir(true, len));
      return true;
    }

    method LetGo(s: Socket, env: Env) returns (out: Outcome)
      requires Valid() && phase == Active
      modifies this
      ensures Valid() && phase in {Closing, Failed} && NothingStaged(old(log), log)
      ensures Poll(Value(), shared, out) == Disengage(old(Value()), old(shared), s, env)
    {
      hide Inv, NothingStaged;
      DisengageInv(Value(), shared, s, env);
      DisengageStages(Value(), shared, s, env);
      if s.flushMaySend {
        var end := DrainIncrements(Tx, s.sendOk, false, env);
        if end == Bogus {
          phase, failCause, state := Failed, EBIND_IO, FAILED;
          return CHANGED;
        }
      }
      phase, state := Closing, CLOSING;
      return CHANGED;
    }

    method FinishClose(s: Socket, env: Env) returns (out: Outcome)
      requires Valid() && phase == Closing
      modifies this
      ensures Valid() && log == old(log)
      ensures Poll(Value(), shared, out) == Recycle(old(Value()), old(shared), s, env)
    {
      hide Inv, Pow2, Min, Code;
      RecycleInv(Value(), shared, s, env);
      if !s.drained { return QUIET; }
      shared := env(Reset, shared);
      rx, tx := IDLE_DIR, IDLE_DIR;
      if bind.ServerRetain? {
        if s.listenOk {
          phase, state := Listening, IN_FLIGHT;
        } else {
          phase, failCause, state := Failed, EBIND_LISTEN, FAILED;
        }
      } else if bind.ClientRetain? {
        backoffMs, nextAttemptUs, fails := 0, 0, 0;
        phase, state := FreshIdle, IDLE;
      } else {
        phase, failCause, state := Failed, EBIND_DONE, FAILED;
      }
      return CHANGED;
    }

    method ArmSocket(engaged: bool, now: nat, s: Socket) returns (changed: bool)
      requires Valid() && phase == FreshIdle
      modifies this
      ensures Valid() && log == old(log) && phase in {FreshIdle, Listening, Connecting, Failed}
      ensures (Value(), changed) == Arm(old(Value()), engaged, now, s) && shared == old(shared)
    {
      hide Inv, BackoffOk;
      ArmInv(Value(), engaged, now, s);
      InvBackoff(Value());
      changed := false;
      if IsServer(bind) {
        if s.listenOk {
          phase, state := Listening, IN_FLIGHT;
        } else {
          phase, failCause, state := Failed, EBIND_LISTEN, FAILED;
        }
        changed := true;
      } else if bind.ClientRetain? {
        if now >= nextAttemptUs {
          if s.connectOk {
            phase, state := Connecting, IN_FLIGHT;
            changed := true;
          } else {
            Retry(now);
          }
        }
      } else if engaged {
        if s.connectOk {
          phase, state := Connecting, IN_FLIGHT;
        } else {
          phase, failCause, state := Failed, EBIND_CONNECT, FAILED;
        }
        changed := true;
      }
    }

    method CompleteHandshake(now: nat, s: Socket) returns (changed: bool)
      requires Valid() && phase in {FreshIdle, Listening, Connecting, Active}
      modifies this
      ensures Valid() && log == old(log)
      ensures (Value(), changed) == Handshake(old(Value()), now, s) && shared == old(shared)
    {
      hide Inv, BackoffOk, ScheduleRetry, Pow2, Min;
      HandshakeInv(Value(), now, s);
      InvBackoff(Value());
      changed := false;
      if phase == Listening && s.up {
        phase, state := Active, ACTIVE;
        activations := activations + 1;
        changed := true;
      }
      if phase == Connecting {
        if s.up {
          phase, state := Active, ACTIVE;
          backoffMs, nextAttemptUs := 0, 0;
          activations, fails := activations + 1, 0;
          changed := true;
        } else if s.refused && !IsServer(bind) {
          if bind.ClientOneShot? {
            phase, failCause, state := Failed, EBIND_CONNECT, FAILED;
          } else {
            phase, state := FreshIdle, IDLE;
            Retry(now);
          }
          changed := true;
        }
      }
    }

    method PumpDirection(w: Which, may: bool, ok: nat -> bool, len: nat, env: Env) returns (out: Outcome)
      requires Valid() && phase == Active
      modifies this
      ensures Valid() && phase in {Active, Failed} && (out.ringProgress <==> !NothingStaged(old(log), log))
      ensures Poll(Value(), shared, out) == PumpLane(old(Value()), old(shared), w, may, ok, len, env)
    {
      hide Inv, NothingStaged;
      PumpLaneFacts(Value(), shared, w, may, ok, len, env);
      if !may { return QUIET; }
      var end := DrainIncrements(w, ok, true, env);
      if end != Drained {
        phase, failCause, state := Failed, EBIND_IO, FAILED;
        return CHANGED;
      }
      var staged := StageSlice(w, len, env);
      return Outcome(false, staged);
    }

    method PumpBoth(s: Socket, env: Env) returns (out: Outcome)
      requires Valid() && phase == Active
      modifies this
      ensures Valid() && phase in {Active, Failed} && (out.ringProgress <==> !NothingStaged(old(log), log))
      ensures Poll(Value(), shared, out) == Pump(old(Value()), old(shared), s, env)
    {
      hide PumpLane, Inv, NothingStaged;
      PumpFacts(Value(), shared, s, env);
      out := PumpDirection(Rx, s.mayRecv, s.recvOk, s.nextRx, env);
      if phase == Failed { return; }
      var o := PumpDirection(Tx, s.maySend, s.sendOk, s.nextTx, env);
      return Outcome(o.stateChanged, out.ringProgress || o.ringProgress);
    }

    // update_tcp: one poll.
    method Update(engaged: bool, now: nat, s: Socket, env: Env) returns (out: Outcome)
      requires Valid()
      modifies this
      ensures Poll(Value(), shared, out) == UpdateTcp(old(Value()), old(shared), engaged, now, s, env)
      // The user sees the code of the phase, and every count passed on was within its staged slice.
      ensures Valid() && state == Code(phase) && old(log) <= log && Disciplined(log)
      // The owner is told of a slice if and only if one was staged, and of every change of state.
      ensures out.ringProgress <==> !NothingStaged(old(log), log)
      ensures out.stateChanged <==> state != old(state) || Bounces(old(Value()), Input(engaged, now, s, env))
      // The phase that the poll leads to: a session begins exactly if the socket is up on a channel that
      // waits for a peer, and ends only by the user letting go or by an I/O failure.
      ensures Moved(old(Value()), env(Start, old(shared)), Input(engaged, now, s, env), Value())
      ensures old(phase) == Failed ==>
                phase == Failed && failCause == old(failCause) && log == old(log) && !ShouldWake(out)
      ensures old(phase == FreshIdle) && !MayDial(old(Value()), Input(engaged, now, s, env)) ==> phase == FreshIdle
      ensures old(phase) == Active && phase != Active ==>
                || (phase == Closing && old(lastEngaged) && !engaged)
                || (phase == Failed && failCause == EBIND_IO)
    {
      hide Inv, NothingStaged, Bounces, MayDial, Disciplined, UpdateTcp, Moved;
      PollMoves(Value(), shared, Input(engaged, now, s, env));
      PollFacts(Value(), shared, Input(engaged, now, s, env));
      out := Reconcile(engaged, now, s, env);
    }

    // The body of update_tcp.
    method Reconcile(engaged: bool, now: nat, s: Socket, env: Env) returns (out: Outcome)
      requires Valid()
      modifies this
      ensures Poll(Value(), shared, out) == UpdateTcp(old(Value()), old(shared), engaged, now, s, env)
    {
      hide Inv, Recycle, Disengage, Arm, Handshake, Pump, NothingStaged;
      EngagedInv(Value(), engaged);
      shared := env(Start, shared);
      var wasEngaged := lastEngaged;
      lastEngaged := engaged;
      if phase == Failed { return QUIET; }
      if wasEngaged && !engaged && phase == Active {
        out := LetGo(s, env);
        return;
      }
      if phase == Closing {
        out := FinishClose(s, env);
        return;
      }
      var armed := false;
      if phase == FreshIdle {
        armed := ArmSocket(engaged, now, s);
        if phase == Failed { return CHANGED; }
      }
      var met := CompleteHandshake(now, s);
      if phase != Active { return Outcome(armed || met, false); }
      out := PumpBoth(s, env);
      return Outcome(armed || met || out.stateChanged, out.ringProgress);
    }
  }
}

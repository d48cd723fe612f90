/**
 Where a poll takes the channel, exactly: the phase after it, said of the channel before, what the
 socket answers and what the rings show (net_channel/src/lib.rs:975-1390).
 */
module NetChannelPhases {
  import opened Powers
  import opened NetChannel
  import opened NetChannelRuns

  // ---- One direction ----

  // What the first pop of a drain finds, and what the second finds after a good first one.
  function FirstPop(sh: Shared, w: Which, env: Env): (incs: seq<nat>) {
    Get(env(Pop(w, 0), sh), w).incs
  }

  function Popped(sh: Shared, w: Which, env: Env): (sh': Shared)
    requires FirstPop(sh, w, env) != []
  {
    var sh1 := env(Pop(w, 0), sh);
    Put(sh1, w, Get(sh1, w).(incs := FirstPop(sh, w, env)[1..]))
  }

  // The user acknowledges the staged slice, once, by a count within its length.
  predicate Acknowledges(d: Dir, incs: seq<nat>) {
    incs != [] && d.pending && 1 <= incs[0] <= d.staged
  }

  // The direction breaks the session: an increment that acknowledges nothing or too much, a second
  // one, or a socket call that fails.
  predicate Breaks(c: Chan, sh: Shared, w: Which, ok: nat -> bool, strict: bool, env: Env) {
    var incs := FirstPop(sh, w, env);
    incs != [] &&
    (!Acknowledges(GetDir(c, w), incs) || (strict && !ok(0)) || Get(env(Pop(w, 1), Popped(sh, w, env)), w).incs != [])
  }

  // The rings as a drain that does not break leaves them.
  function Emptied(sh: Shared, w: Which, env: Env): (sh': Shared) {
    if FirstPop(sh, w, env) == [] then env(Pop(w, 0), sh) else env(Pop(w, 1), Popped(sh, w, env))
  }

  lemma DrainExact(c: Chan, sh: Shared, w: Which, ok: nat -> bool, strict: bool, env: Env)
    ensures var d, incs := DrainLane(c, sh, w, 0, ok, strict, env), FirstPop(sh, w, env);
            && (d.end != Drained <==> Breaks(c, sh, w, ok, strict, env))
            && (d.end == IoError <==> Acknowledges(GetDir(c, w), incs) && strict && !ok(0))
            && d.c.log == (if Acknowledges(GetDir(c, w), incs) then c.log + [Passed(w, incs[0])] else c.log)
            && d.c == PutDir(c, w, GetDir(d.c, w)).(log := d.c.log)
            && (d.end == Drained ==> d.sh == Emptied(sh, w, env) && (incs != [] ==> Acknowledges(GetDir(c, w), incs)))
            && (d.end == Drained ==> GetDir(d.c, w) == if incs == [] then GetDir(c, w) else IDLE_DIR)
  {
    var incs := FirstPop(sh, w, env);
    if Acknowledges(GetDir(c, w), incs) {
      var c1 := PutDir(c.(log := c.log + [Passed(w, incs[0])]), w, IDLE_DIR);
      NothingPending(c1, Popped(sh, w, env), w, 1, ok, strict, env);
    }
  }

  lemma NothingPending(c: Chan, sh: Shared, w: Which, k: nat, ok: nat -> bool, strict: bool, env: Env)
    requires !GetDir(c, w).pending
    ensures var d := DrainLane(c, sh, w, k, ok, strict, env);
            && d.c == c && d.end == (if Get(env(Pop(w, k), sh), w).incs == [] then Drained else Bogus)
            && (d.end == Drained ==> d.sh == env(Pop(w, k), sh))
  {
  }

  // A slice is staged exactly if none is pending after the drain, the socket has one, and, for
  // transmit, the user has taken the last.
  predicate Stages(c: Chan, sh: Shared, w: Which, len: nat, env: Env) {
    && len > 0 && (GetDir(c, w).pending ==> FirstPop(sh, w, env) != [])
    && (w == Tx ==> env(Stage(w), Emptied(sh, w, env)).tx.slices == [])
  }

  // All that a poll does in one direction of a session.
  lemma PumpLaneExact(c: Chan, sh: Shared, w: Which, may: bool, ok: nat -> bool, len: nat, env: Env)
    requires c.phase == Active
    ensures var p, incs := PumpLane(c, sh, w, may, ok, len, env), FirstPop(sh, w, env);
            && (!may ==> p == Poll(c, sh, QUIET))
            && (p.c.phase == Failed <==> may && Breaks(c, sh, w, ok, true, env))
            && (may && p.c.phase != Failed ==>
                  var sent := if incs == [] then [] else [Passed(w, incs[0])];
                  if Stages(c, sh, w, len, env) then
                    && p.c == PutDir(c, w, Dir(true, len)).(log := c.log + sent + [Staged(w, len)])
                    && p.out == Outcome(false, true)
                    && p.sh == Enqueued(env(Push(w), env(Stage(w), Emptied(sh, w, env))), w, len)
                  else
                    && p.c == PutDir(c, w, if incs == [] then GetDir(c, w) else IDLE_DIR).(log := c.log + sent)
                    && p.out == QUIET && p.sh == env(Stage(w), Emptied(sh, w, env)))
  {
    hide DrainLane, Breaks, Emptied;
    DrainExact(c, sh, w, ok, true, env);
    assert c.log + [] == c.log;
  }

  // The rings after the receive leg of a session's poll.
  function RxRings(c: Chan, sh: Shared, s: Socket, env: Env): (sh': Shared) {
    if !s.mayRecv then sh
    else
      var sh1 := env(Stage(Rx), Emptied(sh, Rx, env));
      if Stages(c, sh, Rx, s.nextRx, env) then Enqueued(env(Push(Rx), sh1), Rx, s.nextRx) else sh1
  }

  // One of the directions breaks the session, transmit after receive.
  predicate Broken(c: Chan, sh: Shared, s: Socket, env: Env) {
    || (s.mayRecv && Breaks(c, sh, Rx, s.recvOk, true, env))
    || (s.maySend && Breaks(c, RxRings(c, sh, s, env), Tx, s.sendOk, true, env))
  }

  // Only the pending slices of a channel matter for that.
  lemma SameBroken(c: Chan, c': Chan, sh: Shared, s: Socket, env: Env)
    requires c.rx == c'.rx && c.tx == c'.tx
    ensures Broken(c, sh, s, env) == Broken(c', sh, s, env)
    ensures Breaks(c, sh, Tx, s.sendOk, false, env) == Breaks(c', sh, Tx, s.sendOk, false, env)
  {
    hide Emptied, Enqueued;
  }

  lemma TxBreaks(c: Chan, c': Chan, sh: Shared, s: Socket, env: Env)
    requires c.tx == c'.tx
    ensures Breaks(c, sh, Tx, s.sendOk, true, env) == Breaks(c', sh, Tx, s.sendOk, true, env)
  {
  }

  // ---- The phase after a poll ----

  // A session began, and has already failed if the first look at its rings broke it.
  predicate WentLive(c: Chan, sh: Shared, i: Input, p: Chan) {
    && p.activations == c.activations + 1
    && if Broken(c, sh, i.s, i.env) then p.phase == Failed && p.cause == EBIND_IO else p.phase == Active
  }

  predicate Ended(c: Chan, p: Chan, cause: nat) {
    p.activations == c.activations && p.phase == Failed && p.cause == cause
  }

  predicate MovedTo(c: Chan, p: Chan, phase: Phase) {
    p.activations == c.activations && p.phase == phase
  }

  // A failed dial: a retained client counts it and will dial again, a one-shot client is done.
  predicate DialFailed(c: Chan, i: Input, p: Chan) {
    if c.bind.ClientRetain? then MovedTo(c, p, FreshIdle) && p.fails == c.fails + 1 && p.lastFailUs == i.now
    else Ended(c, p, EBIND_CONNECT)
  }

  // A dial that is under way.
  predicate DialGoesOn(c: Chan, sh: Shared, i: Input, p: Chan) {
    if i.s.up then WentLive(c, sh, i, p) && p.fails == 0
    else if i.s.refused then DialFailed(c, i, p)
    else MovedTo(c, p, Connecting)
  }

  // The decision table of a poll that finds the rings as sh. When the user lets go of a session, only
  // what it reported last can break it, and a failing send is ignored.
  predicate Moved(c: Chan, sh: Shared, i: Input, p: Chan) {
    && p.bind == c.bind && p.lastEngaged == i.engaged
    && match c.phase
       case Failed => p == c.(lastEngaged := i.engaged)
       case Active =>
         if c.lastEngaged && !i.engaged then
           if i.s.flushMaySend && Breaks(c, sh, Tx, i.s.sendOk, false, i.env) then Ended(c, p, EBIND_IO)
           else MovedTo(c, p, Closing)
         else if Broken(c, sh, i.s, i.env) then Ended(c, p, EBIND_IO)
         else MovedTo(c, p, Active)
       case Closing => if i.s.drained then Recycled(c, i, p) else p == c.(lastEngaged := i.engaged)
       case Listening => if i.s.up then WentLive(c, sh, i, p) else p == c.(lastEngaged := i.engaged)
       case Connecting => DialGoesOn(c, sh, i, p)
       case FreshIdle =>
         if IsServer(c.bind) then
           if !i.s.listenOk then Ended(c, p, EBIND_LISTEN)
           else if i.s.up then WentLive(c, sh, i, p)
           else MovedTo(c, p, Listening)
         else if !MayDial(c, i) then p == c.(lastEngaged := i.engaged)
         else if !i.s.connectOk then DialFailed(c, i, p)
         else DialGoesOn(c, sh, i, p)
  }

  // The end of a session: nothing is pending, and the binding decides.
  predicate Recycled(c: Chan, i: Input, p: Chan) {
    && p.rx == IDLE_DIR && p.tx == IDLE_DIR
    && match c.bind
       case ServerRetain(_) => if i.s.listenOk then MovedTo(c, p, Listening) else Ended(c, p, EBIND_LISTEN)
       case ClientRetain(_, _) => MovedTo(c, p, FreshIdle) && p.fails == 0
       case _ => Ended(c, p, EBIND_DONE)
  }

  lemma PollMoves(c: Chan, sh: Shared, i: Input)
    requires Inv(c)
    ensures Moved(c, i.env(Start, sh), i, Polled(c, sh, i).c)
  {
    hide Inv, DrainLane, PumpLane, Pump, Disengage, Recycle, Arm, Handshake, Broken, Breaks, Pow2;
    var c0, sh0 := c.(lastEngaged := i.engaged), i.env(Start, sh);
    EngagedInv(c, i.engaged);
    SameBroken(c, c0, sh0, i.s, i.env);
    match c.phase {
      case Failed =>
      case Closing => RecycleMoves(c0, sh0, i);
      case FreshIdle => IdleMoves(c0, sh0, i);
      case Active =>
        if c.lastEngaged && !i.engaged {
          LetGoMoves(c0, sh0, i.s, i.env);
        } else {
          WaitMoves(c0, sh0, i);
        }
      case _ => WaitMoves(c0, sh0, i);
    }
  }

  // The handshake and the session part of a poll.
  function Met(c: Chan, sh: Shared, i: Input): (c': Chan) {
    var c1 := Handshake(c, i.now, i.s).0;
    if c1.phase == Active then Pump(c1, sh, i.s, i.env).c else c1
  }

  lemma WaitMoves(c: Chan, sh: Shared, i: Input)
    requires Inv(c) && c.phase in {FreshIdle, Listening, Connecting, Active}
    ensures var p := Met(c, sh, i);
            && p.bind == c.bind && p.lastEngaged == c.lastEngaged
            && match c.phase
               case Listening => if i.s.up then WentLive(c, sh, i, p) && p.fails == 0 else p == c
               case Connecting => DialGoesOn(c, sh, i, p)
               case Active => if Broken(c, sh, i.s, i.env) then Ended(c, p, EBIND_IO) else MovedTo(c, p, Active)
               case _ => p == c
  {
    hide Inv, Pump, Handshake, Broken;
    HandshakeMoves(c, i);
    var c1 := Handshake(c, i.now, i.s).0;
    SameBroken(c, c1, sh, i.s, i.env);
    if c1.phase == Active { PumpMoves(c1, sh, i.s, i.env); }
  }

  // A fresh channel is armed, and may meet its peer in the same poll.
  lemma IdleMoves(c: Chan, sh: Shared, i: Input)
    requires Inv(c) && c.phase == FreshIdle && c.lastEngaged == i.engaged
    ensures var c1 := Arm(c, i.engaged, i.now, i.s).0;
            Moved(c, sh, i, if c1.phase == Failed then c1 else Met(c1, sh, i))
  {
    hide Inv, Arm, Met, Broken, MayDial;
    ArmInv(c, i.engaged, i.now, i.s);
    ArmMoves(c, i);
    var c1 := Arm(c, i.engaged, i.now, i.s).0;
    SameBroken(c, c1, sh, i.s, i.env);
    if c1.phase != Failed { WaitMoves(c1, sh, i); }
  }

  lemma LetGoMoves(c: Chan, sh: Shared, s: Socket, env: Env)
    requires Inv(c) && c.phase == Active
    ensures var p := Disengage(c, sh, s, env).c;
            && p.bind == c.bind && p.lastEngaged == c.lastEngaged
            && if s.flushMaySend && Breaks(c, sh, Tx, s.sendOk, false, env) then Ended(c, p, EBIND_IO)
               else MovedTo(c, p, Closing)
  {
    hide DrainLane, Inv, Breaks;
    DrainExact(c, sh, Tx, s.sendOk, false, env);
  }

  lemma RecycleMoves(c: Chan, sh: Shared, i: Input)
    requires Inv(c) && c.phase == Closing && c.lastEngaged == i.engaged
    ensures var p := Recycle(c, sh, i.s, i.env).c;
            && p.bind == c.bind && p.lastEngaged == c.lastEngaged
            && if i.s.drained then Recycled(c, i, p) else p == c
  {
    hide LogOk, BackoffOk;
  }

  lemma ArmMoves(c: Chan, i: Input)
    requires Inv(c) && c.phase == FreshIdle
    ensures var p := Arm(c, i.engaged, i.now, i.s).0;
            && p.bind == c.bind && p.lastEngaged == c.lastEngaged && p.rx == c.rx && p.tx == c.tx
            && if IsServer(c.bind) then
                 if i.s.listenOk then MovedTo(c, p, Listening) && p.fails == c.fails else Ended(c, p, EBIND_LISTEN)
               else if !MayDial(c, i) then p == c
               else if !i.s.connectOk then DialFailed(c, i, p)
               else MovedTo(c, p, Connecting) && p.fails == c.fails
  {
    hide LogOk, Pow2;
  }

  lemma HandshakeMoves(c: Chan, i: Input)
    requires Inv(c)
    ensures var p := Handshake(c, i.now, i.s).0;
            && p.bind == c.bind && p.lastEngaged == c.lastEngaged && p.rx == c.rx && p.tx == c.tx
            && var live := p.activations == c.activations + 1 && p.phase == Active && p.fails == 0;
               match c.phase
               case Listening => if i.s.up then live else p == c
               case Connecting =>
                 if i.s.up then live
                 else if i.s.refused then DialFailed(c, i, p)
                 else p == c
               case _ => p == c
  {
    hide LogOk, Pow2;
  }

  lemma PumpMoves(c: Chan, sh: Shared, s: Socket, env: Env)
    requires c.phase == Active
    ensures var p := Pump(c, sh, s, env).c;
            && p.bind == c.bind && p.lastEngaged == c.lastEngaged && p.fails == c.fails
            && if Broken(c, sh, s, env) then Ended(c, p, EBIND_IO) else MovedTo(c, p, Active)
  {
    hide PumpLane, Breaks, Emptied, Stages, Enqueued;
    var p := PumpLane(c, sh, Rx, s.mayRecv, s.recvOk, s.nextRx, env);
    PumpLaneMoves(c, sh, Rx, s.mayRecv, s.recvOk, s.nextRx, env);
    PumpLaneExact(c, sh, Rx, s.mayRecv, s.recvOk, s.nextRx, env);
    if p.c.phase == Active {
      TxBreaks(c, p.c, p.sh, s, env);
      PumpLaneMoves(p.c, p.sh, Tx, s.maySend, s.sendOk, s.nextTx, env);
    }
  }

  lemma PumpLaneMoves(c: Chan, sh: Shared, w: Which, may: bool, ok: nat -> bool, len: nat, env: Env)
    requires c.phase == Active
    ensures var p := PumpLane(c, sh, w, may, ok, len, env).c;
            && p.bind == c.bind && p.lastEngaged == c.lastEngaged && p.fails == c.fails
            && if may && Breaks(c, sh, w, ok, true, env) then Ended(c, p, EBIND_IO) else MovedTo(c, p, Active)
  {
    hide DrainLane, Breaks;
    DrainExact(c, sh, w, ok, true, env);
  }

  // A session begins exactly if the socket is up on a channel that waits for a peer, or comes to wait
  // for one in the same poll.
  lemma LiveIff(c: Chan, sh: Shared, i: Input)
    requires Inv(c)
    ensures Polled(c, sh, i).c.activations == c.activations + 1 <==>
              && i.s.up
              && match c.phase
                 case Listening => true
                 case Connecting => true
                 case FreshIdle => if IsServer(c.bind) then i.s.listenOk else MayDial(c, i) && i.s.connectOk
                 case _ => false
    ensures Polled(c, sh, i).c.activations in {c.activations, c.activations + 1}
  {
    hide Inv, UpdateTcp, MayDial, Broken, Breaks;
    PollMoves(c, sh, i);
  }
}

/**
 Permission masks, the role table, spawning and pledging (orbit-abi/src/roles.rs and
 orbit-abi/src/perms.rs). A 64-bit mask is the set of its bit positions.
 */
module Roles {
  import opened Wrappers

  type Mask = set<nat>

  const STDIO: nat := 0
  const PROC_LIFE: nat := 1
  const PROC_SPAWN: nat := 2
  const SCHED: nat := 3
  const VMEM: nat := 4
  const VMEM_SHARED: nat := 5
  const NETCH: nat := 6
  const FS_RO: nat := 7
  const FUTEX: nat := 8
  const STATS: nat := 9
  const PLEDGE: nat := 10
  const PROC_CRED: nat := 11
  const EVERY: Mask :=
    {STDIO, PROC_LIFE, PROC_SPAWN, SCHED, VMEM, VMEM_SHARED, NETCH, FS_RO, FUTEX, STATS, PLEDGE, PROC_CRED}

  const NOROLE: nat := 0
  const BOOTSTRAP: nat := 1
  const LOADER: nat := 2
  const SHELL: nat := 3
  const NET_CLIENT: nat := 4
  const FS_TOOL: nat := 5
  const WORKER: nat := 6
  const SERVICE: nat := 7
  const ROLE_COUNT: nat := 8
  const INHERIT: nat := 0xFFFF_FFFF

  // transitions is the bitset of the roles a process in this role may spawn into.
  datatype RoleDef = RoleDef(perms: Mask, allowed: Mask, transitions: set<nat>)

  const LEAF: Mask := {STDIO, VMEM, PLEDGE}

  const ROLES: seq<RoleDef> := [
    RoleDef({}, {}, {}),
    RoleDef(EVERY, EVERY, {LOADER, SHELL}),
    RoleDef(EVERY, EVERY, {SHELL, SERVICE, WORKER, NET_CLIENT, FS_TOOL}),
    RoleDef({STDIO, PROC_LIFE, PROC_SPAWN, SCHED, VMEM, FS_RO, STATS, PLEDGE}, EVERY, {NET_CLIENT, FS_TOOL, WORKER}),
    RoleDef({STDIO, NETCH, FUTEX, VMEM, PLEDGE}, LEAF, {WORKER}),
    RoleDef({STDIO, FS_RO, VMEM, PLEDGE}, LEAF, {WORKER}),
    RoleDef(LEAF, LEAF, {}),
    RoleDef({STDIO, NETCH, FS_RO, FUTEX, VMEM, PLEDGE, STATS}, LEAF, {WORKER})]

  datatype Permissions = Permissions(perms: Mask, allowed: Mask, role: nat)

  datatype Request = Request(perms: Mask, allowed: Mask)

  // The two values the boot path installs.
  const BOOT: Permissions := Permissions(EVERY, EVERY, BOOTSTRAP)
  const BOOT_LOADER: Permissions := Permissions(EVERY, EVERY, LOADER)

  function RoleDefOf(role: nat): (r: Option<RoleDef>) {
    if role < ROLE_COUNT then Some(ROLES[role]) else None
  }

  predicate AllowsTransition(def: RoleDef, target: nat) {
    target < 64 && target in def.transitions
  }

  datatype Transition =
    | Allowed(target: nat, def: RoleDef)
    | UnknownParentRole
    | UnknownTargetRole
    | TransitionDenied

  function CheckTransition(parentRole: nat, target: nat): (r: Transition) {
    if target == INHERIT then Allowed(INHERIT, ROLES[NOROLE])
    else if RoleDefOf(parentRole).None? then UnknownParentRole
    else if RoleDefOf(target).None? then UnknownTargetRole
    else if !AllowsTransition(RoleDefOf(parentRole).value, target) then TransitionDenied
    else Allowed(target, RoleDefOf(target).value)
  }

  function DeriveChildPerms(parent: Permissions, t: Transition, req: Request): (r: Permissions)
    requires t.Allowed?
  {
    if t.target == INHERIT then parent
    else Permissions(t.def.perms * parent.allowed * req.perms, t.def.allowed * parent.allowed * req.allowed, t.target)
  }

  function Narrowed(p: Permissions, req: Request): (r: Permissions) {
    Permissions(p.perms * req.perms, p.allowed * req.allowed, p.role)
  }

  // ---- Process trees ----

  // hops counts the transitions other than INHERIT on the way from the first process; asked is the
  // request of the transition that made the process.
  datatype Proc = Proc(initial: Permissions, now: Permissions, parent: Option<nat>, hops: nat, asked: Option<Request>)

  datatype Step = Pledge(pid: nat, req: Request) | Spawn(pid: nat, target: nat, req: Request)

  type Procs = seq<Proc>

  // A denied spawn and a step of a process that does not exist change nothing.
  function Take(ps: Procs, s: Step): (ps': Procs) {
    if s.pid >= |ps| then ps
    else
      var p := ps[s.pid];
      match s
      case Pledge(pid, req) => ps[pid := p.(now := Narrowed(p.now, req))]
      case Spawn(pid, target, req) =>
        var t := CheckTransition(p.now.role, target);
        if !t.Allowed? then ps
        else
          var child := DeriveChildPerms(p.now, t, req);
          ps + [if target == INHERIT then Proc(child, child, Some(pid), p.hops, None)
                else Proc(child, child, Some(pid), p.hops + 1, Some(req))]
  }

  function Run(ps: Procs, steps: seq<Step>): (ps': Procs) {
    if steps == [] then ps else Take(Run(ps, steps[..|steps| - 1]), steps[|steps| - 1])
  }

  function First(p: Permissions): (ps: Procs) {
    [Proc(p, p, None, 0, None)]
  }

  // ---- One step, class by class ----

  // A pledge leaves the process, on each axis, the classes that it had and asked to keep, under its
  // old role, and every other process as it is.
  lemma PledgeExact(ps: Procs, pid: nat, req: Request)
    requires pid < |ps|
    ensures var ps' := Take(ps, Pledge(pid, req));
            && |ps'| == |ps| && (forall q :: 0 <= q < |ps| && q != pid ==> ps'[q] == ps[q])
            && ps'[pid] == ps[pid].(now := ps'[pid].now) && ps'[pid].now.role == ps[pid].now.role
            && (forall x :: x in ps'[pid].now.perms <==> x in ps[pid].now.perms && x in req.perms)
            && (forall x :: x in ps'[pid].now.allowed <==> x in ps[pid].now.allowed && x in req.allowed)
  {
  }

  // A spawn is granted exactly if it inherits or the table lists the target for the parent's role. The
  // child gets its role's classes that the parent may pass on and the caller asked for; one that
  // inherits gets what its parent has.
  lemma SpawnExact(ps: Procs, pid: nat, target: nat, req: Request)
    requires pid < |ps|
    ensures var ps', p := Take(ps, Spawn(pid, target, req)), ps[pid].now;
            var granted := target == INHERIT || (p.role < ROLE_COUNT && target in ROLES[p.role].transitions);
            && (!granted ==> ps' == ps)
            && (granted ==>
                  && |ps'| == |ps| + 1 && ps'[..|ps|] == ps
                  && var child := ps'[|ps|];
                  && child.parent == Some(pid) && child.now == child.initial
                  && (target == INHERIT ==> child.now == p && child.hops == ps[pid].hops)
                  && (target != INHERIT ==>
                        && child.now.role == target < ROLE_COUNT && child.hops == ps[pid].hops + 1
                        && (forall x :: x in child.now.perms <==>
                                        x in ROLES[target].perms && x in p.allowed && x in req.perms)
                        && (forall x :: x in child.now.allowed <==>
                                        x in ROLES[target].allowed && x in p.allowed && x in req.allowed)))
  {
    if target != INHERIT && ps[pid].now.role < ROLE_COUNT && target in ROLES[ps[pid].now.role].transitions {
      assert target in {LOADER, SHELL, NET_CLIENT, FS_TOOL, WORKER, SERVICE};
    }
  }

  // Why a spawn is denied: the parent's role is looked at first, then the target, then the table.
  lemma DenialIs(parentRole: nat, target: nat)
    requires target != INHERIT
    ensures var t := CheckTransition(parentRole, target);
            && (t == UnknownParentRole <==> parentRole >= 8)
            && (t == UnknownTargetRole <==> parentRole < 8 && target >= 8)
            && (t == TransitionDenied <==> parentRole < 8 && target < 8 && Denied(parentRole, target))
  {
  }

  // The transitions that the table leaves out, by the role numbers of orbit-abi/src/perms.rs.
  predicate Denied(parentRole: nat, target: nat) {
    match parentRole
    case 1 => target !in {2, 3}
    case 2 => target !in {3, 4, 5, 6, 7}
    case 3 => target !in {4, 5, 6}
    case 4 => target != 6
    case 5 => target != 6
    case 7 => target != 6
    case _ => true
  }

  // So a shell's network client can use the network, and cannot pass it on, unless the shell has
  // dropped the class or asks for less.
  lemma NetClientOfShell(ps: Procs, pid: nat, req: Request)
    requires pid < |ps| && ps[pid].now.role == SHELL
    ensures var ps' := Take(ps, Spawn(pid, NET_CLIENT, req));
            && |ps'| == |ps| + 1 && ps'[|ps|].now.role == NET_CLIENT && NETCH !in ps'[|ps|].now.allowed
            && (NETCH in ps'[|ps|].now.perms <==> NETCH in ps[pid].now.allowed && NETCH in req.perms)
  {
    SpawnExact(ps, pid, NET_CLIENT, req);
    assert NET_CLIENT in ROLES[SHELL].transitions;
    assert NETCH in ROLES[NET_CLIENT].perms && NETCH !in LEAF;
  }

  // A run takes its steps one after the other, from the front as well as from the back.
  lemma {:induction false} RunFromFront(ps: Procs, s: Step, rest: seq<Step>)
    ensures Run(ps, [s] + rest) == Run(Take(ps, s), rest)
    decreases |rest|
  {
    var steps := [s] + rest;
    if rest == [] {
      assert steps[..0] == [] && steps[0] == s;
    } else {
      var n := |rest| - 1;
      RunFromFront(ps, s, rest[..n]);
      assert steps[..|steps| - 1] == [s] + rest[..n] && steps[|steps| - 1] == rest[n];
    }
  }

  // ---- What a pledge takes away stays away ----

  lemma {:induction false} Dropped(ps: Procs, steps: seq<Step>, pid: nat, x: nat)
    requires pid < |ps|
    ensures var ps' := Run(ps, steps);
            && |ps| <= |ps'| && ps'[pid].now.role == ps[pid].now.role && ps'[pid].hops == ps[pid].hops
            && (x !in ps[pid].now.perms ==> x !in ps'[pid].now.perms)
            && (x !in ps[pid].now.allowed ==> x !in ps'[pid].now.allowed)
  {
    if steps != [] { Dropped(ps, steps[..|steps| - 1], pid, x); }
  }

  // p is a, or below it by processes numbered n or higher, which are those spawned later.
  predicate BelowSince(ps: Procs, a: nat, p: nat, n: nat)
    decreases p
  {
    || a == p
    || (n <= p < |ps| && ps[p].parent.Some? && ps[p].parent.value < p && BelowSince(ps, a, ps[p].parent.value, n))
  }

  lemma {:induction false} LineKept(ps: Procs, s: Step, a: nat, p: nat, n: nat)
    requires p < |ps| && BelowSince(Take(ps, s), a, p, n)
    ensures BelowSince(ps, a, p, n)
    decreases p
  {
    if a != p { LineKept(ps, s, a, ps[p].parent.value, n); }
  }

  // A class that a may not pass on reaches no later descendant's allowed set, and past one
  // transition none of them holds it.
  lemma {:induction false} NotPassedOn(ps: Procs, steps: seq<Step>, a: nat, p: nat, x: nat)
    requires a < |ps| && x !in ps[a].now.allowed
    requires p < |Run(ps, steps)| && BelowSince(Run(ps, steps), a, p, |ps|)
    ensures var q := Run(ps, steps)[p];
            x !in q.now.allowed && q.hops >= ps[a].hops && (q.hops > ps[a].hops ==> x !in q.now.perms)
  {
    Dropped(ps, steps, a, x);
    if steps != [] && p != a {
      var before, s := Run(ps, steps[..|steps| - 1]), steps[|steps| - 1];
      if p < |before| {
        LineKept(before, s, a, p, |ps|);
        NotPassedOn(ps, steps[..|steps| - 1], a, p, x);
      } else {
        LineKept(before, s, a, s.pid, |ps|);
        NotPassedOn(ps, steps[..|steps| - 1], a, s.pid, x);
      }
    }
  }

  // Whatever runs after a pledge: a class that it dropped is never held by the process again, and one
  // that it dropped from the allowed set is in the allowed set of no process spawned below it since,
  // and held by none of them past a transition.
  lemma PledgeLasts(ps: Procs, pid: nat, req: Request, steps: seq<Step>, x: nat)
    requires pid < |ps|
    ensures var ps' := Run(Take(ps, Pledge(pid, req)), steps);
            && |ps| <= |ps'|
            && (x !in req.perms ==> x !in ps'[pid].now.perms)
            && (x !in req.allowed ==> forall p :: 0 <= p < |ps'| && BelowSince(ps', pid, p, |ps|) ==>
                  x !in ps'[p].now.allowed && (ps'[p].hops > ps'[pid].hops ==> x !in ps'[p].now.perms))
  {
    hide Run, BelowSince;
    PledgeExact(ps, pid, req);
    var ps1 := Take(ps, Pledge(pid, req));
    Dropped(ps1, steps, pid, x);
    if x !in req.allowed {
      forall p | 0 <= p < |Run(ps1, steps)| && BelowSince(Run(ps1, steps), pid, p, |ps|)
        ensures x !in Run(ps1, steps)[p].now.allowed
        ensures Run(ps1, steps)[p].hops > Run(ps1, steps)[pid].hops ==> x !in Run(ps1, steps)[p].now.perms
      {
        NotPassedOn(ps1, steps, pid, p, x);
      }
    }
  }

  // ---- Lineages ----

  // Is a equal to p or above it?
  predicate Above(ps: Procs, a: nat, p: nat)
    decreases p
  {
    a == p || (p < |ps| && ps[p].parent.Some? && ps[p].parent.value < p && Above(ps, a, ps[p].parent.value))
  }

  // How many further transitions a role can make.
  function Rank(role: nat): (r: nat) {
    if role == BOOTSTRAP then 4
    else if role == LOADER then 3
    else if role == SHELL then 2
    else if role in {NET_CLIENT, FS_TOOL, SERVICE} then 1
    else 0
  }

  predicate WithinRole(p: Permissions) {
    p.role < ROLE_COUNT && p.perms <= ROLES[p.role].perms && p.allowed <= ROLES[p.role].allowed
  }

  // What a step keeps about one process and its parent.
  predicate ProcOk(ps: Procs, root: Permissions, p: nat)
    requires p < |ps|
  {
    var q := ps[p];
    && q.now.perms <= q.initial.perms && q.now.allowed <= q.initial.allowed && q.now.role == q.initial.role
    && (WithinRole(root) ==> WithinRole(q.now))
    && (q.asked.Some? ==> q.initial.perms <= q.asked.value.perms && q.initial.allowed <= q.asked.value.allowed)
    && (q.parent.Some? ==>
          && q.parent.value < p
          && q.initial.allowed <= ps[q.parent.value].initial.allowed
          && q.initial.perms <= ps[q.parent.value].initial.perms + ps[q.parent.value].initial.allowed
          && q.hops + Rank(q.now.role) <= ps[q.parent.value].hops + Rank(ps[q.parent.value].now.role))
  }

  predicate TreeOk(ps: Procs, root: Permissions) {
    forall p :: 0 <= p < |ps| ==> ProcOk(ps, root, p)
  }

  // Every transition in the table goes down in rank, so the graph of roles has no cycle.
  lemma TransitionsDescend(parent: nat, target: nat)
    requires CheckTransition(parent, target).Allowed? && target != INHERIT
    ensures Rank(target) < Rank(parent) && target < ROLE_COUNT
  {
    var def := ROLES[parent];
    assert target in def.transitions;
  }

  lemma StepKeepsTree(ps: Procs, root: Permissions, s: Step)
    requires TreeOk(ps, root)
    ensures TreeOk(Take(ps, s), root)
  {
    var ps' := Take(ps, s);
    forall p | 0 <= p < |ps'| ensures ProcOk(ps', root, p) {
      if p < |ps| { assert ProcOk(ps, root, p); }
      if p == |ps| {
        assert ProcOk(ps, root, s.pid);
        if s.target != INHERIT { TransitionsDescend(ps[s.pid].now.role, s.target); }
      }
    }
  }

  lemma {:induction false} RunKeepsTree(root: Permissions, steps: seq<Step>)
    ensures TreeOk(Run(First(root), steps), root)
  {
    if steps != [] {
      RunKeepsTree(root, steps[..|steps| - 1]);
      StepKeepsTree(Run(First(root), steps[..|steps| - 1]), root, steps[|steps| - 1]);
    }
  }

  lemma {:induction false} AncestorsBound(ps: Procs, root: Permissions, a: nat, p: nat)
    requires TreeOk(ps, root) && p < |ps| && Above(ps, a, p)
    ensures a <= p
    ensures ps[p].initial.allowed <= ps[a].initial.allowed
    ensures ps[p].initial.perms <= ps[a].initial.perms + ps[a].initial.allowed
    ensures ps[p].hops + Rank(ps[p].now.role) <= ps[a].hops + Rank(ps[a].now.role)
    decreases p
  {
    assert ProcOk(ps, root, p);
    if a != p { AncestorsBound(ps, root, a, ps[p].parent.value); }
  }

  // Over every run of pledges and spawns below any first process, nobody outgrows an ancestor: what
  // a process may pass on was its ancestor's to pass on, and what it may do was its ancestor's to do
  // or to pass on. It also stays within what the ancestor's creator asked for it. And no lineage makes
  // more than four transitions other than INHERIT.
  lemma LineagesNarrow(root: Permissions, steps: seq<Step>, a: nat, p: nat)
    requires p < |Run(First(root), steps)| && Above(Run(First(root), steps), a, p)
    ensures var ps := Run(First(root), steps);
            && a < |ps|
            && ps[p].now.allowed <= ps[a].initial.allowed
            && ps[p].now.perms <= ps[a].initial.perms + ps[a].initial.allowed
            && ps[p].hops <= ps[a].hops + 4
            && (ps[a].asked.Some? ==>
                  && ps[p].now.allowed <= ps[a].asked.value.allowed
                  && ps[p].now.perms <= ps[a].asked.value.perms + ps[a].asked.value.allowed)
  {
    hide Run, First;
    var ps := Run(First(root), steps);
    RunKeepsTree(root, steps);
    AncestorsBound(ps, root, a, p);
    assert ProcOk(ps, root, p) && ProcOk(ps, root, a);
  }

  // Every process below a boot value stays within its role's defaults.
  lemma BootWithinRoles(root: Permissions, steps: seq<Step>, p: nat)
    requires root in {BOOT, BOOT_LOADER} && p < |Run(First(root), steps)|
    ensures WithinRole(Run(First(root), steps)[p].now)
  {
    RunKeepsTree(root, steps);
    assert WithinRole(root);
    assert ProcOk(Run(First(root), steps), root, p);
  }

  // The bound of four is reached.
  lemma FourTransitions()
    ensures exists steps :: var ps := Run(First(BOOT), steps); exists p :: 0 <= p < |ps| && ps[p].hops == 4
  {
    var req := Request(EVERY, EVERY);
    var s := [Spawn(0, LOADER, req), Spawn(1, SHELL, req), Spawn(2, NET_CLIENT, req), Spawn(3, WORKER, req)];
    var p1 := Take(First(BOOT), s[0]);
    var p2 := Take(p1, s[1]);
    var p3 := Take(p2, s[2]);
    var p4 := Take(p3, s[3]);
    assert s[..3][..2] == s[..2] && s[..2][..1] == s[..1] && s[..1][..0] == [];
    assert Run(First(BOOT), []) == First(BOOT);
    assert Run(First(BOOT), s[..1]) == p1;
    assert Run(First(BOOT), s[..2]) == p2;
    assert Run(First(BOOT), s[..3]) == p3;
    assert Run(First(BOOT), s) == p4;
    assert p4[4].hops == 4;
  }

  // A network role's network reach dies with it: below a network client or service of a booted
  // system, no process past one more transition holds NETCH or may pass it on.
  lemma NetworkDies(root: Permissions, steps: seq<Step>, a: nat, p: nat)
    requires root in {BOOT, BOOT_LOADER} && p < |Run(First(root), steps)|
    requires Above(Run(First(root), steps), a, p) && a < |Run(First(root), steps)|
    requires Run(First(root), steps)[a].now.role in {NET_CLIENT, SERVICE}
    requires Run(First(root), steps)[p].hops > Run(First(root), steps)[a].hops
    ensures var now := Run(First(root), steps)[p].now; NETCH !in now.perms && NETCH !in now.allowed
  {
    hide Run, First;
    var ps := Run(First(root), steps);
    RunKeepsTree(root, steps);
    AncestorsBound(ps, root, a, p);
    BootWithinRoles(root, steps, p);
    assert ps[p].now.role in {NOROLE, WORKER};
    assert NETCH !in LEAF;
  }
}

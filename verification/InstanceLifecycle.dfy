/**
 The life of one instances row under the worker jobs and the admin endpoints. A handler
 reads the row in `Begin` and writes it later in `Commit`, as the source does with separate
 statements, so any number of handlers may be in flight over a row that changes meanwhile.
 */
module InstanceLifecycle {
  import opened Prelude

  type HandlerId = nat
  type VmId = nat

  datatype Status =
    | Draft | Pending | Provisioning | Active | Stopped
    | Suspended | Deleting | Deleted | Failed | Unknown

  datatype Row = Row(status: Status, deletedAt: bool, vm: Option<VmId>)

  datatype Kind = Sync | Provision | AdminSuspend | AdminUnsuspend | SuspendJob | UnsuspendJob | Terminate

  /** `vm` and `destroyed` matter to terminate only: the id it loaded, and whether the
      provider confirmed the destroy call. */
  datatype Handler = Handler(kind: Kind, vm: Option<VmId>, destroyed: bool)

  datatype State = State(row: Row, handlers: map<HandlerId, Handler>, destroys: nat)

  datatype Event =
    | Begin(h: HandlerId, kind: Kind)
    | Destroy(h: HandlerId, ok: bool)
    | Commit(h: HandlerId, reported: Status)
    | MapVm(vm: VmId)
    | Abort(h: HandlerId)

  /** Whether the handler's first read lets it go on to a write. */
  predicate Admitted(row: Row, kind: Kind) {
    match kind
    case Sync => !row.deletedAt
    case Provision => !row.deletedAt && row.vm.None?
    case AdminSuspend => !row.deletedAt && row.status !in {Suspended, Deleting, Deleted}
    case AdminUnsuspend => !row.deletedAt && row.status == Suspended
    case SuspendJob => true
    case UnsuspendJob => true
    case Terminate => row.status != Deleted
  }

  /** The closing UPDATE of each handler; none of them looks at deleted_at. */
  function Written(row: Row, kind: Kind, reported: Status): Row {
    match kind
    case Sync => row.(status := reported)
    case Provision => row.(status := Provisioning)
    case AdminSuspend => row.(status := Suspended)
    case AdminUnsuspend => row.(status := Active)
    case SuspendJob => row.(status := Suspended)
    case UnsuspendJob => row.(status := Active)
    case Terminate => row.(status := Deleted, deletedAt := true)
  }

  predicate Owes(x: Handler) {
    x.kind == Terminate && x.vm.Some? && !x.destroyed
  }

  function Step(s: State, ev: Event): State {
    match ev
    case Begin(h, kind) =>
      if h in s.handlers || !Admitted(s.row, kind) then s
      else s.(handlers := s.handlers[h := Handler(kind, s.row.vm, false)])
    case Destroy(h, ok) =>
      if h !in s.handlers || !Owes(s.handlers[h]) then s
      else s.(destroys := s.destroys + 1,
              handlers := if ok then s.handlers[h := s.handlers[h].(destroyed := true)] else s.handlers - {h})
    case Commit(h, reported) =>
      if h !in s.handlers || Owes(s.handlers[h]) then s
      else s.(row := Written(s.row, s.handlers[h].kind, reported), handlers := s.handlers - {h})
    case MapVm(vm) => if s.row.vm.None? then s.(row := s.row.(vm := Some(vm))) else s
    case Abort(h) => s.(handlers := s.handlers - {h})
  }

  function Run(s: State, events: seq<Event>): State
    decreases |events|
  {
    if events == [] then s else Run(Step(s, events[0]), events[1..])
  }

  /** No handler ever clears deleted_at. */
  lemma {:induction false} DeletedAtIsPermanent(s: State, events: seq<Event>)
    requires s.row.deletedAt
    ensures Run(s, events).row.deletedAt
    decreases |events|
  {
    if events != [] {
      DeletedAtIsPermanent(Step(s, events[0]), events[1..]);
    }
  }

  // ----- After terminate committed -----

  predicate IsSuspensionStart(ev: Event) {
    ev.Begin? && (ev.kind == SuspendJob || ev.kind == UnsuspendJob)
  }

  predicate WithoutSuspensionJobs(events: seq<Event>) {
    forall i :: 0 <= i < |events| ==> !IsSuspensionStart(events[i])
  }

  predicate Terminated(s: State) {
    s.row.deletedAt && s.row.status == Deleted
  }

  predicate OnlyTerminateInFlight(s: State) {
    forall h :: h in s.handlers ==> s.handlers[h].kind == Terminate
  }

  /** Terminate handlers that loaded the row before the commit and still owe a destroy call. */
  ghost function Owing(s: State): set<HandlerId> {
    set h | h in s.handlers && Owes(s.handlers[h])
  }

  /** Nobody starts to owe a destroy call, and a call is made by one who owes it and then does not. */
  lemma {:induction false} DebtMoves(s: State, ev: Event, h: HandlerId)
    requires Terminated(s)
    ensures var t := Step(s, ev);
            && (h in Owing(t) ==> h in Owing(s))
            && (t.destroys == s.destroys ||
                (t.destroys == s.destroys + 1 && ev.Destroy? && ev.h in Owing(s) && ev.h !in Owing(t)))
  {
  }

  /** A destroy call discharges the debt of its handler; nothing adds one. */
  lemma {:induction false} DebtShrinks(s: State, ev: Event)
    requires Terminated(s)
    ensures var t := Step(s, ev);
            && s.destroys <= t.destroys
            && t.destroys + |Owing(t)| <= s.destroys + |Owing(s)|
  {
    var before, after := Owing(s), Owing(Step(s, ev));
    forall h | h in after ensures h in before {
      DebtMoves(s, ev, h);
    }
    DebtMoves(s, ev, 0);
    if Step(s, ev).destroys == s.destroys {
      Subset(after, before);
    } else {
      Subset(after, before - {ev.h});
    }
  }

  lemma {:induction false} SettledStep(s: State, ev: Event)
    requires Terminated(s) && OnlyTerminateInFlight(s) && !IsSuspensionStart(ev)
    ensures Terminated(Step(s, ev)) && OnlyTerminateInFlight(Step(s, ev))
  {
  }

  lemma {:induction false} Subset(small: set<HandlerId>, big: set<HandlerId>)
    requires small <= big
    ensures |small| <= |big|
  {
    assert big == small + (big - small);
  }

  /** With no status writer in flight the row stays deleted, and destroy calls are limited to
      the terminate handlers that had already loaded the row. */
  lemma {:induction false} SettledForever(s: State, events: seq<Event>)
    requires Terminated(s) && OnlyTerminateInFlight(s) && WithoutSuspensionJobs(events)
    ensures var t := Run(s, events);
            && Terminated(t) && OnlyTerminateInFlight(t)
            && s.destroys <= t.destroys <= s.destroys + |Owing(s)|
    ensures s.handlers == map[] ==> Run(s, events).destroys == s.destroys
    decreases |events|
  {
    FinalBound(s, events);
    if s.handlers == map[] {
      assert Owing(s) == {};
    }
  }

  lemma {:induction false} FinalBound(s: State, events: seq<Event>)
    requires Terminated(s) && OnlyTerminateInFlight(s) && WithoutSuspensionJobs(events)
    ensures var t := Run(s, events);
            && Terminated(t) && OnlyTerminateInFlight(t)
            && s.destroys <= t.destroys
            && t.destroys + |Owing(t)| <= s.destroys + |Owing(s)|
    decreases |events|
  {
    if events != [] {
      SettledStep(s, events[0]);
      DebtShrinks(s, events[0]);
      FinalBound(Step(s, events[0]), events[1..]);
    }
  }

  ghost predicate CanRevive(s: State) {
    exists events :: WithoutSuspensionJobs(events) && Run(s, events).row.status != Deleted
  }

  /** Exactly when a terminated row can show another status again without a new suspension
      job: when a handler other than terminate had read the row before the commit. */
  lemma {:induction false} RevivalExactly(s: State)
    requires Terminated(s)
    ensures CanRevive(s) <==> !OnlyTerminateInFlight(s)
  {
    if OnlyTerminateInFlight(s) {
      forall events | WithoutSuspensionJobs(events) ensures Run(s, events).row.status == Deleted {
        SettledForever(s, events);
      }
    } else {
      var h :| h in s.handlers && s.handlers[h].kind != Terminate;
      var events := [Commit(h, Active)];
      assert Run(s, events) == Step(s, events[0]);
      assert WithoutSuspensionJobs(events);
    }
  }

  /** The case occurs for every live mapped row: a sync reads it, terminate destroys the machine
      and commits, and the sync then writes the status it was told. */
  lemma {:induction false} SyncRevivesTerminated(s: State, reported: Status) returns (events: seq<Event>)
    requires !s.row.deletedAt && s.row.status != Deleted && s.row.vm.Some? && s.handlers == map[]
    ensures var t := Run(s, events);
            t.row.deletedAt && t.row.status == reported && t.destroys == s.destroys + 1 && t.handlers == map[]
    ensures Terminated(Run(s, events[..|events| - 1])) && WithoutSuspensionJobs(events)
  {
    events := [Begin(0, Sync), Begin(1, Terminate), Destroy(1, true), Commit(1, Deleted), Commit(0, reported)];
    var s2 := Step(Step(s, events[0]), events[1]);
    var s4 := Step(Step(s2, events[2]), events[3]);
    OvertakenSync(s);
    var most := events[..4];
    RunOfTwo(s, events, 0);
    RunOfTwo(s2, events, 2);
    RunOfTwo(s, most, 0);
    RunOfTwo(s2, most, 2);
    assert events[0..] == events && most[0..] == most && most == events[..|events| - 1];
    assert Run(s4, most[4..]) == s4;
    assert Run(s4, events[4..]) == Step(s4, events[4]);
  }

  /** The state in which terminate has committed and the sync has not. */
  lemma {:induction false} OvertakenSync(s: State)
    requires !s.row.deletedAt && s.row.status != Deleted && s.row.vm.Some? && s.handlers == map[]
    ensures Step(Step(Step(Step(s, Begin(0, Sync)), Begin(1, Terminate)), Destroy(1, true)), Commit(1, Deleted)) ==
            State(s.row.(status := Deleted, deletedAt := true), map[0 := Handler(Sync, s.row.vm, false)],
                  s.destroys + 1)
    ensures map[0 := Handler(Sync, s.row.vm, false)] - {0} == map[]
  {
    var x, y := Handler(Sync, s.row.vm, false), Handler(Terminate, s.row.vm, false);
    assert Step(Step(s, Begin(0, Sync)), Begin(1, Terminate)) == State(s.row, map[0 := x, 1 := y], s.destroys);
    assert map[0 := x, 1 := y.(destroyed := true)] - {1} == map[0 := x];
  }

  lemma {:induction false} RunOfTwo(s: State, events: seq<Event>, k: nat)
    requires k + 2 <= |events|
    ensures Run(s, events[k..]) == Run(Step(Step(s, events[k]), events[k + 1]), events[k + 2..])
  {
    assert events[k..][1..] == events[k + 1..] && events[k + 1..][1..] == events[k + 2..];
    assert Run(Step(s, events[k]), events[k + 1..]) == Run(Step(Step(s, events[k]), events[k + 1]), events[k + 2..]);
  }

  /** A suspension job has no guard: it revives the status of a terminated row, after which a
      replayed terminate job destroys the machine a second time. */
  lemma {:induction false} SuspensionJobReopensTermination(s: State, kind: Kind) returns (events: seq<Event>)
    requires Terminated(s) && s.row.vm.Some? && (kind == SuspendJob || kind == UnsuspendJob)
    ensures Run(s, events).row.status != Deleted && Run(s, events).row.deletedAt
    ensures Run(s, events).destroys == s.destroys + 1
  {
    var h := FreshNat(s.handlers.Keys);
    events := [Begin(h, kind), Commit(h, Active), Begin(h, Terminate), Destroy(h, true)];
    var s1 := Step(s, events[0]);
    var s2 := Step(s1, events[1]);
    var s3 := Step(s2, events[2]);
    var s4 := Step(s3, events[3]);
    assert Run(s3, events[3..]) == s4;
    assert Run(s2, events[2..]) == s4 by { assert events[2..][1..] == events[3..]; }
    assert Run(s1, events[1..]) == s4 by { assert events[1..][1..] == events[2..]; }
  }

  // ----- What each handler writes -----

  lemma {:induction false} RunOfBeginCommit(s: State, h: HandlerId, kind: Kind, reported: Status)
    ensures Run(s, [Begin(h, kind), Commit(h, reported)]) == Step(Step(s, Begin(h, kind)), Commit(h, reported))
  {
    var events := [Begin(h, kind), Commit(h, reported)];
    assert events[1..] == [Commit(h, reported)] && events[1..][1..] == [];
    assert Run(Step(s, events[0]), events[1..]) == Step(Step(s, events[0]), events[1]);
  }

  /** An administrator's suspension alone: exactly a row that is not deleted, suspended or being
      deleted ends suspended, and nothing else about it changes. */
  lemma {:induction false} AdminSuspendAlone(s: State, h: HandlerId, reported: Status)
    requires h !in s.handlers
    ensures Run(s, [Begin(h, AdminSuspend), Commit(h, reported)]) ==
            if !s.row.deletedAt && s.row.status != Suspended && s.row.status != Deleting && s.row.status != Deleted
            then s.(row := s.row.(status := Suspended)) else s
  {
    RunOfBeginCommit(s, h, AdminSuspend, reported);
    NoTrace(s, h, Handler(AdminSuspend, s.row.vm, false));
  }

  /** Lifting it alone: exactly a suspended row that is not deleted ends active. */
  lemma {:induction false} AdminUnsuspendAlone(s: State, h: HandlerId, reported: Status)
    requires h !in s.handlers
    ensures Run(s, [Begin(h, AdminUnsuspend), Commit(h, reported)]) ==
            if !s.row.deletedAt && s.row.status == Suspended then s.(row := s.row.(status := Active)) else s
  {
    RunOfBeginCommit(s, h, AdminUnsuspend, reported);
    NoTrace(s, h, Handler(AdminUnsuspend, s.row.vm, false));
  }

  /** The two jobs write the same statuses, from every status and on deleted rows too. */
  lemma {:induction false} SuspensionJobsAlone(s: State, h: HandlerId, reported: Status)
    requires h !in s.handlers
    ensures Run(s, [Begin(h, SuspendJob), Commit(h, reported)]) == s.(row := s.row.(status := Suspended))
    ensures Run(s, [Begin(h, UnsuspendJob), Commit(h, reported)]) == s.(row := s.row.(status := Active))
  {
    RunOfBeginCommit(s, h, SuspendJob, reported);
    RunOfBeginCommit(s, h, UnsuspendJob, reported);
    NoTrace(s, h, Handler(SuspendJob, s.row.vm, false));
    NoTrace(s, h, Handler(UnsuspendJob, s.row.vm, false));
  }

  /** A sync writes what the provider reports, and provisioning 'provisioning', each on rows that
      are not deleted; provisioning also needs a row without a machine. */
  lemma {:induction false} WorkerJobsAlone(s: State, h: HandlerId, reported: Status)
    requires h !in s.handlers
    ensures Run(s, [Begin(h, Sync), Commit(h, reported)]) ==
            if !s.row.deletedAt then s.(row := s.row.(status := reported)) else s
    ensures Run(s, [Begin(h, Provision), Commit(h, reported)]) ==
            if !s.row.deletedAt && s.row.vm == None then s.(row := s.row.(status := Provisioning)) else s
  {
    RunOfBeginCommit(s, h, Sync, reported);
    RunOfBeginCommit(s, h, Provision, reported);
    NoTrace(s, h, Handler(Sync, s.row.vm, false));
    NoTrace(s, h, Handler(Provision, s.row.vm, false));
  }

  lemma {:induction false} NoTrace(s: State, h: HandlerId, x: Handler)
    requires h !in s.handlers
    ensures s.handlers[h := x] - {h} == s.handlers
  {
  }

  /** Suspending and lifting restores an active row, through the endpoints and through the jobs. */
  lemma {:induction false} SuspensionRoundTrip(s: State, h: HandlerId, reported: Status)
    requires h !in s.handlers && s.row.status == Active && !s.row.deletedAt
    ensures Run(Run(s, [Begin(h, AdminSuspend), Commit(h, reported)]),
                [Begin(h, AdminUnsuspend), Commit(h, reported)]) == s
    ensures Run(Run(s, [Begin(h, SuspendJob), Commit(h, reported)]), [Begin(h, UnsuspendJob), Commit(h, reported)]) == s
  {
    var t := s.(row := s.row.(status := Suspended));
    AdminSuspendAlone(s, h, reported);
    AdminUnsuspendAlone(t, h, reported);
    SuspensionJobsAlone(s, h, reported);
    SuspensionJobsAlone(t, h, reported);
  }

  lemma {:induction false} RunOfThree(s: State, a: Event, b: Event, c: Event)
    ensures Run(s, [a, b, c]) == Step(Step(Step(s, a), b), c)
  {
    assert [a, b, c][1..] == [b, c] && [b, c][1..] == [c] && [c][1..] == [];
    assert Run(Step(s, a), [b, c]) == Run(Step(Step(s, a), b), [c]);
  }

  /** Termination alone: a mapped row is deleted after one confirmed destroy call; a refused call
      leaves the row as it was; a row already deleted sees no call at all. */
  lemma {:induction false} TerminateAlone(s: State, h: HandlerId, ok: bool, reported: Status)
    requires h !in s.handlers && s.row.vm.Some?
    ensures Run(s, [Begin(h, Terminate), Destroy(h, ok), Commit(h, reported)]) ==
            if s.row.status == Deleted then s
            else s.(destroys := s.destroys + 1,
                    row := if ok then s.row.(status := Deleted, deletedAt := true) else s.row)
  {
    RunOfThree(s, Begin(h, Terminate), Destroy(h, ok), Commit(h, reported));
    NoTrace(s, h, Handler(Terminate, s.row.vm, false));
    NoTrace(s, h, Handler(Terminate, s.row.vm, true));
    if s.row.status != Deleted {
      var x := Handler(Terminate, s.row.vm, false);
      assert Step(s, Begin(h, Terminate)) == s.(handlers := s.handlers[h := x]);
      assert s.handlers[h := x][h := x.(destroyed := true)] == s.handlers[h := x.(destroyed := true)];
    }
  }

  /** A row that was never mapped is deleted without a destroy call. */
  lemma {:induction false} TerminateUnmapped(s: State, h: HandlerId, reported: Status)
    requires h !in s.handlers && s.row.vm == None && s.row.status != Deleted
    ensures Run(s, [Begin(h, Terminate), Commit(h, reported)]) ==
            s.(row := s.row.(status := Deleted, deletedAt := true))
  {
    RunOfBeginCommit(s, h, Terminate, reported);
    NoTrace(s, h, Handler(Terminate, None, false));
  }

  /** The machine id is written once, whatever the row's status; an aborted handler writes nothing. */
  lemma {:induction false} MapAndAbort(s: State, v: VmId, h: HandlerId)
    ensures Step(s, MapVm(v)) == if s.row.vm == None then s.(row := s.row.(vm := Some(v))) else s
    ensures var t := Step(s, Abort(h));
            t.row == s.row && t.destroys == s.destroys && t.handlers.Keys == s.handlers.Keys - {h} &&
            forall g :: g in t.handlers ==> t.handlers[g] == s.handlers[g]
  {
  }
}

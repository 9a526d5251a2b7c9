/**
 Provisioning of one instance by any number of workers. A handler enters by winning the
 Redis SETNX lock, works on the instances row, and leaves through a get-then-delete release.
 Time is counted in seconds; `bound` is the longest a handler stays between its SETNX and
 the end of its release.
 */
module ProvisionLock {
  import opened Prelude

  type HandlerId = nat
  type JobId = nat
  type VmId = nat

  const LOCK_TTL: nat := 600
  const JOB_TIMEOUT: nat := 300

  /** The stored value is the job id; `holder` names the execution that stored it. */
  datatype Lock = Lock(job: JobId, holder: HandlerId, expiry: nat)

  datatype Phase = Entered | Ready | Created | Leaving | Deleting

  datatype Handler = Handler(job: JobId, entered: nat, phase: Phase, called: bool)

  /** `writes`, `creates`, `nullEnds` and `stolen` are history: writes of external_vm_id,
      provider create calls, attempts that ended with the id still null, and releases that
      deleted a lock held by another execution. */
  datatype State = State(
    now: nat,
    lock: Option<Lock>,
    handlers: map<HandlerId, Handler>,
    vm: Option<VmId>,
    writes: nat,
    creates: nat,
    nullEnds: nat,
    stolen: nat)

  datatype Event =
    | Tick
    | Acquire(h: HandlerId, job: JobId)
    | LoadRow(h: HandlerId, found: bool)
    | CallProvider(h: HandlerId, accepted: bool)
    | Resolve(h: HandlerId, listed: Option<VmId>)
    | Fail(h: HandlerId)
    | ReleaseGet(h: HandlerId)
    | ReleaseDel(h: HandlerId)
    | Crash(h: HandlerId)
    | SyncResolve(vm: VmId)

  const INITIAL := State(0, None, map[], None, 0, 0, 0, 0)

  /** Redis drops an expired key. */
  predicate Held(s: State) {
    s.lock.Some? && s.now < s.lock.value.expiry
  }

  predicate MayTick(bound: nat, s: State) {
    forall h :: h in s.handlers ==> s.now + 1 <= s.handlers[h].entered + bound
  }

  function SetPhase(s: State, h: HandlerId, phase: Phase): State
    requires h in s.handlers
  {
    s.(handlers := s.handlers[h := s.handlers[h].(phase := phase)])
  }

  function End(s: State, h: HandlerId): State {
    s.(handlers := s.handlers - {h}, nullEnds := if s.vm.None? then s.nullEnds + 1 else s.nullEnds)
  }

  /** UPDATE instances SET external_vm_id WHERE external_vm_id IS NULL. */
  function StoreVm(s: State, vm: VmId): State {
    if s.vm.None? then s.(vm := Some(vm), writes := s.writes + 1) else s
  }

  function Enter(s: State, h: HandlerId, job: JobId): State {
    if h in s.handlers || Held(s) then s
    else s.(lock := Some(Lock(job, h, s.now + LOCK_TTL)),
            handlers := s.handlers[h := Handler(job, s.now, Entered, false)])
  }

  /** A mapped instance is skipped; a missing or deleted row is an error. */
  function Load(s: State, h: HandlerId, found: bool): State
    requires h in s.handlers
  {
    SetPhase(s, h, if found && s.vm.None? then Ready else Leaving)
  }

  function Call(s: State, h: HandlerId, accepted: bool): State
    requires h in s.handlers
  {
    s.(creates := s.creates + 1,
       handlers := s.handlers[h := s.handlers[h].(phase := if accepted then Created else Leaving, called := true)])
  }

  function MatchListing(s: State, h: HandlerId, listed: Option<VmId>): State
    requires h in s.handlers
  {
    SetPhase(if listed.Some? then StoreVm(s, listed.value) else s, h, Leaving)
  }

  function GetLock(s: State, h: HandlerId): State
    requires h in s.handlers
  {
    if Held(s) && s.lock.value.job == s.handlers[h].job then SetPhase(s, h, Deleting) else End(s, h)
  }

  /** DEL is unconditional. */
  function DelLock(s: State, h: HandlerId): State
    requires h in s.handlers
  {
    var t := s.(lock := None, stolen := if Held(s) && s.lock.value.holder != h then s.stolen + 1 else s.stolen);
    End(t, h)
  }

  predicate At(s: State, h: HandlerId, phase: Phase) {
    h in s.handlers && s.handlers[h].phase == phase
  }

  function Step(bound: nat, s: State, ev: Event): State {
    match ev
    case Tick => if MayTick(bound, s) then s.(now := s.now + 1) else s
    case Acquire(h, job) => Enter(s, h, job)
    case LoadRow(h, found) => if At(s, h, Entered) then Load(s, h, found) else s
    case CallProvider(h, accepted) => if At(s, h, Ready) then Call(s, h, accepted) else s
    case Resolve(h, listed) => if At(s, h, Created) then MatchListing(s, h, listed) else s
    case Fail(h) => if h in s.handlers && s.handlers[h].phase != Deleting then SetPhase(s, h, Leaving) else s
    case ReleaseGet(h) => if At(s, h, Leaving) then GetLock(s, h) else s
    case ReleaseDel(h) => if At(s, h, Deleting) then DelLock(s, h) else s
    case Crash(h) => if h in s.handlers then End(s, h) else s
    case SyncResolve(vm) => StoreVm(s, vm)
  }

  function Run(bound: nat, s: State, events: seq<Event>): State
    decreases |events|
  {
    if events == [] then s else Run(bound, Step(bound, s, events[0]), events[1..])
  }

  // ----- Safety below the lock's lifetime -----

  predicate Exclusive(s: State) {
    forall h1, h2 :: h1 in s.handlers && h2 in s.handlers ==> h1 == h2
  }

  /** Each handler still owns the unexpired lock it set on entry. */
  predicate OwnsLock(bound: nat, s: State, h: HandlerId)
    requires h in s.handlers
  {
    && s.handlers[h].entered <= s.now <= s.handlers[h].entered + bound
    && s.lock == Some(Lock(s.handlers[h].job, h, s.handlers[h].entered + LOCK_TTL))
  }

  predicate LockInv(bound: nat, s: State) {
    s.stolen == 0 && forall h :: h in s.handlers ==> OwnsLock(bound, s, h)
  }

  ghost predicate CountInv(s: State) {
    && s.writes == (if s.vm.Some? then 1 else 0)
    && s.creates <= s.nullEnds + 1
    && (forall h :: At(s, h, Entered) || At(s, h, Ready) ==> !s.handlers[h].called)
    && (forall h :: At(s, h, Ready) ==> s.creates <= s.nullEnds)
    && (s.vm.None? && s.creates > s.nullEnds ==> exists h :: h in s.handlers && s.handlers[h].called)
  }

  ghost predicate Inv(bound: nat, s: State) {
    LockInv(bound, s) && CountInv(s)
  }

  lemma {:induction false} OwnersAreEqual(bound: nat, s: State)
    requires LockInv(bound, s)
    ensures Exclusive(s)
  {
    forall h1, h2 | h1 in s.handlers && h2 in s.handlers ensures h1 == h2 {
      assert OwnsLock(bound, s, h1) && OwnsLock(bound, s, h2);
    }
  }

  lemma {:induction false} StepKeepsLock(bound: nat, s: State, ev: Event)
    requires bound < LOCK_TTL && LockInv(bound, s)
    ensures LockInv(bound, Step(bound, s, ev))
  {
    OwnersAreEqual(bound, s);
    var t := Step(bound, s, ev);
    forall h | h in t.handlers ensures OwnsLock(bound, t, h) {
      assert h in s.handlers ==> OwnsLock(bound, s, h);
    }
  }

  /** A handler about to call create finds every earlier call accounted for. */
  lemma {:induction false} ReadyIsPaidFor(bound: nat, s: State, ev: Event, h: HandlerId)
    requires Exclusive(s) && CountInv(s)
    ensures At(Step(bound, s, ev), h, Entered) || At(Step(bound, s, ev), h, Ready) ==>
              !Step(bound, s, ev).handlers[h].called
    ensures At(Step(bound, s, ev), h, Ready) ==> Step(bound, s, ev).creates <= Step(bound, s, ev).nullEnds
  {
    assert At(s, h, Entered) || At(s, h, Ready) ==> !s.handlers[h].called;
  }

  /** A call not yet accounted for belongs to a handler still inside. */
  lemma {:induction false} DebtHasDebtor(bound: nat, s: State, ev: Event)
    requires Exclusive(s) && CountInv(s)
    ensures var t := Step(bound, s, ev);
            && t.creates <= t.nullEnds + 1
            && (t.vm.None? && t.creates > t.nullEnds ==> exists h :: h in t.handlers && t.handlers[h].called)
  {
    var t := Step(bound, s, ev);
    if t.creates > s.creates {
      assert At(s, ev.h, Ready) && t.handlers[ev.h].called;
    } else if s.vm.None? && s.creates > s.nullEnds {
      var h :| h in s.handlers && s.handlers[h].called;
      assert h in t.handlers ==> t.handlers[h].called;
    }
  }

  lemma {:induction false} StepKeepsCounts(bound: nat, s: State, ev: Event)
    requires Exclusive(s) && CountInv(s)
    ensures CountInv(Step(bound, s, ev))
  {
    DebtHasDebtor(bound, s, ev);
    forall h
      ensures At(Step(bound, s, ev), h, Entered) || At(Step(bound, s, ev), h, Ready) ==>
                !Step(bound, s, ev).handlers[h].called
      ensures At(Step(bound, s, ev), h, Ready) ==> Step(bound, s, ev).creates <= Step(bound, s, ev).nullEnds
    {
      ReadyIsPaidFor(bound, s, ev, h);
    }
  }

  lemma {:induction false} StepKeepsInv(bound: nat, s: State, ev: Event)
    requires bound < LOCK_TTL && Inv(bound, s)
    ensures Inv(bound, Step(bound, s, ev))
  {
    OwnersAreEqual(bound, s);
    StepKeepsLock(bound, s, ev);
    StepKeepsCounts(bound, s, ev);
  }

  lemma {:induction false} RunKeepsInv(bound: nat, s: State, events: seq<Event>)
    requires bound < LOCK_TTL && Inv(bound, s)
    ensures Inv(bound, Run(bound, s, events))
    decreases |events|
  {
    if events != [] {
      StepKeepsInv(bound, s, events[0]);
      RunKeepsInv(bound, Step(bound, s, events[0]), events[1..]);
    }
  }

  /** In every run with handlers shorter than the lock's lifetime: one handler at a time, no
      release deletes a foreign lock, external_vm_id is written at most once, and create calls
      exceed the attempts that ended unmapped by at most one. */
  lemma {:induction false} ProvisioningIsSerialised(bound: nat, events: seq<Event>)
    requires bound < LOCK_TTL
    ensures var s := Run(bound, INITIAL, events);
            && Exclusive(s)
            && s.stolen == 0
            && s.writes == (if s.vm.Some? then 1 else 0)
            && s.creates <= s.nullEnds + 1
  {
    RunKeepsInv(bound, INITIAL, events);
    OwnersAreEqual(bound, Run(bound, INITIAL, events));
  }

  // ----- Create calls once the id is stored -----

  /** Handlers that have loaded an unmapped row and not yet called create. */
  ghost function ReadyOf(s: State): set<HandlerId> {
    set h | h in s.handlers && s.handlers[h].phase == Ready
  }

  lemma {:induction false} Smaller(small: set<HandlerId>, big: set<HandlerId>)
    requires small <= big
    ensures |small| <= |big|
  {
    assert big == small + (big - small);
  }

  /** The stored id is final, nobody becomes ready any more, and each call uses up one that was. */
  lemma {:induction false} MappedStep(bound: nat, s: State, ev: Event)
    requires s.vm.Some?
    ensures var t := Step(bound, s, ev);
            && t.vm == s.vm && t.writes == s.writes && s.creates <= t.creates
            && ReadyOf(t) <= ReadyOf(s)
            && t.creates + |ReadyOf(t)| <= s.creates + |ReadyOf(s)|
  {
    var t := Step(bound, s, ev);
    forall h | h in ReadyOf(t) ensures h in ReadyOf(s) {}
    if t.creates == s.creates {
      Smaller(ReadyOf(t), ReadyOf(s));
    } else {
      assert ReadyOf(t) == ReadyOf(s) - {ev.h};
    }
  }

  /** Once the id is stored it never changes, and no attempt that loads the row afterwards gets
      ready to call create: further calls come only from handlers that were ready before, one
      each. */
  lemma {:induction false} CreatesAfterMapping(bound: nat, s: State, events: seq<Event>)
    requires s.vm.Some?
    ensures var t := Run(bound, s, events);
            && t.vm == s.vm && t.writes == s.writes && s.creates <= t.creates
            && ReadyOf(t) <= ReadyOf(s)
            && t.creates + |ReadyOf(t)| <= s.creates + |ReadyOf(s)|
    decreases |events|
  {
    if events != [] {
      MappedStep(bound, s, events[0]);
      CreatesAfterMapping(bound, Step(bound, s, events[0]), events[1..]);
    }
  }

  ghost predicate CanCreateAgain(bound: nat, s: State) {
    exists events :: Run(bound, s, events).creates > s.creates
  }

  /** Exactly when a mapped instance can still get another machine: when a handler loaded its
      row before the id was stored and has not called create yet. */
  lemma {:induction false} CreateAfterMappingExactly(bound: nat, s: State)
    requires s.vm.Some?
    ensures CanCreateAgain(bound, s) <==> exists h :: At(s, h, Ready)
  {
    if h :| At(s, h, Ready) {
      var events := [CallProvider(h, true)];
      assert Run(bound, s, events) == Step(bound, s, events[0]);
      assert Run(bound, s, events).creates > s.creates;
    } else {
      assert ReadyOf(s) == {} by {
        forall h ensures h !in ReadyOf(s) {
          assert !At(s, h, Ready);
        }
      }
      forall events ensures Run(bound, s, events).creates <= s.creates {
        CreatesAfterMapping(bound, s, events);
      }
    }
  }

  /** With handlers shorter than the lock's lifetime that is at most one machine too many. */
  lemma {:induction false} AtMostOneCreateAfterMapping(bound: nat, before: seq<Event>, after: seq<Event>)
    requires bound < LOCK_TTL && Run(bound, INITIAL, before).vm.Some?
    ensures Run(bound, Run(bound, INITIAL, before), after).creates <= Run(bound, INITIAL, before).creates + 1
  {
    var s := Run(bound, INITIAL, before);
    ProvisioningIsSerialised(bound, before);
    CreatesAfterMapping(bound, s, after);
    if h :| h in ReadyOf(s) {
      assert ReadyOf(s) == {h};
    }
  }

  /** The case occurs: a sync stores the id of a machine it finds by name between a handler's
      load and its create call. */
  lemma {:induction false} SyncOvertakesProvision(bound: nat, vm: VmId) returns (before: seq<Event>, after: seq<Event>)
    ensures Run(bound, INITIAL, before).vm == Some(vm)
    ensures Run(bound, Run(bound, INITIAL, before), after).creates == Run(bound, INITIAL, before).creates + 1
  {
    before, after := [Acquire(0, 0), LoadRow(0, true), SyncResolve(vm)], [CallProvider(0, true)];
    var s1 := Step(bound, INITIAL, before[0]);
    var s2 := Step(bound, s1, before[1]);
    var s3 := Step(bound, s2, before[2]);
    assert Run(bound, s2, before[2..]) == s3;
    assert Run(bound, s1, before[1..]) == s3 by { assert before[1..][1..] == before[2..]; }
    assert Run(bound, s3, after) == Step(bound, s3, after[0]);
  }

  // ----- The bound is exact -----

  ghost predicate AlwaysExclusive(bound: nat) {
    forall events :: Exclusive(Run(bound, INITIAL, events))
  }

  ghost predicate NeverSteals(bound: nat) {
    forall events :: Run(bound, INITIAL, events).stolen == 0
  }

  function Ticks(n: nat): seq<Event> {
    seq(n, i => Tick)
  }

  lemma {:induction false} RunAppend(bound: nat, s: State, first: seq<Event>, second: seq<Event>)
    ensures Run(bound, s, first + second) == Run(bound, Run(bound, s, first), second)
    decreases |first|
  {
    if first == [] {
      assert first + second == second;
    } else {
      assert (first + second)[1..] == first[1..] + second;
      RunAppend(bound, Step(bound, s, first[0]), first[1..], second);
    }
  }

  lemma {:induction false} RunTicks(bound: nat, s: State, n: nat)
    requires forall h :: h in s.handlers ==> s.now + n <= s.handlers[h].entered + bound
    ensures Run(bound, s, Ticks(n)) == s.(now := s.now + n)
    decreases n
  {
    if n > 0 {
      assert Ticks(n)[1..] == Ticks(n - 1);
      RunTicks(bound, Step(bound, s, Tick), n - 1);
    }
  }

  /** A handler one second before its lock expires, about to release. */
  lemma {:induction false} LateHandler(bound: nat) returns (events: seq<Event>)
    requires bound >= LOCK_TTL
    ensures Run(bound, INITIAL, events) ==
            INITIAL.(now := LOCK_TTL - 1, lock := Some(Lock(0, 0, LOCK_TTL)),
                     handlers := map[0 := Handler(0, 0, Leaving, false)])
  {
    var entry := [Acquire(0, 0), LoadRow(0, false)];
    var s := Step(bound, Step(bound, INITIAL, entry[0]), entry[1]);
    assert Run(bound, INITIAL, entry) == s;
    events := entry + Ticks(LOCK_TTL - 1);
    RunAppend(bound, INITIAL, entry, Ticks(LOCK_TTL - 1));
    RunTicks(bound, s, LOCK_TTL - 1);
  }

  /** A handler that outlives the lock lets a second one in, and then deletes its lock. */
  lemma {:induction false} SlowHandlerLosesLock(bound: nat) returns (overlap: seq<Event>, theft: seq<Event>)
    requires bound >= LOCK_TTL
    ensures !Exclusive(Run(bound, INITIAL, overlap))
    ensures Run(bound, INITIAL, theft).stolen > 0
  {
    var before := LateHandler(bound);
    var s := Run(bound, INITIAL, before);
    var late := [ReleaseGet(0), Tick, Acquire(1, 1)];
    RunAppend(bound, INITIAL, before, late);
    overlap := before + late;
    var t := Step(bound, Step(bound, Step(bound, s, ReleaseGet(0)), Tick), Acquire(1, 1));
    assert late[1..][1..] == [Acquire(1, 1)];
    assert Run(bound, s, late) == t;
    assert 0 in t.handlers && 1 in t.handlers;
    theft := overlap + [ReleaseDel(0)];
    RunAppend(bound, INITIAL, overlap, [ReleaseDel(0)]);
    assert Run(bound, t, [ReleaseDel(0)]) == Step(bound, t, ReleaseDel(0));
  }

  /** Mutual exclusion and safe release hold in all runs exactly when every handler is
      shorter than the lock's lifetime. */
  lemma {:induction false} LockIsSafeExactlyBelowTtl(bound: nat)
    ensures AlwaysExclusive(bound) <==> bound < LOCK_TTL
    ensures NeverSteals(bound) <==> bound < LOCK_TTL
  {
    if bound < LOCK_TTL {
      forall events ensures Exclusive(Run(bound, INITIAL, events)) && Run(bound, INITIAL, events).stolen == 0 {
        ProvisioningIsSerialised(bound, events);
      }
    } else {
      var overlap, theft := SlowHandlerLosesLock(bound);
    }
  }

  /** The queue cancels a handler after five minutes, but its release runs without that limit.
      The lock is safe exactly while a release takes less than the five minutes left. */
  lemma {:induction false} QueueTimeoutLeavesMargin(release: nat)
    ensures AlwaysExclusive(JOB_TIMEOUT + release) <==> release < 300
    ensures NeverSteals(JOB_TIMEOUT + release) <==> release < 300
  {
    LockIsSafeExactlyBelowTtl(JOB_TIMEOUT + release);
  }

  // ----- What an attempt achieves -----

  /** Handler `h` is inside with lock `l`; everything else is as in `s`. */
  function Inside(s: State, l: Lock, h: HandlerId, x: Handler): State {
    s.(lock := Some(l), handlers := s.handlers[h := x])
  }

  lemma {:induction false} RunFirst(bound: nat, s: State, ev: Event, rest: seq<Event>)
    ensures Run(bound, s, [ev] + rest) == Run(bound, Step(bound, s, ev), rest)
  {
    assert ([ev] + rest)[1..] == rest;
  }

  /** A fresh handler enters exactly when no unexpired lock is stored, and then stores its own for
      ten minutes; otherwise nothing changes. */
  lemma {:induction false} AcquireExactly(bound: nat, s: State, h: HandlerId, job: JobId)
    requires h !in s.handlers
    ensures var t := Step(bound, s, Acquire(h, job));
            && (h in t.handlers <==> s.lock.None? || s.now >= s.lock.value.expiry)
            && (h in t.handlers ==>
                  t == Inside(s, Lock(job, h, s.now + 600), h, Handler(job, s.now, Entered, false)))
            && (h !in t.handlers ==> t == s)
  {
  }

  /** A handler goes on to the provider exactly when it finds its row and the row has no id. */
  lemma {:induction false} LoadExactly(bound: nat, s: State, l: Lock, h: HandlerId, x: Handler, found: bool)
    requires x.phase == Entered
    ensures Step(bound, Inside(s, l, h, x), LoadRow(h, found)) ==
            Inside(s, l, h, x.(phase := if found && s.vm == None then Ready else Leaving))
  {
  }

  lemma {:induction false} CallExactly(bound: nat, s: State, l: Lock, h: HandlerId, x: Handler, accepted: bool)
    requires x.phase == Ready
    ensures Step(bound, Inside(s, l, h, x), CallProvider(h, accepted)) ==
            Inside(s.(creates := s.creates + 1), l, h,
                   x.(phase := if accepted then Created else Leaving, called := true))
  {
  }

  /** The id found by name is stored exactly when none is stored yet. */
  lemma {:induction false} ResolveExactly(bound: nat, s: State, l: Lock, h: HandlerId, x: Handler, listed: Option<VmId>)
    requires x.phase == Created
    ensures var stored := if s.vm == None && listed.Some? then s.(vm := listed, writes := s.writes + 1) else s;
            Step(bound, Inside(s, l, h, x), Resolve(h, listed)) == Inside(stored, l, h, x.(phase := Leaving))
  {
  }

  /** A sync stores the id it finds exactly when none is stored yet, without any lock. */
  lemma {:induction false} SyncExactly(bound: nat, s: State, v: VmId)
    ensures Step(bound, s, SyncResolve(v)) == if s.vm == None then s.(vm := Some(v), writes := s.writes + 1) else s
  {
  }

  /** A release deletes the lock when it still carries the handler's job. */
  lemma {:induction false} ReleaseOwn(bound: nat, s: State, l: Lock, h: HandlerId, x: Handler)
    requires h !in s.handlers && x.phase == Leaving && l.job == x.job && l.holder == h && s.now < l.expiry
    ensures Run(bound, Inside(s, l, h, x), [ReleaseGet(h)] + [ReleaseDel(h)]) ==
            s.(lock := None, nullEnds := if s.vm == None then s.nullEnds + 1 else s.nullEnds)
  {
    var t := Inside(s, l, h, x);
    var y := x.(phase := Deleting);
    RunFirst(bound, t, ReleaseGet(h), [ReleaseDel(h)]);
    assert Step(bound, t, ReleaseGet(h)) == Inside(s, l, h, y);
    assert s.handlers[h := y] - {h} == s.handlers;
    assert [ReleaseDel(h)][1..] == [];
    assert Run(bound, Inside(s, l, h, y), [ReleaseDel(h)]) == Step(bound, Inside(s, l, h, y), ReleaseDel(h));
  }

  /** A release that finds another job's lock, or none, leaves the key alone. */
  lemma {:induction false} ReleaseForeign(bound: nat, s: State, h: HandlerId)
    requires At(s, h, Leaving)
    requires s.lock.None? || s.now >= s.lock.value.expiry || s.lock.value.job != s.handlers[h].job
    ensures var t := Step(bound, s, ReleaseGet(h));
            t.lock == s.lock && h !in t.handlers && t.vm == s.vm && t.stolen == s.stolen
  {
  }

  /** A handler that fails leaves through its release; a crashed one leaves its lock behind. */
  lemma {:induction false} FailAndCrash(bound: nat, s: State, l: Lock, h: HandlerId, x: Handler)
    requires h !in s.handlers && x.phase != Deleting
    ensures Step(bound, Inside(s, l, h, x), Fail(h)) == Inside(s, l, h, x.(phase := Leaving))
    ensures Step(bound, Inside(s, l, h, x), Crash(h)) ==
            s.(lock := Some(l), nullEnds := if s.vm == None then s.nullEnds + 1 else s.nullEnds)
  {
    assert s.handlers[h := x] - {h} == s.handlers;
  }

  /** From every state without an id and without a live lock, a complete attempt stores the id it
      finds, calls create once, and frees the lock for whoever comes next. */
  lemma {:induction false} AttemptMaps(bound: nat, s: State, h: HandlerId, job: JobId, v: VmId)
    requires h !in s.handlers && s.vm == None && (s.lock.None? || s.now >= s.lock.value.expiry)
    ensures var events := [Acquire(h, job)] + ([LoadRow(h, true)] + ([CallProvider(h, true)] +
                          ([Resolve(h, Some(v))] + ([ReleaseGet(h)] + [ReleaseDel(h)]))));
            Run(bound, s, events) ==
            s.(vm := Some(v), writes := s.writes + 1, creates := s.creates + 1, lock := None)
  {
    var l := Lock(job, h, s.now + LOCK_TTL);
    var x := Handler(job, s.now, Entered, false);
    var called := x.(phase := Created, called := true);
    var s1 := s.(creates := s.creates + 1);
    var s2 := s1.(vm := Some(v), writes := s.writes + 1);
    var release := [ReleaseGet(h)] + [ReleaseDel(h)];
    var resolve := [Resolve(h, Some(v))] + release;
    AcquireExactly(bound, s, h, job);
    LoadExactly(bound, s, l, h, x, true);
    CallExactly(bound, s, l, h, x.(phase := Ready), true);
    ResolveExactly(bound, s1, l, h, called, Some(v));
    ReleaseOwn(bound, s2, l, h, called.(phase := Leaving));
    RunFirst(bound, s, Acquire(h, job), [LoadRow(h, true)] + ([CallProvider(h, true)] + resolve));
    RunFirst(bound, Inside(s, l, h, x), LoadRow(h, true), [CallProvider(h, true)] + resolve);
    RunFirst(bound, Inside(s, l, h, x.(phase := Ready)), CallProvider(h, true), resolve);
    RunFirst(bound, Inside(s1, l, h, called), Resolve(h, Some(v)), release);
  }

  /** A failed attempt frees the lock as well, so the next one enters at once. */
  lemma {:induction false} FailedAttemptFrees(bound: nat, s: State, h: HandlerId, job: JobId, next: HandlerId,
                                              job': JobId)
    requires h !in s.handlers && next !in s.handlers && (s.lock.None? || s.now >= s.lock.value.expiry)
    ensures var t := Run(bound, s, [Acquire(h, job)] + ([Fail(h)] + ([ReleaseGet(h)] + [ReleaseDel(h)])));
            && t == s.(lock := None, nullEnds := if s.vm == None then s.nullEnds + 1 else s.nullEnds)
            && next in Step(bound, t, Acquire(next, job')).handlers
  {
    var l := Lock(job, h, s.now + LOCK_TTL);
    var x := Handler(job, s.now, Entered, false);
    var release := [ReleaseGet(h)] + [ReleaseDel(h)];
    AcquireExactly(bound, s, h, job);
    FailAndCrash(bound, s, l, h, x);
    ReleaseOwn(bound, s, l, h, x.(phase := Leaving));
    RunFirst(bound, s, Acquire(h, job), [Fail(h)] + release);
    RunFirst(bound, Inside(s, l, h, x), Fail(h), release);
  }
}

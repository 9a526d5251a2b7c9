/**
 The registration protocol of custom ISO images. Each event is one SQL statement or one
 provider call of a handler, so a sequence of events is an interleaving of any number of
 workers, API requests, retries, crashes and deletions. An event whose handler is not at
 that statement leaves the state as it is.
 */
module IsoRegistration {
  import opened Prelude

  type IsoId = nat
  type ExecId = nat
  type ExternalId = nat
  type ProviderId = nat

  datatype RegisterStatus = Uploaded | Registering | Active | Failed | Removed

  /** One custom_isos row. The three counters are history, not columns: claims won at the
      gate, CreateISOByURL calls issued, and terminal failures recorded. */
  datatype IsoRow = IsoRow(
    provider: ProviderId,
    status: RegisterStatus,
    deleted: bool,
    ext: Option<ExternalId>,
    claims: nat,
    creates: nat,
    failures: nat)

  /** Where one execution of iso_register_provider stands. Every phase but `Loaded` lies
      between the claim gate and the closing status write. */
  datatype Phase =
    | Loaded
    | Claimed
    | Announced
    | Refused
    | Verifying
    | Adopting(image: ExternalId)

  /** `calls` counts the CreateISOByURL calls of the execution. */
  datatype Exec = Exec(iso: IsoId, finalAttempt: bool, phase: Phase, calls: nat)

  /** `jobs` holds the ISOs for which some registration job was ever queued. */
  datatype State = State(rows: map<IsoId, IsoRow>, execs: map<ExecId, Exec>, jobs: set<IsoId>)

  datatype Event =
    | CreateByUrl(iso: IsoId, provider: ProviderId, enqueued: bool)
    | Upload(iso: IsoId, provider: ProviderId, enqueued: bool)
    | Delete(iso: IsoId)
    | Retry(iso: IsoId, liveJob: bool)
    | StartJob(exec: ExecId, iso: IsoId, finalAttempt: bool)
    | Claim(exec: ExecId)
    | Announce(exec: ExecId)
    | CallCreate(exec: ExecId, accepted: bool)
    | Propose(exec: ExecId, image: ExternalId, readOk: bool)
    | Finish(exec: ExecId)
    | GiveUp(exec: ExecId, recorded: bool)
    | Crash(exec: ExecId)

  const INITIAL := State(map[], map[], {})

  /** UNIQUE(provider_id, external_iso_id) counts soft-deleted rows too. */
  predicate Taken(s: State, iso: IsoId, image: ExternalId)
    requires iso in s.rows
  {
    exists j :: j in s.rows && j != iso && s.rows[j].provider == s.rows[iso].provider &&
                s.rows[j].ext == Some(image)
  }

  /** The isoExternalClaimed query looks at live rows only. */
  predicate TakenByLive(s: State, iso: IsoId, image: ExternalId)
    requires iso in s.rows
  {
    exists j :: j in s.rows && j != iso && s.rows[j].provider == s.rows[iso].provider &&
                s.rows[j].ext == Some(image) && !s.rows[j].deleted
  }

  predicate AtPhase(s: State, e: ExecId) {
    e in s.execs && s.execs[e].iso in s.rows
  }

  function Leave(s: State, e: ExecId): State {
    s.(execs := s.execs - {e})
  }

  function Move(s: State, e: ExecId, row: IsoRow, phase: Phase): State
    requires AtPhase(s, e)
  {
    s.(rows := s.rows[s.execs[e].iso := row], execs := s.execs[e := s.execs[e].(phase := phase)])
  }

  function Insert(s: State, iso: IsoId, provider: ProviderId, status: RegisterStatus, enqueued: bool): State {
    if iso in s.rows then s
    else State(s.rows[iso := IsoRow(provider, status, false, None, 0, 0, 0)],
               s.execs, if enqueued then s.jobs + {iso} else s.jobs)
  }

  function DeleteIso(s: State, iso: IsoId): State {
    if iso in s.rows && !s.rows[iso].deleted
    then s.(rows := s.rows[iso := s.rows[iso].(deleted := true, status := Removed)])
    else s
  }

  /** The retry endpoint only queues a job; it never touches the row. */
  function RetryIso(s: State, iso: IsoId, liveJob: bool): State {
    if iso in s.rows && !s.rows[iso].deleted && s.rows[iso].status in {Failed, Uploaded, Registering} && !liveJob
    then s.(jobs := s.jobs + {iso})
    else s
  }

  function Start(s: State, e: ExecId, iso: IsoId, finalAttempt: bool): State {
    if e in s.execs || iso !in s.jobs || iso !in s.rows || s.rows[iso].deleted ||
       (s.rows[iso].status == Active && s.rows[iso].ext.Some?)
    then s
    else s.(execs := s.execs[e := Exec(iso, finalAttempt, Loaded, 0)])
  }

  /** The compare-and-set gate. */
  function ClaimRow(s: State, e: ExecId): State
    requires AtPhase(s, e)
  {
    var row := s.rows[s.execs[e].iso];
    if row.deleted || row.status == Active || row.status == Registering then Leave(s, e)
    else Move(s, e, row.(status := Registering, claims := row.claims + 1), Claimed)
  }

  /** The progress write carries no deleted_at guard. */
  function AnnounceRow(s: State, e: ExecId): State
    requires AtPhase(s, e)
  {
    var row := s.rows[s.execs[e].iso];
    Move(s, e, if row.status == Active then row else row.(status := Registering), Announced)
  }

  function CallProvider(s: State, e: ExecId, accepted: bool): State
    requires AtPhase(s, e)
  {
    var row := s.rows[s.execs[e].iso];
    var t := Move(s, e, row.(creates := row.creates + 1), if accepted then Verifying else Refused);
    t.(execs := t.execs[e := t.execs[e].(calls := s.execs[e].calls + 1)])
  }

  /** A listed image passes the ownership query, which reports "free" when it errors. */
  function ProposeImage(s: State, e: ExecId, image: ExternalId, readOk: bool): State
    requires AtPhase(s, e)
  {
    var iso := s.execs[e].iso;
    if readOk && TakenByLive(s, iso, image) then s
    else Move(s, e, s.rows[iso], Adopting(image))
  }

  /** The closing write; a unique violation ends the execution without a status write. */
  function FinishRow(s: State, e: ExecId, image: ExternalId): State
    requires AtPhase(s, e)
  {
    var iso := s.execs[e].iso;
    if Taken(s, iso, image) then Leave(s, e)
    else Leave(s.(rows := s.rows[iso := s.rows[iso].(status := Active, ext := Some(image))]), e)
  }

  function GiveUpRow(s: State, e: ExecId, recorded: bool): State
    requires AtPhase(s, e)
  {
    var iso := s.execs[e].iso;
    var row := s.rows[iso];
    if s.execs[e].finalAttempt && recorded && !row.deleted
    then Leave(s.(rows := s.rows[iso := row.(status := Failed, failures := row.failures + 1)]), e)
    else Leave(s, e)
  }

  function Step(s: State, ev: Event): State {
    match ev
    case CreateByUrl(iso, provider, enqueued) => Insert(s, iso, provider, Registering, enqueued)
    case Upload(iso, provider, enqueued) => Insert(s, iso, provider, Uploaded, enqueued)
    case Delete(iso) => DeleteIso(s, iso)
    case Retry(iso, liveJob) => RetryIso(s, iso, liveJob)
    case StartJob(e, iso, finalAttempt) => Start(s, e, iso, finalAttempt)
    case Claim(e) =>
      if AtPhase(s, e) && s.execs[e].phase == Loaded then ClaimRow(s, e) else s
    case Announce(e) =>
      if AtPhase(s, e) && s.execs[e].phase == Claimed then AnnounceRow(s, e) else s
    case CallCreate(e, accepted) =>
      if AtPhase(s, e) && s.execs[e].phase == Announced then CallProvider(s, e, accepted) else s
    case Propose(e, image, readOk) =>
      if AtPhase(s, e) && s.execs[e].phase in {Claimed, Verifying} then ProposeImage(s, e, image, readOk) else s
    case Finish(e) =>
      if AtPhase(s, e) && s.execs[e].phase.Adopting? then FinishRow(s, e, s.execs[e].phase.image) else s
    case GiveUp(e, recorded) =>
      if AtPhase(s, e) && s.execs[e].phase in {Claimed, Refused, Verifying} then GiveUpRow(s, e, recorded) else s
    case Crash(e) => Leave(s, e)
  }

  function Run(s: State, events: seq<Event>): State
    decreases |events|
  {
    if events == [] then s else Run(Step(s, events[0]), events[1..])
  }

  // ----- The inductive invariant -----

  /** Execution `e` is past the claim gate of row `iso` and has not closed it. */
  predicate Holds(s: State, e: ExecId, iso: IsoId) {
    e in s.execs && s.execs[e].iso == iso && s.execs[e].phase != Loaded
  }

  predicate RowOk(row: IsoRow) {
    && (!row.deleted ==> row.status != Removed && (row.status == Active <==> row.ext.Some?))
    && row.creates <= row.claims <= row.failures + 1
    && (!row.deleted && row.status != Registering && row.status != Active ==> row.claims <= row.failures)
  }

  predicate ExecOk(s: State, x: Exec) {
    && x.iso in s.rows
    && x.calls <= (if x.phase in {Loaded, Claimed, Announced} then 0 else 1)
    && (x.phase != Loaded ==>
          var row := s.rows[x.iso];
          && (row.deleted || row.status == Registering)
          && row.ext == None
          && (x.phase in {Claimed, Announced} ==> row.creates < row.claims))
  }

  ghost predicate Exclusive(s: State) {
    forall e1, e2 | e1 in s.execs && e2 in s.execs && e1 != e2 ::
      s.execs[e1].phase == Loaded || s.execs[e2].phase == Loaded || s.execs[e1].iso != s.execs[e2].iso
  }

  predicate ImagesDistinct(s: State) {
    forall i, j | i in s.rows && j in s.rows && i != j && s.rows[i].provider == s.rows[j].provider ::
      s.rows[i].ext == None || s.rows[i].ext != s.rows[j].ext
  }

  ghost predicate Inv(s: State) {
    && (forall i :: i in s.rows ==> RowOk(s.rows[i]))
    && (forall e :: e in s.execs ==> ExecOk(s, s.execs[e]))
    && Exclusive(s)
    && ImagesDistinct(s)
    && s.jobs <= s.rows.Keys
  }

  /** Events that work on a row through an execution already started. */
  predicate ByWorker(ev: Event) {
    ev.Claim? || ev.Announce? || ev.CallCreate? || ev.Propose? || ev.Finish? || ev.GiveUp? || ev.Crash?
  }

  lemma {:induction false} ApiStepKeepsExecs(s: State, ev: Event)
    requires Inv(s) && !ByWorker(ev)
    ensures var t := Step(s, ev); forall e :: e in t.execs ==> ExecOk(t, t.execs[e])
  {
    var t := Step(s, ev);
    forall e | e in t.execs ensures ExecOk(t, t.execs[e]) {
      assert e in s.execs ==> ExecOk(s, s.execs[e]);
    }
  }

  /** The execution that moves keeps its own obligations. */
  lemma {:induction false} MoverStaysOk(s: State, ev: Event)
    requires Inv(s) && ByWorker(ev)
    ensures var t := Step(s, ev); ev.exec in t.execs ==> ExecOk(t, t.execs[ev.exec])
  {
    if ev.exec in s.execs {
      assert ExecOk(s, s.execs[ev.exec]) && RowOk(s.rows[s.execs[ev.exec].iso]);
    }
  }

  /** A worker's event changes no execution but its own... */
  lemma {:induction false} WorkerStepMovesOneExec(s: State, ev: Event, e: ExecId)
    requires ByWorker(ev)
    ensures var t := Step(s, ev);
            && (e != ev.exec ==> (e in t.execs <==> e in s.execs) && (e in s.execs ==> t.execs[e] == s.execs[e]))
            && (ev.exec in t.execs ==> ev.exec in s.execs && t.execs[ev.exec].iso == s.execs[ev.exec].iso)
  {
  }

  /** ... and no row but that execution's. */
  lemma {:induction false} WorkerStepTouchesOneRow(s: State, ev: Event, i: IsoId)
    requires ByWorker(ev)
    ensures i in Step(s, ev).rows <==> i in s.rows
    ensures i in s.rows && (ev.exec in s.execs ==> i != s.execs[ev.exec].iso) ==> Step(s, ev).rows[i] == s.rows[i]
  {
  }

  lemma {:induction false} ApiStepKeepsRows(s: State, ev: Event)
    requires Inv(s) && !ByWorker(ev)
    ensures var t := Step(s, ev); t.jobs <= t.rows.Keys && forall i :: i in t.rows ==> RowOk(t.rows[i])
  {
    var t := Step(s, ev);
    forall i | i in t.rows ensures RowOk(t.rows[i]) {
      assert i in s.rows ==> RowOk(s.rows[i]);
    }
  }

  /** The row of the execution that moves stays consistent. */
  lemma {:induction false} MovedRowStaysOk(s: State, ev: Event)
    requires Inv(s) && ByWorker(ev) && ev.exec in s.execs
    ensures s.execs[ev.exec].iso in Step(s, ev).rows && RowOk(Step(s, ev).rows[s.execs[ev.exec].iso])
  {
    assert ExecOk(s, s.execs[ev.exec]) && RowOk(s.rows[s.execs[ev.exec].iso]);
  }

  lemma {:induction false} StepKeepsRows(s: State, ev: Event)
    requires Inv(s)
    ensures var t := Step(s, ev); t.jobs <= t.rows.Keys && forall i :: i in t.rows ==> RowOk(t.rows[i])
  {
    if ByWorker(ev) {
      forall i ensures (i in Step(s, ev).rows <==> i in s.rows) && (i in s.rows ==> RowOk(Step(s, ev).rows[i])) {
        WorkerStepTouchesOneRow(s, ev, i);
        if ev.exec in s.execs && i == s.execs[ev.exec].iso {
          MovedRowStaysOk(s, ev);
        }
      }
      WorkerStepQueuesNothing(s, ev);
    } else {
      ApiStepKeepsRows(s, ev);
    }
  }

  lemma {:induction false} WorkerStepQueuesNothing(s: State, ev: Event)
    requires ByWorker(ev)
    ensures Step(s, ev).jobs == s.jobs
  {
  }

  /** A row another execution holds is left alone by everyone still at the gate. */
  lemma {:induction false} HeldRowIsSafe(s: State, ev: Event, e: ExecId)
    requires Inv(s) && ByWorker(ev) && e in s.execs && e != ev.exec && s.execs[e].phase != Loaded
    ensures Step(s, ev).rows[s.execs[e].iso] == s.rows[s.execs[e].iso]
  {
    assert ExecOk(s, s.execs[e]);
  }

  lemma {:induction false} StepKeepsExecs(s: State, ev: Event)
    requires Inv(s)
    ensures var t := Step(s, ev); forall e :: e in t.execs ==> ExecOk(t, t.execs[e])
  {
    if ByWorker(ev) {
      MoverStaysOk(s, ev);
      forall e | e in Step(s, ev).execs ensures ExecOk(Step(s, ev), Step(s, ev).execs[e]) {
        WorkerStepMovesOneExec(s, ev, e);
        if e != ev.exec {
          assert ExecOk(s, s.execs[e]);
          WorkerStepTouchesOneRow(s, ev, s.execs[e].iso);
          if s.execs[e].phase != Loaded {
            HeldRowIsSafe(s, ev, e);
          }
        }
      }
    } else {
      ApiStepKeepsExecs(s, ev);
    }
  }

  /** Only the winner of the compare-and-set gate gains a phase beyond `Loaded`. */
  lemma {:induction false} GateAdmitsOne(s: State, ev: Event, e: ExecId)
    requires Inv(s) && ByWorker(ev) && ev.exec in s.execs && e in s.execs && e != ev.exec && s.execs[e].phase != Loaded
    requires s.execs[ev.exec].iso == s.execs[e].iso
    ensures ev.exec in Step(s, ev).execs ==> Step(s, ev).execs[ev.exec].phase == Loaded
  {
    assert ExecOk(s, s.execs[e]) && ExecOk(s, s.execs[ev.exec]);
  }

  lemma {:induction false} WorkerStepKeepsApart(s: State, ev: Event, e1: ExecId, e2: ExecId)
    requires Inv(s) && ByWorker(ev) && e1 != e2 && e1 in Step(s, ev).execs && e2 in Step(s, ev).execs
    ensures var t := Step(s, ev);
            t.execs[e1].phase == Loaded || t.execs[e2].phase == Loaded || t.execs[e1].iso != t.execs[e2].iso
  {
    WorkerStepMovesOneExec(s, ev, e1);
    WorkerStepMovesOneExec(s, ev, e2);
    var other := if e1 == ev.exec then e2 else e1;
    if (e1 == ev.exec || e2 == ev.exec) && s.execs[other].phase != Loaded &&
       s.execs[ev.exec].iso == s.execs[other].iso
    {
      GateAdmitsOne(s, ev, other);
    }
  }

  lemma {:induction false} StepKeepsExclusive(s: State, ev: Event)
    requires Inv(s)
    ensures Exclusive(Step(s, ev))
  {
    if ByWorker(ev) {
      var t := Step(s, ev);
      forall e1, e2 | e1 in t.execs && e2 in t.execs && e1 != e2
        ensures t.execs[e1].phase == Loaded || t.execs[e2].phase == Loaded || t.execs[e1].iso != t.execs[e2].iso
      {
        WorkerStepKeepsApart(s, ev, e1, e2);
      }
    }
  }

  lemma {:induction false} StepKeepsImagesDistinct(s: State, ev: Event)
    requires Inv(s)
    ensures ImagesDistinct(Step(s, ev))
  {
  }

  lemma {:induction false} StepKeepsInv(s: State, ev: Event)
    requires Inv(s)
    ensures Inv(Step(s, ev))
  {
    StepKeepsRows(s, ev);
    StepKeepsExecs(s, ev);
    StepKeepsExclusive(s, ev);
    StepKeepsImagesDistinct(s, ev);
  }

  lemma {:induction false} RunKeepsInv(s: State, events: seq<Event>)
    requires Inv(s)
    ensures Inv(Run(s, events))
    decreases |events|
  {
    if events != [] {
      StepKeepsInv(s, events[0]);
      RunKeepsInv(Step(s, events[0]), events[1..]);
    }
  }

  // ----- Safety over every run -----

  /** Claim exclusion, and the bound on provider calls: each execution issues at most one
      CreateISOByURL, none before it has claimed its row, and a row is claimed at most once more
      than it recorded a failure. */
  lemma {:induction false} ClaimExclusion(events: seq<Event>)
    ensures var s := Run(INITIAL, events);
            && (forall iso, e1, e2 :: Holds(s, e1, iso) && Holds(s, e2, iso) ==> e1 == e2)
            && (forall iso :: iso in s.rows ==>
                  s.rows[iso].creates <= s.rows[iso].claims <= s.rows[iso].failures + 1)
            && (forall iso, e :: Holds(s, e, iso) ==>
                  iso in s.rows && (s.rows[iso].deleted || s.rows[iso].status == Registering))
            && (forall e :: e in s.execs ==> s.execs[e].calls <= (if s.execs[e].phase == Loaded then 0 else 1))
  {
    RunKeepsInv(INITIAL, events);
    var s := Run(INITIAL, events);
    forall iso | iso in s.rows ensures s.rows[iso].creates <= s.rows[iso].claims <= s.rows[iso].failures + 1 {
      assert RowOk(s.rows[iso]);
    }
    forall iso, e | Holds(s, e, iso)
      ensures iso in s.rows && (s.rows[iso].deleted || s.rows[iso].status == Registering)
    {
      assert ExecOk(s, s.execs[e]);
    }
    forall e | e in s.execs ensures s.execs[e].calls <= (if s.execs[e].phase == Loaded then 0 else 1) {
      assert ExecOk(s, s.execs[e]);
    }
  }

  /** A provider image id, once stored, is never replaced; a soft delete is never undone. */
  lemma {:induction false} MappingAndDeletionArePermanent(s: State, events: seq<Event>, iso: IsoId)
    requires Inv(s) && iso in s.rows
    ensures var t := Run(s, events);
            && iso in t.rows
            && t.rows[iso].provider == s.rows[iso].provider
            && (s.rows[iso].ext.Some? ==> t.rows[iso].ext == s.rows[iso].ext)
            && (s.rows[iso].deleted ==> t.rows[iso].deleted)
    decreases |events|
  {
    if events != [] {
      StepKeepsInv(s, events[0]);
      OneStepKeepsMapping(s, events[0], iso);
      MappingAndDeletionArePermanent(Step(s, events[0]), events[1..], iso);
    }
  }

  lemma {:induction false} OneStepKeepsMapping(s: State, ev: Event, iso: IsoId)
    requires Inv(s) && iso in s.rows
    ensures var t := Step(s, ev);
            && iso in t.rows
            && t.rows[iso].provider == s.rows[iso].provider
            && (s.rows[iso].ext.Some? ==> t.rows[iso].ext == s.rows[iso].ext)
            && (s.rows[iso].deleted ==> t.rows[iso].deleted)
  {
    if ev.Finish? && ev.exec in s.execs {
      assert ExecOk(s, s.execs[ev.exec]);
    }
  }

  // ----- Which rows can still become active -----

  predicate LiveActive(s: State, iso: IsoId) {
    iso in s.rows && !s.rows[iso].deleted && s.rows[iso].status == Active
  }

  ghost predicate CanBecomeActive(s: State, iso: IsoId) {
    exists events :: LiveActive(Run(s, events), iso)
  }

  /** An execution that can still reach an accepted closing write, its own or, after a
      recorded final failure, that of a retry. */
  predicate Hopeful(s: State, e: ExecId)
    requires AtPhase(s, e)
  {
    match s.execs[e].phase
    case Loaded => false
    case Claimed => true
    case Announced => true
    case Verifying => true
    case Refused => s.execs[e].finalAttempt
    case Adopting(image) => !Taken(s, s.execs[e].iso, image)
  }

  ghost predicate Registrable(s: State, iso: IsoId) {
    && iso in s.rows && !s.rows[iso].deleted
    && (s.rows[iso].status == Registering ==> exists e :: Holds(s, e, iso) && Hopeful(s, e))
  }

  /** The gate rejects a 'registering' row, and its holder, if any, cannot close it. */
  lemma {:induction false} UnregistrableStaysRegistering(s: State, ev: Event, iso: IsoId)
    requires Inv(s) && iso in s.rows && !Registrable(s, iso) && !s.rows[iso].deleted
    ensures var row := Step(s, ev).rows[iso]; row.deleted || row.status == Registering
  {
    if (ev.GiveUp? || ev.Finish?) && AtPhase(s, ev.exec) && Holds(s, ev.exec, iso) {
      assert !Hopeful(s, ev.exec);
    }
  }

  /** An image stored on another row of the provider stays taken. */
  lemma {:induction false} TakenForever(s: State, ev: Event, iso: IsoId, image: ExternalId)
    requires Inv(s) && iso in s.rows && Taken(s, iso, image)
    ensures iso in Step(s, ev).rows && Taken(Step(s, ev), iso, image)
  {
    var j :| j in s.rows && j != iso && s.rows[j].provider == s.rows[iso].provider && s.rows[j].ext == Some(image);
    OneStepKeepsMapping(s, ev, iso);
    OneStepKeepsMapping(s, ev, j);
  }

  /** Nobody gets past the gate of a 'registering' row, and no hopeless holder regains hope. */
  lemma {:induction false} HopelessStaysHopeless(s: State, ev: Event, iso: IsoId, e: ExecId)
    requires Inv(s) && iso in s.rows && s.rows[iso].status == Registering && !s.rows[iso].deleted
    requires Holds(s, e, iso) ==> !Hopeful(s, e)
    ensures iso in Step(s, ev).rows && (Holds(Step(s, ev), e, iso) ==> !Hopeful(Step(s, ev), e))
  {
    OneStepKeepsMapping(s, ev, iso);
    if Holds(s, e, iso) && s.execs[e].phase.Adopting? {
      TakenForever(s, ev, iso, s.execs[e].phase.image);
    }
  }

  lemma {:induction false} UnregistrableStep(s: State, ev: Event, iso: IsoId)
    requires Inv(s) && iso in s.rows && !Registrable(s, iso)
    ensures iso in Step(s, ev).rows && !Registrable(Step(s, ev), iso)
  {
    OneStepKeepsMapping(s, ev, iso);
    if !s.rows[iso].deleted {
      UnregistrableStaysRegistering(s, ev, iso);
      forall e | Holds(Step(s, ev), e, iso) ensures !Hopeful(Step(s, ev), e) {
        HopelessStaysHopeless(s, ev, iso, e);
      }
    }
  }

  lemma {:induction false} UnregistrableForever(s: State, events: seq<Event>, iso: IsoId)
    requires Inv(s) && iso in s.rows && !Registrable(s, iso)
    ensures iso in Run(s, events).rows && !Registrable(Run(s, events), iso)
    decreases |events|
  {
    if events != [] {
      StepKeepsInv(s, events[0]);
      UnregistrableStep(s, events[0], iso);
      UnregistrableForever(Step(s, events[0]), events[1..], iso);
    }
  }

  lemma {:induction false} RunFirst(s: State, ev: Event, rest: seq<Event>)
    ensures Run(s, [ev] + rest) == Run(Step(s, ev), rest)
  {
    assert ([ev] + rest)[1..] == rest;
  }

  lemma {:induction false} RunOfAdopting(s: State, iso: IsoId, e: ExecId) returns (events: seq<Event>)
    requires Inv(s) && iso in s.rows && !s.rows[iso].deleted && Holds(s, e, iso)
    requires s.execs[e].phase.Adopting? && Hopeful(s, e)
    ensures LiveActive(Run(s, events), iso)
  {
    events := [Finish(e)];
    RunFirst(s, Finish(e), []);
  }

  lemma {:induction false} FreshImage(s: State) returns (image: ExternalId)
    ensures forall j | j in s.rows :: s.rows[j].ext != Some(image)
  {
    var used := set j | j in s.rows && s.rows[j].ext.Some? :: s.rows[j].ext.value;
    image := FreshNat(used);
    forall j | j in s.rows ensures s.rows[j].ext != Some(image) {
      assert s.rows[j].ext.Some? ==> s.rows[j].ext.value in used;
    }
  }

  lemma {:induction false} RunOfListing(s: State, iso: IsoId, e: ExecId) returns (events: seq<Event>)
    requires Inv(s) && iso in s.rows && !s.rows[iso].deleted && Holds(s, e, iso)
    requires s.execs[e].phase in {Claimed, Verifying}
    ensures LiveActive(Run(s, events), iso)
  {
    var image := FreshImage(s);
    assert ExecOk(s, s.execs[e]);
    var t := Move(s, e, s.rows[iso], Adopting(image));
    assert t == Step(s, Propose(e, image, true)) && t.rows == s.rows;
    StepKeepsInv(s, Propose(e, image, true));
    var rest := RunOfAdopting(t, iso, e);
    events := [Propose(e, image, true)] + rest;
    RunFirst(s, Propose(e, image, true), rest);
  }

  lemma {:induction false} RunOfRetry(s: State, iso: IsoId) returns (events: seq<Event>)
    requires Inv(s) && iso in s.rows && !s.rows[iso].deleted && s.rows[iso].status in {Uploaded, Failed}
    ensures LiveActive(Run(s, events), iso)
  {
    var e := FreshNat(s.execs.Keys);
    var s1 := Step(s, Retry(iso, false));
    StepKeepsInv(s, Retry(iso, false));
    var s2 := Step(s1, StartJob(e, iso, false));
    StepKeepsInv(s1, StartJob(e, iso, false));
    var s3 := Step(s2, Claim(e));
    StepKeepsInv(s2, Claim(e));
    var rest := RunOfListing(s3, iso, e);
    RunFirst(s2, Claim(e), rest);
    RunFirst(s1, StartJob(e, iso, false), [Claim(e)] + rest);
    events := [Retry(iso, false)] + ([StartJob(e, iso, false)] + ([Claim(e)] + rest));
    RunFirst(s, Retry(iso, false), [StartJob(e, iso, false)] + ([Claim(e)] + rest));
  }

  lemma {:induction false} RunOfHolder(s: State, iso: IsoId, e: ExecId) returns (events: seq<Event>)
    requires Inv(s) && iso in s.rows && !s.rows[iso].deleted && Holds(s, e, iso) && Hopeful(s, e)
    ensures LiveActive(Run(s, events), iso)
  {
    assert ExecOk(s, s.execs[e]);
    if s.execs[e].phase.Adopting? {
      events := RunOfAdopting(s, iso, e);
    } else if s.execs[e].phase in {Claimed, Verifying} {
      events := RunOfListing(s, iso, e);
    } else {
      var ev := if s.execs[e].phase == Announced then CallCreate(e, true) else GiveUp(e, true);
      StepKeepsInv(s, ev);
      var rest;
      if s.execs[e].phase == Announced {
        rest := RunOfListing(Step(s, ev), iso, e);
      } else {
        rest := RunOfRetry(Step(s, ev), iso);
      }
      events := [ev] + rest;
      RunFirst(s, ev, rest);
    }
  }

  /** Exactly which live rows can still become active: those not in 'registering', and
      those held by an execution that can still finish. */
  lemma {:induction false} ActiveReachability(s: State, iso: IsoId)
    requires Inv(s) && iso in s.rows && !s.rows[iso].deleted
    ensures CanBecomeActive(s, iso) <==> Registrable(s, iso)
  {
    if Registrable(s, iso) {
      var events: seq<Event>;
      if s.rows[iso].status == Active {
        events := [];
      } else if s.rows[iso].status == Registering {
        var e :| Holds(s, e, iso) && Hopeful(s, e);
        events := RunOfHolder(s, iso, e);
      } else {
        assert RowOk(s.rows[iso]);
        events := RunOfRetry(s, iso);
      }
      assert LiveActive(Run(s, events), iso);
    } else {
      forall events ensures !LiveActive(Run(s, events), iso) {
        UnregistrableForever(s, events, iso);
      }
    }
  }

  // ----- The absorbing state -----

  /** Live, 'registering', and no execution past the gate. */
  ghost predicate Stranded(s: State, iso: IsoId) {
    && iso in s.rows && !s.rows[iso].deleted && s.rows[iso].status == Registering
    && forall e :: !Holds(s, e, iso)
  }

  ghost predicate RemovedUnheld(s: State, iso: IsoId) {
    && iso in s.rows && s.rows[iso].deleted && s.rows[iso].status == Removed
    && forall e :: !Holds(s, e, iso)
  }

  lemma {:induction false} UnheldStaysUnheld(s: State, ev: Event, iso: IsoId, e: ExecId)
    requires Inv(s) && (Stranded(s, iso) || RemovedUnheld(s, iso))
    ensures !Holds(Step(s, ev), e, iso)
  {
    assert !Holds(s, e, iso);
    assert e in s.execs ==> ExecOk(s, s.execs[e]);
  }

  lemma {:induction false} StrandedStep(s: State, ev: Event, iso: IsoId)
    requires Inv(s) && (Stranded(s, iso) || RemovedUnheld(s, iso))
    ensures Stranded(Step(s, ev), iso) || RemovedUnheld(Step(s, ev), iso)
    ensures !ev.Delete? && Stranded(s, iso) ==> Stranded(Step(s, ev), iso)
  {
    forall e ensures !Holds(Step(s, ev), e, iso) {
      UnheldStaysUnheld(s, ev, iso, e);
    }
    if ByWorker(ev) {
      assert !Holds(s, ev.exec, iso);
      assert ev.exec in s.execs ==> ExecOk(s, s.execs[ev.exec]);
    }
  }

  /** A stranded row leaves 'registering' only by deletion, whatever jobs and retries follow. */
  lemma {:induction false} StrandedForever(s: State, events: seq<Event>, iso: IsoId)
    requires Inv(s) && (Stranded(s, iso) || RemovedUnheld(s, iso))
    ensures Stranded(Run(s, events), iso) || RemovedUnheld(Run(s, events), iso)
    ensures Stranded(s, iso) && (forall i :: 0 <= i < |events| ==> events[i] != Delete(iso)) ==>
              Stranded(Run(s, events), iso)
    decreases |events|
  {
    if events != [] {
      StepKeepsInv(s, events[0]);
      StrandedStep(s, events[0], iso);
      StrandedForever(Step(s, events[0]), events[1..], iso);
    }
  }

  /** Rows inserted by the by-URL endpoint start stranded, so they are never registered. */
  lemma {:induction false} ByUrlRowsNeverRegister(s: State, iso: IsoId, provider: ProviderId, enqueued: bool,
                                                  events: seq<Event>)
    requires Inv(s) && iso !in s.rows
    ensures var t := Run(Step(s, CreateByUrl(iso, provider, enqueued)), events);
            Stranded(t, iso) || RemovedUnheld(t, iso)
  {
    var ev := CreateByUrl(iso, provider, enqueued);
    StepKeepsInv(s, ev);
    forall e ensures !Holds(Step(s, ev), e, iso) {
      assert e in s.execs ==> ExecOk(s, s.execs[e]);
    }
    StrandedForever(Step(s, ev), events, iso);
  }

  /** A claimant that fails before its final attempt strands the row it claimed. */
  lemma {:induction false} NonFinalFailureStrands(s: State, e: ExecId, recorded: bool, events: seq<Event>)
    requires Inv(s) && e in s.execs && s.execs[e].phase in {Claimed, Refused, Verifying}
    requires !s.execs[e].finalAttempt && s.execs[e].iso in s.rows && !s.rows[s.execs[e].iso].deleted
    ensures var iso := s.execs[e].iso;
            var t := Run(Step(s, GiveUp(e, recorded)), events);
            Stranded(t, iso) || RemovedUnheld(t, iso)
  {
    var iso := s.execs[e].iso;
    var t := Step(s, GiveUp(e, recorded));
    StepKeepsInv(s, GiveUp(e, recorded));
    assert ExecOk(s, s.execs[e]);
    assert Stranded(t, iso);
    StrandedForever(t, events, iso);
  }

  // ----- What the endpoints write -----

  /** An upload starts live, 'uploaded' and unmapped, a by-URL row 'registering'; a job is queued
      when enqueueing succeeded, and nothing else changes. An id in use is left alone. */
  lemma {:induction false} InsertExactly(s: State, iso: IsoId, provider: ProviderId, enqueued: bool)
    ensures var up, url := Step(s, Upload(iso, provider, enqueued)), Step(s, CreateByUrl(iso, provider, enqueued));
            if iso in s.rows then up == s && url == s
            else
              && up.rows.Keys == s.rows.Keys + {iso} && url.rows.Keys == s.rows.Keys + {iso}
              && (forall j :: j in s.rows ==> up.rows[j] == s.rows[j] && url.rows[j] == s.rows[j])
              && up.execs == s.execs && url.execs == s.execs
              && up.jobs == url.jobs == (if enqueued then s.jobs + {iso} else s.jobs)
              && up.rows[iso].status == Uploaded && url.rows[iso].status == Registering
              && up.rows[iso].provider == url.rows[iso].provider == provider
              && !up.rows[iso].deleted && !url.rows[iso].deleted
              && up.rows[iso].ext == None && url.rows[iso].ext == None
  {
  }

  /** Deletion marks exactly the one live row deleted and 'removed', and keeps its mapping. */
  lemma {:induction false} DeleteExactly(s: State, iso: IsoId)
    ensures var t := Step(s, Delete(iso));
            && t.execs == s.execs && t.jobs == s.jobs && t.rows.Keys == s.rows.Keys
            && (forall j :: j in s.rows && j != iso ==> t.rows[j] == s.rows[j])
            && (iso in s.rows ==>
                  && t.rows[iso].deleted && t.rows[iso].ext == s.rows[iso].ext
                  && t.rows[iso].status == (if s.rows[iso].deleted then s.rows[iso].status else Removed)
                  && t.rows[iso].provider == s.rows[iso].provider)
  {
  }

  /** A retry queues a job exactly for a live row that is neither active nor removed and has no
      live job, and never touches a row. */
  lemma {:induction false} RetryExactly(s: State, iso: IsoId, liveJob: bool)
    requires Inv(s)
    ensures var t := Step(s, Retry(iso, liveJob));
            && t.rows == s.rows && t.execs == s.execs
            && t.jobs == (if iso in s.rows && !s.rows[iso].deleted && s.rows[iso].status != Active && !liveJob
                          then s.jobs + {iso} else s.jobs)
  {
    assert iso in s.rows ==> RowOk(s.rows[iso]);
  }

  /** A queued job starts exactly on a live row that is not registered yet. */
  lemma {:induction false} StartExactly(s: State, e: ExecId, iso: IsoId, finalAttempt: bool)
    requires Inv(s) && e !in s.execs
    ensures var t := Step(s, StartJob(e, iso, finalAttempt));
            && t.rows == s.rows && t.jobs == s.jobs
            && (e in t.execs <==>
                iso in s.jobs && iso in s.rows && !s.rows[iso].deleted && s.rows[iso].status != Active)
            && (e in t.execs ==> t.execs == s.execs[e := Exec(iso, finalAttempt, Loaded, 0)])
            && (e !in t.execs ==> t == s)
  {
    assert iso in s.rows ==> RowOk(s.rows[iso]);
  }

  /** A crash ends one execution and writes nothing. */
  lemma {:induction false} CrashExactly(s: State, e: ExecId)
    ensures var t := Step(s, Crash(e));
            t.rows == s.rows && t.jobs == s.jobs && t.execs.Keys == s.execs.Keys - {e} &&
            forall x :: x in t.execs ==> t.execs[x] == s.execs[x]
  {
  }

  // ----- A job from start to end -----

  /** Execution `e` works on row `iso`; everything else is as in `s`. */
  function Working(s: State, iso: IsoId, row: IsoRow, e: ExecId, x: Exec): State {
    State(s.rows[iso := row], s.execs[e := x], s.jobs)
  }

  predicate FreeImage(s: State, iso: IsoId, provider: ProviderId, image: ExternalId) {
    forall j :: j in s.rows && j != iso && s.rows[j].provider == provider ==> s.rows[j].ext != Some(image)
  }

  lemma {:induction false} StartStep(s: State, iso: IsoId, row: IsoRow, e: ExecId, finalAttempt: bool)
    requires e !in s.execs && iso in s.jobs && !row.deleted && row.ext == None
    ensures Step(s.(rows := s.rows[iso := row]), StartJob(e, iso, finalAttempt)) ==
            Working(s, iso, row, e, Exec(iso, finalAttempt, Loaded, 0))
  {
  }

  lemma {:induction false} ClaimStep(s: State, iso: IsoId, row: IsoRow, e: ExecId, x: Exec)
    requires x.iso == iso && x.phase == Loaded && !row.deleted && row.status in {Uploaded, Failed}
    ensures Step(Working(s, iso, row, e, x), Claim(e)) ==
            Working(s, iso, row.(status := Registering, claims := row.claims + 1), e, x.(phase := Claimed))
  {
  }

  lemma {:induction false} AnnounceStep(s: State, iso: IsoId, row: IsoRow, e: ExecId, x: Exec)
    requires x.iso == iso && x.phase == Claimed && row.status != Active
    ensures Step(Working(s, iso, row, e, x), Announce(e)) ==
            Working(s, iso, row.(status := Registering), e, x.(phase := Announced))
  {
  }

  lemma {:induction false} CallStep(s: State, iso: IsoId, row: IsoRow, e: ExecId, x: Exec, accepted: bool)
    requires x.iso == iso && x.phase == Announced
    ensures Step(Working(s, iso, row, e, x), CallCreate(e, accepted)) ==
            Working(s, iso, row.(creates := row.creates + 1), e,
                    x.(phase := if accepted then Verifying else Refused, calls := x.calls + 1))
  {
  }

  /** A listed image is taken up unless the ownership query finds a live owner of it. */
  lemma {:induction false} ProposeStep(s: State, iso: IsoId, row: IsoRow, e: ExecId, x: Exec, image: ExternalId,
                                       readOk: bool)
    requires x.iso == iso && (x.phase == Claimed || x.phase == Verifying)
    ensures var owned := exists j :: j in s.rows && j != iso && s.rows[j].provider == row.provider &&
                                     s.rows[j].ext == Some(image) && !s.rows[j].deleted;
            Step(Working(s, iso, row, e, x), Propose(e, image, readOk)) ==
            Working(s, iso, row, e, if readOk && owned then x else x.(phase := Adopting(image)))
  {
    var w := Working(s, iso, row, e, x);
    if j :| j in s.rows && j != iso && s.rows[j].provider == row.provider && s.rows[j].ext == Some(image) &&
            !s.rows[j].deleted
    {
      assert w.rows[j] == s.rows[j];
      assert TakenByLive(w, iso, image);
    }
    assert w.rows[iso := row] == w.rows && w.execs[e := x] == w.execs;
  }

  /** The closing write stores exactly the adopted image, whether or not the row was deleted
      meanwhile, unless another row of the provider has it; then it writes nothing. */
  lemma {:induction false} FinishStep(s: State, iso: IsoId, row: IsoRow, e: ExecId, x: Exec, image: ExternalId)
    requires x.iso == iso && x.phase == Adopting(image) && e !in s.execs
    ensures Step(Working(s, iso, row, e, x), Finish(e)) ==
            s.(rows := s.rows[iso := if FreeImage(s, iso, row.provider, image)
                                     then row.(status := Active, ext := Some(image)) else row])
  {
    var w := Working(s, iso, row, e, x);
    if j :| j in s.rows && j != iso && s.rows[j].provider == row.provider && s.rows[j].ext == Some(image) {
      assert w.rows[j] == s.rows[j];
      assert Taken(w, iso, image);
    }
    assert w.execs - {e} == s.execs;
  }

  /** Giving up is recorded exactly by a final attempt on a row that still lives. */
  lemma {:induction false} GiveUpStep(s: State, iso: IsoId, row: IsoRow, e: ExecId, x: Exec, recorded: bool)
    requires x.iso == iso && x.phase in {Claimed, Refused, Verifying} && e !in s.execs
    ensures Step(Working(s, iso, row, e, x), GiveUp(e, recorded)) ==
            s.(rows := s.rows[iso := if x.finalAttempt && recorded && !row.deleted
                                     then row.(status := Failed, failures := row.failures + 1) else row])
  {
    assert Working(s, iso, row, e, x).execs - {e} == s.execs;
  }

  lemma {:induction false} RunOne(s: State, ev: Event)
    ensures Run(s, [ev]) == Step(s, ev)
  {
    assert [ev][1..] == [];
  }

  /** A free image that is listed gets adopted and stored. */
  lemma {:induction false} AdoptAndFinish(s: State, iso: IsoId, row: IsoRow, e: ExecId, x: Exec, image: ExternalId)
    requires e !in s.execs && x.iso == iso && (x.phase == Claimed || x.phase == Verifying)
    requires FreeImage(s, iso, row.provider, image)
    ensures Run(Working(s, iso, row, e, x), [Propose(e, image, true)] + [Finish(e)]) ==
            s.(rows := s.rows[iso := row.(status := Active, ext := Some(image))])
  {
    ProposeStep(s, iso, row, e, x, image, true);
    FinishStep(s, iso, row, e, x.(phase := Adopting(image)), image);
    RunFirst(Working(s, iso, row, e, x), Propose(e, image, true), [Finish(e)]);
    RunOne(Working(s, iso, row, e, x.(phase := Adopting(image))), Finish(e));
  }

  /** From every state: an uploaded image that is already listed is registered by its own job, with
      the proposed external id and no create call. */
  lemma {:induction false} UploadRegisters(s: State, iso: IsoId, provider: ProviderId, e: ExecId, finalAttempt: bool,
                                           image: ExternalId)
    requires iso !in s.rows && e !in s.execs && FreeImage(s, iso, provider, image)
    ensures var t := Run(Step(s, Upload(iso, provider, true)),
                         [StartJob(e, iso, finalAttempt)] + ([Claim(e)] + ([Propose(e, image, true)] + [Finish(e)])));
            && LiveActive(t, iso) && t.rows[iso].ext == Some(image) && t.rows[iso].provider == provider
            && t.rows[iso].creates == 0 && t.rows[iso].claims == 1
            && t.execs == s.execs && forall j :: j in s.rows ==> j in t.rows && t.rows[j] == s.rows[j]
  {
    var row := IsoRow(provider, Uploaded, false, None, 0, 0, 0);
    var b := s.(jobs := s.jobs + {iso});
    var s0 := Step(s, Upload(iso, provider, true));
    assert s0 == b.(rows := b.rows[iso := row]);
    var x := Exec(iso, finalAttempt, Loaded, 0);
    var held := row.(status := Registering, claims := 1);
    StartStep(b, iso, row, e, finalAttempt);
    ClaimStep(b, iso, row, e, x);
    AdoptAndFinish(b, iso, held, e, x.(phase := Claimed), image);
    var last := [Propose(e, image, true)] + [Finish(e)];
    RunFirst(s0, StartJob(e, iso, finalAttempt), [Claim(e)] + last);
    RunFirst(Working(b, iso, row, e, x), Claim(e), last);
  }

  lemma {:induction false} AnnounceAndCall(s: State, iso: IsoId, row: IsoRow, e: ExecId, x: Exec, accepted: bool,
                                           rest: seq<Event>)
    requires x.iso == iso && x.phase == Claimed && row.status == Registering
    ensures Run(Working(s, iso, row, e, x), [Announce(e)] + ([CallCreate(e, accepted)] + rest)) ==
            Run(Working(s, iso, row.(creates := row.creates + 1), e,
                        x.(phase := if accepted then Verifying else Refused, calls := x.calls + 1)), rest)
  {
    AnnounceStep(s, iso, row, e, x);
    assert row.(status := Registering) == row;
    CallStep(s, iso, row, e, x.(phase := Announced), accepted);
    RunFirst(Working(s, iso, row, e, x), Announce(e), [CallCreate(e, accepted)] + rest);
    RunFirst(Working(s, iso, row, e, x.(phase := Announced)), CallCreate(e, accepted), rest);
  }

  /** The same through the create call: one call, then the image it made appears and is adopted. */
  lemma {:induction false} CreatedImageRegisters(s: State, iso: IsoId, row: IsoRow, e: ExecId, x: Exec,
                                                 image: ExternalId)
    requires e !in s.execs && x.iso == iso && x.phase == Claimed
    requires !row.deleted && row.status == Registering && FreeImage(s, iso, row.provider, image)
    ensures var t := Run(Working(s, iso, row, e, x),
                         [Announce(e)] + ([CallCreate(e, true)] + ([Propose(e, image, true)] + [Finish(e)])));
            && LiveActive(t, iso) && t.rows[iso].ext == Some(image) && t.rows[iso].creates == row.creates + 1
            && t.execs == s.execs && t == s.(rows := s.rows[iso := t.rows[iso]])
  {
    var called := row.(creates := row.creates + 1);
    var y := x.(phase := Verifying, calls := x.calls + 1);
    AnnounceAndCall(s, iso, row, e, x, true, [Propose(e, image, true)] + [Finish(e)]);
    AdoptAndFinish(s, iso, called, e, y, image);
  }

  /** A refused create call of the final attempt records the failure, which a retry can take up
      again; of an earlier attempt it leaves the row 'registering'. */
  lemma {:induction false} RefusedCallFails(s: State, iso: IsoId, row: IsoRow, e: ExecId, x: Exec)
    requires e !in s.execs && x.iso == iso && x.phase == Claimed && !row.deleted && row.status == Registering
    ensures var t := Run(Working(s, iso, row, e, x), [Announce(e)] + ([CallCreate(e, false)] + [GiveUp(e, true)]));
            && iso in t.rows && t == s.(rows := s.rows[iso := t.rows[iso]])
            && t.rows[iso].status == (if x.finalAttempt then Failed else Registering)
            && t.rows[iso].failures == (if x.finalAttempt then row.failures + 1 else row.failures)
            && t.rows[iso].creates == row.creates + 1 && t.rows[iso].ext == row.ext && !t.rows[iso].deleted
  {
    var called := row.(creates := row.creates + 1);
    var y := x.(phase := Refused, calls := x.calls + 1);
    AnnounceAndCall(s, iso, row, e, x, false, [GiveUp(e, true)]);
    GiveUpStep(s, iso, called, e, y, true);
    RunOne(Working(s, iso, called, e, y), GiveUp(e, true));
  }

  /** The progress and closing writes carry no deleted_at guard: a row deleted while its job runs
      ends deleted, yet 'active' and mapped. */
  lemma {:induction false} DeletedRowIsStillMapped(s: State, iso: IsoId, row: IsoRow, e: ExecId, x: Exec,
                                                   image: ExternalId)
    requires e !in s.execs && x.iso == iso && x.phase == Adopting(image)
    requires !row.deleted && row.status == Registering && FreeImage(s, iso, row.provider, image)
    ensures var t := Run(Working(s, iso, row, e, x), [Delete(iso)] + [Finish(e)]);
            iso in t.rows && t.rows[iso].deleted && t.rows[iso].status == Active && t.rows[iso].ext == Some(image)
  {
    var w := Working(s, iso, row, e, x);
    var gone := row.(deleted := true, status := Removed);
    assert Step(w, Delete(iso)) == Working(s, iso, gone, e, x);
    FinishStep(s, iso, gone, e, x, image);
    RunFirst(w, Delete(iso), [Finish(e)]);
    RunOne(Working(s, iso, gone, e, x), Finish(e));
  }
}

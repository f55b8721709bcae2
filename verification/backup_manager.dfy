/**
 The backup manager (cmd/kanea/backup_manager.go) and the settings calls that drive it
 (cmd/kanea/settings_service.go), as steps any number of callers may interleave. The mutex is a field a
 swap holds from its lock to its install; the probe and the commit of the settings record happen before.
 */
module BackupManager {
  import opened Wrappers

  /** Where a pipeline's destination came from. */
  datatype Pipeline = FromRecord(settings: nat) | FromFlags

  datatype Source = SourceStore | SourceFlags | SourceNone

  /** The daemon's parent context: not handed over yet, live, or cancelled. */
  datatype Base = Unset | Live | Cancelled

  /** A replicator goroutine; `finished` once its final ship is over and its done channel closed. */
  datatype Replicator = Replicator(pipeline: Pipeline, cancelled: bool, finished: bool)

  datatype Stage = Probing | Committing | Waiting | Stopping | Installing

  /** What a settings call asks for: a stored record, or a reset to the unit's flags if it has any. */
  datatype Change = Put(settings: nat) | Reset(flags: bool) {
    function Target(): Option<Pipeline> {
      match this
      case Put(settings) => Some(FromRecord(settings))
      case Reset(flags) => if flags then Some(FromFlags) else None
    }

    function Label(): Source {
      match this
      case Put(_) => SourceStore
      case Reset(flags) => if flags then SourceFlags else SourceNone
    }

    function Record(): Option<nat> {
      match this
      case Put(settings) => Some(settings)
      case Reset(_) => None
    }
  }

  datatype Swap = Swap(change: Change, stage: Stage)

  /** `cancel` and `done` name the replicator they belong to. */
  datatype Manager = Manager(
    base: Base, svc: Option<Pipeline>, source: Source, cancel: Option<nat>, done: Option<nat>,
    mutex: Option<nat>, replicators: seq<Replicator>, record: Option<nat>, swaps: map<nat, Swap>,
    committed: Option<Change>, installed: Option<Change>)

  datatype Event =
    | RunStarts
    | ShutsDown
    | Begins(caller: nat, change: Change)
    | Probes(caller: nat, ok: bool)
    | Commits(caller: nat, ok: bool)
    | Locks(caller: nat)
    | Joins(caller: nat)     // the old replicator's done channel is closed
    | Installs(caller: nat)
    | Finishes(replicator: nat)

  predicate At(s: Manager, caller: nat, stage: Stage) {
    caller in s.swaps && s.swaps[caller].stage == stage
  }

  predicate Enabled(s: Manager, e: Event) {
    match e
    case RunStarts => s.base == Unset && s.mutex == None
    case ShutsDown => s.base == Live
    case Begins(c, _) => c !in s.swaps
    case Probes(c, _) => At(s, c, Probing)
    case Commits(c, _) => At(s, c, Committing)
    case Locks(c) => At(s, c, Waiting) && s.mutex == None
    case Joins(c) => At(s, c, Stopping) && s.done.Some? && s.done.value < |s.replicators| && s.replicators[s.done.value].finished
    case Installs(c) => At(s, c, Installing)
    case Finishes(r) => r < |s.replicators| && !s.replicators[r].finished && (s.replicators[r].cancelled || s.base == Cancelled)
  }

  function Launch(s: Manager, pipeline: Pipeline): Manager {
    var r := |s.replicators|;
    s.(cancel := Some(r), done := Some(r), replicators := s.replicators + [Replicator(pipeline, false, false)])
  }

  function Advance(s: Manager, caller: nat, stage: Stage): Manager
    requires caller in s.swaps
  {
    s.(swaps := s.swaps[caller := s.swaps[caller].(stage := stage)])
  }

  function Leave(s: Manager, caller: nat): Manager {
    s.(swaps := s.swaps - {caller})
  }

  /** The end of stopLocked. */
  function Emptied(s: Manager): Manager {
    s.(cancel := None, done := None, svc := None, source := SourceNone)
  }

  function Next(s: Manager, e: Event): Manager
    requires Enabled(s, e)
  {
    match e
    case RunStarts =>
      var t := s.(base := Live);
      if s.svc.Some? && s.cancel.None? then Launch(t, s.svc.value) else t
    case ShutsDown => s.(base := Cancelled)
    case Begins(c, change) =>
      s.(swaps := s.swaps[c := Swap(change, if change.Target().Some? then Probing else Committing)])
    case Probes(c, ok) => if ok then Advance(s, c, Committing) else Leave(s, c)
    case Commits(c, ok) =>
      if ok then Advance(s, c, Waiting).(record := s.swaps[c].change.Record(), committed := Some(s.swaps[c].change))
      else Leave(s, c)
    case Locks(c) =>
      var t := s.(mutex := Some(c));
      if s.cancel.Some? then
        var k := s.cancel.value;
        Advance(t, c, Stopping).(replicators :=
          if k < |s.replicators| then s.replicators[k := s.replicators[k].(cancelled := true)] else s.replicators)
      else Advance(Emptied(t), c, Installing)
    case Joins(c) => Advance(Emptied(s), c, Installing)
    case Installs(c) =>
      var change := s.swaps[c].change;
      var t := Leave(s, c).(mutex := None, installed := Some(change));
      (match change.Target()
       case None => t
       case Some(p) =>
         var u := t.(svc := Some(p), source := change.Label());
         if s.base == Unset then u else Launch(u, p))
    case Finishes(r) => s.(replicators := s.replicators[r := s.replicators[r].(finished := true)])
  }

  ghost predicate IsRun(s: Manager, es: seq<Event>)
    decreases |es|
  {
    es == [] || (Enabled(s, es[0]) && IsRun(Next(s, es[0]), es[1..]))
  }

  ghost function Run(s: Manager, es: seq<Event>): Manager
    requires IsRun(s, es)
    decreases |es|
  {
    if es == [] then s else Run(Next(s, es[0]), es[1..])
  }

  /** After startup's adopt: something installed or nothing, and whatever record is stored. */
  function Start(svc: Option<Pipeline>, source: Source, record: Option<nat>): Manager {
    Manager(Unset, svc, if svc.None? then SourceNone else source, None, None, None, [], record, map[], None, None)
  }

  // ---- the invariant -----------------------------------------------------

  /** A live replicator is the one the handles name, and belongs to the installed pipeline. */
  ghost predicate OneLive(s: Manager) {
    forall r :: 0 <= r < |s.replicators| && !s.replicators[r].finished ==>
      s.cancel == Some(r) && s.svc == Some(s.replicators[r].pipeline)
  }

  /** The handles exist together, for the installed pipeline, and its replicator stops only when told to. */
  ghost predicate HandlesMatch(s: Manager) {
    && s.cancel == s.done
    && (s.cancel.Some? ==>
          && s.base != Unset && s.cancel.value < |s.replicators|
          && s.svc == Some(s.replicators[s.cancel.value].pipeline)
          && (s.replicators[s.cancel.value].finished ==> s.replicators[s.cancel.value].cancelled || s.base == Cancelled)
          && (s.replicators[s.cancel.value].cancelled ==> s.mutex.Some?))
  }

  /** Once run has started, installed means launched. */
  ghost predicate InstalledIsLaunched(s: Manager) {
    s.base != Unset && s.svc.Some? ==> s.cancel.Some?
  }

  predicate Holds(stage: Stage) {
    stage == Stopping || stage == Installing
  }

  /** The mutex has one holder: it has told the old replicator to stop, or has seen it stopped. */
  ghost predicate MutexHeld(s: Manager) {
    && (forall c :: c in s.swaps && Holds(s.swaps[c].stage) ==> s.mutex == Some(c))
    && (s.mutex.Some? ==>
          && s.mutex.value in s.swaps
          && match s.swaps[s.mutex.value].stage
             case Stopping => s.cancel.Some? && s.cancel.value < |s.replicators| && s.replicators[s.cancel.value].cancelled
             case Installing => s.cancel.None? && s.svc.None? && s.source == SourceNone
             case _ => false)
  }

  ghost predicate Safe(s: Manager) {
    OneLive(s) && HandlesMatch(s) && InstalledIsLaunched(s) && MutexHeld(s)
  }

  /** Steps outside the mutex: they touch the swap that makes them and the stored record. */
  lemma {:induction false} UnlockedStepKeepsSafe(s: Manager, e: Event)
    requires Safe(s) && Enabled(s, e) && (e.Begins? || e.Probes? || e.Commits?)
    ensures Safe(Next(s, e))
  {
    var t := Next(s, e);
    ProposalTouchesNothing(s, e);
    assert OneLive(t) && HandlesMatch(t) && InstalledIsLaunched(t);
    forall c | c in t.swaps && Holds(t.swaps[c].stage) ensures t.mutex == Some(c) {
      assert c != e.caller && t.swaps[c] == s.swaps[c];
    }
    assert s.mutex != Some(e.caller);
  }

  /** Until it locks, a swap changes nothing but itself and, once its commit succeeds, the stored record. */
  lemma {:induction false} ProposalTouchesNothing(s: Manager, e: Event)
    requires Enabled(s, e) && (e.Begins? || e.Probes? || e.Commits?)
    ensures var t := Next(s, e);
            && t.base == s.base && t.svc == s.svc && t.source == s.source && t.cancel == s.cancel && t.done == s.done
            && t.mutex == s.mutex && t.replicators == s.replicators && t.installed == s.installed
            && (!(e.Commits? && e.ok) ==> t.record == s.record && t.committed == s.committed)
            && (!e.Begins? && !e.ok ==> e.caller !in t.swaps)
  {
  }

  lemma {:induction false} LockedStepKeepsSafe(s: Manager, e: Event)
    requires Safe(s) && Enabled(s, e) && (e.Locks? || e.Joins? || e.Installs?)
    ensures Safe(Next(s, e))
  {
    var c := e.caller;
    assert e.Joins? || e.Installs? ==> Holds(s.swaps[c].stage);
    assert e.Locks? ==> s.mutex == None;
  }

  lemma {:induction false} StepKeepsSafe(s: Manager, e: Event)
    requires Safe(s) && Enabled(s, e)
    ensures Safe(Next(s, e))
  {
    if e.Begins? || e.Probes? || e.Commits? {
      UnlockedStepKeepsSafe(s, e);
    } else if e.Locks? || e.Joins? || e.Installs? {
      LockedStepKeepsSafe(s, e);
    }
  }

  /** The manager's invariant over every interleaving of run, swaps and shutdown. */
  lemma {:induction false} AlwaysSafe(s: Manager, es: seq<Event>)
    requires Safe(s) && IsRun(s, es)
    ensures Safe(Run(s, es))
    decreases |es|
  {
    hide Safe, Next;
    if es != [] {
      StepKeepsSafe(s, es[0]);
      AlwaysSafe(Next(s, es[0]), es[1..]);
    }
  }

  lemma {:induction false} StartIsSafe(svc: Option<Pipeline>, source: Source, record: Option<nat>)
    ensures Safe(Start(svc, source, record))
  {
  }

  // ---- swap safety -------------------------------------------------------

  /** A replicator is only ever started once every earlier one has finished its final ship. */
  lemma {:induction false} LaunchesAfterFinalShip(s: Manager, e: Event)
    requires Safe(s) && Enabled(s, e) && |Next(s, e).replicators| > |s.replicators|
    ensures forall r :: 0 <= r < |s.replicators| ==> s.replicators[r].finished
    ensures var t := Next(s, e);
            && t.replicators == s.replicators + [Replicator(t.svc.value, false, false)]
            && t.cancel == Some(|s.replicators|)
  {
    assert e.Installs? ==> Holds(s.swaps[e.caller].stage);
  }

  /** A caller's steps when its swap never gets past a failed probe or commit. */
  predicate Refused(e: Event, caller: nat) {
    (e.Begins? || e.Probes? || (e.Commits? && !e.ok)) && e.caller == caller
  }

  predicate Concerns(e: Event, caller: nat) {
    !e.RunStarts? && !e.ShutsDown? && !e.Finishes? && e.caller == caller
  }

  function Without(es: seq<Event>, caller: nat): seq<Event> {
    if es == [] then []
    else (if Concerns(es[0], caller) then [] else [es[0]]) + Without(es[1..], caller)
  }

  function Erase(s: Manager, caller: nat): Manager {
    s.(swaps := s.swaps - {caller})
  }

  lemma {:induction false} ErasedStep(s: Manager, e: Event, caller: nat)
    requires Enabled(s, e)
    ensures Refused(e, caller) ==> Erase(Next(s, e), caller) == Erase(s, caller)
    ensures !Concerns(e, caller) ==>
              Enabled(Erase(s, caller), e) && Next(Erase(s, caller), e) == Erase(Next(s, e), caller)
  {
    if !Concerns(e, caller) {
      ErasedOtherStep(s, e, caller);
    }
  }

  lemma {:induction false} ErasedOtherStep(s: Manager, e: Event, caller: nat)
    requires Enabled(s, e) && !Concerns(e, caller)
    ensures Enabled(Erase(s, caller), e) && Next(Erase(s, caller), e) == Erase(Next(s, e), caller)
  {
    var a, b := Next(Erase(s, caller), e), Erase(Next(s, e), caller);
    assert a.swaps == b.swaps;
  }

  /**
   A refused swap might as well not have been made: whatever else interleaves with it, the run without
   its steps reaches the same state.
   */
  lemma {:induction false} RefusedSwapLeavesNoTrace(s: Manager, es: seq<Event>, caller: nat)
    requires IsRun(s, es)
    requires forall i :: 0 <= i < |es| && Concerns(es[i], caller) ==> Refused(es[i], caller)
    ensures IsRun(Erase(s, caller), Without(es, caller))
    ensures Run(Erase(s, caller), Without(es, caller)) == Erase(Run(s, es), caller)
    decreases |es|
  {
    hide Next, Enabled;
    if es != [] {
      ErasedStep(s, es[0], caller);
      RefusedSwapLeavesNoTrace(Next(s, es[0]), es[1..], caller);
      var rest := Without(es[1..], caller);
      if Concerns(es[0], caller) {
        assert [] + rest == rest;
      } else {
        assert ([es[0]] + rest)[1..] == rest;
      }
    }
  }

  // ---- the record and the pipeline ---------------------------------------

  /** The stored record is the last commit's; outside an install, what is installed is the last install's. */
  ghost predicate Tracked(s: Manager) {
    && (s.committed.Some? ==> s.record == s.committed.value.Record())
    && (s.installed.Some? && !(s.mutex.Some? && At(s, s.mutex.value, Installing)) ==>
          s.svc == s.installed.value.Target() && s.source == s.installed.value.Label())
  }

  /** The stored record is the running destination, and the reported source says which. */
  predicate Agrees(s: Manager) {
    match s.record
    case Some(settings) => s.svc == Some(FromRecord(settings)) && s.source == SourceStore
    case None => s.source != SourceStore && (s.svc.None? || s.svc == Some(FromFlags))
  }

  lemma {:induction false} StepKeepsTracked(s: Manager, e: Event)
    requires Safe(s) && Tracked(s) && Enabled(s, e)
    ensures Tracked(Next(s, e))
  {
    if e.Begins? || e.Probes? || e.Commits? {
      assert s.mutex.Some? ==> s.mutex.value != e.caller;
    } else if e.Joins? || e.Installs? {
      assert Holds(s.swaps[e.caller].stage);
    }
  }

  lemma {:induction false} AlwaysTracked(s: Manager, es: seq<Event>)
    requires Safe(s) && Tracked(s) && IsRun(s, es)
    ensures Safe(Run(s, es)) && Tracked(Run(s, es))
    decreases |es|
  {
    hide Safe, Next, Tracked;
    if es != [] {
      StepKeepsSafe(s, es[0]);
      StepKeepsTracked(s, es[0]);
      AlwaysTracked(Next(s, es[0]), es[1..]);
    }
  }

  /**
   With no swap in flight, record and pipeline agree exactly when the last swap to commit asked for the
   same stored settings as the last one to install.
   */
  lemma {:induction false} AgreesIffLastCommitIsInstalled(svc: Option<Pipeline>, source: Source, record: Option<nat>, es: seq<Event>)
    requires IsRun(Start(svc, source, record), es)
    ensures var s := Run(Start(svc, source, record), es);
            s.swaps == map[] && s.installed.Some? && s.committed.Some? ==>
              (Agrees(s) <==> s.committed.value.Record() == s.installed.value.Record())
  {
    StartIsSafe(svc, source, record);
    AlwaysTracked(Start(svc, source, record), es);
  }

  /** Each settings call starts only when no other is in flight. */
  ghost predicate OneAtATime(s: Manager, es: seq<Event>)
    requires IsRun(s, es)
    decreases |es|
  {
    es == [] || ((es[0].Begins? ==> s.swaps == map[]) && OneAtATime(Next(s, es[0]), es[1..]))
  }

  predicate Decided(stage: Stage) {
    stage == Waiting || Holds(stage)
  }

  /** At most one swap in flight, and only once it has committed is the last commit not the last install. */
  ghost predicate InTurn(s: Manager) {
    && (forall a, b :: a in s.swaps && b in s.swaps ==> a == b)
    && (forall c :: c in s.swaps && Decided(s.swaps[c].stage) ==> s.committed == Some(s.swaps[c].change))
    && ((forall c :: c in s.swaps ==> !Decided(s.swaps[c].stage)) ==> s.committed == s.installed)
  }

  /** Steps of the one swap in flight, or of a first one. */
  lemma {:induction false} CallerStepKeepsTurns(s: Manager, e: Event)
    requires InTurn(s) && Enabled(s, e) && (e.Begins? ==> s.swaps == map[])
    requires e.Begins? || e.Probes? || e.Commits? || e.Locks? || e.Joins? || e.Installs?
    ensures InTurn(Next(s, e))
  {
    var t, c := Next(s, e), e.caller;
    assert forall x :: x in s.swaps ==> x == c;
    assert forall x :: x in t.swaps ==> x == c;
    assert c in s.swaps && Decided(s.swaps[c].stage) ==> s.committed == Some(s.swaps[c].change);
    assert c in s.swaps && !Decided(s.swaps[c].stage) ==> s.committed == s.installed;
    assert c in t.swaps && Decided(t.swaps[c].stage) ==> t.committed == Some(t.swaps[c].change);
    assert c !in t.swaps || !Decided(t.swaps[c].stage) ==> t.committed == t.installed;
  }

  lemma {:induction false} StepKeepsTurns(s: Manager, e: Event)
    requires InTurn(s) && Enabled(s, e) && (e.Begins? ==> s.swaps == map[])
    ensures InTurn(Next(s, e))
  {
    if e.RunStarts? || e.ShutsDown? || e.Finishes? {
      assert Next(s, e).swaps == s.swaps;
    } else {
      CallerStepKeepsTurns(s, e);
    }
  }

  lemma {:induction false} AlwaysInTurn(s: Manager, es: seq<Event>)
    requires InTurn(s) && IsRun(s, es) && OneAtATime(s, es)
    ensures InTurn(Run(s, es))
    decreases |es|
  {
    hide InTurn, Next;
    if es != [] {
      StepKeepsTurns(s, es[0]);
      AlwaysInTurn(Next(s, es[0]), es[1..]);
    }
  }

  /** After any history of settings calls made one at a time, record, pipeline and source agree. */
  lemma {:induction false} AgreesWhenOneAtATime(svc: Option<Pipeline>, source: Source, record: Option<nat>, es: seq<Event>)
    requires IsRun(Start(svc, source, record), es) && OneAtATime(Start(svc, source, record), es)
    ensures var s := Run(Start(svc, source, record), es);
            s.swaps == map[] && s.installed.Some? ==> s.committed == s.installed && Agrees(s)
  {
    AlwaysInTurn(Start(svc, source, record), es);
    AgreesIffLastCommitIsInstalled(svc, source, record, es);
  }

  /** Two overlapping calls: the second commits last and installs first. */
  function OverlappingCalls(): seq<Event> {
    [Begins(1, Put(10)), Probes(1, true), Commits(1, true),
     Begins(2, Put(20)), Probes(2, true), Commits(2, true),
     Locks(2), Installs(2), Locks(1), Installs(1)]
  }

  /** Both have committed, the second last, and neither has the mutex. */
  function BothCommitted(): Manager {
    Start(None, SourceNone, Some(20)).(
      swaps := map[1 := Swap(Put(10), Waiting), 2 := Swap(Put(20), Waiting)], committed := Some(Put(20)))
  }

  function FirstCommitted(): Manager {
    Start(None, SourceNone, Some(10)).(swaps := map[1 := Swap(Put(10), Waiting)], committed := Some(Put(10)))
  }

  lemma {:induction false} FirstCommits()
    ensures var es := OverlappingCalls()[..3];
            IsRun(Start(None, SourceNone, None), es) && Run(Start(None, SourceNone, None), es) == FirstCommitted()
  {
    var es := OverlappingCalls()[..3];
    var s0 := Start(None, SourceNone, None);
    var s1 := Next(s0, es[0]);
    var s2 := Next(s1, es[1]);
    assert Next(s2, es[2]) == FirstCommitted();
    RunTail(s2, es, 2);
    RunTail(s1, es, 1);
    RunTail(s0, es, 0);
  }

  lemma {:induction false} SecondCommits()
    ensures var es := OverlappingCalls()[3..6];
            IsRun(FirstCommitted(), es) && Run(FirstCommitted(), es) == BothCommitted()
  {
    var es := OverlappingCalls()[3..6];
    var s0 := FirstCommitted();
    var s1 := Next(s0, es[0]);
    var s2 := Next(s1, es[1]);
    assert Next(s2, es[2]) == BothCommitted();
    RunTail(s2, es, 2);
    RunTail(s1, es, 1);
    RunTail(s0, es, 0);
  }

  lemma {:induction false} BothCommit()
    ensures var s := Start(None, SourceNone, None);
            IsRun(s, OverlappingCalls()[..6]) && Run(s, OverlappingCalls()[..6]) == BothCommitted()
  {
    hide Next, Enabled;
    FirstCommits();
    SecondCommits();
    var es := OverlappingCalls();
    assert es[..6] == es[..3] + es[3..6];
    RunConcat(Start(None, SourceNone, None), es[..3], es[3..6]);
  }

  lemma {:induction false} SecondInstallsFirst()
    ensures var es := OverlappingCalls()[6..];
            && IsRun(BothCommitted(), es)
            && var t := Run(BothCommitted(), es);
               t.swaps == map[] && t.record == Some(20) && t.svc == Some(FromRecord(10))
  {
    var es := OverlappingCalls()[6..];
    var s0 := BothCommitted();
    var s1 := Next(s0, es[0]);
    var s2 := Next(s1, es[1]);
    assert s2.swaps == map[1 := Swap(Put(10), Waiting)] && s2.cancel == None && s2.mutex == None;
    var s3 := Next(s2, es[2]);
    assert Next(s3, es[3]).swaps == map[];
    RunTail(s3, es, 3);
    RunTail(s2, es, 2);
    RunTail(s1, es, 1);
    RunTail(s0, es, 0);
  }

  lemma {:induction false} OverlappingCallsDisagree()
    ensures var s := Start(None, SourceNone, None);
            && IsRun(s, OverlappingCalls())
            && var t := Run(s, OverlappingCalls());
               t.swaps == map[] && t.record == Some(20) && t.svc == Some(FromRecord(10)) && !Agrees(t)
  {
    hide Next, Enabled;
    BothCommit();
    SecondInstallsFirst();
    var es := OverlappingCalls();
    assert es == es[..6] + es[6..];
    RunConcat(Start(None, SourceNone, None), es[..6], es[6..]);
  }

  lemma {:induction false} RunConcat(s: Manager, a: seq<Event>, b: seq<Event>)
    requires IsRun(s, a) && IsRun(Run(s, a), b)
    ensures IsRun(s, a + b) && Run(s, a + b) == Run(Run(s, a), b)
    decreases |a|
  {
    hide Next, Enabled;
    if a == [] {
      assert a + b == b;
    } else {
      assert (a + b)[1..] == a[1..] + b;
      RunConcat(Next(s, a[0]), a[1..], b);
    }
  }

  lemma {:induction false} RunTail(s: Manager, es: seq<Event>, i: nat)
    requires i < |es| && Enabled(s, es[i]) && (i + 1 == |es| || IsRun(Next(s, es[i]), es[i + 1..]))
    ensures IsRun(s, es[i..])
    ensures Run(s, es[i..]) == if i + 1 == |es| then Next(s, es[i]) else Run(Next(s, es[i]), es[i + 1..])
    ensures i == 0 ==> es[i..] == es
  {
    hide Next;
    assert es[i..][1..] == es[i + 1..];
    if i + 1 == |es| {
      assert es[i + 1..] == [];
    }
  }

  // ---- probe, commit, install --------------------------------------------

  /** The event has happened since the caller's swap began. */
  predicate HappenedSince(es: seq<Event>, caller: nat, e: Event) {
    if es == [] then false
    else
      var last := es[|es| - 1];
      last == e || (!(last.Begins? && last.caller == caller) && HappenedSince(es[..|es| - 1], caller, e))
  }

  /** A stage is reached only through the steps before it. */
  ghost predicate StepsTaken(s: Manager, es: seq<Event>) {
    forall c :: c in s.swaps ==>
      && (s.swaps[c].stage == Committing && s.swaps[c].change.Target().Some? ==> HappenedSince(es, c, Probes(c, true)))
      && (Decided(s.swaps[c].stage) ==> HappenedSince(es, c, Commits(c, true)))
      && (Decided(s.swaps[c].stage) && s.swaps[c].change.Target().Some? ==> HappenedSince(es, c, Probes(c, true)))
      && (Holds(s.swaps[c].stage) ==> HappenedSince(es, c, Locks(c)))
  }

  lemma {:induction false} RunSnoc(s: Manager, es: seq<Event>)
    requires IsRun(s, es) && es != []
    ensures var front := es[..|es| - 1];
            IsRun(s, front) && Enabled(Run(s, front), es[|es| - 1]) && Run(s, es) == Next(Run(s, front), es[|es| - 1])
    decreases |es|
  {
    hide Next, Enabled;
    if |es| > 1 {
      RunSnoc(Next(s, es[0]), es[1..]);
      assert es[..|es| - 1][1..] == es[1..][..|es| - 2];
    } else {
      assert es[1..] == [];
    }
  }

  lemma {:induction false} StepKeepsTaken(s: Manager, es: seq<Event>, e: Event)
    requires Enabled(s, e) && StepsTaken(s, es)
    ensures StepsTaken(Next(s, e), es + [e])
  {
    var t, all := Next(s, e), es + [e];
    assert all[..|all| - 1] == es;
    forall c | c in t.swaps
      ensures && (t.swaps[c].stage == Committing && t.swaps[c].change.Target().Some? ==> HappenedSince(all, c, Probes(c, true)))
              && (Decided(t.swaps[c].stage) ==> HappenedSince(all, c, Commits(c, true)))
              && (Decided(t.swaps[c].stage) && t.swaps[c].change.Target().Some? ==> HappenedSince(all, c, Probes(c, true)))
              && (Holds(t.swaps[c].stage) ==> HappenedSince(all, c, Locks(c)))
    {
      assert c in s.swaps || e.Begins?;
      assert forall x :: HappenedSince(all, c, x) <==> e == x || (!(e.Begins? && e.caller == c) && HappenedSince(es, c, x));
      hide HappenedSince;
    }
  }

  lemma {:induction false} StepsAreTaken(s: Manager, es: seq<Event>)
    requires IsRun(s, es) && s.swaps == map[]
    ensures StepsTaken(Run(s, es), es)
    decreases |es|
  {
    hide Next, Enabled, HappenedSince;
    if es != [] {
      var front, e := es[..|es| - 1], es[|es| - 1];
      RunSnoc(s, es);
      StepsAreTaken(s, front);
      StepKeepsTaken(Run(s, front), front, e);
      assert front + [e] == es;
    }
  }

  /**
   In every run a settings record is stored only after the destination it names has passed its probe, and
   a pipeline is replaced only after the record was stored and the mutex taken, all within the same call.
   */
  lemma {:induction false} ProbedThenCommittedThenInstalled(s: Manager, es: seq<Event>, i: nat)
    requires IsRun(s, es) && s.swaps == map[] && i < |es|
    ensures IsRun(s, es[..i]) && Enabled(Run(s, es[..i]), es[i])
    ensures var at, before := Run(s, es[..i]), es[..i];
            && (es[i].Commits? && es[i].ok && at.swaps[es[i].caller].change.Target().Some? ==>
                  HappenedSince(before, es[i].caller, Probes(es[i].caller, true)))
            && (es[i].Locks? ==> HappenedSince(before, es[i].caller, Commits(es[i].caller, true)))
            && (es[i].Installs? ==>
                  HappenedSince(before, es[i].caller, Commits(es[i].caller, true))
                  && HappenedSince(before, es[i].caller, Locks(es[i].caller)))
    decreases |es|
  {
    if i == |es| - 1 {
      RunSnoc(s, es);
      StepsAreTaken(s, es[..i]);
    } else {
      RunSnoc(s, es);
      ProbedThenCommittedThenInstalled(s, es[..|es| - 1], i);
      assert es[..|es| - 1][..i] == es[..i];
    }
  }

  /** What a settings call asks for: the destination, the source it is reported under, and the record it stores. */
  lemma {:induction false} ChangeMeans(settings: nat)
    ensures Put(settings).Target() == Some(FromRecord(settings)) && Put(settings).Label() == SourceStore
    ensures Put(settings).Record() == Some(settings)
    ensures Reset(true).Target() == Some(FromFlags) && Reset(true).Label() == SourceFlags && Reset(true).Record() == None
    ensures Reset(false).Target() == None && Reset(false).Label() == SourceNone && Reset(false).Record() == None
  {
  }
}

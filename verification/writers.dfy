/**
 The compare-and-set writers over the state store: the autoscaler (cmd/kanea/scaling.go) and the build
 deployer (cmd/kanea/pipelines.go) each read a service record, change part of it and write it back at the
 index they read, while anyone else may commit in between.
 */
module Writers {
  import opened Wrappers
  import opened JobSpec
  import opened StateStore
  import opened StoreNames

  datatype Record = Service(desired: Desired) | Cooldown(at: int) | Other(raw: string)

  function ServiceKey(service: string): Key {
    Key(KindService, service)
  }

  function CooldownKey(service: string): Key {
    Key(KindKV, COOLDOWN_PREFIX + service)
  }

  lemma {:induction false} CooldownKeyInjective(a: string, b: string)
    requires CooldownKey(a) == CooldownKey(b)
    ensures a == b
  {
    var n := |COOLDOWN_PREFIX|;
    assert a == (COOLDOWN_PREFIX + a)[n..] && b == (COOLDOWN_PREFIX + b)[n..];
  }

  // ---- retargeting an image ----------------------------------------------

  /** An init step follows the service when it declared the service's previous, non-empty image. */
  predicate Follows(step: InitContainer, previous: string, image: string) {
    previous != "" && previous != image && step.image == previous
  }

  function Retarget(d: Desired, image: string): Desired {
    d.(image := image,
       init := Map((s: InitContainer) => if Follows(s, d.image, image) then s.(image := image) else s, d.init))
  }

  /** The names of the followers, in order. */
  function Followers(steps: seq<InitContainer>, previous: string, image: string): seq<string> {
    if steps == [] then []
    else
      Followers(steps[..|steps| - 1], previous, image)
      + if Follows(steps[|steps| - 1], previous, image) then [steps[|steps| - 1].name] else []
  }

  method RetargetImage(d: Desired, image: string) returns (after: Desired, moved: seq<string>)
    ensures after == Retarget(d, image)
    ensures moved == Followers(d.init, d.image, image)
  {
    hide Followers;
    var previous := d.image;
    after, moved := d.(image := image), [];
    if previous == "" || previous == image {
      assert after.init == Retarget(d, image).init;
      NoFollowers(d.init, previous, image);
      return;
    }
    var init := d.init;
    ghost var goal := Retarget(d, image).init;
    assert d.init[..0] == [];
    NoSteps(previous, image);
    for i := 0 to |init|
      invariant |init| == |d.init|
      invariant forall k :: 0 <= k < i ==> init[k] == goal[k]
      invariant forall k :: i <= k < |init| ==> init[k] == d.init[k]
      invariant moved == Followers(d.init[..i], previous, image)
    {
      NextFollower(d.init, previous, image, i);
      if init[i].image == previous {
        init := init[i := init[i].(image := image)];
        moved := moved + [init[i].name];
      }
    }
    assert d.init[..|d.init|] == d.init && init == goal;
    after := after.(init := init);
  }

  lemma {:induction false} NoSteps(previous: string, image: string)
    ensures Followers([], previous, image) == []
  {
  }

  lemma {:induction false} NextFollower(steps: seq<InitContainer>, previous: string, image: string, i: nat)
    requires i < |steps|
    ensures Followers(steps[..i + 1], previous, image)
         == Followers(steps[..i], previous, image) + if Follows(steps[i], previous, image) then [steps[i].name] else []
  {
    hide Follows;
    assert steps[..i + 1][..i] == steps[..i];
  }

  lemma {:induction false} NoFollowers(steps: seq<InitContainer>, previous: string, image: string)
    requires previous == "" || previous == image
    ensures Followers(steps, previous, image) == []
  {
    if steps != [] {
      NoFollowers(steps[..|steps| - 1], previous, image);
    }
  }

  /** A deploy moves images and nothing else, and a step that shared the service's image still does. */
  lemma {:induction false} RetargetKeepsTheRest(d: Desired, image: string)
    ensures var r := Retarget(d, image);
            && r.image == image && r.count == d.count && r.(image := d.image, init := d.init) == d
            && |r.init| == |d.init|
            && forall i :: 0 <= i < |d.init| ==>
                 && r.init[i].(image := d.init[i].image) == d.init[i]
                 && (d.image != "" && d.init[i].image == d.image ==> r.init[i].image == r.image)
                 && (d.init[i].image != d.image ==> r.init[i] == d.init[i])
  {
  }

  // ---- interleaved writers -----------------------------------------------

  datatype Intent = Scale(service: string, count: int) | Deploy(service: string, image: string)

  /** A writer between its read and its write. */
  datatype Task = Task(intent: Intent, read: Desired, index: nat)

  datatype Cause = Scaled(service: string, count: int, at: int) | Deployed(service: string, image: string) | Foreign

  /** One committed batch, with the store as it was immediately before and after. */
  datatype Version = Version(cause: Cause, before: State<Record>, after: State<Record>)

  datatype System = System(store: State<Record>, tasks: map<nat, Task>, history: seq<Version>)

  datatype Event =
    | Read(writer: nat, intent: Intent)
    | Write(writer: nat, now: int)
    | Edit(batch: seq<Mutation<Record>>)  // anyone else

  /** Cooldown records are put only by a scale; anyone may delete them. */
  predicate PutsNoCooldown(ms: seq<Mutation<Record>>) {
    forall i :: 0 <= i < |ms| && ms[i].op.Put? ==> !IsCooldownKey(ms[i].key)
  }

  predicate IsCooldownKey(k: Key) {
    k.kind == KindKV && COOLDOWN_PREFIX <= k.name
  }

  predicate Enabled(s: System, e: Event) {
    match e
    case Read(w, _) => w !in s.tasks
    case Write(w, _) => w in s.tasks
    case Edit(batch) => PutsNoCooldown(batch)
  }

  /** GetValue; a deploy of the image already there goes no further. */
  function StartTask(store: State<Record>, intent: Intent): Option<Task> {
    var k := ServiceKey(intent.service);
    if k.name == "" || k !in store.records || !store.records[k].value.Service? then None
    else
      var d := store.records[k].value.desired;
      if intent.Deploy? && d.image == intent.image then None
      else Some(Task(intent, d, store.records[k].index))
  }

  function BatchOf(t: Task, now: int): seq<Mutation<Record>> {
    var k := ServiceKey(t.intent.service);
    match t.intent
    case Scale(service, count) =>
      [Mutation(Put(Service(t.read.(count := count))), k, t.index, false),
       Mutation(Put(Cooldown(now)), CooldownKey(service), 0, false)]
    case Deploy(_, image) =>
      [Mutation(Put(Service(Retarget(t.read, image))), k, t.index, false)]
  }

  function CauseOf(t: Task, now: int): Cause {
    match t.intent
    case Scale(service, count) => Scaled(service, count, now)
    case Deploy(service, image) => Deployed(service, image)
  }

  function Commit(s: System, cause: Cause, batch: seq<Mutation<Record>>): System {
    match ApplyBatch(s.store, batch)
    case Err(_) => s
    case Ok(after) => s.(store := after, history := s.history + [Version(cause, s.store, after)])
  }

  function Next(s: System, e: Event): System
    requires Enabled(s, e)
  {
    match e
    case Read(w, intent) =>
      (match StartTask(s.store, intent)
       case None => s
       case Some(t) => s.(tasks := s.tasks[w := t]))
    case Write(w, now) =>
      var t := s.tasks[w];
      Commit(s.(tasks := s.tasks - {w}), CauseOf(t, now), BatchOf(t, now))
    case Edit(batch) => Commit(s, Foreign, batch)
  }

  ghost predicate IsRun(s: System, es: seq<Event>)
    decreases |es|
  {
    es == [] || (Enabled(s, es[0]) && IsRun(Next(s, es[0]), es[1..]))
  }

  ghost function Run(s: System, es: seq<Event>): System
    requires IsRun(s, es)
    decreases |es|
  {
    if es == [] then s else Run(Next(s, es[0]), es[1..])
  }

  function Start(store: State<Record>): System {
    System(store, map[], [])
  }

  // ---- what every commit did ---------------------------------------------

  ghost predicate HoldsService(s: State<Record>, service: string) {
    ServiceKey(service) in s.records && s.records[ServiceKey(service)].value.Service?
  }

  function DesiredIn(s: State<Record>, service: string): Desired
    requires HoldsService(s, service)
  {
    s.records[ServiceKey(service)].value.desired
  }

  /** What a commit may have done to the records, by who made it. */
  ghost predicate Explained(v: Version) {
    var b, a := v.before, v.after;
    match v.cause
    case Scaled(service, count, at) =>
      && HoldsService(b, service)
      && a.index == b.index + 1
      && a.records == b.records[ServiceKey(service) := Entry(a.index, Service(DesiredIn(b, service).(count := count)))]
                               [CooldownKey(service) := Entry(a.index, Cooldown(at))]
    case Deployed(service, image) =>
      && HoldsService(b, service) && DesiredIn(b, service).image != image
      && a.index == b.index + 1
      && a.records == b.records[ServiceKey(service) := Entry(a.index, Service(Retarget(DesiredIn(b, service), image)))]
    case Foreign =>
      forall service :: CooldownKey(service) in a.records ==>
        CooldownKey(service) in b.records && a.records[CooldownKey(service)] == b.records[CooldownKey(service)]
  }

  /** A task still at its index has read the record as it stands. */
  ghost predicate Current(store: State<Record>, t: Task) {
    var k := ServiceKey(t.intent.service);
    && 0 < t.index <= store.index && t.intent.service != ""
    && (t.intent.Deploy? ==> t.read.image != t.intent.image)
    && (k in store.records && store.records[k].index == t.index ==> store.records[k].value == Service(t.read))
  }

  ghost predicate Consistent(s: System) {
    && Indexed(s.store)
    && (forall w :: w in s.tasks ==> Current(s.store, s.tasks[w]))
    && (forall i :: 0 <= i < |s.history| ==> Explained(s.history[i]))
    && (forall i :: 0 < i < |s.history| ==> s.history[i].before == s.history[i - 1].after)
    && (s.history != [] ==> s.history[|s.history| - 1].after == s.store)
  }

  /** The compare-and-set: a write commits exactly when the record is still the one that was read. */
  lemma {:induction false} CommitsIffUnchanged(store: State<Record>, t: Task, now: int)
    requires Current(store, t)
    ensures var k := ServiceKey(t.intent.service);
            ApplyBatch(store, BatchOf(t, now)).Ok?
            <==> k in store.records && store.records[k] == Entry(t.index, Service(t.read))
  {
    var batch := BatchOf(t, now);
    assert AllValid(batch) by {
      assert |COOLDOWN_PREFIX| > 0;
      assert forall i :: 0 <= i < |batch| ==> batch[i].key.name != "";
    }
    assert batch[0].prevIndex == t.index;
    assert AllMet(store.records, batch) <==> Met(store.records, batch[0]);
  }

  lemma {:induction false} WriteIsExplained(store: State<Record>, t: Task, now: int)
    requires Current(store, t) && ApplyBatch(store, BatchOf(t, now)).Ok?
    ensures Explained(Version(CauseOf(t, now), store, ApplyBatch(store, BatchOf(t, now)).value))
  {
    CommitsIffUnchanged(store, t, now);
    var batch := BatchOf(t, now);
    assert batch[..1][..0] == [] && batch[..|batch|] == batch;
    assert WriteAll(store.records, store.index + 1, batch[..0]) == store.records;
    assert WriteAll(store.records, store.index + 1, batch[..1]) == StateStore.Write(store.records, store.index + 1, batch[0]);
  }

  lemma {:induction false} EditIsExplained(store: State<Record>, batch: seq<Mutation<Record>>)
    requires Indexed(store) && PutsNoCooldown(batch) && ApplyBatch(store, batch).Ok?
    ensures Explained(Version(Foreign, store, ApplyBatch(store, batch).value))
  {
    var after := ApplyBatch(store, batch).value;
    forall service | CooldownKey(service) in after.records
      ensures CooldownKey(service) in store.records
      ensures after.records[CooldownKey(service)] == store.records[CooldownKey(service)]
    {
      if batch != [] {
        NotPut(store.records, store.index + 1, batch, CooldownKey(service));
      }
    }
  }

  /** A batch that does not put a key leaves it as it was or deletes it. */
  lemma {:induction false} NotPut<V>(records: map<Key, Entry<V>>, index: nat, ms: seq<Mutation<V>>, k: Key)
    requires forall i :: 0 <= i < |ms| && ms[i].op.Put? ==> ms[i].key != k
    ensures var after := WriteAll(records, index, ms);
            k in after ==> k in records && after[k] == records[k]
  {
    if ms != [] {
      NotPut(records, index, ms[..|ms| - 1], k);
    }
  }

  /** Whatever commits, a task's index stays good only for the record it read. */
  lemma {:induction false} CommitKeepsTasks(store: State<Record>, batch: seq<Mutation<Record>>, t: Task)
    requires Indexed(store) && Current(store, t) && ApplyBatch(store, batch).Ok?
    ensures Current(ApplyBatch(store, batch).value, t)
  {
    if batch != [] {
      WriteAllTouches(store.records, store.index + 1, batch, ServiceKey(t.intent.service));
    }
  }

  lemma {:induction false} CommitKeepsConsistent(s: System, cause: Cause, batch: seq<Mutation<Record>>)
    requires Consistent(s)
    requires ApplyBatch(s.store, batch).Ok? ==> Explained(Version(cause, s.store, ApplyBatch(s.store, batch).value))
    ensures Consistent(Commit(s, cause, batch))
  {
    hide ApplyBatch, Explained, Current, Indexed;
    if ApplyBatch(s.store, batch).Ok? {
      ApplyKeepsIndexed(s.store, batch);
      forall w | w in s.tasks ensures Current(ApplyBatch(s.store, batch).value, s.tasks[w]) {
        CommitKeepsTasks(s.store, batch, s.tasks[w]);
      }
    }
  }

  lemma {:induction false} StepKeepsConsistent(s: System, e: Event)
    requires Consistent(s) && Enabled(s, e)
    ensures Consistent(Next(s, e)) && s.history <= Next(s, e).history
  {
    hide ApplyBatch, Explained, BatchOf;
    match e
    case Read(w, intent) =>
    case Write(w, now) =>
      var t := s.tasks[w];
      var rest := s.(tasks := s.tasks - {w});
      if ApplyBatch(s.store, BatchOf(t, now)).Ok? {
        WriteIsExplained(s.store, t, now);
      }
      CommitKeepsConsistent(rest, CauseOf(t, now), BatchOf(t, now));
    case Edit(batch) =>
      if ApplyBatch(s.store, batch).Ok? {
        EditIsExplained(s.store, batch);
      }
      CommitKeepsConsistent(s, Foreign, batch);
  }

  /**
   No lost update, over every interleaving of the autoscaler, the deployer and anyone else: every commit
   in the history is explained against the version immediately before it.
   */
  lemma {:induction false} NoLostUpdate(s: System, es: seq<Event>)
    requires Consistent(s) && IsRun(s, es)
    ensures Consistent(Run(s, es)) && s.history <= Run(s, es).history
    decreases |es|
  {
    hide Consistent, Next;
    if es != [] {
      StepKeepsConsistent(s, es[0]);
      NoLostUpdate(Next(s, es[0]), es[1..]);
    }
  }

  lemma {:induction false} StartIsConsistent(store: State<Record>)
    requires Indexed(store)
    ensures Consistent(Start(store))
  {
  }

  /** A version wrote a service's cooldown record. */
  ghost predicate WritesCooldown(v: Version, service: string) {
    var k := CooldownKey(service);
    k in v.after.records && (k !in v.before.records || v.before.records[k] != v.after.records[k])
  }

  /** A committed scale changes the count of one record; a deploy never does; other services keep theirs. */
  ghost predicate CountsRespected(v: Version) {
    forall service :: HoldsService(v.before, service) && !v.cause.Foreign? ==>
      && HoldsService(v.after, service)
      && DesiredIn(v.after, service) ==
         if v.cause.service != service then DesiredIn(v.before, service)
         else if v.cause.Scaled? then DesiredIn(v.before, service).(count := v.cause.count)
         else Retarget(DesiredIn(v.before, service), v.cause.image)
  }

  lemma {:induction false} ExplainedMeans(v: Version)
    requires Explained(v) && Indexed(v.before)
    ensures CountsRespected(v)
    ensures forall service :: WritesCooldown(v, service) <==> v.cause.Scaled? && v.cause.service == service
  {
    forall service
      ensures WritesCooldown(v, service) <==> v.cause.Scaled? && v.cause.service == service
    {
      if v.cause.Scaled? && CooldownKey(service) == CooldownKey(v.cause.service) {
        CooldownKeyInjective(service, v.cause.service);
      }
    }
  }

  /** The main result, from any store the daemon could open. */
  lemma {:induction false} EveryCommitRespectsTheOthers(store: State<Record>, es: seq<Event>, i: nat)
    requires Indexed(store) && IsRun(Start(store), es) && i < |Run(Start(store), es).history|
    ensures var v := Run(Start(store), es).history[i];
            && CountsRespected(v)
            && (forall service :: WritesCooldown(v, service) <==> v.cause.Scaled? && v.cause.service == service)
  {
    hide Explained, CountsRespected, WritesCooldown;
    StartIsConsistent(store);
    NoLostUpdate(Start(store), es);
    HistoryIndexed(Start(store), es);
    ExplainedMeans(Run(Start(store), es).history[i]);
  }

  ghost predicate AllIndexed(s: System) {
    forall i :: 0 <= i < |s.history| ==> Indexed(s.history[i].before)
  }

  lemma {:induction false} HistoryIndexed(s: System, es: seq<Event>)
    requires Consistent(s) && AllIndexed(s) && IsRun(s, es)
    ensures AllIndexed(Run(s, es))
    decreases |es|
  {
    hide ApplyBatch, Explained, Current, Indexed, BatchOf;
    if es != [] {
      StepKeepsConsistent(s, es[0]);
      HistoryIndexed(Next(s, es[0]), es[1..]);
    }
  }

  // ---- and writers get through -------------------------------------------

  /** A writer has something to do when the service is there and, for a deploy, its image is another. */
  lemma {:induction false} StartsIff(store: State<Record>, intent: Intent)
    ensures StartTask(store, intent).Some? <==>
              && intent.service != "" && HoldsService(store, intent.service)
              && (intent.Deploy? ==> DesiredIn(store, intent.service).image != intent.image)
    ensures StartTask(store, intent).Some? ==>
              var t := StartTask(store, intent).value;
              && t.intent == intent && t.read == DesiredIn(store, intent.service)
              && t.index == store.records[ServiceKey(intent.service)].index
  {
  }

  /**
   A writer whose record stays as it read it, whatever else commits meanwhile, commits its change: the
   count and the cooldown of a scale, the images of a deploy.
   */
  lemma {:induction false} UndisturbedWriteCommits(s: System, w: nat, now: int)
    requires Consistent(s) && w in s.tasks
    requires var t := s.tasks[w];
             var k := ServiceKey(t.intent.service);
             k in s.store.records && s.store.records[k].index == t.index
    ensures var t := s.tasks[w];
            var after := Next(s, Write(w, now));
            var k := ServiceKey(t.intent.service);
            && w !in after.tasks && |after.history| == |s.history| + 1
            && after.store.index == s.store.index + 1
            && after.store.records == match t.intent
               case Scale(service, count) =>
                 s.store.records[k := Entry(s.store.index + 1, Service(t.read.(count := count)))]
                                [Key(KindKV, "scaling/cooldown/" + service) := Entry(s.store.index + 1, Cooldown(now))]
               case Deploy(_, image) =>
                 s.store.records[k := Entry(s.store.index + 1, Service(Retarget(t.read, image)))]
  {
    hide ApplyBatch, BatchOf, Retarget;
    var t := s.tasks[w];
    CommitsIffUnchanged(s.store, t, now);
    WriteIsExplained(s.store, t, now);
  }

  /** One that was overtaken changes nothing. */
  lemma {:induction false} OvertakenWriteChangesNothing(s: System, w: nat, now: int)
    requires Consistent(s) && w in s.tasks
    requires var t := s.tasks[w];
             var k := ServiceKey(t.intent.service);
             !(k in s.store.records && s.store.records[k].index == t.index)
    ensures var after := Next(s, Write(w, now));
            after.store == s.store && after.history == s.history && w !in after.tasks
  {
    hide ApplyBatch, BatchOf;
    CommitsIffUnchanged(s.store, s.tasks[w], now);
  }

  /** Anyone may commit any batch that puts no cooldown record; deleting one is nobody's privilege. */
  lemma {:induction false} EditsAreFree(s: System, batch: seq<Mutation<Record>>)
    ensures Enabled(s, Edit(batch)) <==>
              forall i, service :: 0 <= i < |batch| && batch[i].op.Put? ==> batch[i].key != Key(KindKV, "scaling/cooldown/" + service)
  {
    forall k: Key ensures IsCooldownKey(k) <==> exists service :: k == Key(KindKV, "scaling/cooldown/" + service) {
      if IsCooldownKey(k) {
        assert k == Key(KindKV, "scaling/cooldown/" + k.name[|COOLDOWN_PREFIX|..]);
      }
    }
  }

  /** A writer without a task may read at any time, and one with a task may write at any time. */
  lemma {:induction false} WritersAreFree(s: System, w: nat, intent: Intent, now: int)
    ensures Enabled(s, Read(w, intent)) <==> w !in s.tasks
    ensures w !in s.tasks ==>
              Next(s, Read(w, intent)) == match StartTask(s.store, intent) case None => s case Some(t) => s.(tasks := s.tasks[w := t])
    ensures Enabled(s, Write(w, now)) <==> w in s.tasks
  {
  }
}

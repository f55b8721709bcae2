/** Crash safety of boot-time restore and migration, over every boot, every crash point and every run. */
module RestoreSafety {
  import opened Wrappers
  import opened RestoreBoot

  // ---- the phases of a boot ----------------------------------------------

  function Opened(cfg: Config, d: Disk, o: Outcome): Disk {
    Apply(ApplyAll(d, RestoreAtStart(cfg, d, o).0), OpenStore)
  }

  function AfterOpen(cfg: Config, d: Disk, o: Outcome): seq<Write> {
    var (migrate, migrated) := MigrateAtStart(ApplyAll(d, RestoreAtStart(cfg, d, o).0), o);
    migrate + (if migrated then o.session else [])
  }

  /** A cut boot is a cut restore, or a finished restore, an opened Store and a cut of the rest. */
  lemma {:induction false} BootPhases(cfg: Config, d: Disk, o: Outcome, k: nat)
    requires k <= |BootWrites(cfg, d, o)|
    ensures var (r, ok) := RestoreAtStart(cfg, d, o);
            var ws := BootWrites(cfg, d, o)[..k];
            if k <= |r| then ws == r[..k]
            else ok && Opens(cfg, d, o) && k - |r| - 1 <= |AfterOpen(cfg, d, o)|
                 && ws == r + [OpenStore] + AfterOpen(cfg, d, o)[..k - |r| - 1]
                 && ApplyAll(d, ws) == ApplyAll(Opened(cfg, d, o), AfterOpen(cfg, d, o)[..k - |r| - 1])
  {
    hide RestoreAtStart, MigrateAtStart, Apply;
    var (r, ok) := RestoreAtStart(cfg, d, o);
    var ws := BootWrites(cfg, d, o);
    if k > |r| {
      var rest := AfterOpen(cfg, d, o);
      assert ws == r + [OpenStore] + rest;
      assert ws[..k] == r + [OpenStore] + rest[..k - |r| - 1];
      ApplyAllConcat(d, r + [OpenStore], rest[..k - |r| - 1]);
      ApplyAllAppend(d, r, OpenStore);
    }
  }

  /** A file so many schema steps later. */
  function Migrated(f: File, steps: nat): File {
    if f.Torn? then Torn else Saved(f.database.(schema := f.database.schema + steps))
  }

  /** What the first `k` writes after opening `d` put beside the state file. */
  function MigrationCopy(d: Disk, o: Outcome, k: nat): map<CopyName, File>
    requires d.state.Some?
  {
    if o.migrations == 0 || CopyRefused(d, o) || k == 0 then map[]
    else map[PreMigration(CopyTarget(d, o), o.stamp) := if k == 1 then Torn else d.state.value]
  }

  /** The disk after the first `k` writes of migrateAtStart. */
  lemma {:induction false} MigratePrefix(d: Disk, o: Outcome, k: nat)
    requires d.state.Some? && k <= |MigrateAtStart(d, o).0|
    ensures ApplyAll(d, MigrateAtStart(d, o).0[..k]) ==
            Disk(d.marker, Some(Migrated(d.state.value, if k <= 2 then 0 else k - 2)), d.copies + MigrationCopy(d, o, k))
  {
    var ws := MigrateAtStart(d, o).0;
    if k == 0 {
      assert ws[..0] == [];
      assert d.copies + map[] == d.copies;
    } else {
      MigratePrefix(d, o, k - 1);
      assert ws[..k] == ws[..k - 1] + [ws[k - 1]];
      ApplyAllAppend(d, ws[..k - 1], ws[k - 1]);
      hide MigrateAtStart, ApplyAll;
      MigrateShape(d, o, k - 1);
    }
  }

  /** Which write comes `i`-th in migrateAtStart. */
  lemma {:induction false} MigrateShape(d: Disk, o: Outcome, i: nat)
    requires i < |MigrateAtStart(d, o).0|
    ensures o.migrations > 0 && !CopyRefused(d, o)
    ensures MigrateAtStart(d, o).0[i] ==
            if i == 0 then StartCopy(CopyTarget(d, o), o.stamp)
            else if i == 1 then FinishCopy(CopyTarget(d, o), o.stamp)
            else Migrate
  {
  }

  /** The same file but for the data in it. */
  predicate SameButData(f: File, g: File) {
    f.Saved? == g.Saved? && (f.Saved? ==> f.database.(data := 0) == g.database.(data := 0))
  }

  /** A running daemon changes the data and may stage a request; nothing else. */
  lemma {:induction false} SessionEffect(d: Disk, ws: seq<Write>)
    requires Session(ws) && d.state.Some?
    ensures var after := ApplyAll(d, ws);
            && after.copies == d.copies
            && after.state.Some? && SameButData(after.state.value, d.state.value)
            && (d.marker.Some? ==> after.marker.Some?)
    decreases |ws|
  {
    if ws != [] {
      SessionEffect(Apply(d, ws[0]), ws[1..]);
    }
  }

  /** Restored as far as the other file was. */
  predicate SameProgress(f: File, g: File) {
    f.Saved? == g.Saved? && (f.Saved? ==> f.database.replayed == g.database.replayed && f.database.batches == g.database.batches)
  }

  /** What is on disk at any cut after the Store was opened. */
  lemma {:induction false} AfterOpenPrefix(d: Disk, o: Outcome, k: nat)
    requires d.state.Some? && Session(o.session)
    requires var (migrate, migrated) := MigrateAtStart(d, o);
             k <= |migrate + (if migrated then o.session else [])|
    ensures var (migrate, migrated) := MigrateAtStart(d, o);
            var after := ApplyAll(d, (migrate + (if migrated then o.session else []))[..k]);
            && after.state.Some? && SameProgress(after.state.value, d.state.value)
            && (d.marker.Some? ==> after.marker.Some?)
            && after.copies == d.copies + MigrationCopy(d, o, k)
            && (after.state.value.Schema() != d.state.value.Schema() ==> o.migrations > 0 && !CopyRefused(d, o) && k > 2 && d.state.value.Saved?)
  {
    hide MigrateAtStart, Apply;
    var (migrate, migrated) := MigrateAtStart(d, o);
    var session := if migrated then o.session else [];
    var ws := migrate + session;
    if k <= |migrate| {
      assert ws[..k] == migrate[..k];
      MigratePrefix(d, o, k);
      if k > 0 {
        MigrateShape(d, o, k - 1);
      }
    } else {
      assert ws[..k] == migrate + session[..k - |migrate|];
      ApplyAllConcat(d, migrate, session[..k - |migrate|]);
      assert migrate[..|migrate|] == migrate;
      MigratePrefix(d, o, |migrate|);
      SessionEffect(ApplyAll(d, migrate), session[..k - |migrate|]);
      FinishedMigration(d, o);
    }
  }

  /** A migration that succeeds has nothing to do, or has made its copy and at least one step. */
  lemma {:induction false} FinishedMigration(d: Disk, o: Outcome)
    ensures var (ws, ok) := MigrateAtStart(d, o);
            ok ==> if o.migrations == 0 then ws == [] else !CopyRefused(d, o) && |ws| > 2
  {
  }

  lemma {:induction false} OpenedDisk(cfg: Config, d: Disk, o: Outcome)
    ensures var r := RestoreAtStart(cfg, d, o).0;
            var at := ApplyAll(d, r);
            && Opened(cfg, d, o).state.Some?
            && (at.state.Some? ==> Opened(cfg, d, o) == at)
            && Opened(cfg, d, o).copies == at.copies && Opened(cfg, d, o).marker == at.marker
            && CopyRefused(Opened(cfg, d, o), o) == CopyRefused(at, o)
            && MigrateAtStart(Opened(cfg, d, o), o) == MigrateAtStart(at, o)
            && (at.state.None? ==> Opened(cfg, d, o).state.value.Whole())
  {
  }

  // ---- one boot, any crash point -----------------------------------------

  /** The copies the first `k` writes of a boot put on disk, each as those writes leave it. */
  function WrittenCopies(cfg: Config, d: Disk, o: Outcome, k: nat): map<CopyName, File> {
    var r := RestoreAtStart(cfg, d, o).0;
    (if k > 0 && r != [] && d.state.Some? then map[BeforeRestore(o.stamp) := d.state.value] else map[])
    + (if k > |r| && Opened(cfg, d, o).state.Some? then MigrationCopy(Opened(cfg, d, o), o, k - |r| - 1) else map[])
  }

  lemma {:induction false} CopiesAfterBoot(cfg: Config, d: Disk, o: Outcome, k: nat)
    requires k <= |BootWrites(cfg, d, o)| && Session(o.session)
    ensures ApplyAll(d, BootWrites(cfg, d, o)[..k]).copies == d.copies + WrittenCopies(cfg, d, o, k)
  {
    hide RestoreAtStart, MigrateAtStart, Apply, BootWrites, MigrationCopy;
    BootPhases(cfg, d, o, k);
    var r := RestoreAtStart(cfg, d, o).0;
    RestorePrefix(cfg, d, o, if k <= |r| then k else |r|);
    if k > |r| {
      assert r[..|r|] == r;
      OpenedDisk(cfg, d, o);
      AfterOpenPrefix(Opened(cfg, d, o), o, k - |r| - 1);
    }
  }

  /** Every finished copy is still there, as it was. */
  ghost predicate KeepsSaved(d: Disk, after: Disk) {
    forall n :: n in d.copies && d.copies[n].Saved? ==> n in after.copies && after.copies[n] == d.copies[n]
  }

  /** If the boot has moved the state file aside, no finished copy of something else had that name. */
  predicate NoClash(cfg: Config, d: Disk, o: Outcome, k: nat) {
    var name := BeforeRestore(o.stamp);
    k > 0 && RestoreAtStart(cfg, d, o).0 != [] && d.state.Some? && name in d.copies && d.copies[name].Saved? ==>
      d.state.value == d.copies[name]
  }

  /**
   A boot, wherever it stops, keeps every finished copy exactly when the name it moves the state file to
   was free or held the same: a pre-migration copy is never written over a finished one.
   */
  lemma {:induction false} BootKeepsCopiesIff(cfg: Config, d: Disk, o: Outcome, k: nat)
    requires k <= |BootWrites(cfg, d, o)| && Session(o.session)
    ensures KeepsSaved(d, ApplyAll(d, BootWrites(cfg, d, o)[..k])) <==> NoClash(cfg, d, o, k)
  {
    hide BootWrites, RestoreAtStart, MigrateAtStart, ApplyAll, Opened;
    CopiesAfterBoot(cfg, d, o, k);
    CopyNamesNeverClash(cfg, d, o, k);
    var written, after := WrittenCopies(cfg, d, o, k), ApplyAll(d, BootWrites(cfg, d, o)[..k]);
    assert forall n :: n in written ==> after.copies[n] == written[n];
  }

  /** What a boot writes under a pre-migration name was not a finished copy before. */
  lemma {:induction false} CopyNamesNeverClash(cfg: Config, d: Disk, o: Outcome, k: nat)
    requires k <= |BootWrites(cfg, d, o)| && Session(o.session)
    ensures forall n :: n in WrittenCopies(cfg, d, o, k) && n.PreMigration? && n in d.copies ==> d.copies[n].Torn?
  {
    hide BootWrites, RestoreAtStart, MigrateAtStart, Apply;
    var r := RestoreAtStart(cfg, d, o).0;
    if k > |r| {
      RestorePrefix(cfg, d, o, |r|);
      assert r[..|r|] == r;
      OpenedDisk(cfg, d, o);
    }
  }

  /** With a finished copy under its name, a migration is refused: nothing is written once the Store is open. */
  lemma {:induction false} UsedCopyNameIsRefused(cfg: Config, d: Disk, o: Outcome)
    requires Opens(cfg, d, o) && o.migrations > 0 && CopyRefused(Opened(cfg, d, o), o)
    ensures BootWrites(cfg, d, o) == RestoreAtStart(cfg, d, o).0 + [OpenStore]
  {
    hide RestoreAtStart, Apply;
    OpenedDisk(cfg, d, o);
  }

  /** No earlier copy has this timestamp in its name. */
  ghost predicate StampFree(d: Disk, stamp: nat) {
    forall n :: n in d.copies ==> n.stamp != stamp
  }

  /** In particular a boot in a second no copy is named after changes none of them. */
  lemma {:induction false} CopiesOnlyGrow(cfg: Config, d: Disk, o: Outcome, k: nat)
    requires k <= |BootWrites(cfg, d, o)| && Session(o.session) && StampFree(d, o.stamp)
    ensures NoClash(cfg, d, o, k) && KeepsSaved(d, ApplyAll(d, BootWrites(cfg, d, o)[..k]))
  {
    hide BootWrites, ApplyAll, RestoreAtStart, Opened, MigrateAtStart;
    BootKeepsCopiesIff(cfg, d, o, k);
  }

  /**
   The database found at boot: until the Store is opened it is still in place or has been moved aside
   as it was; once moved aside it stays there for the rest of the boot.
   */
  lemma {:induction false} BootDatabaseKept(cfg: Config, d: Disk, o: Outcome, k: nat)
    requires k <= |BootWrites(cfg, d, o)| && Session(o.session)
    requires d.state.Some?
    ensures var r := RestoreAtStart(cfg, d, o).0;
            var after := ApplyAll(d, BootWrites(cfg, d, o)[..k]);
            if r == [] || k == 0 then k <= |r| ==> after.state == d.state
            else BeforeRestore(o.stamp) in after.copies && after.copies[BeforeRestore(o.stamp)] == d.state.value
  {
    hide RestoreAtStart, MigrateAtStart, Apply, BootWrites, Opened;
    BootPhases(cfg, d, o, k);
    CopiesAfterBoot(cfg, d, o, k);
    if k == 0 {
      RestorePrefix(cfg, d, o, 0);
    }
  }

  /** A schema step has committed only if a finished copy of the database it rewrites is on disk. */
  lemma {:induction false} MigrationHasCopy(cfg: Config, d: Disk, o: Outcome, k: nat)
    requires |RestoreAtStart(cfg, d, o).0| < k <= |BootWrites(cfg, d, o)| && Session(o.session)
    ensures var atOpen := Opened(cfg, d, o);
            var after := ApplyAll(d, BootWrites(cfg, d, o)[..k]);
            && atOpen.state.Some? && after.state.Some?
            && (after.state.value.Schema() != atOpen.state.value.Schema() ==>
                  var name := PreMigration(CopyTarget(atOpen, o), o.stamp);
                  atOpen.state.value.Saved? && name in after.copies && after.copies[name] == atOpen.state.value)
  {
    hide RestoreAtStart, MigrateAtStart, Apply, BootWrites;
    BootPhases(cfg, d, o, k);
    OpenedDisk(cfg, d, o);
    AfterOpenPrefix(Opened(cfg, d, o), o, k - |RestoreAtStart(cfg, d, o).0| - 1);
  }

  /**
   A staged request disappears only after its own restore succeeded in the same boot: at the first
   cut without it, the state file holds the whole of the archive that was asked for.
   */
  lemma {:induction false} MarkerClearedOnlyByRestore(cfg: Config, d: Disk, o: Outcome, k: nat)
    requires k <= |BootWrites(cfg, d, o)| && Session(o.session)
    requires d.marker.Some? && ApplyAll(d, BootWrites(cfg, d, o)[..k]).marker.None?
    ensures RestoreSucceeds(d.marker.value, o)
    ensures var (r, ok) := RestoreAtStart(cfg, d, o);
            && ok && |r| <= k
            && ApplyAll(d, r).state ==
               Some(Restored(d.marker.value, o.archive.value, BatchesToReplay(d.marker.value, o.archive.value)))
  {
    hide MigrateAtStart, Apply, BootWrites, RestoreAtStart;
    BootPhases(cfg, d, o, k);
    var (r, ok) := RestoreAtStart(cfg, d, o);
    RestorePrefix(cfg, d, o, if k <= |r| then k else |r|);
    if k > |r| {
      assert r[..|r|] == r;
      OpenedDisk(cfg, d, o);
      AfterOpenPrefix(Opened(cfg, d, o), o, k - |r| - 1);
    }
    assert r[..|r|] == r;
    assert r != [];
    RestoreShape(cfg, d, o, |r| - 1);
    RestorePrefix(cfg, d, o, |r|);
  }

  /** The Store is never opened while a request is still staged. */
  lemma {:induction false} NeverOpensOverAStagedRequest(cfg: Config, d: Disk, o: Outcome, p: nat)
    requires p < |BootWrites(cfg, d, o)| && BootWrites(cfg, d, o)[p] == OpenStore
    requires Session(o.session)
    ensures ApplyAll(d, BootWrites(cfg, d, o)[..p]).marker.None?
  {
    hide MigrateAtStart, Apply, ApplyAll;
    var (r, ok) := RestoreAtStart(cfg, d, o);
    OpenIsUnique(cfg, d, o, p);
    assert BootWrites(cfg, d, o)[..p] == r;
    assert r[..|r|] == r;
    RestorePrefix(cfg, d, o, |r|);
  }

  lemma {:induction false} OpenIsUnique(cfg: Config, d: Disk, o: Outcome, p: nat)
    requires p < |BootWrites(cfg, d, o)| && Session(o.session)
    requires BootWrites(cfg, d, o)[p] == OpenStore
    ensures p == |RestoreAtStart(cfg, d, o).0| && RestoreAtStart(cfg, d, o).1
  {
    hide RestoreAtStart, MigrateAtStart, Apply, ApplyAll;
    var (r, ok) := RestoreAtStart(cfg, d, o);
    if p < |r| {
      RestoreShape(cfg, d, o, p);
    } else if p > |r| {
      var (migrate, migrated) := MigrateAtStart(ApplyAll(d, r), o);
      if p - |r| - 1 < |migrate| {
        MigrateShape(ApplyAll(d, r), o, p - |r| - 1);
      }
    }
  }

  // ---- whole runs --------------------------------------------------------

  /** No boot of the run moves the state file over a finished copy of something else. */
  ghost predicate NeverClashes(cfg: Config, d: Disk, cycles: seq<Cycle>)
    decreases |cycles|
  {
    cycles == [] ||
    (&& NoClash(cfg, d, cycles[0].outcome, |Written(cfg, d, cycles[0])|)
     && NeverClashes(cfg, ApplyAll(d, Written(cfg, d, cycles[0])), cycles[1..]))
  }

  /** Every boot of the run keeps every finished copy it found. */
  ghost predicate EveryBootKeeps(cfg: Config, d: Disk, cycles: seq<Cycle>)
    decreases |cycles|
  {
    cycles == [] ||
    (&& KeepsSaved(d, ApplyAll(d, Written(cfg, d, cycles[0])))
     && EveryBootKeeps(cfg, ApplyAll(d, Written(cfg, d, cycles[0])), cycles[1..]))
  }

  /** No finished copy is lost in a run exactly when no aside name is reused for something else. */
  lemma {:induction false} CopiesKeptIff(cfg: Config, d: Disk, cycles: seq<Cycle>)
    requires Sessions(cycles)
    ensures EveryBootKeeps(cfg, d, cycles) <==> NeverClashes(cfg, d, cycles)
    decreases |cycles|
  {
    hide BootWrites, KeepsSaved, NoClash, WrittenCopies;
    if cycles != [] {
      var c := cycles[0];
      BootKeepsCopiesIff(cfg, d, c.outcome, |Written(cfg, d, c)|);
      CopiesKeptIff(cfg, ApplyAll(d, Written(cfg, d, c)), cycles[1..]);
    }
  }

  /** Every boot of the run names its copies after a second no earlier copy used. */
  ghost predicate FreshStamps(cfg: Config, d: Disk, cycles: seq<Cycle>)
    decreases |cycles|
  {
    cycles == [] ||
    (&& StampFree(d, cycles[0].outcome.stamp)
     && FreshStamps(cfg, ApplyAll(d, Written(cfg, d, cycles[0])), cycles[1..]))
  }

  lemma {:induction false} FreshStampsNeverClash(cfg: Config, d: Disk, cycles: seq<Cycle>)
    requires Sessions(cycles) && FreshStamps(cfg, d, cycles)
    ensures NeverClashes(cfg, d, cycles)
    decreases |cycles|
  {
    hide BootWrites, StampFree, NoClash, WrittenCopies;
    if cycles != [] {
      var c := cycles[0];
      CopiesOnlyGrow(cfg, d, c.outcome, |Written(cfg, d, c)|);
      FreshStampsNeverClash(cfg, ApplyAll(d, Written(cfg, d, c)), cycles[1..]);
    }
  }

  /** The databases one boot displaced by a restore or rewrote by a migration. */
  ghost function Displaced(cfg: Config, d: Disk, c: Cycle): set<Database> {
    var r := RestoreAtStart(cfg, d, c.outcome).0;
    var k := |Written(cfg, d, c)|;
    var after := ApplyAll(d, Written(cfg, d, c));
    var atOpen := Opened(cfg, d, c.outcome).state;
    (if d.state.Some? && d.state.value.Saved? && r != [] && k > 0 then {d.state.value.database} else {})
    + (if |r| < k && atOpen.Some? && atOpen.value.Saved? && after.state.Some?
          && after.state.value.Schema() != atOpen.value.Schema()
       then {atOpen.value.database} else {})
  }

  ghost function DisplacedInRun(cfg: Config, d: Disk, cycles: seq<Cycle>): set<Database>
    decreases |cycles|
  {
    if cycles == [] then {}
    else Displaced(cfg, d, cycles[0]) + DisplacedInRun(cfg, ApplyAll(d, Written(cfg, d, cycles[0])), cycles[1..])
  }

  ghost predicate SavedOn(d: Disk, db: Database) {
    exists n :: n in d.copies && d.copies[n] == Saved(db)
  }

  lemma {:induction false} KeptInRun(cfg: Config, d: Disk, cycles: seq<Cycle>)
    requires EveryBootKeeps(cfg, d, cycles)
    ensures KeepsSaved(d, Run(cfg, d, cycles))
    decreases |cycles|
  {
    hide BootWrites;
    if cycles != [] {
      KeptInRun(cfg, ApplyAll(d, Written(cfg, d, cycles[0])), cycles[1..]);
    }
  }

  /**
   Crash safety over whole runs: whatever crashes happen between any two writes, as long as no aside name
   is reused for something else, every database a restore ever displaced or a migration ever rewrote is
   still on disk at the end.
   */
  lemma {:induction false} NothingDisplacedIsLost(cfg: Config, d: Disk, cycles: seq<Cycle>)
    requires Sessions(cycles) && NeverClashes(cfg, d, cycles)
    ensures forall db :: db in DisplacedInRun(cfg, d, cycles) ==> SavedOn(Run(cfg, d, cycles), db)
    decreases |cycles|
  {
    hide NoClash, WrittenCopies, Displaced, Written;
    if cycles != [] {
      var c := cycles[0];
      var after := ApplyAll(d, Written(cfg, d, c));
      NothingDisplacedIsLost(cfg, after, cycles[1..]);
      CopiesKeptIff(cfg, after, cycles[1..]);
      KeptInRun(cfg, after, cycles[1..]);
      forall db | db in Displaced(cfg, d, c) ensures SavedOn(Run(cfg, d, cycles), db) {
        DisplacedIsSaved(cfg, d, c, db);
        var n :| n in after.copies && after.copies[n] == Saved(db);
        assert n in Run(cfg, d, cycles).copies;
      }
    }
  }

  lemma {:induction false} DisplacedIsSaved(cfg: Config, d: Disk, c: Cycle, db: Database)
    requires Session(c.outcome.session)
    requires db in Displaced(cfg, d, c)
    ensures SavedOn(ApplyAll(d, Written(cfg, d, c)), db)
  {
    hide BootWrites, RestoreAtStart, Apply, ApplyAll, Opened;
    var k := |Written(cfg, d, c)|;
    var r := RestoreAtStart(cfg, d, c.outcome).0;
    if d.state.Some? && r != [] && k > 0 && d.state.value == Saved(db) {
      BootDatabaseKept(cfg, d, c.outcome, k);
    } else {
      MigrationHasCopy(cfg, d, c.outcome, k);
    }
  }

  // ---- two restores in one second ----------------------------------------

  /** A node with a staged request over a live database. */
  function StagedOver(a: Database): Disk {
    Disk(Some(Request(0, false)), Some(Saved(a)), map[])
  }

  /** A boot in second 5 that moves the state aside, fetches the archive and stops there. */
  function StopsAfterFetch(): Cycle {
    Cycle(Outcome(5, true, true, true, Some(Archive(7, 1, 0)), true, true, true, 1, true, false, 0, true, 0, []), 3)
  }

  /**
   A service manager that restarts the daemon within the second: the second boot moves the half-restored
   file aside under the name that holds the database the first displaced, which is then nowhere.
   */
  lemma {:induction false} SameSecondLosesTheDatabase(cfg: Config, a: Database)
    requires cfg.sinkConfigured && a.Whole()
    ensures var cycles := [StopsAfterFetch(), StopsAfterFetch()];
            && Sessions(cycles) && a in DisplacedInRun(cfg, StagedOver(a), cycles)
            && !SavedOn(Run(cfg, StagedOver(a), cycles), a)
            && Run(cfg, StagedOver(a), cycles).state != Some(Saved(a))
  {
    var c, d := StopsAfterFetch(), StagedOver(a);
    var half := Saved(Database(7, 0, 1, 0));
    StopsAfterFetchLeaves(cfg, d);
    var mid := ApplyAll(d, Written(cfg, d, c));
    assert mid == Disk(d.marker, Some(half), map[BeforeRestore(5) := Saved(a)]);
    StopsAfterFetchLeaves(cfg, mid);
    var end := ApplyAll(mid, Written(cfg, mid, c));
    assert end.copies == map[BeforeRestore(5) := half];
    var rest := [c];
    assert [c, c][1..] == rest && rest[1..] == [];
    assert Run(cfg, d, [c, c]) == Run(cfg, mid, rest) == Run(cfg, end, []);
    assert a in Displaced(cfg, d, c);
  }

  lemma {:induction false} StopsAfterFetchLeaves(cfg: Config, d: Disk)
    requires cfg.sinkConfigured && d.marker == Some(Request(0, false)) && d.state.Some?
    ensures |Written(cfg, d, StopsAfterFetch())| == 3 && RestoreAtStart(cfg, d, StopsAfterFetch().outcome).0 != []
    ensures ApplyAll(d, Written(cfg, d, StopsAfterFetch()))
         == Disk(d.marker, Some(Saved(Database(7, 0, 1, 0))), d.copies[BeforeRestore(5) := d.state.value])
  {
    hide ApplyAll;
    var o := StopsAfterFetch().outcome;
    var r := RestoreAtStart(cfg, d, o).0;
    assert |r| == 5;
    BootPhases(cfg, d, o, 3);
    RestorePrefix(cfg, d, o, 3);
  }

  // ---- opening only whole databases --------------------------------------

  /** A torn or half-restored state file is always behind a staged request. */
  ghost predicate Guarded(d: Disk) {
    d.state.Some? && !d.state.value.Whole() ==> d.marker.Some?
  }

  lemma {:induction false} BootStaysGuarded(cfg: Config, d: Disk, o: Outcome, k: nat)
    requires !(cfg.autoRestore && cfg.sinkConfigured)
    requires k <= |BootWrites(cfg, d, o)| && Session(o.session) && Guarded(d)
    ensures Guarded(ApplyAll(d, BootWrites(cfg, d, o)[..k]))
  {
    hide MigrateAtStart, Apply, BootWrites, RestoreAtStart;
    BootPhases(cfg, d, o, k);
    var (r, ok) := RestoreAtStart(cfg, d, o);
    var j := if k <= |r| then k else |r|;
    RestorePrefix(cfg, d, o, j);
    if j > 0 {
      RestoreShape(cfg, d, o, j - 1);
    }
    if k > |r| {
      assert r[..|r|] == r;
      OpenedDisk(cfg, d, o);
      AfterOpenPrefix(Opened(cfg, d, o), o, k - |r| - 1);
    }
  }

  lemma {:induction false} RunStaysGuarded(cfg: Config, d: Disk, cycles: seq<Cycle>)
    requires !(cfg.autoRestore && cfg.sinkConfigured)
    requires Sessions(cycles) && Guarded(d)
    ensures Guarded(Run(cfg, d, cycles))
    decreases |cycles|
  {
    hide BootWrites, Guarded;
    if cycles != [] {
      var c := cycles[0];
      BootStaysGuarded(cfg, d, c.outcome, |Written(cfg, d, c)|);
      RunStaysGuarded(cfg, ApplyAll(d, Written(cfg, d, c)), cycles[1..]);
    }
  }

  const EMPTY_DISK := Disk(None, None, map[])

  /** Started on an empty disk, no run ever opens the Store on a torn or half-restored database. */
  ghost predicate OpensOnlyWhole(cfg: Config) {
    forall cycles: seq<Cycle>, o: Outcome ::
      Sessions(cycles) && Session(o.session) ==> OpensWhole(cfg, Run(cfg, EMPTY_DISK, cycles), o)
  }

  /** If this boot gets as far as opening the Store, what it opens is whole. */
  ghost predicate OpensWhole(cfg: Config, d: Disk, o: Outcome) {
    Opens(cfg, d, o) ==> Opened(cfg, d, o).state.value.Whole()
  }

  lemma {:induction false} GuardedOpensWhole(cfg: Config, d: Disk, o: Outcome)
    requires !(cfg.autoRestore && cfg.sinkConfigured)
    requires Guarded(d) && Session(o.session)
    ensures OpensWhole(cfg, d, o)
  {
    var (r, ok) := RestoreAtStart(cfg, d, o);
    if ok {
      assert r[..|r|] == r;
      RestorePrefix(cfg, d, o, |r|);
      OpenedDisk(cfg, d, o);
      if r != [] {
        RestoreShape(cfg, d, o, |r| - 1);
      }
    }
  }

  /** A first boot whose replay stops after the snapshot: the next boot opens what it left. */
  function InterruptedFirstBoot(): Cycle {
    Cycle(Outcome(0, true, true, true, Some(Archive(7, 1, 0)), true, true, true, 0, true, false, 0, true, 0, []), 2)
  }

  lemma {:induction false} FirstBootRestoreIsNotGuarded(cfg: Config, o: Outcome)
    requires cfg.autoRestore && cfg.sinkConfigured
    requires o == InterruptedFirstBoot().outcome
    ensures !OpensWhole(cfg, Run(cfg, EMPTY_DISK, [InterruptedFirstBoot()]), o)
  {
    var c := InterruptedFirstBoot();
    var ws := [StartFetch, FinishFetch(7, 1, 0)];
    assert RestoreAtStart(cfg, EMPTY_DISK, c.outcome).0 == ws;
    assert Written(cfg, EMPTY_DISK, c) == ws;
    RestorePrefix(cfg, EMPTY_DISK, c.outcome, 2);
    assert ws[..2] == ws;
    var d := ApplyAll(EMPTY_DISK, ws);
    var cs := [c];
    assert cs[1..] == [] && Run(cfg, EMPTY_DISK, cs) == Run(cfg, d, []);
    assert RestoreAtStart(cfg, d, o) == ([], true);
    assert ApplyAll(d, []) == d;
  }

  /** A first boot cut while it decrypts the snapshot. */
  function CutFirstFetch(): Cycle {
    InterruptedFirstBoot().(stopAfter := 1)
  }

  /**
   And cut during the fetch it leaves a torn file and no request: as long as bbolt refuses the file, no
   later boot makes a write or restores, however many there are.
   */
  lemma {:induction false} CutFirstFetchIsStuck(cfg: Config, cycles: seq<Cycle>)
    requires cfg.autoRestore && cfg.sinkConfigured
    requires forall i :: 0 <= i < |cycles| ==> !cycles[i].outcome.tornOpens
    ensures Run(cfg, EMPTY_DISK, [CutFirstFetch()] + cycles) == Disk(None, Some(Torn), map[])
  {
    var c := CutFirstFetch();
    assert RestoreAtStart(cfg, EMPTY_DISK, c.outcome).0 == [StartFetch, FinishFetch(7, 1, 0)];
    assert Written(cfg, EMPTY_DISK, c) == [StartFetch];
    assert ApplyAll(EMPTY_DISK, [StartFetch]) == Disk(None, Some(Torn), map[]) by {
      RestorePrefix(cfg, EMPTY_DISK, c.outcome, 1);
      assert RestoreAtStart(cfg, EMPTY_DISK, c.outcome).0[..1] == [StartFetch];
    }
    assert ([c] + cycles)[1..] == cycles;
    TornStaysTorn(cfg, cycles);
  }

  lemma {:induction false} TornStaysTorn(cfg: Config, cycles: seq<Cycle>)
    requires forall i :: 0 <= i < |cycles| ==> !cycles[i].outcome.tornOpens
    ensures Run(cfg, Disk(None, Some(Torn), map[]), cycles) == Disk(None, Some(Torn), map[])
    decreases |cycles|
  {
    if cycles != [] {
      var d := Disk(None, Some(Torn), map[]);
      assert RestoreAtStart(cfg, d, cycles[0].outcome) == ([], true);
      assert ApplyAll(d, []) == d;
      assert Written(cfg, d, cycles[0]) == [];
      TornStaysTorn(cfg, cycles[1..]);
    }
  }

  /**
   A staged restore is never opened half-done, but a first-boot auto-restore leaves no marker behind:
   the daemon opens only whole databases exactly when auto-restore cannot act.
   */
  lemma {:induction false} OpensOnlyWholeIff(cfg: Config)
    ensures OpensOnlyWhole(cfg) <==> !(cfg.autoRestore && cfg.sinkConfigured)
  {
    if cfg.autoRestore && cfg.sinkConfigured {
      var c := InterruptedFirstBoot();
      FirstBootRestoreIsNotGuarded(cfg, c.outcome);
      assert Sessions([c]) && Session(c.outcome.session);
    } else {
      forall cycles: seq<Cycle>, o: Outcome | Sessions(cycles) && Session(o.session)
        ensures OpensWhole(cfg, Run(cfg, EMPTY_DISK, cycles), o)
      {
        RunStaysGuarded(cfg, EMPTY_DISK, cycles);
        GuardedOpensWhole(cfg, Run(cfg, EMPTY_DISK, cycles), o);
      }
    }
  }
}

/**
 What restoreAtStart and migrateAtStart do when nothing is cut short, in terms of the node, the request and
 the calls' outcomes alone: when they succeed, and what they leave (cmd/kanea/restore_boot.go,
 internal/backup/restore.go).
 */
module RestoreLaws {
  import opened Wrappers
  import opened RestoreBoot
  import opened RestoreSafety

  // ---- restoring one archive ---------------------------------------------

  function CountReplays(ws: seq<Write>): nat {
    if ws == [] then 0 else CountReplays(ws[..|ws| - 1]) + if ws[|ws| - 1].Replay? then 1 else 0
  }

  lemma {:induction false} CountConcat(a: seq<Write>, b: seq<Write>)
    ensures CountReplays(a + b) == CountReplays(a) + CountReplays(b)
    decreases |b|
  {
    if b == [] {
      assert a + b == a;
    } else {
      assert (a + b)[..|a + b| - 1] == a + b[..|b| - 1];
      CountConcat(a, b[..|b| - 1]);
    }
  }

  lemma {:induction false} CountRepeated(n: nat)
    ensures CountReplays(Repeat(Replay, n)) == n
  {
    if n > 0 {
      assert Repeat(Replay, n)[..n - 1] == Repeat(Replay, n - 1);
      CountRepeated(n - 1);
    }
  }

  /** Skipping the replay: the snapshot alone, whatever the changes after it are like. */
  lemma {:induction false} SkipReplayRestoresTheSnapshot(r: Request, o: Outcome, d: Disk)
    requires r.skipReplay
    ensures CountReplays(RestoreWrites(r, o)) == 0
    ensures RestoreSucceeds(r, o) <==> o.archive.Some? && o.fetched && o.bodyClosed
    ensures RestoreSucceeds(r, o) ==>
              ApplyAll(d, RestoreWrites(r, o)).state
              == Some(Saved(Database(o.archive.value.data, 0, 0, o.archive.value.schema)))
  {
    NoReplays(r, o);
    if RestoreSucceeds(r, o) {
      FetchThenReplay(d, o.archive.value.data, 0, o.archive.value.schema, 0);
    }
  }

  lemma {:induction false} NoReplays(r: Request, o: Outcome)
    requires r.skipReplay
    ensures CountReplays(RestoreWrites(r, o)) == 0
  {
    if o.archive.Some? {
      if o.fetched {
        var fetch := [StartFetch, FinishFetch(o.archive.value.data, 0, o.archive.value.schema)];
        CountConcat(fetch, Repeat(Replay, 0));
        CountRepeated(0);
        NoReplaysIn(fetch);
      } else {
        NoReplaysIn(RestoreWrites(r, o));
      }
    }
  }

  lemma {:induction false} NoReplaysIn(ws: seq<Write>)
    requires forall i :: 0 <= i < |ws| ==> !ws[i].Replay?
    ensures CountReplays(ws) == 0
  {
    if ws != [] {
      NoReplaysIn(ws[..|ws| - 1]);
    }
  }

  /** Otherwise every batch after the snapshot is replayed, once, or the restore fails. */
  lemma {:induction false} ReplayRestoresEveryBatch(r: Request, o: Outcome, d: Disk)
    requires !r.skipReplay
    ensures RestoreSucceeds(r, o) <==> o.archive.Some? && o.fetched && o.bodyClosed && o.applied >= o.archive.value.batches
    ensures RestoreSucceeds(r, o) ==>
              var a := o.archive.value;
              && CountReplays(RestoreWrites(r, o)) == a.batches
              && ApplyAll(d, RestoreWrites(r, o)).state == Some(Saved(Database(a.data, a.batches, a.batches, a.schema)))
  {
    if RestoreSucceeds(r, o) {
      var a := o.archive.value;
      var fetch := [StartFetch, FinishFetch(a.data, a.batches, a.schema)];
      CountConcat(fetch, Repeat(Replay, a.batches));
      CountRepeated(a.batches);
      NoReplaysIn(fetch);
      FetchThenReplay(d, a.data, a.batches, a.schema, a.batches);
    }
  }

  lemma {:induction false} FetchThenReplay(d: Disk, data: nat, batches: nat, schema: nat, n: nat)
    ensures ApplyAll(d, [StartFetch, FinishFetch(data, batches, schema)] + Repeat(Replay, n))
         == d.(state := Some(Saved(Database(data, n, batches, schema))))
  {
    var fetch := [StartFetch, FinishFetch(data, batches, schema)];
    if n == 0 {
      assert fetch + Repeat(Replay, 0) == [StartFetch] + [FinishFetch(data, batches, schema)];
      ApplyAllAppend(d, [StartFetch], FinishFetch(data, batches, schema));
    } else {
      FetchThenReplay(d, data, batches, schema, n - 1);
      assert fetch + Repeat(Replay, n) == fetch + Repeat(Replay, n - 1) + [Replay];
      ApplyAllAppend(d, fetch + Repeat(Replay, n - 1), Replay);
    }
  }

  // ---- restoreAtStart ----------------------------------------------------

  /** A boot is asked to restore: by a staged request, or because it is empty and allowed to. */
  predicate Asked(cfg: Config, d: Disk) {
    d.marker.Some? || (d.state.None? && cfg.autoRestore && cfg.sinkConfigured)
  }

  /** Every call up to the restore goes well. */
  predicate ReachesRestore(cfg: Config, d: Disk, o: Outcome) {
    && (d.marker.Some? ==> o.markerReadable)
    && cfg.sinkConfigured && o.prepared && (d.state.Some? ==> o.renamed)
  }

  /** The first-boot request asks for the newest archive and all of its changes. */
  function RequestOf(d: Disk): Request {
    match d.marker case Some(r) => r case None => Request(0, false)
  }

  /** When restoreAtStart returns nil. */
  lemma {:induction false} RestoreAtStartSucceedsIff(cfg: Config, d: Disk, o: Outcome)
    ensures RestoreAtStart(cfg, d, o).1 <==>
              (Asked(cfg, d) ==> ReachesRestore(cfg, d, o) && RestoreSucceeds(RequestOf(d), o) && o.cleared)
  {
    hide RestoreSucceeds, RestoreWrites;
  }

  /** What it leaves when it does: nothing touched, or the archive in place, the old file aside and no request. */
  lemma {:induction false} RestoreAtStartLeaves(cfg: Config, d: Disk, o: Outcome)
    requires RestoreAtStart(cfg, d, o).1
    ensures var after := ApplyAll(d, RestoreAtStart(cfg, d, o).0);
            if !Asked(cfg, d) then after == d
            else
              var a := o.archive.value;
              var n := if RequestOf(d).skipReplay then 0 else a.batches;
              && after.marker == None && o.archive.Some?
              && after.state == Some(Saved(Database(a.data, n, n, a.schema)))
              && after.copies == if d.state.Some? then d.copies[BeforeRestore(o.stamp) := d.state.value] else d.copies
  {
    var ws := RestoreAtStart(cfg, d, o).0;
    assert ws[..|ws|] == ws;
    RestorePrefix(cfg, d, o, |ws|);
    if Asked(cfg, d) {
      assert ActiveRequest(cfg, d) == Some(RequestOf(d));
      RestoreShape(cfg, d, o, |ws| - 1);
    }
  }

  /** A staged request is left alone when anything on the way fails. */
  lemma {:induction false} FailedRestoreStaysStaged(cfg: Config, d: Disk, o: Outcome)
    requires d.marker.Some? && !RestoreAtStart(cfg, d, o).1
    ensures ApplyAll(d, RestoreAtStart(cfg, d, o).0).marker == d.marker
    ensures !ReachesRestore(cfg, d, o) ==> RestoreAtStart(cfg, d, o).0 == []
  {
    var ws := RestoreAtStart(cfg, d, o).0;
    assert ws[..|ws|] == ws;
    RestorePrefix(cfg, d, o, |ws|);
  }

  // ---- migrateAtStart ----------------------------------------------------

  /** When migrateAtStart returns nil, and the schema it leaves: every pending step, or none was pending. */
  lemma {:induction false} MigrateSucceedsIff(d: Disk, o: Outcome)
    requires d.state.Some?
    ensures var name := PreMigration(SchemaAt(d) + o.migrations, o.stamp);
            MigrateAtStart(d, o).1 <==>
              o.migrations > 0 ==>
                !(name in d.copies && d.copies[name].Saved?) && o.copied && o.migrated >= o.migrations
    ensures MigrateAtStart(d, o).1 && d.state.value.Saved? ==>
              ApplyAll(d, MigrateAtStart(d, o).0).state
              == Some(Saved(d.state.value.database.(schema := d.state.value.database.schema + o.migrations)))
  {
    var ws := MigrateAtStart(d, o).0;
    if MigrateAtStart(d, o).1 {
      assert ws[..|ws|] == ws;
      MigratePrefix(d, o, |ws|);
    }
  }

  // ---- a whole boot ------------------------------------------------------

  /** The daemon serves only after the restore and every pending migration: everything else comes before. */
  lemma {:induction false} BootOrder(cfg: Config, d: Disk, o: Outcome)
    requires Session(o.session)
    ensures var (r, ok) := RestoreAtStart(cfg, d, o);
            var ws := BootWrites(cfg, d, o);
            && (Opens(cfg, d, o) <==> OpenStore in ws)
            && (Opens(cfg, d, o) ==>
                  var m := MigrateAtStart(Opened(cfg, d, o), o);
                  ws == r + [OpenStore] + m.0 + if m.1 then o.session else [])
            && (!Opens(cfg, d, o) ==> ws == r)
  {
    hide MigrateAtStart, Apply;
    OpenedDisk(cfg, d, o);
    var (r, ok) := RestoreAtStart(cfg, d, o);
    if Opens(cfg, d, o) {
      assert BootWrites(cfg, d, o)[|r|] == OpenStore;
    } else {
      forall i | 0 <= i < |r| ensures r[i] != OpenStore {
        RestoreShape(cfg, d, o, i);
      }
    }
  }
}

/**
 Boot-time restore and migration (cmd/kanea/restore_boot.go) as a crash-prone protocol over a request
 marker, the state file and the copies kept beside it.

 A boot is the list of durable writes it would make, in order; a crash keeps a prefix of that list and
 the next boot starts from the disk it left. Restore's own internals (internal/backup/archive.go and
 restore.go) are writes too: the snapshot is decrypted straight into the state path, so that a crash leaves
 a torn file there, and the changes after it are replayed one batch, one transaction, at a time.
 */
module RestoreBoot {
  import opened Wrappers

  /** A database: which data, how many of its archive's later `batches` are in it, and its schema version. */
  datatype Database = Database(data: nat, replayed: nat, batches: nat, schema: nat) {
    /** A restored database is whole once every batch has been replayed. */
    predicate Whole() {
      replayed >= batches
    }
  }

  /** `Torn` is a file whose writing was interrupted. */
  datatype File = Torn | Saved(database: Database) {
    predicate Whole() {
      Saved? && database.Whole()
    }

    function Schema(): nat {
      if Torn? then 0 else database.schema
    }

    /** What a transaction on the file changes; a torn one stays torn whatever is written to it. */
    function Updated(change: Database -> Database): File {
      if Torn? then Torn else Saved(change(database))
    }
  }

  datatype Request = Request(archive: nat, skipReplay: bool)

  datatype CopyName = BeforeRestore(stamp: nat) | PreMigration(to: nat, stamp: nat)

  datatype Disk = Disk(marker: Option<Request>, state: Option<File>, copies: map<CopyName, File>)

  datatype Write =
    | MoveAside(stamp: nat)                  // os.Rename of the state file
    | StartFetch                             // the state file created, to decrypt the snapshot into
    | FinishFetch(data: nat, batches: nat, schema: nat)  // the snapshot decrypted and flushed
    | Discard                                // a fetch that failed removes its file
    | Replay                                 // one batch of changes, one transaction
    | ClearMarker
    | OpenStore                              // opens the database, creating an empty one if there is none
    | StartCopy(to: nat, stamp: nat)         // the pre-migration copy, begun
    | FinishCopy(to: nat, stamp: nat)        // and flushed
    | Migrate                                // one schema step, one transaction
    | Serve(data: nat)                       // the running daemon commits
    | Stage(request: Request)                // an operator stages a restore

  /** A transaction on the state file. */
  function Change(d: Disk, change: Database -> Database): Disk {
    if d.state.None? then d else d.(state := Some(d.state.value.Updated(change)))
  }

  function Apply(d: Disk, w: Write): Disk {
    match w
    case MoveAside(stamp) =>
      if d.state.None? then d
      else d.(state := None, copies := d.copies[BeforeRestore(stamp) := d.state.value])
    case StartFetch => d.(state := Some(Torn))
    case FinishFetch(data, batches, schema) => d.(state := Some(Saved(Database(data, 0, batches, schema))))
    case Discard => d.(state := None)
    case Replay => Change(d, (db: Database) => db.(replayed := db.replayed + 1))
    case ClearMarker => d.(marker := None)
    case OpenStore => if d.state.None? then d.(state := Some(Saved(Database(0, 0, 0, 0)))) else d
    case StartCopy(to, stamp) => d.(copies := d.copies[PreMigration(to, stamp) := Torn])
    case FinishCopy(to, stamp) =>
      if d.state.None? then d
      else d.(copies := d.copies[PreMigration(to, stamp) := d.state.value])
    case Migrate => Change(d, (db: Database) => db.(schema := db.schema + 1))
    case Serve(data) => Change(d, (db: Database) => db.(data := data))
    case Stage(request) => d.(marker := Some(request))
  }

  function ApplyAll(d: Disk, ws: seq<Write>): Disk
    decreases |ws|
  {
    if ws == [] then d else ApplyAll(Apply(d, ws[0]), ws[1..])
  }

  /** The node's configuration and, per boot, how every fallible call turns out. */
  datatype Config = Config(sinkConfigured: bool, autoRestore: bool)

  datatype Archive = Archive(data: nat, batches: nat, schema: nat)

  datatype Outcome = Outcome(
    stamp: nat,               // time.Now() in the aside name, to the second
    markerReadable: bool,     // ReadRequest
    prepared: bool,           // key, derived keys, sink, archiver
    renamed: bool,            // os.Rename
    archive: Option<Archive>, // Find, and Fetch as far as creating the file
    fetched: bool,            // the rest of Fetch: decrypt, close, flush
    discarded: bool,          // if not, whether its file could be removed
    bodyClosed: bool,         // and if so, whether closing the download succeeded
    applied: nat,             // batches replayed before replay stopped
    cleared: bool,            // ClearRequest
    tornOpens: bool,          // whether bbolt accepts a torn state file
    migrations: nat,          // schema steps pending once the Store is open
    copied: bool,             // Compact
    migrated: nat,            // schema steps that committed
    session: seq<Write>)      // what the running daemon and its operators then did

  /** What a running daemon may do: commit, and accept a staged request. */
  predicate Session(ws: seq<Write>) {
    forall i :: 0 <= i < |ws| ==> ws[i].Serve? || ws[i].Stage?
  }

  function Repeat(w: Write, n: nat): (ws: seq<Write>)
    ensures |ws| == n && forall i :: 0 <= i < n ==> ws[i] == w
  {
    seq(n, _ => w)
  }

  function BatchesToReplay(r: Request, a: Archive): nat {
    if r.skipReplay then 0 else a.batches
  }

  /** archiver.Restore: the snapshot, then the batches until one fails. */
  function RestoreWrites(r: Request, o: Outcome): seq<Write> {
    if o.archive.None? then []
    else if !o.fetched then [StartFetch] + (if o.discarded then [Discard] else [])
    else
      var n := BatchesToReplay(r, o.archive.value);
      [StartFetch, FinishFetch(o.archive.value.data, n, o.archive.value.schema)]
      + Repeat(Replay, if o.bodyClosed then Min(o.applied, n) else 0)
  }

  predicate RestoreSucceeds(r: Request, o: Outcome) {
    o.archive.Some? && o.fetched && o.bodyClosed && o.applied >= BatchesToReplay(r, o.archive.value)
  }

  /** The request a boot acts on: the staged one, or a first-boot one on an empty node. */
  function ActiveRequest(cfg: Config, d: Disk): Option<Request> {
    if d.marker.Some? then d.marker
    else if d.state.None? && cfg.autoRestore && cfg.sinkConfigured then Some(Request(0, false))
    else None
  }

  /** restoreAtStart's writes and whether it returned nil. */
  function RestoreAtStart(cfg: Config, d: Disk, o: Outcome): (seq<Write>, bool) {
    if d.marker.Some? && !o.markerReadable then ([], false)
    else
      match ActiveRequest(cfg, d)
      case None => ([], true)
      case Some(r) =>
        if !cfg.sinkConfigured || !o.prepared then ([], false)
        else if d.state.Some? && !o.renamed then ([], false)
        else
          var aside := if d.state.Some? then [MoveAside(o.stamp)] else [];
          var restored := aside + RestoreWrites(r, o);
          if !RestoreSucceeds(r, o) then (restored, false)
          else if !o.cleared then (restored, false)
          else (restored + [ClearMarker], true)
  }

  function SchemaAt(d: Disk): nat {
    if d.state.Some? then d.state.value.Schema() else 0
  }

  /** The schema version a boot migrates to, which is in its copy's name. */
  function CopyTarget(d: Disk, o: Outcome): nat {
    SchemaAt(d) + o.migrations
  }

  /** A finished copy has that name already: compacting into it fails at its first bucket. */
  predicate CopyRefused(d: Disk, o: Outcome) {
    var name := PreMigration(CopyTarget(d, o), o.stamp);
    name in d.copies && d.copies[name].Saved?
  }

  /** migrateAtStart's writes on the opened disk `d` and whether it returned nil. */
  function MigrateAtStart(d: Disk, o: Outcome): (seq<Write>, bool) {
    if o.migrations == 0 then ([], true)
    else if CopyRefused(d, o) then ([], false)
    else if !o.copied then ([StartCopy(CopyTarget(d, o), o.stamp)], false)
    else
      ([StartCopy(CopyTarget(d, o), o.stamp), FinishCopy(CopyTarget(d, o), o.stamp)]
       + Repeat(Migrate, Min(o.migrated, o.migrations)), o.migrated >= o.migrations)
  }

  /** Whether bbolt opens what is at the state path. */
  predicate CanOpen(d: Disk, o: Outcome) {
    d.state == Some(Torn) ==> o.tornOpens
  }

  /** Whether a boot gets as far as opening the Store. */
  predicate Opens(cfg: Config, d: Disk, o: Outcome) {
    var (restore, ok) := RestoreAtStart(cfg, d, o);
    ok && CanOpen(ApplyAll(d, restore), o)
  }

  /** Everything a boot writes if nothing stops it. */
  function BootWrites(cfg: Config, d: Disk, o: Outcome): seq<Write> {
    var (restore, ok) := RestoreAtStart(cfg, d, o);
    if !Opens(cfg, d, o) then restore
    else
      var (migrate, migrated) := MigrateAtStart(ApplyAll(d, restore), o);
      restore + [OpenStore] + migrate + (if migrated then o.session else [])
  }

  // ---- the daemon's own form ---------------------------------------------

  /** A node whose power can fail: each durable write costs one unit of `charge`. */
  class Node {
    var disk: Disk
    var charge: nat
    ghost var issued: seq<Write>  // the writes this boot has attempted
    ghost const start: Disk
    ghost const power: nat

    /** What is on disk is what the attempted writes put there before the power failed. */
    ghost predicate Valid()
      reads this
    {
      && charge == (if |issued| <= power then power - |issued| else 0)
      && disk == ApplyAll(start, issued[..Min(|issued|, power)])
    }

    constructor (disk: Disk, charge: nat)
      ensures Valid() && issued == [] && start == disk && power == charge
      ensures this.disk == disk && this.charge == charge
    {
      this.disk, this.charge, issued, start, power := disk, charge, [], disk, charge;
    }

    method Commit(w: Write)
      requires Valid()
      modifies this
      ensures Valid() && issued == old(issued) + [w]
    {
      ghost var before := issued[..Min(|issued|, power)];
      issued := issued + [w];
      ApplyAllAppend(start, before, w);
      if charge > 0 {
        disk := Apply(disk, w);
        charge := charge - 1;
        assert issued[..Min(|issued|, power)] == before + [w];
      } else {
        assert issued[..Min(|issued|, power)] == before;
      }
    }

    /** restoreAtStart, call by call. */
    method RunRestore(cfg: Config, o: Outcome) returns (ok: bool)
      requires Valid() && issued == []
      modifies this
      ensures Valid()
      ensures (issued, ok) == RestoreAtStart(cfg, old(disk), o)
    {
      hide Apply, ApplyAll, RestoreWrites, RestoreSucceeds;
      var request := disk.marker;
      if request.Some? && !o.markerReadable {
        return false;
      }
      var stateExists := disk.state.Some?;
      if request.None? {
        if !stateExists && cfg.autoRestore && cfg.sinkConfigured {
          request := Some(Request(0, false));
        } else {
          return true;
        }
      }
      if !cfg.sinkConfigured || !o.prepared {
        return false;
      }
      if stateExists {
        if !o.renamed {
          return false;
        }
        Commit(MoveAside(o.stamp));
      }
      ghost var aside := if stateExists then [MoveAside(o.stamp)] else [];
      assert issued == aside;
      ok := RunFetch(request.value, o);
      if !ok || !o.cleared {
        return false;
      }
      Commit(ClearMarker);
      assert issued == aside + RestoreWrites(request.value, o) + [ClearMarker];
      return true;
    }

    /** archiver.Restore: the snapshot into the state path, then the changes after it, batch by batch. */
    method RunFetch(r: Request, o: Outcome) returns (ok: bool)
      requires Valid()
      modifies this
      ensures Valid() && issued == old(issued) + RestoreWrites(r, o)
      ensures ok == RestoreSucceeds(r, o)
    {
      hide Apply, ApplyAll;
      if o.archive.None? {
        return false;
      }
      Commit(StartFetch);
      if !o.fetched {
        if o.discarded {
          Commit(Discard);
        }
        return false;
      }
      var n := BatchesToReplay(r, o.archive.value);
      Commit(FinishFetch(o.archive.value.data, n, o.archive.value.schema));
      ghost var fetched := issued;
      if !o.bodyClosed {
        return false;
      }
      var i := 0;
      while i < n && i < o.applied
        invariant 0 <= i <= Min(o.applied, n)
        invariant Valid()
        invariant issued == fetched + Repeat(Replay, i)
      {
        Commit(Replay);
        assert Repeat(Replay, i + 1) == Repeat(Replay, i) + [Replay];
        i := i + 1;
      }
      return i >= n;
    }

    /** One boot: restore, open the Store, migrate, serve; cut short wherever the power fails. */
    method Boot(cfg: Config, o: Outcome)
      requires Valid() && issued == []
      modifies this
      ensures var ws := BootWrites(cfg, old(disk), o);
              disk == ApplyAll(old(disk), ws[..Min(|ws|, old(charge))])
    {
      hide RestoreAtStart, MigrateAtStart, Apply;
      ghost var boot := disk;
      assert issued[..0] == [];
      var ok := RunRestore(cfg, o);
      if !ok {
        return;
      }
      if charge == 0 {
        ghost var ws := BootWrites(cfg, boot, o);
        assert power <= |issued| <= |ws|;
        assert ws[..power] == issued[..power];
        return;
      }
      assert issued[..Min(|issued|, power)] == issued;
      ghost var restore := issued;
      if !CanOpen(disk, o) {
        return;
      }
      var at := disk;
      Commit(OpenStore);
      var (migrate, migrated) := MigrateAtStart(at, o);
      CommitEach(migrate + (if migrated then o.session else []));
      assert issued == restore + [OpenStore] + migrate + (if migrated then o.session else []);
    }

    method CommitEach(ws: seq<Write>)
      requires Valid()
      modifies this
      ensures Valid() && issued == old(issued) + ws
    {
      var i := 0;
      while i < |ws|
        invariant 0 <= i <= |ws|
        invariant Valid() && issued == old(issued) + ws[..i]
      {
        Commit(ws[i]);
        i := i + 1;
      }
    }
  }

  lemma {:induction false} ApplyAllConcat(d: Disk, a: seq<Write>, b: seq<Write>)
    ensures ApplyAll(d, a + b) == ApplyAll(ApplyAll(d, a), b)
    decreases |a|
  {
    if a == [] {
      assert a + b == b;
    } else {
      assert (a + b)[1..] == a[1..] + b;
      ApplyAllConcat(Apply(d, a[0]), a[1..], b);
    }
  }

  lemma {:induction false} ApplyAllAppend(d: Disk, a: seq<Write>, w: Write)
    ensures ApplyAll(d, a + [w]) == Apply(ApplyAll(d, a), w)
  {
    ApplyAllConcat(d, a, [w]);
  }

  // ---- runs --------------------------------------------------------------

  /** One boot of a run: how its calls turned out, and after how many writes it stopped. */
  datatype Cycle = Cycle(outcome: Outcome, stopAfter: nat)

  function Written(cfg: Config, d: Disk, c: Cycle): seq<Write> {
    var ws := BootWrites(cfg, d, c.outcome);
    ws[..Min(|ws|, c.stopAfter)]
  }

  function Run(cfg: Config, d: Disk, cycles: seq<Cycle>): Disk
    decreases |cycles|
  {
    if cycles == [] then d
    else Run(cfg, ApplyAll(d, Written(cfg, d, cycles[0])), cycles[1..])
  }

  ghost predicate Sessions(cycles: seq<Cycle>) {
    forall i :: 0 <= i < |cycles| ==> Session(cycles[i].outcome.session)
  }

  // ---- what each prefix of a boot has done -------------------------------

  /** The file a finished fetch and so many replayed batches leave. */
  function Restored(r: Request, a: Archive, replayed: nat): File {
    Saved(Database(a.data, replayed, BatchesToReplay(r, a), a.schema))
  }

  /** The disk after the first `k` writes of restoreAtStart. */
  lemma {:induction false} RestorePrefix(cfg: Config, d: Disk, o: Outcome, k: nat)
    requires k <= |RestoreAtStart(cfg, d, o).0|
    ensures var (ws, ok) := RestoreAtStart(cfg, d, o);
            var after := ApplyAll(d, ws[..k]);
            var a := if d.state.Some? then 1 else 0;
            && after.marker == (if ok && 0 < k == |ws| then None else d.marker)
            && after.copies == (if 0 < k && d.state.Some? then d.copies[BeforeRestore(o.stamp) := d.state.value] else d.copies)
            && (k == 0 ==> after.state == d.state)
            && (0 < k <= a ==> after.state == None)
            && (k == a + 1 ==> after.state == Some(Torn))
            && (k > a + 1 ==> ActiveRequest(cfg, d).Some? && o.archive.Some?)
            && (k > a + 1 && !o.fetched ==> after.state == None)
            && (k > a + 1 && o.fetched ==>
                  var r := ActiveRequest(cfg, d).value;
                  after.state == Some(Restored(r, o.archive.value, Min(k - a - 2, BatchesToReplay(r, o.archive.value)))))
  {
    hide *;
    RestorePrefixBeside(cfg, d, o, k);
    RestorePrefixState(cfg, d, o, k);
  }

  /** The marker and the copies after the first `k` writes. */
  lemma {:induction false} RestorePrefixBeside(cfg: Config, d: Disk, o: Outcome, k: nat)
    requires k <= |RestoreAtStart(cfg, d, o).0|
    ensures var (ws, ok) := RestoreAtStart(cfg, d, o);
            var after := ApplyAll(d, ws[..k]);
            && after.marker == (if ok && 0 < k == |ws| then None else d.marker)
            && after.copies == (if 0 < k && d.state.Some? then d.copies[BeforeRestore(o.stamp) := d.state.value] else d.copies)
            && (k == 0 ==> after.state == d.state)
  {
    hide RestoreAtStart, ActiveRequest, RestoreSucceeds;
    var (ws, ok) := RestoreAtStart(cfg, d, o);
    if k == 0 {
      assert ws[..0] == [];
    } else {
      RestorePrefixBeside(cfg, d, o, k - 1);
      assert ws[..k] == ws[..k - 1] + [ws[k - 1]];
      hide ApplyAll;
      ApplyAllAppend(d, ws[..k - 1], ws[k - 1]);
      RestoreShape(cfg, d, o, k - 1);
    }
  }

  /** The state file after the first `k` writes. */
  lemma {:induction false} RestorePrefixState(cfg: Config, d: Disk, o: Outcome, k: nat)
    requires k <= |RestoreAtStart(cfg, d, o).0|
    ensures var (ws, ok) := RestoreAtStart(cfg, d, o);
            var after := ApplyAll(d, ws[..k]);
            var a := if d.state.Some? then 1 else 0;
            && (0 < k <= a ==> after.state == None)
            && (k == a + 1 ==> after.state == Some(Torn))
            && (k > a + 1 ==> ActiveRequest(cfg, d).Some? && o.archive.Some?)
            && (k > a + 1 && !o.fetched ==> after.state == None)
            && (k > a + 1 && o.fetched ==>
                  var r := ActiveRequest(cfg, d).value;
                  after.state == Some(Restored(r, o.archive.value, Min(k - a - 2, BatchesToReplay(r, o.archive.value)))))
  {
    hide RestoreAtStart, ApplyAll, ActiveRequest, RestoreSucceeds, BatchesToReplay;
    var (ws, ok) := RestoreAtStart(cfg, d, o);
    if k > 0 {
      RestorePrefixState(cfg, d, o, k - 1);
      RestorePrefixBeside(cfg, d, o, k - 1);
      assert ws[..k] == ws[..k - 1] + [ws[k - 1]];
      ApplyAllAppend(d, ws[..k - 1], ws[k - 1]);
      RestoreShape(cfg, d, o, k - 1);
      var a := if d.state.Some? then 1 else 0;
      if k > a + 2 && o.fetched {
        assert ws[k - 1] == Replay || ws[k - 1] == ClearMarker;
      }
    }
  }

  /** Which write comes `k`-th in restoreAtStart. */
  lemma {:induction false} RestoreShape(cfg: Config, d: Disk, o: Outcome, k: nat)
    requires k < |RestoreAtStart(cfg, d, o).0|
    ensures var (ws, ok) := RestoreAtStart(cfg, d, o);
            var a := if d.state.Some? then 1 else 0;
            && ActiveRequest(cfg, d).Some?
            && (k < a ==> ws[k] == MoveAside(o.stamp))
            && (k >= a ==> o.archive.Some?)
            && (k == a ==> ws[k] == StartFetch)
            && (k > a && !o.fetched ==> k == a + 1 && ws[k] == Discard)
            && (ok ==> o.archive.Some? && RestoreSucceeds(ActiveRequest(cfg, d).value, o)
                       && |ws| == a + 3 + BatchesToReplay(ActiveRequest(cfg, d).value, o.archive.value))
            && (k > a && o.fetched ==>
                  var n := BatchesToReplay(ActiveRequest(cfg, d).value, o.archive.value);
                  && (!ok ==> |ws| <= a + 2 + n)
                  && ws[k] == if k == a + 1 then FinishFetch(o.archive.value.data, n, o.archive.value.schema)
                              else if k <= a + 1 + n then Replay
                              else ClearMarker)
  {
  }
}

/** Runs on which recovery fails, one for each condition of the theorem. */
module RecoveryLimits {
  import opened Wrappers
  import opened StateStore
  import opened ChangeLog
  import opened Replication
  import opened Recovery
  import opened StoreNames

  /** A batch of two puts is one group of two changes. */
  lemma {:induction false} TwoPuts<V>(s: State<V>, a: Key, b: Key, value: V)
    requires a.name != "" && b.name != ""
    ensures var batch := [PutOf(a, value), PutOf(b, value)];
            && Added(s, batch) == [Change(s.index + 1, Put(value), a), Change(s.index + 1, Put(value), b)]
            && Commit(s, batch).records == s.records[a := Entry(s.index + 1, value)][b := Entry(s.index + 1, value)]
            && Commit(s, batch).index == s.index + 1
  {
    var batch := [PutOf(a, value), PutOf(b, value)];
    assert batch[..1] == [PutOf(a, value)] && batch[..1][..0] == [];
    assert WriteAll(s.records, s.index + 1, batch[..1]) == s.records[a := Entry(s.index + 1, value)];
    assert Logged(s.records, s.index + 1, batch[..1]) == [Change(s.index + 1, Put(value), a)];
    assert AllValid(batch) && AllMet(s.records, batch);
  }

  /** A page that holds the first of two changes with one index ends the shipping of both. */
  lemma {:induction false} CutPageSkipsTheRest<V>(x: Change<V>, y: Change<V>, shipped: nat)
    requires x.index == y.index && shipped < x.index
    ensures Ship([x, y], shipped, 1, 2) == Shipment([Segment(x.index, x.index, [x], true)], x.index)
    ensures Newer([x, y], x.index) == []
  {
    var pending := [x, y];
    assert PageSize(pending, 1) == 1 && pending[..1] == [x];
    assert pending + [] == pending;
    NewerIs(pending, [], x.index);
    ShipUnfolds(pending, shipped, 1, 2);
    ShipUnfolds<V>([], x.index, 1, 1);
  }

  /**
   A page boundary inside a batch loses the rest of it: one batch of two puts, shipped a change at a
   time, restores without its second record, and the restore reports success.
   */
  lemma {:induction false} CutBatchIsLost<V>(a: Key, b: Key, value: V)
    requires a != b && a.name != "" && b.name != ""
    ensures var s: State<V> := Snapshot(0, map[], []);
            var end := RunRounds(Site(s, 0, []), [Round([[PutOf(a, value), PutOf(b, value)]], 2, false)], 1);
            var q := ReplaySegments(Progress(s, 0, 0, true), 0, None, end.segments);
            && Backlog(end) == [] && q.ok
            && b in end.store.records && b !in q.state.records
  {
    hide Ship, Newer, Commit, Added, ApplyBatch, Replay;
    var s: State<V> := Snapshot(0, map[], []);
    var batch := [PutOf(a, value), PutOf(b, value)];
    var r, x, y := Round([batch], 2, false), Change(1, Put(value), a), Change(1, Put(value), b);
    var start := Site(s, 0, []);
    TwoPuts(s, a, b, value);
    OneBatch(s, batch);
    PendingIs(start, r);
    StartIsEmpty(s);
    assert Pending(start, r) == [x, y];
    CutPageSkipsTheRest(x, y, 0);
    var end := StepRound(start, r, 1);
    AddedIsLogged(s, [batch]);
    assert [r][1..] == [] && RunRounds(start, [r], 1) == RunRounds(end, [], 1);
    assert end.segments == [Segment(1, 1, [x], true)] && end.segments[1..] == [];
    var p := Progress(s, 0, 0, true);
    ReplayOne(p, x, a, value);
    assert ReplaySegments(p, 0, None, end.segments) == ReplaySegments(Replay(p, [x], 0), 0, Some(1), []);
  }

  /** One put after another, each shipped on its own. */
  lemma {:induction false} ShipsOneChange<V>(x: Change<V>, shipped: nat)
    requires shipped < x.index
    ensures Ship([x], shipped, 2, 1) == Shipment([Segment(x.index, x.index, [x], true)], x.index)
    ensures NoCut([x], 2, 1) && Newer([x], x.index) == []
  {
    assert PageSize([x], 2) == 1 && [x][..1] == [x];
    ShipUnfolds([x], shipped, 2, 1);
    assert [x] + [] == [x];
    NewerIs([x], [], x.index);
  }

  lemma {:induction false} OneRound<V>(site: Site<V>, r: Round<V>, x: Change<V>)
    requires InOrder(site.store) && site.shipped <= site.store.index && Backlog(site) == []
    requires AddedByAll(site.store, r.batches) == [x] && r.uploads == 1 && !r.snapshot
    ensures StepRound(site, r, 2)
         == Site(CommitAll(site.store, r.batches), x.index, site.segments + [Segment(x.index, x.index, [x], true)])
    ensures Backlog(StepRound(site, r, 2)) == [] && InOrder(CommitAll(site.store, r.batches))
    ensures x.index <= CommitAll(site.store, r.batches).index && SkipsNothing(site, r, 2)
  {
    hide Newer, CommitAll, AddedByAll, Ship, NoCut, InOrder;
    PendingIs(site, r);
    assert Pending(site, r) == [] + [x] == [x];
    assert Pending(site, r)[0] == x;
    RoundAccounts(site, r, 2);
    ShipsOneChange(x, site.shipped);
    ContentsCons(Segment(x.index, x.index, [x], true), []);
    assert Backlog(StepRound(site, r, 2)) == [] by {
      assert [x] + Backlog(StepRound(site, r, 2)) == [] + [x];
    }
  }

  /**
   An index spent without a log entry between two shipments reads as a missing segment: every change was
   shipped, and the restore refuses the chain.
   */
  lemma {:induction false} SilentBatchBreaksTheChain<V>(a: Key, missing: Key, value: V)
    requires a.name != "" && missing.name != "" && a != missing
    ensures var s: State<V> := Snapshot(0, map[], []);
            var rounds := [Round([[PutOf(a, value)]], 1, false),
                           Round([[Mutation(Delete, missing, 0, false)], [PutOf(a, value)]], 1, false)];
            var end := RunRounds(Site(s, 0, []), rounds, 2);
            && NeverSkips(Site(s, 0, []), rounds, 2) && Backlog(end) == []
            && !Contiguous(end.segments, 0)
            && !ReplaySegments(Progress(s, 0, 0, true), 0, None, end.segments).ok
  {
    hide Newer, CommitAll, AddedByAll, Ship, NoCut, Commit, Added;
    var s: State<V> := Snapshot(0, map[], []);
    var start := Site(s, 0, []);
    var del, put := [Mutation(Delete, missing, 0, false)], [PutOf(a, value)];
    var r1, r2 := Round([put], 1, false), Round([del, put], 1, false);
    StartIsEmpty(s);
    OneBatch(s, put);
    OnePut(s, a, value);
    OneRound(start, r1, Change(1, Put(value), a));
    var mid := StepRound(start, r1, 2);
    DeleteMissing(mid.store, missing);
    OnePut(Commit(mid.store, del), a, value);
    OneBatch(mid.store, del);
    OneBatch(Commit(mid.store, del), put);
    CommitAllConcat(mid.store, [del], [put]);
    assert [del] + [put] == [del, put];
    OneRound(mid, r2, Change(3, Put(value), a));
    var end := StepRound(mid, r2, 2);
    assert [r1, r2][1..] == [r2] && [r2][1..] == [];
    assert RunRounds(start, [r1, r2], 2) == RunRounds(mid, [r2], 2) == RunRounds(end, [], 2);
    assert NeverSkips(mid, [r2], 2) by {
      assert NeverSkips(end, [r2][1..], 2);
    }
    assert end.segments[1..] == [Segment(3, 3, [Change(3, Put(value), a)], true)];
    assert !Contiguous(end.segments, 0);
    GapIsRefused(s, [r1, r2], 2);
  }

  /** Segments with a gap are refused, whichever run shipped them. */
  lemma {:induction false} GapIsRefused<V>(s: State<V>, rounds: seq<Round<V>>, maxChanges: nat)
    requires InOrder(s)
    requires !Contiguous(RunRounds(Site(s, s.index, []), rounds, maxChanges).segments, s.index)
    ensures var end := RunRounds(Site(s, s.index, []), rounds, maxChanges);
            !ReplaySegments(Progress(s, 0, 0, true), s.index, None, end.segments).ok
  {
    hide ReplaySegments, RunRounds, Contiguous, Linked, Contents, Newer;
    var start := Site(s, s.index, []);
    StartIsEmpty(s);
    RoundsLink(start, rounds, maxChanges, s.index);
    var end := RunRounds(start, rounds, maxChanges);
    if ReplaySegments(Progress(s, 0, 0, true), s.index, None, end.segments).ok {
      AcceptsOnlyContiguous(Progress(s, 0, 0, true), s.index, None, end.segments, s.index, end.shipped);
    }
  }

  /** A round that commits, uploads nothing and takes a snapshot. */
  lemma {:induction false} SnapshotRound<V>(site: Site<V>, r: Round<V>)
    requires InOrder(site.store) && site.shipped <= site.store.index && r.uploads == 0 && r.snapshot
    ensures var after := CommitAll(site.store, r.batches);
            var next := StepRound(site, r, 2);
            next == Site(after, after.index, site.segments) && Backlog(next) == [] && InOrder(after)
  {
    hide Newer, CommitAll, AddedByAll, Ship, NoCut, InOrder, Backlog;
    PendingIs(site, r);
    ShipUnfolds(Pending(site, r), site.shipped, 2, 0);
    BacklogAfter(site, r, 2);
    assert site.segments + [] == site.segments;
  }

  /**
   A snapshot taken while a change waits moves the cursor past it: the change is in the new archive and in
   no segment, so an older archive can no longer be replayed forward.
   */
  lemma {:induction false} SnapshotSkipsTheBacklog<V>(a: Key, value: V)
    requires a.name != ""
    ensures var s: State<V> := Snapshot(0, map[], []);
            var end := RunRounds(Site(s, 0, []), [Round([[PutOf(a, value)]], 0, true), Round([[PutOf(a, value)]], 1, false)], 2);
            && Backlog(end) == [] && !Contiguous(end.segments, 0)
            && !ReplaySegments(Progress(s, 0, 0, true), 0, None, end.segments).ok
            && Change(1, Put(value), a) in end.store.changes
            && Change(1, Put(value), a) !in Contents(end.segments)
  {
    hide Newer, CommitAll, AddedByAll, Ship, NoCut, Commit, Added, StepRound, Backlog, SkipsNothing, PutOf;
    var s: State<V> := Snapshot(0, map[], []);
    var start := Site(s, 0, []);
    var put := [PutOf(a, value)];
    var r1, r2 := Round([put], 0, true), Round([put], 1, false);
    OneBatch(s, put);
    OnePut(s, a, value);
    SnapshotRound(start, r1);
    var mid := StepRound(start, r1, 2);
    OneBatch(mid.store, put);
    OnePut(mid.store, a, value);
    OneRound(mid, r2, Change(2, Put(value), a));
    var end := StepRound(mid, r2, 2);
    assert [r1, r2][1..] == [r2] && [r2][1..] == [];
    assert RunRounds(start, [r1, r2], 2) == RunRounds(mid, [r2], 2) == RunRounds(end, [], 2);
    var x := Change(2, Put(value), a);
    assert end.segments == [Segment(2, 2, [x], true)];
    ContentsCons(Segment(2, 2, [x], true), []);
    GapIsRefused(s, [r1, r2], 2);
    AddedIsLogged(s, [put]);
    AddedIsLogged(mid.store, [put]);
    assert end.store.changes == [Change(1, Put(value), a)] + [x];
  }

  /**
   An upload that fails after its object landed is shipped again from the same index. If more changes were
   waiting by then both objects are listed, in either order, and the restore refuses them.
   */
  lemma {:induction false} UploadedTwiceIsRefused<V>(p: Progress<V>, from: nat, a: Segment<V>, b: Segment<V>)
    requires a.from == b.from && from < a.to && from < b.to && a.from <= a.to
    ensures !ReplaySegments(p, from, None, [a, b]).ok
  {
    hide Replay;
    var both := [a, b];
    assert both[1..] == [b];
  }

  // ---- at the limit the daemon uses --------------------------------------

  /** What the replicator asks for when nothing sets it. */
  const DEFAULT_MAX_CHANGES := 2000

  /** So many batches of one put each. */
  function Puts<V>(n: nat, a: Key, value: V): seq<seq<Mutation<V>>> {
    seq(n, _ => [PutOf(a, value)])
  }

  function PutChanges<V>(n: nat, after: nat, a: Key, value: V): (c: seq<Change<V>>)
    ensures |c| == n && forall i :: 0 <= i < n ==> c[i] == Change(after + 1 + i, Put(value), a)
  {
    seq(n, i requires 0 <= i < n => Change(after + 1 + i, Put(value), a))
  }

  lemma {:induction false} ManyPuts<V>(s: State<V>, n: nat, a: Key, value: V)
    requires a.name != ""
    ensures AddedByAll(s, Puts(n, a, value)) == PutChanges(n, s.index, a, value)
    ensures CommitAll(s, Puts(n, a, value)).index == s.index + n
    decreases n
  {
    hide Commit, Added;
    if n > 0 {
      var put := [PutOf(a, value)];
      OnePut(s, a, value);
      assert Puts(n, a, value)[0] == put;
      assert Puts(n, a, value)[1..] == Puts(n - 1, a, value);
      ManyPuts(Commit(s, put), n - 1, a, value);
      assert [Change(s.index + 1, Put(value), a)] + PutChanges(n - 1, s.index + 1, a, value)
          == PutChanges(n, s.index, a, value);
    }
  }

  /** A page of 1000 is short of what was asked for, and ends the call. */
  lemma {:induction false} OnePageAtTheDefault<V>(pending: seq<Change<V>>, uploads: nat)
    requires |pending| > MAX_LIST_LIMIT && uploads > 0
    ensures Ship(pending, 0, DEFAULT_MAX_CHANGES, uploads)
         == Shipment([SegmentOf(pending[..MAX_LIST_LIMIT])], pending[MAX_LIST_LIMIT - 1].index)
  {
    ShipUnfolds(pending, 0, DEFAULT_MAX_CHANGES, uploads);
  }

  /** A thousand and one commits since the last call: one call ships a thousand and leaves one behind. */
  lemma {:induction false} OneCallLeavesABacklog<V>(a: Key, value: V, uploads: nat)
    requires a.name != "" && uploads > 0
    ensures var s: State<V> := Snapshot(0, map[], []);
            var end := RunRounds(Site(s, 0, []), [Round(Puts(1001, a, value), uploads, false)], DEFAULT_MAX_CHANGES);
            end.shipped == 1000 && Backlog(end) == [Change(1001, Put(value), a)]
  {
    hide Newer, CommitAll, AddedByAll, Ship, NoCut, Puts;
    var s: State<V> := Snapshot(0, map[], []);
    var start, r := Site(s, 0, []), Round(Puts(1001, a, value), uploads, false);
    StartIsEmpty(s);
    ManyPuts(s, 1001, a, value);
    PendingIs(start, r);
    var pending := PutChanges(1001, 0, a, value);
    assert Pending(start, r) == [] + pending == pending;
    OnePageAtTheDefault(pending, uploads);
    BacklogAfter(start, r, DEFAULT_MAX_CHANGES);
    assert pending == pending[..1000] + [Change(1001, Put(value), a)];
    NewerIs(pending[..1000], [Change(1001, Put(value), a)], 1000);
    OneRoundRun(start, r, DEFAULT_MAX_CHANGES);
  }

  lemma {:induction false} OneRoundRun<V>(site: Site<V>, r: Round<V>, maxChanges: nat)
    ensures RunRounds(site, [r], maxChanges) == StepRound(site, r, maxChanges)
  {
    hide StepRound;
    var one := [r];
    assert one[1..] == [];
    assert RunRounds(site, one, maxChanges) == RunRounds(StepRound(site, r, maxChanges), [], maxChanges);
  }

  /** Logged changes always replay, and touch only the keys they name. */
  lemma {:induction false} ReplayTouchesOnlyNamed<V>(p: Progress<V>, changes: seq<Change<V>>, from: nat, k: Key)
    requires p.ok && k !in p.state.records
    requires forall i :: 0 <= i < |changes| ==> changes[i].key.name != "" && changes[i].key != k
    ensures var q := Replay(p, changes, from);
            q.ok && k !in q.state.records
    decreases |changes|
  {
    if changes != [] {
      var n := GroupLength(changes);
      GroupTouchesOnlyNamed(p, changes[..n], from, k);
      ReplayTouchesOnlyNamed(ReplayGroup(p, changes[..n], from), changes[n..], from, k);
    }
  }

  lemma {:induction false} GroupTouchesOnlyNamed<V>(p: Progress<V>, group: seq<Change<V>>, from: nat, k: Key)
    requires p.ok && k !in p.state.records && group != []
    requires forall i :: 0 <= i < |group| ==> group[i].key.name != "" && group[i].key != k
    ensures var q := ReplayGroup(p, group, from);
            q.ok && k !in q.state.records
  {
    var ms := AsMutations(group);
    assert AllValid(ms) && AllMet(p.state.records, ms);
    WriteAllFrame(p.state.records, p.state.index + 1, ms, k);
  }

  /** The 999 commits before a batch of two, then the batch: its second change is the 1001st. */
  function AcrossThePage<V>(a: Key, b: Key, value: V): seq<seq<Mutation<V>>> {
    Puts(999, a, value) + [[PutOf(a, value), PutOf(b, value)]]
  }

  lemma {:induction false} AcrossThePageLogs<V>(s: State<V>, a: Key, b: Key, value: V)
    requires s == Snapshot(0, map[], []) && a.name != "" && b.name != ""
    ensures var x, y := Change(1000, Put(value), a), Change(1000, Put(value), b);
            && AddedByAll(s, AcrossThePage(a, b, value)) == PutChanges(999, 0, a, value) + [x, y]
            && b in CommitAll(s, AcrossThePage(a, b, value)).records
            && CommitAll(s, AcrossThePage(a, b, value)).index == 1000
  {
    hide Commit, Added, Puts, AddedByAll, CommitAll;
    var batch := [PutOf(a, value), PutOf(b, value)];
    ManyPuts(s, 999, a, value);
    CommitAllConcat(s, Puts(999, a, value), [batch]);
    var mid := CommitAll(s, Puts(999, a, value));
    OneBatch(mid, batch);
    TwoPuts(mid, a, b, value);
  }

  /**
   A batch across the 1000th waiting change, at the default limit: the second half of it is never
   shipped, and the restore succeeds without it.
   */
  lemma {:induction false} CutBatchIsLostAtTheDefault<V>(a: Key, b: Key, value: V, uploads: nat)
    requires a != b && a.name != "" && b.name != "" && uploads > 0
    ensures var s: State<V> := Snapshot(0, map[], []);
            var end := RunRounds(Site(s, 0, []), [Round(AcrossThePage(a, b, value), uploads, false)], DEFAULT_MAX_CHANGES);
            var q := ReplaySegments(Progress(s, 0, 0, true), 0, None, end.segments);
            && Backlog(end) == [] && q.ok
            && b in end.store.records && b !in q.state.records
  {
    hide Newer, CommitAll, AddedByAll, Ship, NoCut, AcrossThePage, Replay;
    var s: State<V> := Snapshot(0, map[], []);
    var start, r := Site(s, 0, []), Round(AcrossThePage(a, b, value), uploads, false);
    var x, y := Change(1000, Put(value), a), Change(1000, Put(value), b);
    var front := PutChanges(999, 0, a, value);
    StartIsEmpty(s);
    AcrossThePageLogs(s, a, b, value);
    PendingIs(start, r);
    var pending := front + [x, y];
    assert Pending(start, r) == [] + pending == pending;
    OnePageAtTheDefault(pending, uploads);
    assert pending[..1000] == front + [x];
    BacklogAfter(start, r, DEFAULT_MAX_CHANGES);
    assert pending + [] == pending;
    NewerIs(pending, [], 1000);
    OneRoundRun(start, r, DEFAULT_MAX_CHANGES);
    var p := Progress(s, 0, 0, true);
    var segment := SegmentOf(front + [x]);
    ReplayTouchesOnlyNamed(p, front + [x], 0, b);
    var segments := [segment];
    assert segments[1..] == [];
    assert ReplaySegments(p, 0, None, segments) == ReplaySegments(Replay(p, front + [x], 0), 0, Some(1000), []);
  }
}

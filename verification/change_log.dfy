/**
 Replaying the store's change log over a snapshot (internal/backup/restore.go): changes are regrouped by
 the index they carry, and each group is applied as one unconditional batch.
 */
module ChangeLog {
  import opened Wrappers
  import opened StateStore

  /** A replay under way: the store being rebuilt, how many changes went in, and the last index replayed. */
  datatype Progress<V> = Progress(state: State<V>, applied: nat, last: nat, ok: bool)

  function AsMutations<V>(changes: seq<Change<V>>): seq<Mutation<V>> {
    Map((c: Change<V>) => Mutation(c.op, c.key, 0, false), changes)
  }

  /** How many leading changes share the first one's index. */
  function GroupLength<V>(changes: seq<Change<V>>): (n: nat)
    requires changes != []
    ensures 0 < n <= |changes|
    ensures forall i :: 0 <= i < n ==> changes[i].index == changes[0].index
    ensures n < |changes| ==> changes[n].index != changes[0].index
  {
    if |changes| > 1 && changes[1].index == changes[0].index then 1 + GroupLength(changes[1..]) else 1
  }

  function ReplayGroup<V>(p: Progress<V>, group: seq<Change<V>>, skipUpto: nat): Progress<V>
    requires group != []
  {
    if group[0].index <= skipUpto then p
    else
      match ApplyBatch(p.state, AsMutations(group))
      case Ok(s) => Progress(s, p.applied + |group|, group[0].index, true)
      case Err(_) => p.(ok := false)
  }

  function Replay<V>(p: Progress<V>, changes: seq<Change<V>>, skipUpto: nat): Progress<V>
    decreases |changes|
  {
    if changes == [] || !p.ok then p
    else
      var n := GroupLength(changes);
      Replay(ReplayGroup(p, changes[..n], skipUpto), changes[n..], skipUpto)
  }

  method ApplyChanges<V>(target: Store<V>, changes: seq<Change<V>>, skipUpto: nat)
    returns (applied: nat, last: nat, ok: bool)
    modifies target
    ensures Progress(target.State(), applied, last, ok)
         == Replay(Progress(old(target.State()), 0, 0, true), changes, skipUpto)
  {
    hide ApplyBatch, AsMutations, Replay;
    applied, last, ok := 0, 0, true;
    var i := 0;
    ghost var whole := Replay(Progress(target.State(), 0, 0, true), changes, skipUpto);
    assert changes[0..] == changes;
    while i < |changes|
      invariant 0 <= i <= |changes| && ok
      invariant Replay(Progress(target.State(), applied, last, true), changes[i..], skipUpto) == whole
    {
      var j := FindGroupEnd(changes, i);
      var group, index := changes[i..j], changes[i].index;
      ReplayUnfolds(Progress(target.State(), applied, last, true), changes, i, j, skipUpto);
      i := j;
      if index <= skipUpto {
        continue;
      }
      var r := target.Apply(AsMutations(group));
      if r.Err? {
        ReplayStops(Progress(target.State(), applied, last, false), changes[j..], skipUpto);
        return applied, last, false;
      }
      applied := applied + |group|;
      last := index;
    }
    ReplayEnds(Progress(target.State(), applied, last, true), skipUpto);
  }

  /** The scan for the end of the group that starts at `i`. */
  method FindGroupEnd<V>(changes: seq<Change<V>>, i: nat) returns (j: nat)
    requires i < |changes|
    ensures i < j <= |changes| && j - i == GroupLength(changes[i..])
  {
    j := i;
    while j < |changes| && changes[j].index == changes[i].index
      invariant i <= j <= |changes|
      invariant forall k :: i <= k < j ==> changes[k].index == changes[i].index
    {
      j := j + 1;
    }
    GroupEnds(changes[i..], j - i);
  }

  lemma {:induction false} ReplayUnfolds<V>(p: Progress<V>, changes: seq<Change<V>>, i: nat, j: nat, skipUpto: nat)
    requires i < j <= |changes| && j - i == GroupLength(changes[i..]) && p.ok
    ensures Replay(p, changes[i..], skipUpto) == Replay(ReplayGroup(p, changes[i..j], skipUpto), changes[j..], skipUpto)
  {
    assert changes[i..][..j - i] == changes[i..j] && changes[i..][j - i..] == changes[j..];
  }

  lemma {:induction false} ReplayStops<V>(p: Progress<V>, changes: seq<Change<V>>, skipUpto: nat)
    requires !p.ok
    ensures Replay(p, changes, skipUpto) == p
  {
  }

  lemma {:induction false} ReplayEnds<V>(p: Progress<V>, skipUpto: nat)
    ensures Replay(p, [], skipUpto) == p
  {
  }

  lemma {:induction false} GroupEnds<V>(changes: seq<Change<V>>, n: nat)
    requires 0 < n <= |changes|
    requires forall i :: 0 <= i < n ==> changes[i].index == changes[0].index
    requires n < |changes| ==> changes[n].index != changes[0].index
    ensures GroupLength(changes) == n
  {
    assert GroupLength(changes) >= n;
  }

  // ---- what a run of batches logged --------------------------------------

  /** A run: batches that fail change nothing. */
  function Commit<V>(s: State<V>, ms: seq<Mutation<V>>): State<V> {
    match ApplyBatch(s, ms) case Ok(t) => t case Err(_) => s
  }

  function CommitAll<V>(s: State<V>, batches: seq<seq<Mutation<V>>>): State<V>
    decreases |batches|
  {
    if batches == [] then s else CommitAll(Commit(s, batches[0]), batches[1..])
  }

  /** What one batch adds to the log. */
  function Added<V>(s: State<V>, ms: seq<Mutation<V>>): seq<Change<V>> {
    if ApplyBatch(s, ms).Ok? then Logged(s.records, s.index + 1, ms) else []
  }

  function AddedByAll<V>(s: State<V>, batches: seq<seq<Mutation<V>>>): seq<Change<V>>
    decreases |batches|
  {
    if batches == [] then [] else Added(s, batches[0]) + AddedByAll(Commit(s, batches[0]), batches[1..])
  }

  /** A batch that took an index and logged nothing: deletes of missing keys only. */
  predicate Silent<V>(s: State<V>, ms: seq<Mutation<V>>) {
    Commit(s, ms).index > s.index && Added(s, ms) == []
  }

  function SilentBatches<V>(s: State<V>, batches: seq<seq<Mutation<V>>>): nat
    decreases |batches|
  {
    if batches == [] then 0
    else (if Silent(s, batches[0]) then 1 else 0) + SilentBatches(Commit(s, batches[0]), batches[1..])
  }

  lemma {:induction false} AddedIsLogged<V>(s: State<V>, batches: seq<seq<Mutation<V>>>)
    ensures CommitAll(s, batches).changes == s.changes + AddedByAll(s, batches)
    ensures s.index <= CommitAll(s, batches).index
    ensures forall i :: 0 <= i < |AddedByAll(s, batches)| ==> s.index < AddedByAll(s, batches)[i].index
    decreases |batches|
  {
    if batches != [] {
      LoggedIndex(s.records, s.index + 1, batches[0]);
      AddedIsLogged(Commit(s, batches[0]), batches[1..]);
    }
  }

  // ---- a group has its batch's effect ------------------------------------

  /** The same keys with the same values, whatever the indices. */
  ghost predicate SameValues<V(!new)>(a: map<Key, Entry<V>>, b: map<Key, Entry<V>>) {
    && (forall k :: k in a <==> k in b)
    && (forall k :: k in a && k in b ==> a[k].value == b[k].value)
  }

  lemma {:induction false} GroupHasBatchEffect<V(!new)>(
    a: map<Key, Entry<V>>, i: nat, b: map<Key, Entry<V>>, j: nat, ms: seq<Mutation<V>>)
    requires SameValues(a, b)
    ensures var group := AsMutations(Logged(a, i, ms));
            && SameValues(WriteAll(a, i, ms), WriteAll(b, j, group))
            && (a == b && i == j ==> WriteAll(a, i, ms) == WriteAll(b, j, group))
  {
    if ms != [] {
      var before, m := ms[..|ms| - 1], ms[|ms| - 1];
      GroupHasBatchEffect(a, i, b, j, before);
      var log := Logged(a, i, before);
      var at := WriteAll(a, i, before);
      if Effective(at, m) {
        var group := AsMutations(log + [Change(i, m.op, m.key)]);
        assert group[..|group| - 1] == AsMutations(log);
        assert WriteAll(b, j, group) == Write(WriteAll(b, j, AsMutations(log)), j, group[|group| - 1]);
      } else {
        assert log + [] == log;
        assert at - {m.key} == at;
      }
    }
  }

  lemma {:induction false} LoggedKeysAreNamed<V>(records: map<Key, Entry<V>>, index: nat, ms: seq<Mutation<V>>)
    requires AllValid(ms)
    ensures forall i :: 0 <= i < |Logged(records, index, ms)| ==> Logged(records, index, ms)[i].key.name != ""
  {
    if ms != [] {
      LoggedKeysAreNamed(records, index, ms[..|ms| - 1]);
    }
  }

  lemma {:induction false} SilentWritesNothing<V>(records: map<Key, Entry<V>>, index: nat, ms: seq<Mutation<V>>)
    requires Logged(records, index, ms) == []
    ensures WriteAll(records, index, ms) == records
  {
    if ms != [] {
      SilentWritesNothing(records, index, ms[..|ms| - 1]);
      assert !Effective(records, ms[|ms| - 1]);
      assert records - {ms[|ms| - 1].key} == records;
    }
  }

  /** One batch against its group, on a replica holding the same values. */
  lemma {:induction false} GroupReplaysBatch<V(!new)>(s: State<V>, ms: seq<Mutation<V>>, p: Progress<V>, skipUpto: nat)
    requires ApplyBatch(s, ms).Ok? && Added(s, ms) != [] && skipUpto <= s.index
    requires p.ok && SameValues(s.records, p.state.records)
    ensures var q := ReplayGroup(p, Added(s, ms), skipUpto);
            && q.ok && q.state.index == p.state.index + 1
            && q.applied == p.applied + |Added(s, ms)| && q.last == s.index + 1
            && SameValues(Commit(s, ms).records, q.state.records)
            && (s.records == p.state.records && s.index == p.state.index ==>
                  Commit(s, ms).records == q.state.records)
  {
    var group := Added(s, ms);
    LoggedIndex(s.records, s.index + 1, ms);
    LoggedKeysAreNamed(s.records, s.index + 1, ms);
    GroupHasBatchEffect(s.records, s.index + 1, p.state.records, p.state.index + 1, ms);
    assert AllValid(AsMutations(group)) && AllMet(p.state.records, AsMutations(group));
  }

  // ---- the round trip ----------------------------------------------------

  /** Replaying what a run logged, on a replica that held the same values when the run began. */
  lemma {:induction false} ReplayFollowsRun<V(!new)>(
    s: State<V>, batches: seq<seq<Mutation<V>>>, p: Progress<V>, skipUpto: nat)
    requires p.ok && SameValues(s.records, p.state.records) && skipUpto <= s.index
    ensures var t := CommitAll(s, batches);
            var q := Replay(p, AddedByAll(s, batches), skipUpto);
            && q.ok && SameValues(t.records, q.state.records)
            && q.applied == p.applied + |AddedByAll(s, batches)|
            && q.state.index - p.state.index == t.index - s.index - SilentBatches(s, batches)
            && (s.records == p.state.records && s.index == p.state.index && SilentBatches(s, batches) == 0 ==>
                  t.records == q.state.records)
    decreases |batches|
  {
    hide WriteAll, Logged, AllMet, AllValid, SameValues;
    if batches != [] {
      var next := Commit(s, batches[0]);
      var group, rest := Added(s, batches[0]), AddedByAll(next, batches[1..]);
      if group == [] {
        assert group + rest == rest;
        if ApplyBatch(s, batches[0]).Ok? && batches[0] != [] {
          SilentWritesNothing(s.records, s.index + 1, batches[0]);
        }
        ReplayFollowsRun(next, batches[1..], p, skipUpto);
      } else {
        assert batches[0] != [] by {
          EmptyLogsNothing(s.records, s.index + 1);
        }
        LoggedIndex(s.records, s.index + 1, batches[0]);
        AddedIsLogged(next, batches[1..]);
        GroupEnds(group + rest, |group|);
        assert (group + rest)[..|group|] == group && (group + rest)[|group|..] == rest;
        GroupReplaysBatch(s, batches[0], p, skipUpto);
        ReplayFollowsRun(next, batches[1..], ReplayGroup(p, group, skipUpto), skipUpto);
      }
    }
  }

  lemma {:induction false} EmptyLogsNothing<V>(records: map<Key, Entry<V>>, index: nat)
    ensures Logged(records, index, []) == []
  {
  }

  /** Changes at or below the snapshot's index are in it already and are passed over. */
  lemma {:induction false} OldChangesAreSkipped<V>(
    p: Progress<V>, earlier: seq<Change<V>>, later: seq<Change<V>>, skipUpto: nat)
    requires p.ok
    requires forall i :: 0 <= i < |earlier| ==> earlier[i].index <= skipUpto
    requires forall i :: 0 <= i < |later| ==> skipUpto < later[i].index
    ensures Replay(p, earlier + later, skipUpto) == Replay(p, later, skipUpto)
    decreases |earlier|
  {
    if earlier == [] {
      assert earlier + later == later;
    } else {
      var n := GroupLength(earlier);
      GroupEnds(earlier + later, n);
      assert (earlier + later)[n..] == earlier[n..] + later;
      OldChangesAreSkipped(p, earlier[n..], later, skipUpto);
    }
  }

  /**
   A snapshot plus the log replays to the store it was taken from: the values always agree, and the
   indices agree exactly when no batch since the snapshot spent its index without logging a change.
   */
  lemma {:induction false} SnapshotPlusLogReproduces<V(!new)>(s: State<V>, batches: seq<seq<Mutation<V>>>)
    requires Indexed(s)
    ensures var t := CommitAll(s, batches);
            var q := Replay(Progress(s, 0, 0, true), t.changes, s.index);
            && q.ok && q.applied == |t.changes| - |s.changes|
            && SameValues(t.records, q.state.records)
            && (SilentBatches(s, batches) == 0 ==> t.records == q.state.records)
            && (t.index == q.state.index <==> SilentBatches(s, batches) == 0)
  {
    var p := Progress(s, 0, 0, true);
    AddedIsLogged(s, batches);
    OldChangesAreSkipped(p, s.changes, AddedByAll(s, batches), s.index);
    ReplayFollowsRun(s, batches, p, s.index);
  }

  // ---- a silent batch, concretely -----------------------------------------

  function PutOf<V>(key: Key, value: V): Mutation<V> {
    Mutation(Put(value), key, 0, false)
  }

  lemma {:induction false} OnePut<V>(s: State<V>, a: Key, value: V)
    requires a.name != ""
    ensures var batch := [PutOf(a, value)];
            && Added(s, batch) == [Change(s.index + 1, Put(value), a)]
            && Commit(s, batch).records == s.records[a := Entry(s.index + 1, value)]
            && Commit(s, batch).index == s.index + 1
  {
    var batch := [PutOf(a, value)];
    assert batch[..0] == [];
    assert Logged(s.records, s.index + 1, batch) == [] + [Change(s.index + 1, Put(value), a)];
    assert AllValid(batch) && AllMet(s.records, batch);
  }

  lemma {:induction false} DeleteMissing<V>(s: State<V>, missing: Key)
    requires missing.name != "" && missing !in s.records
    ensures var batch := [Mutation(Delete, missing, 0, false)];
            Commit(s, batch) == s.(index := s.index + 1) && Added(s, batch) == []
  {
    var batch := [Mutation(Delete, missing, 0, false)];
    assert batch[..0] == [];
    assert WriteAll(s.records, s.index + 1, batch) == s.records - {missing} == s.records;
    assert Logged(s.records, s.index + 1, batch) == [];
    assert AllValid(batch) && AllMet(s.records, batch);
  }

  lemma {:induction false} OneBatch<V>(s: State<V>, batch: seq<Mutation<V>>)
    ensures CommitAll(s, [batch]) == Commit(s, batch) && AddedByAll(s, [batch]) == Added(s, batch)
  {
    var one: seq<seq<Mutation<V>>> := [batch];
    assert one[1..] == [];
    assert AddedByAll(s, one) == Added(s, batch) + AddedByAll(Commit(s, batch), []);
    assert CommitAll(s, one) == CommitAll(Commit(s, batch), []);
  }

  lemma {:induction false} ReplayOne<V>(p: Progress<V>, x: Change<V>, a: Key, value: V)
    requires p.ok && x.op == Put(value) && x.key == a && a.name != "" && 0 < x.index
    ensures var q := Replay(p, [x], 0);
            q.ok && q.state.records == p.state.records[a := Entry(p.state.index + 1, value)]
  {
    OnePut(p.state, a, value);
    assert AsMutations([x]) == [PutOf(a, value)];
    GroupEnds([x], 1);
    assert [x][..1] == [x] && [x][1..] == [];
    assert Replay(p, [x], 0) == Replay(ReplayGroup(p, [x], 0), [], 0);
  }

  /**
   A record written after a silent batch: replayed, it keeps its value but carries a lower index than it
   had, so an index noted before the restore names a different version after it.
   */
  lemma {:induction false} SilentBatchShiftsIndices<V>(missing: Key, key: Key, value: V)
    requires missing.name != "" && key.name != ""
    ensures var s := Snapshot(0, map[], []);
            var t := CommitAll(s, [[Mutation(Delete, missing, 0, false)], [PutOf(key, value)]]);
            var q := Replay(Progress(s, 0, 0, true), t.changes, s.index);
            && key in t.records && t.records[key] == Entry(2, value)
            && key in q.state.records && q.state.records[key] == Entry(1, value)
  {
    hide Commit, Added, ApplyBatch, Replay;
    var s: State<V> := Snapshot(0, map[], []);
    var del, put := [Mutation(Delete, missing, 0, false)], [PutOf(key, value)];
    DeleteMissing(s, missing);
    var mid := Commit(s, del);
    OnePut(mid, key, value);
    OneBatch(mid, put);
    AddedIsLogged(mid, [put]);
    var batches: seq<seq<Mutation<V>>> := [del, put];
    assert batches[1..] == [put];
    var t := CommitAll(s, batches);
    assert t == CommitAll(mid, [put]);
    var x := Change(2, Put(value), key);
    assert t.changes == [] + [x] == [x];
    ReplayOne(Progress(s, 0, 0, true), x, key, value);
  }
}

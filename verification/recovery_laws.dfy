/**
 When a restore succeeds, for any list of segments a sink may hold: stated on the list alone
 (internal/backup/restore.go).
 */
module RecoveryLaws {
  import opened Wrappers
  import opened StateStore
  import opened ChangeLog
  import opened Replication
  import opened Recovery

  /** The segments the snapshot does not cover whole. */
  function Since<V>(segments: seq<Segment<V>>, from: nat): seq<Segment<V>> {
    if segments == [] then []
    else (if segments[0].to > from then [segments[0]] else []) + Since(segments[1..], from)
  }

  /** Every change past the snapshot can be put back: it names a key. */
  ghost predicate Replayable<V>(changes: seq<Change<V>>, from: nat) {
    forall i :: 0 <= i < |changes| && changes[i].index > from ==> changes[i].key.name != ""
  }

  /** Each segment starts right after the one before it. */
  ghost predicate Gapless<V>(later: seq<Segment<V>>) {
    forall i :: 0 < i < |later| ==> later[i].from == later[i - 1].to + 1
  }

  ghost predicate Usable<V>(later: seq<Segment<V>>, from: nat) {
    forall i :: 0 <= i < |later| ==> later[i].readable && Replayable(later[i].changes, from)
  }

  lemma {:induction false} ReplaySucceedsIff<V>(p: Progress<V>, changes: seq<Change<V>>, from: nat)
    requires p.ok
    ensures Replay(p, changes, from).ok <==> Replayable(changes, from)
    decreases |changes|
  {
    if changes != [] {
      var n := GroupLength(changes);
      var group, rest := changes[..n], changes[n..];
      GroupSucceedsIff(p, group, from);
      var q := ReplayGroup(p, group, from);
      if q.ok {
        ReplaySucceedsIff(q, rest, from);
      }
      ReplayableSplits(changes, n, from);
    }
  }

  lemma {:induction false} ReplayableSplits<V>(changes: seq<Change<V>>, n: nat, from: nat)
    requires n <= |changes|
    ensures Replayable(changes, from) <==> Replayable(changes[..n], from) && Replayable(changes[n..], from)
  {
    assert forall i :: n <= i < |changes| ==> changes[i] == changes[n..][i - n];
    assert forall i :: 0 <= i < |changes[n..]| ==> changes[n..][i] == changes[n + i];
  }

  lemma {:induction false} GroupSucceedsIff<V>(p: Progress<V>, group: seq<Change<V>>, from: nat)
    requires p.ok && group != [] && forall i :: 0 <= i < |group| ==> group[i].index == group[0].index
    ensures ReplayGroup(p, group, from).ok <==> Replayable(group, from)
  {
    var ms := AsMutations(group);
    assert AllMet(p.state.records, ms);
    assert forall i :: 0 <= i < |group| ==> (ms[i].Valid() <==> group[i].key.name != "");
  }

  /** The chain from any point on, with the segment before it, if there is one. */
  lemma {:induction false} AcceptedIff<V>(p: Progress<V>, from: nat, prev: Option<nat>, segments: seq<Segment<V>>)
    requires p.ok
    ensures var later := Since(segments, from);
            ReplaySegments(p, from, prev, segments).ok <==>
              && (later != [] ==> match prev case None => later[0].from <= from + 1 case Some(to) => later[0].from == to + 1)
              && Gapless(later) && Usable(later, from)
    decreases |segments|
  {
    hide Replay, Replayable;
    if segments != [] {
      var s, rest := segments[0], segments[1..];
      var later := Since(rest, from);
      if s.to <= from {
        assert Since(segments, from) == later;
        AcceptedIff(p, from, prev, rest);
      } else {
        assert Since(segments, from) == [s] + later;
        ReplaySucceedsIff(p, s.changes, from);
        if Replay(p, s.changes, from).ok {
          AcceptedIff(Replay(p, s.changes, from), from, Some(s.to), rest);
        }
        ConsGapless(s, later);
        ConsUsable(s, later, from);
        FailedStays(Replay(p, s.changes, from), from, Some(s.to), rest);
      }
    }
  }

  lemma {:induction false} ConsGapless<V>(s: Segment<V>, later: seq<Segment<V>>)
    ensures Gapless([s] + later) <==> (later != [] ==> later[0].from == s.to + 1) && Gapless(later)
  {
    var all := [s] + later;
    assert forall i :: 0 <= i < |later| ==> all[i + 1] == later[i];
    if Gapless(all) {
      if later != [] {
        assert all[1].from == all[0].to + 1;
      }
      forall i | 0 < i < |later| ensures later[i].from == later[i - 1].to + 1 {
        assert all[i + 1].from == all[i].to + 1;
      }
    }
  }

  lemma {:induction false} ConsUsable<V>(s: Segment<V>, later: seq<Segment<V>>, from: nat)
    ensures Usable([s] + later, from) <==> s.readable && Replayable(s.changes, from) && Usable(later, from)
  {
    hide Replayable;
    var all := [s] + later;
    assert all[0] == s;
    assert forall i :: 0 <= i < |later| ==> all[i + 1] == later[i];
    if Usable(all, from) {
      forall i | 0 <= i < |later| ensures later[i].readable && Replayable(later[i].changes, from) {
        assert all[i + 1].readable;
      }
    }
  }

  lemma {:induction false} FailedStays<V>(p: Progress<V>, from: nat, prev: Option<nat>, segments: seq<Segment<V>>)
    ensures !p.ok ==> !ReplaySegments(p, from, prev, segments).ok
    decreases |segments|
  {
  }

  /**
   A restore succeeds if and only if, of the segments that reach past the snapshot, the first starts no
   later than right after it, each next one right after the one before, and every one is readable and
   holds only changes that can be put back. A first segment may straddle the snapshot.
   */
  lemma {:induction false} RestoreSucceedsIff<V>(s: State<V>, from: nat, segments: seq<Segment<V>>)
    ensures var later := Since(segments, from);
            ReplaySegments(Progress(s, 0, 0, true), from, None, segments).ok <==>
              (later != [] ==> later[0].from <= from + 1) && Gapless(later) && Usable(later, from)
  {
    AcceptedIff(Progress(s, 0, 0, true), from, None, segments);
  }

  /** A segment that straddles the snapshot contributes exactly its changes past it. */
  lemma {:induction false} StraddleReplaysTheRest<V>(p: Progress<V>, earlier: seq<Change<V>>, later: seq<Change<V>>, from: nat)
    requires p.ok
    requires forall i :: 0 <= i < |earlier| ==> earlier[i].index <= from
    requires forall i :: 0 <= i < |later| ==> from < later[i].index
    ensures Replay(p, earlier + later, from) == Replay(p, later, from)
  {
    OldChangesAreSkipped(p, earlier, later, from);
  }

  /** What a restore that succeeds applies: the changes past the snapshot, segment after segment. */
  lemma {:induction false} AppliesEachOnce<V>(p: Progress<V>, from: nat, prev: Option<nat>, segments: seq<Segment<V>>)
    requires p.ok && ReplaySegments(p, from, prev, segments).ok
    ensures ReplaySegments(p, from, prev, segments).applied == p.applied + PastIn(Since(segments, from), from)
    decreases |segments|
  {
    hide Replay;
    if segments != [] {
      var s, rest := segments[0], segments[1..];
      if s.to <= from {
        assert Since(segments, from) == Since(rest, from);
        AppliesEachOnce(p, from, prev, rest);
      } else {
        assert Since(segments, from) == [s] + Since(rest, from);
        assert ([s] + Since(rest, from))[1..] == Since(rest, from);
        FailedStays(Replay(p, s.changes, from), from, Some(s.to), rest);
        CountsPast(p, s.changes, from);
        AppliesEachOnce(Replay(p, s.changes, from), from, Some(s.to), rest);
      }
    }
  }

  function PastIn<V>(segments: seq<Segment<V>>, from: nat): nat {
    if segments == [] then 0 else Past(segments[0].changes, from) + PastIn(segments[1..], from)
  }

  function Past<V>(changes: seq<Change<V>>, from: nat): nat {
    if changes == [] then 0 else (if changes[0].index > from then 1 else 0) + Past(changes[1..], from)
  }

  lemma {:induction false} CountsPast<V>(p: Progress<V>, changes: seq<Change<V>>, from: nat)
    requires Replay(p, changes, from).ok
    ensures Replay(p, changes, from).applied == p.applied + Past(changes, from)
    decreases |changes|
  {
    hide ApplyBatch;
    if changes != [] && p.ok {
      var n := GroupLength(changes);
      PastSplits(changes, n, from);
      PastOfGroup(changes[..n], from);
      CountsPast(ReplayGroup(p, changes[..n], from), changes[n..], from);
    }
  }

  lemma {:induction false} PastSplits<V>(changes: seq<Change<V>>, n: nat, from: nat)
    requires n <= |changes|
    ensures Past(changes, from) == Past(changes[..n], from) + Past(changes[n..], from)
  {
    if n > 0 {
      PastSplits(changes[1..], n - 1, from);
      assert changes[..n][1..] == changes[1..][..n - 1] && changes[n..] == changes[1..][n - 1..];
    } else {
      assert changes[0..] == changes && changes[..0] == [];
    }
  }

  lemma {:induction false} PastOfGroup<V>(group: seq<Change<V>>, from: nat)
    requires group != [] && forall i :: 0 <= i < |group| ==> group[i].index == group[0].index
    ensures Past(group, from) == if group[0].index > from then |group| else 0
  {
    if |group| > 1 {
      PastOfGroup(group[1..], from);
    }
  }
}

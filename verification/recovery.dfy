/**
 Disaster recovery end to end: a site commits batches and ships its log in rounds, uploads failing where
 they may; a restore then starts from the snapshot and replays the shipped segments.
 */
module Recovery {
  import opened Wrappers
  import opened StateStore
  import opened ChangeLog
  import opened Replication

  // ---- replaying segments ------------------------------------------------

  /** Whether a segment may follow: the chain starts at the snapshot and has no gap. */
  predicate Chains<V>(segment: Segment<V>, from: nat, prev: Option<nat>) {
    match prev
    case None => segment.from <= from + 1
    case Some(to) => segment.from == to + 1
  }

  function ReplaySegments<V>(p: Progress<V>, from: nat, prev: Option<nat>, segments: seq<Segment<V>>): Progress<V>
    decreases |segments|
  {
    if segments == [] || !p.ok then p
    else if segments[0].to <= from then ReplaySegments(p, from, prev, segments[1..])
    else if !Chains(segments[0], from, prev) || !segments[0].readable then p.(ok := false)
    else ReplaySegments(Replay(p, segments[0].changes, from), from, Some(segments[0].to), segments[1..])
  }

  /** The index the restore reports: the highest any segment reached before the replay ended. */
  function Reported<V>(s: State<V>, from: nat, prev: Option<nat>, segments: seq<Segment<V>>, index: nat): nat
    decreases |segments|
  {
    if segments == [] then index
    else if segments[0].to <= from then Reported(s, from, prev, segments[1..], index)
    else if !Chains(segments[0], from, prev) || !segments[0].readable then index
    else
      var q := Replay(Progress(s, 0, 0, true), segments[0].changes, from);
      if !q.ok then index
      else Reported(q.state, from, Some(segments[0].to), segments[1..], if q.last > index then q.last else index)
  }

  method ReplayAll<V>(target: Store<V>, from: nat, segments: seq<Segment<V>>)
    returns (applied: nat, index: nat, ok: bool)
    modifies target
    ensures var q := ReplaySegments(Progress(old(target.State()), 0, 0, true), from, None, segments);
            target.State() == q.state && ok == q.ok && (ok ==> applied == q.applied)
    ensures index == Reported(old(target.State()), from, None, segments, from)
  {
    hide Replay, ApplyBatch;
    applied, index, ok := 0, from, true;
    ghost var reported := Reported(target.State(), from, None, segments, from);
    var prev := None;
    ghost var last := 0;
    ghost var whole := ReplaySegments(Progress(target.State(), 0, 0, true), from, None, segments);
    for i := 0 to |segments|
      invariant ReplaySegments(Progress(target.State(), applied, last, true), from, prev, segments[i..]) == whole
      invariant Reported(target.State(), from, prev, segments[i..], index) == reported
      invariant ok
    {
      var segment := segments[i];
      assert segments[i..][1..] == segments[i + 1..];
      if segment.to <= from {
        continue;
      }
      if !Chains(segment, from, prev) {
        return applied, index, false;
      }
      if !segment.readable {
        return applied, index, false;
      }
      ghost var before := target.State();
      var count, reached, replayed := ApplyChanges(target, segment.changes, from);
      ReplayCounts(Progress(before, applied, last, true), Progress(before, 0, 0, true), segment.changes, from);
      last := Replay(Progress(before, applied, last, true), segment.changes, from).last;
      if !replayed {
        return applied, index, false;
      }
      prev := Some(segment.to);
      if reached > index {
        index := reached;
      }
      applied := applied + count;
    }
  }

  /** The counters play no part in what a replay does. */
  lemma {:induction false} ReplayCounts<V>(p: Progress<V>, q: Progress<V>, changes: seq<Change<V>>, from: nat)
    requires p.state == q.state && p.ok == q.ok
    ensures var a, b := Replay(p, changes, from), Replay(q, changes, from);
            a.state == b.state && a.ok == b.ok && a.applied - p.applied == b.applied - q.applied
    decreases |changes|
  {
    hide ApplyBatch, GroupLength;
    if changes != [] && p.ok {
      var n := GroupLength(changes);
      ReplayCounts(ReplayGroup(p, changes[..n], from), ReplayGroup(q, changes[..n], from), changes[n..], from);
    }
  }

  lemma {:induction false} ReplayConcat<V>(p: Progress<V>, a: seq<Change<V>>, b: seq<Change<V>>, from: nat)
    requires a != [] && b != [] ==> a[|a| - 1].index != b[0].index
    ensures Replay(p, a + b, from) == Replay(Replay(p, a, from), b, from)
    decreases |a|
  {
    hide ReplayGroup;
    if a == [] {
      assert a + b == b;
    } else if p.ok {
      var n := GroupLength(a);
      GroupEnds(a + b, n);
      assert (a + b)[..n] == a[..n] && (a + b)[n..] == a[n..] + b;
      ReplayConcat(ReplayGroup(p, a[..n], from), a[n..], b, from);
    }
  }

  // ---- rounds ------------------------------------------------------------

  datatype Site<V> = Site(store: State<V>, shipped: nat, segments: seq<Segment<V>>)

  /** Some commits, then one ShipOnce with so many uploads going through, then perhaps a snapshot. */
  datatype Round<V> = Round(batches: seq<seq<Mutation<V>>>, uploads: nat, snapshot: bool)

  function Pending<V>(site: Site<V>, r: Round<V>): seq<Change<V>> {
    Newer(CommitAll(site.store, r.batches).changes, site.shipped)
  }

  /** A snapshot covers everything up to its index, so the cursor moves there. */
  function StepRound<V>(site: Site<V>, r: Round<V>, maxChanges: nat): Site<V> {
    var s := Ship(Pending(site, r), site.shipped, maxChanges, r.uploads);
    var store := CommitAll(site.store, r.batches);
    var shipped := if r.snapshot && s.shipped < store.index then store.index else s.shipped;
    Site(store, shipped, site.segments + s.segments)
  }

  function RunRounds<V>(site: Site<V>, rounds: seq<Round<V>>, maxChanges: nat): Site<V>
    decreases |rounds|
  {
    if rounds == [] then site else RunRounds(StepRound(site, rounds[0], maxChanges), rounds[1..], maxChanges)
  }

  function AllBatches<V>(rounds: seq<Round<V>>): seq<seq<Mutation<V>>> {
    if rounds == [] then [] else rounds[0].batches + AllBatches(rounds[1..])
  }

  /** What a round has not shipped when its snapshot, if it takes one, moves the cursor. */
  function Unshipped<V>(site: Site<V>, r: Round<V>, maxChanges: nat): seq<Change<V>> {
    Newer(Pending(site, r), Ship(Pending(site, r), site.shipped, maxChanges, r.uploads).shipped)
  }

  /** No page the round uploads ends inside a batch, and no snapshot is taken over unshipped changes. */
  predicate SkipsNothing<V>(site: Site<V>, r: Round<V>, maxChanges: nat) {
    && NoCut(Pending(site, r), maxChanges, r.uploads)
    && (r.snapshot ==> Unshipped(site, r, maxChanges) == [])
  }

  predicate NeverSkips<V>(site: Site<V>, rounds: seq<Round<V>>, maxChanges: nat)
    decreases |rounds|
  {
    rounds == [] ||
    (&& SkipsNothing(site, rounds[0], maxChanges)
     && NeverSkips(StepRound(site, rounds[0], maxChanges), rounds[1..], maxChanges))
  }

  /** What a site has left to ship. */
  function Backlog<V>(site: Site<V>): seq<Change<V>> {
    Newer(site.store.changes, site.shipped)
  }

  // ---- the log stays in order --------------------------------------------

  ghost predicate InOrder<V>(s: State<V>) {
    Ascending(s.changes) && forall i :: 0 <= i < |s.changes| ==> s.changes[i].index <= s.index
  }

  lemma {:induction false} CommitAllKeepsOrder<V>(s: State<V>, batches: seq<seq<Mutation<V>>>)
    requires InOrder(s)
    ensures InOrder(CommitAll(s, batches))
    decreases |batches|
  {
    if batches != [] {
      LoggedIndex(s.records, s.index + 1, batches[0]);
      CommitAllKeepsOrder(Commit(s, batches[0]), batches[1..]);
    }
  }

  lemma {:induction false} CommitAllConcat<V>(s: State<V>, a: seq<seq<Mutation<V>>>, b: seq<seq<Mutation<V>>>)
    ensures CommitAll(s, a + b) == CommitAll(CommitAll(s, a), b)
    ensures AddedByAll(s, a + b) == AddedByAll(s, a) + AddedByAll(CommitAll(s, a), b)
    ensures SilentBatches(s, a + b) == SilentBatches(s, a) + SilentBatches(CommitAll(s, a), b)
    decreases |a|
  {
    hide Commit, Added, Silent;
    if a == [] {
      assert a + b == b;
    } else {
      assert (a + b)[1..] == a[1..] + b;
      CommitAllConcat(Commit(s, a[0]), a[1..], b);
    }
  }

  lemma {:induction false} RoundsCommitAll<V>(site: Site<V>, rounds: seq<Round<V>>, maxChanges: nat)
    ensures RunRounds(site, rounds, maxChanges).store == CommitAll(site.store, AllBatches(rounds))
    decreases |rounds|
  {
    hide Ship, Newer, Commit;
    if rounds != [] {
      RoundsCommitAll(StepRound(site, rounds[0], maxChanges), rounds[1..], maxChanges);
      CommitAllConcat(site.store, rounds[0].batches, AllBatches(rounds[1..]));
    }
  }

  /** A round's pending changes are the backlog followed by what it commits. */
  lemma {:induction false} PendingIs<V>(site: Site<V>, r: Round<V>)
    requires InOrder(site.store) && site.shipped <= site.store.index
    ensures Pending(site, r) == Backlog(site) + AddedByAll(site.store, r.batches)
    ensures Ascending(Pending(site, r))
    ensures forall i :: 0 <= i < |Pending(site, r)| ==> site.shipped < Pending(site, r)[i].index
    ensures InOrder(CommitAll(site.store, r.batches)) && site.store.index <= CommitAll(site.store, r.batches).index
  {
    hide Newer, CommitAll, AddedByAll;
    var c, added := site.store.changes, AddedByAll(site.store, r.batches);
    AddedIsLogged(site.store, r.batches);
    CommitAllKeepsOrder(site.store, r.batches);
    NewerSplits(c, site.shipped);
    var k := OlderCount(c, site.shipped);
    assert c[..k] + (Backlog(site) + added) == c + added;
    NewerIs(c[..k], Backlog(site) + added, site.shipped);
    NewerSplits(c + added, site.shipped);
  }

  /** The cursor never passes the store. */
  lemma {:induction false} ShippedWithin<V>(pending: seq<Change<V>>, shipped: nat, maxChanges: nat, uploads: nat, bound: nat)
    requires shipped <= bound && forall i :: 0 <= i < |pending| ==> pending[i].index <= bound
    ensures Ship(pending, shipped, maxChanges, uploads).shipped <= bound
    decreases uploads
  {
    hide OlderCount, PageSize, Ship;
    ShipUnfolds(pending, shipped, maxChanges, uploads);
    var n := PageSize(pending, maxChanges);
    if n != 0 && uploads != 0 {
      var to := pending[n - 1].index;
      ShippedWithin(Newer(pending, to), to, maxChanges, uploads - 1, bound);
    }
  }

  /** One round's bookkeeping. */
  lemma {:induction false} RoundAccounts<V>(site: Site<V>, r: Round<V>, maxChanges: nat)
    requires InOrder(site.store) && site.shipped <= site.store.index
    ensures var next := StepRound(site, r, maxChanges);
            var sent := Ship(Pending(site, r), site.shipped, maxChanges, r.uploads).segments;
            && InOrder(next.store) && next.shipped <= next.store.index && site.shipped <= next.shipped
            && next.segments == site.segments + sent
            && next.store.changes == site.store.changes + AddedByAll(site.store, r.batches)
            && if SkipsNothing(site, r, maxChanges)
               then Contents(sent) + Backlog(next) == Backlog(site) + AddedByAll(site.store, r.batches)
               else |Contents(sent)| + |Backlog(next)| < |Backlog(site)| + |AddedByAll(site.store, r.batches)|
  {
    hide Newer, CommitAll, AddedByAll, Ship, NoCut, Contents, Backlog;
    PendingIs(site, r);
    AddedIsLogged(site.store, r.batches);
    var pending := Pending(site, r);
    var after := CommitAll(site.store, r.batches);
    ShippingLosesNothingIff(pending, site.shipped, maxChanges, r.uploads);
    NewerSplits(after.changes, site.shipped);
    ShippedWithin(pending, site.shipped, maxChanges, r.uploads, after.index);
    BacklogAfter(site, r, maxChanges);
  }

  /** After a snapshot there is no backlog; otherwise it is what the round left unshipped. */
  lemma {:induction false} BacklogAfter<V>(site: Site<V>, r: Round<V>, maxChanges: nat)
    requires InOrder(CommitAll(site.store, r.batches)) && site.shipped <= CommitAll(site.store, r.batches).index
    requires var to := Ship(Pending(site, r), site.shipped, maxChanges, r.uploads).shipped;
             site.shipped <= to <= CommitAll(site.store, r.batches).index
    ensures Backlog(StepRound(site, r, maxChanges)) == if r.snapshot then [] else Unshipped(site, r, maxChanges)
  {
    hide Newer, CommitAll, Ship;
    var after := CommitAll(site.store, r.batches);
    NewerOfNewer(after.changes, site.shipped, Ship(Pending(site, r), site.shipped, maxChanges, r.uploads).shipped);
    assert after.changes + [] == after.changes;
    NewerIs(after.changes, [], after.index);
  }

  /**
   Over any rounds and any upload failures, everything committed since the snapshot is either shipped or
   still in the backlog, in order and once, exactly when no uploaded page ended inside a batch and no
   snapshot was taken while changes were waiting.
   */
  lemma {:induction false} NothingUnshippedIsLostIff<V>(site: Site<V>, rounds: seq<Round<V>>, maxChanges: nat)
    requires InOrder(site.store) && site.shipped <= site.store.index
    ensures var end := RunRounds(site, rounds, maxChanges);
            var whole := Contents(site.segments) + Backlog(site) + AddedByAll(site.store, AllBatches(rounds));
            if NeverSkips(site, rounds, maxChanges) then Contents(end.segments) + Backlog(end) == whole
            else |Contents(end.segments)| + |Backlog(end)| < |whole|
    decreases |rounds|
  {
    hide Newer, CommitAll, AddedByAll, Ship, SkipsNothing, Contents, InOrder, Backlog, Pending;
    if rounds == [] {
      EmptyRunAdds(site.store);
    } else {
      var r := rounds[0];
      var next := StepRound(site, r, maxChanges);
      var sent := Ship(Pending(site, r), site.shipped, maxChanges, r.uploads).segments;
      RoundAccounts(site, r, maxChanges);
      NothingUnshippedIsLostIff(next, rounds[1..], maxChanges);
      ContentsConcat(site.segments, sent);
      CommitAllConcat(site.store, r.batches, AllBatches(rounds[1..]));
      Rejoin(Contents(site.segments), Contents(sent), Backlog(next), Backlog(site),
             AddedByAll(site.store, r.batches), AddedByAll(next.store, AllBatches(rounds[1..])));
    }
  }

  /** Moving a round's shipment from one side of the account to the other. */
  lemma {:induction false} Rejoin<T>(shipped: seq<T>, sent: seq<T>, after: seq<T>, before: seq<T>, added: seq<T>, later: seq<T>)
    ensures sent + after == before + added ==> shipped + sent + after + later == shipped + before + (added + later)
    ensures |shipped + sent + after + later| == |shipped| + |sent| + |after| + |later|
    ensures |shipped + before + (added + later)| == |shipped| + |before| + |added| + |later|
  {
    if sent + after == before + added {
      assert shipped + sent + after + later == shipped + (sent + after) + later;
    }
  }

  lemma {:induction false} EmptyRunAdds<V>(s: State<V>)
    ensures AddedByAll(s, []) == []
  {
  }

  // ---- segments link up --------------------------------------------------

  /** Readable segments named after their first and last change, each starting past the one before. */
  ghost predicate Linked<V>(segments: seq<Segment<V>>, lo: nat, hi: nat)
    decreases |segments|
  {
    if segments == [] then lo <= hi
    else
      var s := segments[0];
      && s.readable && s.changes != [] && s.from == s.changes[0].index && s.to == s.changes[|s.changes| - 1].index
      && lo < s.from <= s.to
      && Linked(segments[1..], s.to, hi)
  }

  lemma {:induction false} LinkedConcat<V>(a: seq<Segment<V>>, b: seq<Segment<V>>, lo: nat, mid: nat, hi: nat)
    requires Linked(a, lo, mid) && Linked(b, mid, hi)
    ensures Linked(a + b, lo, hi)
    decreases |a|
  {
    if a == [] {
      assert a + b == b;
      LinkedFromLower(b, lo, mid, hi);
    } else {
      assert (a + b)[1..] == a[1..] + b;
      LinkedConcat(a[1..], b, a[0].to, mid, hi);
    }
  }

  lemma {:induction false} LinkedFromLower<V>(b: seq<Segment<V>>, lo: nat, mid: nat, hi: nat)
    requires lo <= mid && Linked(b, mid, hi)
    ensures Linked(b, lo, hi)
  {
  }

  lemma {:induction false} LinkedUpTo<V>(b: seq<Segment<V>>, lo: nat, hi: nat, higher: nat)
    requires Linked(b, lo, hi) && hi <= higher
    ensures Linked(b, lo, higher)
    decreases |b|
  {
    if b != [] {
      LinkedUpTo(b[1..], b[0].to, hi, higher);
    }
  }

  lemma {:induction false} ShipLinks<V>(pending: seq<Change<V>>, shipped: nat, maxChanges: nat, uploads: nat)
    requires Ascending(pending) && forall i :: 0 <= i < |pending| ==> shipped < pending[i].index
    ensures var s := Ship(pending, shipped, maxChanges, uploads);
            Linked(s.segments, shipped, s.shipped)
    decreases uploads
  {
    hide Newer, PageSize, Ship;
    ShipUnfolds(pending, shipped, maxChanges, uploads);
    var n := PageSize(pending, maxChanges);
    if n != 0 && uploads != 0 {
      var segment := SegmentOf(pending[..n]);
      assert segment.from <= segment.to by {
        assert n > 1 ==> pending[0].index <= pending[n - 1].index;
      }
      assert [segment][1..] == [];
      if n >= maxChanges {
        var rest := Newer(pending, segment.to);
        NewerSplits(pending, segment.to);
        ShipLinks(rest, segment.to, maxChanges, uploads - 1);
        var more := Ship(rest, segment.to, maxChanges, uploads - 1);
        assert ([segment] + more.segments)[1..] == more.segments;
      }
    }
  }

  lemma {:induction false} RoundsLink<V>(site: Site<V>, rounds: seq<Round<V>>, maxChanges: nat, lo: nat)
    requires InOrder(site.store) && site.shipped <= site.store.index && Linked(site.segments, lo, site.shipped)
    ensures var end := RunRounds(site, rounds, maxChanges);
            Linked(end.segments, lo, end.shipped)
    decreases |rounds|
  {
    hide Newer, CommitAll, AddedByAll, Ship, NoCut, Contents, InOrder, Linked;
    if rounds != [] {
      var r := rounds[0];
      var next := StepRound(site, r, maxChanges);
      RoundAccounts(site, r, maxChanges);
      PendingIs(site, r);
      ShipLinks(Pending(site, r), site.shipped, maxChanges, r.uploads);
      var sent := Ship(Pending(site, r), site.shipped, maxChanges, r.uploads).segments;
      LinkedUpTo(sent, site.shipped, Ship(Pending(site, r), site.shipped, maxChanges, r.uploads).shipped, next.shipped);
      LinkedConcat(site.segments, sent, lo, site.shipped, next.shipped);
      RoundsLink(next, rounds[1..], maxChanges, lo);
    }
  }

  // ---- a chain replays like one log --------------------------------------

  lemma {:induction false} ChainReplaysContents<V>(
    p: Progress<V>, from: nat, prev: Option<nat>, segments: seq<Segment<V>>, lo: nat, hi: nat)
    requires Linked(segments, lo, hi) && from <= lo
    requires ReplaySegments(p, from, prev, segments).ok
    ensures ReplaySegments(p, from, prev, segments) == Replay(p, Contents(segments), from)
    decreases |segments|
  {
    hide ReplayGroup, GroupLength;
    if segments != [] {
      var s, rest := segments[0], segments[1..];
      ChainReplaysContents(Replay(p, s.changes, from), from, Some(s.to), rest, s.to, hi);
      if rest != [] {
        ContentsFirst(rest);
      }
      ReplayConcat(p, s.changes, Contents(rest), from);
    }
  }

  lemma {:induction false} ContentsFirst<V>(segments: seq<Segment<V>>)
    requires segments != [] && segments[0].changes != []
    ensures Contents(segments) != [] && Contents(segments)[0] == segments[0].changes[0]
  {
  }

  /** Each segment starts at the index after the one before it. */
  ghost predicate Contiguous<V>(segments: seq<Segment<V>>, lo: nat)
    decreases |segments|
  {
    segments == [] || (segments[0].from == lo + 1 && Contiguous(segments[1..], segments[0].to))
  }

  /** The chain check passes exactly the contiguous chains. */
  lemma {:induction false} AcceptsIffContiguous<V>(
    p: Progress<V>, from: nat, prev: Option<nat>, segments: seq<Segment<V>>, lo: nat, hi: nat)
    requires Linked(segments, lo, hi) && from <= lo
    requires (prev == None && lo == from) || prev == Some(lo)
    requires Replay(p, Contents(segments), from).ok
    ensures ReplaySegments(p, from, prev, segments).ok <==> Contiguous(segments, lo)
    decreases |segments|
  {
    hide ReplayGroup, GroupLength;
    if segments != [] && segments[0].from == lo + 1 {
      var s, rest := segments[0], segments[1..];
      if rest != [] {
        ContentsFirst(rest);
      }
      ReplayConcat(p, s.changes, Contents(rest), from);
      AcceptsIffContiguous(Replay(p, s.changes, from), from, Some(s.to), rest, s.to, hi);
    }
  }

  /** A restore accepts no other chain, whatever its segments hold. */
  lemma {:induction false} AcceptsOnlyContiguous<V>(
    p: Progress<V>, from: nat, prev: Option<nat>, segments: seq<Segment<V>>, lo: nat, hi: nat)
    requires Linked(segments, lo, hi) && from <= lo
    requires (prev == None && lo == from) || prev == Some(lo)
    requires ReplaySegments(p, from, prev, segments).ok
    ensures Contiguous(segments, lo)
    decreases |segments|
  {
    hide Replay;
    if segments != [] {
      AcceptsOnlyContiguous(Replay(p, segments[0].changes, from), from, Some(segments[0].to), segments[1..], segments[0].to, hi);
    }
  }

  /** Where the segments end. */
  function LastIndex<V>(segments: seq<Segment<V>>, lo: nat): nat
    decreases |segments|
  {
    if segments == [] then lo else LastIndex(segments[1..], segments[0].to)
  }

  /** A replay that succeeds has last applied the batch of the last change. */
  lemma {:induction false} ReplayReachesLast<V>(p: Progress<V>, changes: seq<Change<V>>, from: nat)
    requires changes != [] && changes[|changes| - 1].index > from && Replay(p, changes, from).ok
    ensures Replay(p, changes, from).last == changes[|changes| - 1].index
    decreases |changes|
  {
    hide ApplyBatch;
    var n := GroupLength(changes);
    var q := ReplayGroup(p, changes[..n], from);
    if n < |changes| {
      ReplayReachesLast(q, changes[n..], from);
    }
  }

  /** A restore that succeeds reports the index its segments end at. */
  lemma {:induction false} SuccessReportsTheEnd<V>(
    p: Progress<V>, from: nat, prev: Option<nat>, segments: seq<Segment<V>>, lo: nat, hi: nat, index: nat)
    requires Linked(segments, lo, hi) && from <= lo && index <= lo
    requires ReplaySegments(p, from, prev, segments).ok
    ensures Reported(p.state, from, prev, segments, index) == if segments == [] then index else LastIndex(segments, lo)
    decreases |segments|
  {
    hide Replay;
    if segments != [] {
      var s := segments[0];
      var bare := Progress(p.state, 0, 0, true);
      ReplayCounts(p, bare, s.changes, from);
      StopsStay(p, from, prev, segments);
      ReplayReachesLast(bare, s.changes, from);
      SuccessReportsTheEnd(Replay(p, s.changes, from), from, Some(s.to), segments[1..], s.to, hi, s.to);
    }
  }

  /** A replay that has failed stays failed. */
  lemma {:induction false} StopsStay<V>(p: Progress<V>, from: nat, prev: Option<nat>, segments: seq<Segment<V>>)
    requires ReplaySegments(p, from, prev, segments).ok
    ensures p.ok
    ensures segments != [] && segments[0].to > from ==> Replay(p, segments[0].changes, from).ok
  {
    hide Replay;
  }

  // ---- what breaks a chain -----------------------------------------------

  /** An index lies between two neighbouring segments, or between `lo` and the first. */
  ghost predicate InGap<V>(segments: seq<Segment<V>>, lo: nat, i: nat)
    decreases |segments|
  {
    segments != [] && (lo < i < segments[0].from || InGap(segments[1..], segments[0].to, i))
  }

  /** The indices a run of batches spent without logging a change. */
  function SilentIndices<V>(s: State<V>, batches: seq<seq<Mutation<V>>>): set<nat>
    decreases |batches|
  {
    if batches == [] then {}
    else (if Silent(s, batches[0]) then {s.index + 1} else {}) + SilentIndices(Commit(s, batches[0]), batches[1..])
  }

  lemma {:induction false} NoSilenceNoIndices<V>(s: State<V>, batches: seq<seq<Mutation<V>>>)
    requires SilentBatches(s, batches) == 0
    ensures SilentIndices(s, batches) == {}
    decreases |batches|
  {
    hide Commit, Silent;
    if batches != [] {
      NoSilenceNoIndices(Commit(s, batches[0]), batches[1..]);
    }
  }

  ghost predicate Logs<V>(c: seq<Change<V>>, i: nat) {
    exists k :: 0 <= k < |c| && c[k].index == i
  }

  /** Every index handed out was logged or spent in silence. */
  lemma {:induction false} LoggedOrSilent<V>(s: State<V>, batches: seq<seq<Mutation<V>>>, i: nat)
    requires s.index < i <= CommitAll(s, batches).index
    ensures i in SilentIndices(s, batches) || Logs(AddedByAll(s, batches), i)
    decreases |batches|
  {
    hide Logged, WriteAll, AllMet, AllValid;
    if batches != [] {
      var next, added := Commit(s, batches[0]), Added(s, batches[0]);
      var rest := AddedByAll(next, batches[1..]);
      if i <= next.index {
        if added != [] {
          LoggedIndex(s.records, s.index + 1, batches[0]);
          assert (added + rest)[0] == added[0] && added[0].index == i;
        }
      } else {
        LoggedOrSilent(next, batches[1..], i);
        if Logs(rest, i) {
          var k :| 0 <= k < |rest| && rest[k].index == i;
          assert (added + rest)[|added| + k] == rest[k];
        }
      }
    }
  }

  lemma {:induction false} GapIsAbove<V>(segments: seq<Segment<V>>, lo: nat, hi: nat, i: nat)
    requires Linked(segments, lo, hi) && InGap(segments, lo, i)
    ensures lo < i <= hi
    decreases |segments|
  {
    LinkedRises(segments, lo, hi);
    if !(lo < i < segments[0].from) {
      GapIsAbove(segments[1..], segments[0].to, hi, i);
    }
  }

  lemma {:induction false} LinkedRises<V>(segments: seq<Segment<V>>, lo: nat, hi: nat)
    requires Linked(segments, lo, hi)
    ensures lo <= hi && (segments != [] ==> segments[0].to <= hi)
    decreases |segments|
  {
    if segments != [] {
      LinkedRises(segments[1..], segments[0].to, hi);
    }
  }

  /** No change in the segments has an index in a gap between them. */
  lemma {:induction false} GapHoldsNoChange<V>(segments: seq<Segment<V>>, lo: nat, hi: nat, i: nat, k: nat)
    requires Linked(segments, lo, hi) && Ascending(Contents(segments)) && InGap(segments, lo, i)
    requires k < |Contents(segments)|
    ensures Contents(segments)[k].index != i
    decreases |segments|
  {
    var s, rest := segments[0], Contents(segments[1..]);
    var all := Contents(segments);
    assert all == s.changes + rest;
    if lo < i < s.from {
      assert all[0].index == s.from && (k > 0 ==> all[0].index <= all[k].index);
    } else {
      GapIsAbove(segments[1..], s.to, hi, i);
      if k < |s.changes| {
        var last := |s.changes| - 1;
        assert all[last].index == s.to && (k < last ==> all[k].index <= all[last].index);
      } else {
        assert Ascending(rest) by {
          forall x, y | 0 <= x < y < |rest| ensures rest[x].index <= rest[y].index {
            assert all[|s.changes| + x] == rest[x] && all[|s.changes| + y] == rest[y];
          }
        }
        GapHoldsNoChange(segments[1..], s.to, hi, i, k - |s.changes|);
      }
    }
  }

  lemma {:induction false} ContiguousHasNoGap<V>(segments: seq<Segment<V>>, lo: nat, i: nat)
    requires Contiguous(segments, lo)
    ensures !InGap(segments, lo, i)
    decreases |segments|
  {
    if segments != [] {
      ContiguousHasNoGap(segments[1..], segments[0].to, i);
    }
  }

  lemma {:induction false} OtherwiseThereIsAGap<V>(segments: seq<Segment<V>>, lo: nat, hi: nat) returns (i: nat)
    requires Linked(segments, lo, hi) && !Contiguous(segments, lo)
    ensures InGap(segments, lo, i)
    decreases |segments|
  {
    if segments[0].from != lo + 1 {
      i := lo + 1;
    } else {
      i := OtherwiseThereIsAGap(segments[1..], segments[0].to, hi);
    }
  }

  /** No batch spent an index in silence between two neighbouring segments, or before the first. */
  ghost predicate NoSilenceBetween<V>(silent: set<nat>, segments: seq<Segment<V>>, lo: nat) {
    forall i :: i in silent ==> !InGap(segments, lo, i)
  }

  /** When the segments hold everything a run logged, silence between them is all that can break the chain. */
  lemma {:induction false} ContiguousIffNoSilenceBetween<V>(
    s: State<V>, batches: seq<seq<Mutation<V>>>, segments: seq<Segment<V>>, hi: nat)
    requires InOrder(s) && Linked(segments, s.index, hi) && hi <= CommitAll(s, batches).index
    requires Contents(segments) == AddedByAll(s, batches)
    ensures Contiguous(segments, s.index) <==> NoSilenceBetween(SilentIndices(s, batches), segments, s.index)
  {
    hide CommitAll, AddedByAll, SilentIndices, Contents, Linked, InGap, Contiguous, Ascending;
    var silent := SilentIndices(s, batches);
    if Contiguous(segments, s.index) {
      forall i | i in silent ensures !InGap(segments, s.index, i) {
        ContiguousHasNoGap(segments, s.index, i);
      }
    } else {
      var i := OtherwiseThereIsAGap(segments, s.index, hi);
      GapIsAbove(segments, s.index, hi, i);
      LoggedOrSilent(s, batches, i);
      AddedAscends(s, batches);
      if Logs(AddedByAll(s, batches), i) {
        var k :| 0 <= k < |AddedByAll(s, batches)| && AddedByAll(s, batches)[k].index == i;
        GapHoldsNoChange(segments, s.index, hi, i, k);
      }
    }
  }

  lemma {:induction false} AddedAscends<V>(s: State<V>, batches: seq<seq<Mutation<V>>>)
    requires InOrder(s)
    ensures Ascending(AddedByAll(s, batches))
  {
    hide CommitAll, AddedByAll;
    AddedIsLogged(s, batches);
    CommitAllKeepsOrder(s, batches);
    var added, all := AddedByAll(s, batches), CommitAll(s, batches).changes;
    forall x, y | 0 <= x < y < |added| ensures added[x].index <= added[y].index {
      assert all[|s.changes| + x] == added[x] && all[|s.changes| + y] == added[y];
    }
  }

  // ---- from a snapshot, with nothing shipped before it -------------------

  /** What restoring snapshot `s` and the segments shipped since it gives, when nothing was skipped. */
  ghost predicate Recovers<V(!new)>(
    s: State<V>, batches: seq<seq<Mutation<V>>>, end: State<V>, since: seq<Segment<V>>, q: Progress<V>)
  {
    && (q.ok <==> NoSilenceBetween(SilentIndices(s, batches), since, s.index))
    && (q.ok ==>
          && SameValues(end.records, q.state.records)
          && q.applied == |end.changes| - |s.changes|
          && (q.state.index == end.index <==> SilentBatches(s, batches) == 0))
    && (SilentBatches(s, batches) == 0 ==> q.ok && q.state.records == end.records)
  }

  /** Segments that hold what a run of batches logged, replayed over the snapshot the run began from. */
  lemma {:induction false} SegmentsRecover<V(!new)>(
    s: State<V>, batches: seq<seq<Mutation<V>>>, segments: seq<Segment<V>>, hi: nat)
    requires InOrder(s) && Linked(segments, s.index, hi) && hi <= CommitAll(s, batches).index
    requires Contents(segments) == AddedByAll(s, batches)
    ensures Recovers(s, batches, CommitAll(s, batches), segments,
                     ReplaySegments(Progress(s, 0, 0, true), s.index, None, segments))
  {
    hide Replay, ReplaySegments, CommitAll, AddedByAll, Contents, Linked, SilentBatches, SilentIndices, SameValues,
         NoSilenceBetween, Contiguous;
    var p := Progress(s, 0, 0, true);
    AddedIsLogged(s, batches);
    ReplayFollowsRun(s, batches, p, s.index) by {
      SameAsItself(s.records);
    }
    AcceptsIffContiguous(p, s.index, None, segments, s.index, hi);
    ContiguousIffNoSilenceBetween(s, batches, segments, hi);
    if SilentBatches(s, batches) == 0 {
      NoSilenceNoIndices(s, batches);
      NothingBetween(segments, s.index);
    }
    if ReplaySegments(p, s.index, None, segments).ok {
      ChainReplaysContents(p, s.index, None, segments, s.index, hi);
    }
  }

  /** With nothing left to ship, the store the run ended with. */
  lemma {:induction false} RecoversFromEmptySink<V(!new)>(s: State<V>, rounds: seq<Round<V>>, maxChanges: nat)
    requires InOrder(s)
    ensures var start := Site(s, s.index, []);
            var end := RunRounds(start, rounds, maxChanges);
            var q := ReplaySegments(Progress(s, 0, 0, true), s.index, None, end.segments);
            NeverSkips(start, rounds, maxChanges) && Backlog(end) == [] ==>
              Recovers(s, AllBatches(rounds), end.store, end.segments, q)
  {
    hide ReplaySegments, Newer, CommitAll, AddedByAll, Ship, NoCut, Contents, Linked, RunRounds, NeverSkips, Recovers;
    var start := Site(s, s.index, []);
    var end := RunRounds(start, rounds, maxChanges);
    if NeverSkips(start, rounds, maxChanges) && Backlog(end) == [] {
      var all := AllBatches(rounds);
      RunFromSnapshot(s, rounds, maxChanges);
      assert Contents(end.segments) == Contents(end.segments) + [] == AddedByAll(s, all);
      SegmentsRecover(s, all, end.segments, end.shipped);
    }
  }

  /** What a run from a snapshot leaves in an empty sink, in the log and in the backlog. */
  lemma {:induction false} RunFromSnapshot<V>(s: State<V>, rounds: seq<Round<V>>, maxChanges: nat)
    requires InOrder(s)
    ensures var start := Site(s, s.index, []);
            var end := RunRounds(start, rounds, maxChanges);
            && end.store == CommitAll(s, AllBatches(rounds)) && InOrder(end.store)
            && s.index <= end.shipped <= end.store.index && Linked(end.segments, s.index, end.shipped)
            && (NeverSkips(start, rounds, maxChanges) ==>
                  Contents(end.segments) + Backlog(end) == AddedByAll(s, AllBatches(rounds)))
  {
    hide Newer, CommitAll, AddedByAll, Ship, NoCut, Contents, Linked, RunRounds, NeverSkips, Backlog;
    var start := Site(s, s.index, []);
    var added := AddedByAll(s, AllBatches(rounds));
    StartIsEmpty(s);
    NothingUnshippedIsLostIff(start, rounds, maxChanges);
    assert [] + [] + added == added;
    RoundsCommitAll(start, rounds, maxChanges);
    RoundsLink(start, rounds, maxChanges, s.index);
    RoundsStayWithin(start, rounds, maxChanges);
    LinkedRises(RunRounds(start, rounds, maxChanges).segments, s.index, RunRounds(start, rounds, maxChanges).shipped);
  }

  // ---- with a backlog left -----------------------------------------------

  /** The batches that had committed when the store reached index `i`. */
  function UpTo<V>(s: State<V>, batches: seq<seq<Mutation<V>>>, i: nat): seq<seq<Mutation<V>>>
    decreases |batches|
  {
    if batches == [] || Commit(s, batches[0]).index > i then []
    else [batches[0]] + UpTo(Commit(s, batches[0]), batches[1..], i)
  }

  /** They are where the run's log divides at that index. */
  lemma {:induction false} UpToDivides<V>(s: State<V>, batches: seq<seq<Mutation<V>>>, i: nat)
    requires s.index <= i <= CommitAll(s, batches).index
    ensures var first := UpTo(s, batches, i);
            && first <= batches && CommitAll(s, first).index == i
            && AddedByAll(s, batches) == AddedByAll(s, first) + AddedByAll(CommitAll(s, first), batches[|first|..])
    decreases |batches|
  {
    hide Logged, WriteAll, AllMet, AllValid;
    var first := UpTo(s, batches, i);
    if batches == [] || Commit(s, batches[0]).index > i {
      assert batches[0..] == batches;
    } else {
      var next := Commit(s, batches[0]);
      var more := UpTo(next, batches[1..], i);
      UpToDivides(next, batches[1..], i);
      assert first[1..] == more && batches[1..][|more|..] == batches[|first|..];
      assert CommitAll(s, first) == CommitAll(next, more);
    }
  }

  /** In order and linked, everything in the segments is at or below where they end. */
  lemma {:induction false} LinkedWithin<V>(segments: seq<Segment<V>>, lo: nat, hi: nat, k: nat)
    requires Linked(segments, lo, hi) && Ascending(Contents(segments)) && k < |Contents(segments)|
    ensures Contents(segments)[k].index <= hi
    decreases |segments|
  {
    var s, rest, all := segments[0], Contents(segments[1..]), Contents(segments);
    assert all == s.changes + rest;
    if k < |s.changes| {
      LinkedRises(segments, lo, hi);
      var last := |s.changes| - 1;
      assert all[last].index == s.to && (k < last ==> all[k].index <= all[last].index);
    } else {
      assert Ascending(rest) by {
        forall x, y | 0 <= x < y < |rest| ensures rest[x].index <= rest[y].index {
          assert all[|s.changes| + x] == rest[x] && all[|s.changes| + y] == rest[y];
        }
      }
      LinkedWithin(segments[1..], s.to, hi, k - |s.changes|);
    }
  }

  /** Whatever is left to ship, the store as it was at the last index shipped. */
  lemma {:induction false} RecoversLastShipped<V(!new)>(s: State<V>, rounds: seq<Round<V>>, maxChanges: nat)
    requires InOrder(s)
    ensures var start := Site(s, s.index, []);
            var end := RunRounds(start, rounds, maxChanges);
            var shipped := UpTo(s, AllBatches(rounds), end.shipped);
            var q := ReplaySegments(Progress(s, 0, 0, true), s.index, None, end.segments);
            NeverSkips(start, rounds, maxChanges) ==>
              shipped <= AllBatches(rounds) && Recovers(s, shipped, CommitAll(s, shipped), end.segments, q)
  {
    hide ReplaySegments, Newer, CommitAll, AddedByAll, Ship, NoCut, Contents, Linked, RunRounds, NeverSkips, Recovers, UpTo;
    var start := Site(s, s.index, []);
    var end := RunRounds(start, rounds, maxChanges);
    if NeverSkips(start, rounds, maxChanges) {
      var all := AllBatches(rounds);
      RunFromSnapshot(s, rounds, maxChanges);
      UpToDivides(s, all, end.shipped);
      var first := UpTo(s, all, end.shipped);
      SegmentsHoldUpTo(s, all, end.segments, Backlog(end), end.shipped) by {
        NewerSplits(end.store.changes, end.shipped);
      }
      SegmentsRecover(s, first, end.segments, end.shipped);
    }
  }

  lemma {:induction false} SegmentsHoldUpTo<V>(
    s: State<V>, batches: seq<seq<Mutation<V>>>, segments: seq<Segment<V>>, backlog: seq<Change<V>>, hi: nat)
    requires InOrder(s) && Linked(segments, s.index, hi) && s.index <= hi <= CommitAll(s, batches).index
    requires Contents(segments) + backlog == AddedByAll(s, batches)
    requires forall i :: 0 <= i < |backlog| ==> hi < backlog[i].index
    ensures Contents(segments) == AddedByAll(s, UpTo(s, batches, hi))
  {
    hide CommitAll, AddedByAll, Contents, Linked, UpTo, Newer;
    var all, first := AddedByAll(s, batches), UpTo(s, batches, hi);
    var shipped := AddedByAll(s, first);
    UpToDivides(s, batches, hi);
    AddedAscends(s, batches);
    assert Ascending(Contents(segments)) by {
      forall x, y | 0 <= x < y < |Contents(segments)| ensures Contents(segments)[x].index <= Contents(segments)[y].index {
        assert all[x] == Contents(segments)[x] && all[y] == Contents(segments)[y];
      }
    }
    forall k | 0 <= k < |Contents(segments)| ensures Contents(segments)[k].index <= hi {
      LinkedWithin(segments, s.index, hi, k);
    }
    NewerIs(Contents(segments), backlog, hi);
    AddedIsLogged(CommitAll(s, first), batches[|first|..]);
    CommitAllKeepsOrder(s, first);
    AddedIsLogged(s, first);
    assert forall k :: 0 <= k < |shipped| ==> shipped[k] == CommitAll(s, first).changes[|s.changes| + k];
    NewerIs(shipped, AddedByAll(CommitAll(s, first), batches[|first|..]), hi);
    assert Contents(segments) == all[..|all| - |backlog|] == shipped;
  }

  lemma {:induction false} NothingBetween<V>(segments: seq<Segment<V>>, lo: nat)
    ensures NoSilenceBetween({}, segments, lo)
  {
  }

  lemma {:induction false} RoundsStayWithin<V>(site: Site<V>, rounds: seq<Round<V>>, maxChanges: nat)
    requires InOrder(site.store) && site.shipped <= site.store.index
    ensures var end := RunRounds(site, rounds, maxChanges);
            InOrder(end.store) && end.shipped <= end.store.index
    decreases |rounds|
  {
    hide Newer, CommitAll, AddedByAll, Ship, NoCut, Contents, InOrder, StepRound;
    if rounds != [] {
      RoundAccounts(site, rounds[0], maxChanges);
      RoundsStayWithin(StepRound(site, rounds[0], maxChanges), rounds[1..], maxChanges);
    }
  }

  lemma {:induction false} SameAsItself<V(!new)>(records: map<Key, Entry<V>>)
    ensures SameValues(records, records)
  {
  }

  lemma {:induction false} StartIsEmpty<V>(s: State<V>)
    requires InOrder(s)
    ensures Contents<V>([]) == [] && Backlog(Site(s, s.index, [])) == []
    ensures Linked<V>([], s.index, s.index)
  {
    assert s.changes + [] == s.changes;
    NewerIs(s.changes, [], s.index);
  }

  // ---- with whatever was shipped before it -------------------------------

  /** Segments from before the snapshot are passed over. */
  lemma {:induction false} EarlierSegmentsAreSkipped<V>(
    p: Progress<V>, from: nat, prev: Option<nat>, earlier: seq<Segment<V>>, later: seq<Segment<V>>, lo: nat)
    requires Linked(earlier, lo, from)
    ensures ReplaySegments(p, from, prev, earlier + later) == ReplaySegments(p, from, prev, later)
    decreases |earlier|
  {
    hide Replay;
    if earlier == [] {
      assert earlier + later == later;
    } else {
      LinkedRises(earlier, lo, from);
      assert (earlier + later)[1..] == earlier[1..] + later;
      EarlierSegmentsAreSkipped(p, from, prev, earlier[1..], later, earlier[0].to);
    }
  }

  /** What was shipped earlier plays no part in what a run does next. */
  lemma {:induction false} EarlierSegmentsAreCarried<V>(site: Site<V>, rounds: seq<Round<V>>, maxChanges: nat, earlier: seq<Segment<V>>)
    ensures var with := site.(segments := earlier + site.segments);
            var end := RunRounds(site, rounds, maxChanges);
            && RunRounds(with, rounds, maxChanges) == end.(segments := earlier + end.segments)
            && (NeverSkips(with, rounds, maxChanges) <==> NeverSkips(site, rounds, maxChanges))
    decreases |rounds|
  {
    hide Newer, CommitAll, Ship, NoCut;
    if rounds != [] {
      var r := rounds[0];
      var with := site.(segments := earlier + site.segments);
      var next := StepRound(site, r, maxChanges);
      var sent := Ship(Pending(site, r), site.shipped, maxChanges, r.uploads).segments;
      assert earlier + site.segments + sent == earlier + (site.segments + sent);
      assert StepRound(with, r, maxChanges) == next.(segments := earlier + next.segments);
      EarlierSegmentsAreCarried(next, rounds[1..], maxChanges, earlier);
    }
  }

  lemma {:induction false} RunRoundsConcat<V>(site: Site<V>, a: seq<Round<V>>, b: seq<Round<V>>, maxChanges: nat)
    ensures RunRounds(site, a + b, maxChanges) == RunRounds(RunRounds(site, a, maxChanges), b, maxChanges)
    decreases |a|
  {
    hide StepRound;
    if a == [] {
      assert a + b == b;
    } else {
      assert (a + b)[1..] == a[1..] + b;
      RunRoundsConcat(StepRound(site, a[0], maxChanges), a[1..], b, maxChanges);
    }
  }

  /** Right after a round that takes a snapshot, the cursor is at the store's index. */
  lemma {:induction false} SnapshotMovesCursor<V>(site: Site<V>, r: Round<V>, maxChanges: nat)
    requires InOrder(site.store) && site.shipped <= site.store.index && r.snapshot
    ensures var next := StepRound(site, r, maxChanges);
            next.shipped == next.store.index
  {
    hide Newer, CommitAll, AddedByAll, Ship, NoCut, Contents;
    RoundAccounts(site, r, maxChanges);
  }

  /**
   Recovery from any snapshot of any run: rounds `before`, a round that takes the snapshot, and rounds
   `after`, over a sink that may hold segments from before the run. If nothing was skipped since the
   snapshot and the backlog is empty, restoring it with the sink's whole list of segments succeeds exactly
   when no batch spent its index in silence between two neighbouring segments shipped since, or before the
   first of them; it then has every value of the lost store, and the store's index exactly when no batch
   was silent at all. With a backlog the same holds of the store as it was at the last index shipped.
   */
  lemma {:induction false} RecoveryReproduces<V(!new)>(
    first: Site<V>, lo: nat, before: seq<Round<V>>, r: Round<V>, after: seq<Round<V>>, maxChanges: nat)
    requires InOrder(first.store) && first.shipped <= first.store.index && Linked(first.segments, lo, first.shipped)
    requires r.snapshot
    ensures var taken := RunRounds(first, before + [r], maxChanges);
            var end := RunRounds(first, before + [r] + after, maxChanges);
            var s := taken.store;
            var q := ReplaySegments(Progress(s, 0, 0, true), s.index, None, end.segments);
            && taken.segments <= end.segments
            && (NeverSkips(taken, after, maxChanges) && Backlog(end) == [] ==>
                  Recovers(s, AllBatches(after), end.store, end.segments[|taken.segments|..], q))
            && (NeverSkips(taken, after, maxChanges) ==>
                  var shipped := UpTo(s, AllBatches(after), end.shipped);
                  && shipped <= AllBatches(after)
                  && Recovers(s, shipped, CommitAll(s, shipped), end.segments[|taken.segments|..], q))
  {
    hide Replay, ReplaySegments, Newer, CommitAll, Ship, NoCut, Linked, NeverSkips, Recovers, StepRound, UpTo;
    var mid := RunRounds(first, before, maxChanges);
    var taken := RunRounds(first, before + [r], maxChanges);
    RunRoundsConcat(first, before, [r], maxChanges);
    var one := [r];
    assert one[1..] == [] && taken == RunRounds(StepRound(mid, r, maxChanges), [], maxChanges);
    RoundsStayWithin(first, before, maxChanges);
    SnapshotMovesCursor(mid, r, maxChanges);
    RoundsLink(first, before + [r], maxChanges, lo);
    RoundsStayWithin(first, before + [r], maxChanges);
    RunRoundsConcat(first, before + [r], after, maxChanges);

    var s, earlier := taken.store, taken.segments;
    var bare := Site(s, s.index, []);
    assert taken == bare.(segments := earlier + bare.segments);
    EarlierSegmentsAreCarried(bare, after, maxChanges, earlier);
    RecoversFromEmptySink(s, after, maxChanges);
    RecoversLastShipped(s, after, maxChanges);
    var since := RunRounds(bare, after, maxChanges).segments;
    assert (earlier + since)[|earlier|..] == since;
    EarlierSegmentsAreSkipped(Progress(s, 0, 0, true), s.index, None, earlier, since, lo);
  }
}

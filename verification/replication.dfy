/**
 Continuous replication (internal/backup/replicate.go, segment.go) and the replay that undoes it
 (internal/backup/restore.go): the change log is shipped in bounded segments named after the indices
 they span, and a restore applies a snapshot's later segments after checking that they chain.
 */
module Replication {
  import opened Wrappers
  import opened StateStore
  import opened ChangeLog
  import opened StoreNames

  /** A shipped run of changes; `readable` is whether it still downloads, decrypts and decodes. */
  datatype Segment<V> = Segment(from: nat, to: nat, changes: seq<Change<V>>, readable: bool)

  ghost predicate Ascending<V>(c: seq<Change<V>>) {
    forall i, j :: 0 <= i < j < |c| ==> c[i].index <= c[j].index
  }

  /** How many changes lie at or below `since`. */
  function OlderCount<V>(c: seq<Change<V>>, since: nat): (k: nat)
    ensures k <= |c|
    ensures forall i :: 0 <= i < k ==> c[i].index <= since
    ensures k < |c| ==> since < c[k].index
  {
    if c == [] || since < c[0].index then 0 else 1 + OlderCount(c[1..], since)
  }

  /** The log after `since`: the cursor seeks past its last change. */
  function Newer<V>(c: seq<Change<V>>, since: nat): seq<Change<V>> {
    c[OlderCount(c, since)..]
  }

  lemma {:induction false} OlderCountIs<V>(c: seq<Change<V>>, since: nat, k: nat)
    requires k <= |c| && (forall i :: 0 <= i < k ==> c[i].index <= since) && (k < |c| ==> since < c[k].index)
    ensures OlderCount(c, since) == k
  {
    if k > 0 {
      OlderCountIs(c[1..], since, k - 1);
    }
  }

  lemma {:induction false} NewerIs<V>(x: seq<Change<V>>, y: seq<Change<V>>, since: nat)
    requires forall i :: 0 <= i < |x| ==> x[i].index <= since
    requires forall i :: 0 <= i < |y| ==> since < y[i].index
    ensures Newer(x + y, since) == y
  {
    hide OlderCount;
    OlderCountIs(x + y, since, |x|);
  }

  // ---- shipping ----------------------------------------------------------

  /** Changes clamps its page, whatever the replicator asked for. */
  function ReadLimit(maxChanges: nat): nat {
    if maxChanges > MAX_LIST_LIMIT then MAX_LIST_LIMIT else maxChanges
  }

  function PageSize<V>(pending: seq<Change<V>>, maxChanges: nat): (n: nat)
    ensures n <= |pending|
  {
    if |pending| < ReadLimit(maxChanges) then |pending| else ReadLimit(maxChanges)
  }

  function SegmentOf<V>(page: seq<Change<V>>): Segment<V>
    requires page != []
  {
    Segment(page[0].index, page[|page| - 1].index, page, true)
  }

  datatype Shipment<V> = Shipment(segments: seq<Segment<V>>, shipped: nat)

  /** ShipOnce over the log after `shipped`, with only so many uploads going through. */
  function Ship<V>(pending: seq<Change<V>>, shipped: nat, maxChanges: nat, uploads: nat): Shipment<V>
    decreases uploads
  {
    var n := PageSize(pending, maxChanges);
    if n == 0 || uploads == 0 then Shipment([], shipped)
    else
      var segment := SegmentOf(pending[..n]);
      if n < maxChanges then Shipment([segment], segment.to)
      else
        var more := Ship(Newer(pending, segment.to), segment.to, maxChanges, uploads - 1);
        Shipment([segment] + more.segments, more.shipped)
  }

  /** Whether a call ends because a short page said there is no more, and not at a failed upload. */
  predicate Delivers<V>(pending: seq<Change<V>>, maxChanges: nat, uploads: nat)
    decreases uploads
  {
    var n := PageSize(pending, maxChanges);
    n == 0 || (uploads > 0 && (n < maxChanges || Delivers(Newer(pending, pending[n - 1].index), maxChanges, uploads - 1)))
  }

  class Replicator<V> {
    const maxChanges: nat
    var shipped: nat
    var sink: seq<Segment<V>>
    var log: seq<Change<V>>  // the store's own, as pruned so far

    constructor (maxChanges: nat, shipped: nat, log: seq<Change<V>>)
      ensures this.maxChanges == maxChanges && this.shipped == shipped && sink == [] && this.log == log
    {
      this.maxChanges, this.shipped, sink, this.log := maxChanges, shipped, [], log;
    }

    /**
     The loop: read a page past the cursor, upload it, move the cursor and prune the log up to it if the
     store lets it, until a short page. Pruning drops nothing that was not shipped.
     */
    method ShipOnce(uploads: nat, prunes: nat -> bool) returns (ok: bool)
      requires Ascending(log)
      modifies this
      ensures var s := Ship(Newer(old(log), old(shipped)), old(shipped), maxChanges, uploads);
              sink == old(sink) + s.segments && shipped == s.shipped
      ensures ok == Delivers(Newer(old(log), old(shipped)), maxChanges, uploads)
      ensures Ascending(log) && Newer(log, shipped) == Newer(old(log), shipped)
    {
      hide Newer, OlderCount, Ascending, ReadLimit, Ship, Delivers;
      var left := uploads;
      ghost var whole := Ship(Newer(log, shipped), shipped, maxChanges, uploads);
      ghost var delivers := Delivers(Newer(log, shipped), maxChanges, uploads);
      while true
        invariant Ascending(log) && old(shipped) <= shipped && Newer(log, shipped) == Newer(old(log), shipped)
        invariant sink + Ship(Newer(log, shipped), shipped, maxChanges, left).segments == old(sink) + whole.segments
        invariant Ship(Newer(log, shipped), shipped, maxChanges, left).shipped == whole.shipped
        invariant Delivers(Newer(log, shipped), maxChanges, left) == delivers
        decreases left
      {
        var pending := Newer(log, shipped);
        var page := pending[..PageSize(pending, maxChanges)];
        ShipUnfolds(pending, shipped, maxChanges, left);
        DeliversUnfolds(pending, maxChanges, left);
        if page == [] {
          return true;
        }
        if left == 0 {
          return false;
        }
        var segment := SegmentOf(page);
        NewerSplits(log, shipped);
        NewerOfNewer(log, shipped, segment.to);
        NewerOfNewer(old(log), shipped, segment.to);
        sink := sink + [segment];
        shipped, left := segment.to, left - 1;
        if prunes(left) {
          NewerSplits(log, shipped);
          NewerOfNewer(log, shipped, shipped);
          log := Newer(log, shipped);
        }
        if |page| < maxChanges {
          return true;
        }
      }
    }
  }

  lemma {:induction false} DeliversUnfolds<V>(pending: seq<Change<V>>, maxChanges: nat, uploads: nat)
    ensures var n := PageSize(pending, maxChanges);
            Delivers(pending, maxChanges, uploads) <==>
              n == 0 || (uploads > 0 && (n < maxChanges || Delivers(Newer(pending, pending[n - 1].index), maxChanges, uploads - 1)))
  {
  }

  lemma {:induction false} ShipUnfolds<V>(pending: seq<Change<V>>, shipped: nat, maxChanges: nat, uploads: nat)
    ensures var n := PageSize(pending, maxChanges);
            var s := Ship(pending, shipped, maxChanges, uploads);
            if n == 0 || uploads == 0 then s == Shipment([], shipped)
            else
              var segment := SegmentOf(pending[..n]);
              if n < maxChanges then s == Shipment([segment], segment.to)
              else
                var more := Ship(Newer(pending, segment.to), segment.to, maxChanges, uploads - 1);
                s.segments == [segment] + more.segments && s.shipped == more.shipped
  {
  }

  lemma {:induction false} NewerSplits<V>(c: seq<Change<V>>, since: nat)
    requires Ascending(c)
    ensures var k := OlderCount(c, since);
            c == c[..k] + Newer(c, since) && Ascending(Newer(c, since))
            && forall i :: 0 <= i < |Newer(c, since)| ==> since < Newer(c, since)[i].index
  {
    hide OlderCount;
    var k := OlderCount(c, since);
    forall i | 0 <= i < |Newer(c, since)| ensures since < Newer(c, since)[i].index {
      assert Newer(c, since)[i] == c[k + i];
      assert i > 0 ==> c[k].index <= c[k + i].index;
    }
  }

  lemma {:induction false} NewerOfNewer<V>(c: seq<Change<V>>, since: nat, to: nat)
    requires Ascending(c) && since <= to
    ensures Newer(c, to) == Newer(Newer(c, since), to)
  {
    hide OlderCount, Ascending;
    var k := OlderCount(c, since);
    var later := c[k..];
    var j := OlderCount(later, to);
    forall i | 0 <= i < k + j ensures c[i].index <= to {
      if i >= k {
        assert c[i] == later[i - k];
      }
    }
    assert k + j < |c| ==> c[k + j] == later[j];
    OlderCountIs(c, to, k + j);
    assert later[j..] == c[k + j..];
  }

  // ---- does everything get shipped? --------------------------------------

  function Contents<V>(segments: seq<Segment<V>>): seq<Change<V>> {
    if segments == [] then [] else segments[0].changes + Contents(segments[1..])
  }

  lemma {:induction false} ContentsConcat<V>(a: seq<Segment<V>>, b: seq<Segment<V>>)
    ensures Contents(a + b) == Contents(a) + Contents(b)
  {
    if a == [] {
      assert a + b == b;
    } else {
      assert (a + b)[1..] == a[1..] + b;
      ContentsConcat(a[1..], b);
    }
  }

  /** No page that gets uploaded ends inside a batch. */
  predicate NoCut<V>(pending: seq<Change<V>>, maxChanges: nat, uploads: nat)
    decreases uploads
  {
    var n := PageSize(pending, maxChanges);
    n == 0 || uploads == 0 ||
    (&& (n < |pending| ==> pending[n].index != pending[n - 1].index)
     && (n < maxChanges || NoCut(Newer(pending, pending[n - 1].index), maxChanges, uploads - 1)))
  }

  /**
   What was shipped together with what is still to ship is the log, exactly when no page ended inside a
   batch: the cursor skips past a batch's index as soon as part of the batch is shipped.
   */
  lemma {:induction false} ShippingLosesNothingIff<V>(pending: seq<Change<V>>, shipped: nat, maxChanges: nat, uploads: nat)
    requires Ascending(pending) && forall i :: 0 <= i < |pending| ==> shipped < pending[i].index
    ensures var s := Ship(pending, shipped, maxChanges, uploads);
            var total := |Contents(s.segments)| + |Newer(pending, s.shipped)|;
            && total <= |pending| && shipped <= s.shipped
            && if NoCut(pending, maxChanges, uploads)
               then Contents(s.segments) + Newer(pending, s.shipped) == pending
               else total < |pending|
    decreases uploads
  {
    hide Newer, OlderCount, ReadLimit, Ship, PageSize, Ascending, Contents, NoCut;
    ShipUnfolds(pending, shipped, maxChanges, uploads);
    var n := PageSize(pending, maxChanges);
    if n == 0 || uploads == 0 {
      NewerIs([], pending, shipped);
      assert [] + pending == pending;
      ContentsNil<V>();
      assert NoCut(pending, maxChanges, uploads) by {
        NothingIsNotCut(pending, maxChanges, uploads);
      }
    } else {
      NoCutUnfolds(pending, maxChanges, uploads);
      var segment := SegmentOf(pending[..n]);
      var rest := Newer(pending, segment.to);
      PageEnds(pending, n);
      if n < maxChanges {
        ContentsCons(segment, []);
        assert pending == pending[..n] + pending[n..];
      } else {
        NewerSplits(pending, segment.to);
        var more := Ship(rest, segment.to, maxChanges, uploads - 1);
        ShippingLosesNothingIff(rest, segment.to, maxChanges, uploads - 1);
        ContentsCons(segment, more.segments);
        NewerOfNewer(pending, segment.to, more.shipped);
        SplitAgrees(pending, n, Contents(more.segments), Newer(rest, more.shipped), rest);
      }
    }
  }

  lemma {:induction false} ContentsNil<V>()
    ensures Contents<V>([]) == []
  {
  }

  lemma {:induction false} ContentsCons<V>(segment: Segment<V>, more: seq<Segment<V>>)
    ensures Contents([segment] + more) == segment.changes + Contents(more)
    ensures Contents([segment]) == segment.changes
  {
    assert [segment][1..] == [];
    assert ([segment] + more)[1..] == more;
  }

  lemma {:induction false} SplitAgrees<V>(pending: seq<Change<V>>, n: nat, a: seq<Change<V>>, b: seq<Change<V>>, rest: seq<Change<V>>)
    requires n <= |pending|
    ensures rest == pending[n..] && a + b == rest ==> (pending[..n] + a) + b == pending
    ensures |pending[..n] + a| == n + |a|
  {
    if rest == pending[n..] && a + b == rest {
      assert (pending[..n] + a) + b == pending[..n] + (a + b);
    }
  }

  /**
   With every upload going through and no page cut, one ShipOnce empties the log exactly when it asks for
   no more than the store will return, or one page holds it all: past the clamp every page is short, and
   a short page ends the loop.
   */
  lemma {:induction false} ShipsEverythingIff<V>(pending: seq<Change<V>>, shipped: nat, maxChanges: nat, uploads: nat)
    requires Ascending(pending) && forall i :: 0 <= i < |pending| ==> shipped < pending[i].index
    requires 0 < maxChanges && |pending| <= uploads && NoCut(pending, maxChanges, uploads)
    ensures Newer(pending, Ship(pending, shipped, maxChanges, uploads).shipped) == []
            <==> maxChanges <= MAX_LIST_LIMIT || |pending| <= MAX_LIST_LIMIT
    decreases uploads
  {
    hide Newer, OlderCount, Ship, Ascending, Contents, NoCut;
    ShipUnfolds(pending, shipped, maxChanges, uploads);
    var n := PageSize(pending, maxChanges);
    if n == 0 {
      assert [] + pending == pending == [];
      NewerIs([], pending, shipped);
    } else {
      var to := pending[n - 1].index;
      PageEnds(pending, n);
      NoCutUnfolds(pending, maxChanges, uploads);
      assert Newer(pending, to) == pending[n..];
      if n >= maxChanges {
        NewerSplits(pending, to);
        ShipsEverythingIff(pending[n..], to, maxChanges, uploads - 1);
        var more := Ship(pending[n..], to, maxChanges, uploads - 1).shipped;
        ShippingLosesNothingIff(pending[n..], to, maxChanges, uploads - 1);
        NewerOfNewer(pending, to, more);
      }
    }
  }

  lemma {:induction false} NothingIsNotCut<V>(pending: seq<Change<V>>, maxChanges: nat, uploads: nat)
    requires PageSize(pending, maxChanges) == 0 || uploads == 0
    ensures NoCut(pending, maxChanges, uploads)
  {
  }

  lemma {:induction false} NoCutUnfolds<V>(pending: seq<Change<V>>, maxChanges: nat, uploads: nat)
    requires PageSize(pending, maxChanges) > 0 && uploads > 0
    ensures var n := PageSize(pending, maxChanges);
            NoCut(pending, maxChanges, uploads) <==>
              && (n < |pending| ==> pending[n].index != pending[n - 1].index)
              && (n >= maxChanges ==> NoCut(Newer(pending, pending[n - 1].index), maxChanges, uploads - 1))
  {
  }

  /** Past a page that ends at a batch boundary comes the rest; past any other, less than the rest. */
  lemma {:induction false} PageEnds<V>(pending: seq<Change<V>>, n: nat)
    requires Ascending(pending) && 0 < n <= |pending|
    ensures var rest := Newer(pending, pending[n - 1].index);
            if n < |pending| && pending[n].index == pending[n - 1].index then |rest| < |pending| - n
            else rest == pending[n..]
  {
    hide OlderCount;
    var to := pending[n - 1].index;
    if n < |pending| && pending[n].index == to {
      OlderCountBeyond(pending, to, n);
    } else {
      assert n < |pending| ==> pending[n - 1].index <= pending[n].index;
      forall i | 0 <= i < n ensures pending[i].index <= to {
        assert i < n - 1 ==> pending[i].index <= pending[n - 1].index;
      }
      OlderCountIs(pending, to, n);
    }
  }

  lemma {:induction false} OlderCountBeyond<V>(c: seq<Change<V>>, since: nat, n: nat)
    requires Ascending(c) && n < |c| && c[n].index <= since
    ensures OlderCount(c, since) > n
  {
    if n > 0 {
      assert c[0].index <= c[n].index;
      OlderCountBeyond(c[1..], since, n - 1);
    }
  }
}

/**
 Paged reads of a bucket (internal/store/bbolt.go) and the loops that read it whole
 (cmd/kanea/certs.go, scaling.go, backup.go).
 */
module Paging {
  import opened Wrappers
  import opened Text
  import opened StoreNames

  datatype Record<V> = Record(key: string, value: V)

  datatype Page<V> = Page(records: seq<Record<V>>, nextAfter: string, more: bool)

  function Limit(asked: int): (n: nat)
    ensures 0 < n <= MAX_LIST_LIMIT
  {
    if asked <= 0 then DEFAULT_LIST_LIMIT else if asked > MAX_LIST_LIMIT then MAX_LIST_LIMIT else asked
  }

  /** A bucket as its cursor walks it: named keys, in order. */
  ghost predicate Bucket<V>(b: seq<Record<V>>) {
    && (forall i :: 0 <= i < |b| ==> b[i].key != "")
    && (forall i, j :: 0 <= i < j < |b| ==> Less(b[i].key, b[j].key))
  }

  /** The records under a prefix. */
  function Matching<V>(b: seq<Record<V>>, prefix: string): seq<Record<V>> {
    if b == [] then []
    else Matching(b[..|b| - 1], prefix) + if prefix <= b[|b| - 1].key then [b[|b| - 1]] else []
  }

  // ---- keys under a prefix are together ----------------------------------

  lemma {:induction false} PrefixIsMin(prefix: string, key: string)
    requires prefix <= key
    ensures !Less(key, prefix)
  {
    if prefix != "" {
      assert prefix[1..] <= key[1..];
      PrefixIsMin(prefix[1..], key[1..]);
    }
  }

  /** Past a key that is not below the prefix and not under it, nothing is under it. */
  lemma {:induction false} PastThePrefix(prefix: string, key: string, later: string)
    requires !Less(key, prefix) && !(prefix <= key) && Less(key, later)
    ensures !(prefix <= later)
  {
    if prefix <= later {
      assert prefix != "" && later != "" && prefix[0] == later[0];
      assert key != "";
      assert prefix[1..] <= later[1..];
      assert prefix == [prefix[0]] + prefix[1..] && key == [key[0]] + key[1..];
      if key[0] == prefix[0] {
        PastThePrefix(prefix[1..], key[1..], later[1..]);
      }
    }
  }

  /** The run of records from `lo` to `hi` is all there is under the prefix. */
  ghost predicate IsRange<V>(b: seq<Record<V>>, prefix: string, lo: nat, hi: nat) {
    && lo <= hi <= |b|
    && (forall i :: 0 <= i < lo ==> Less(b[i].key, prefix))
    && (lo < |b| ==> !Less(b[lo].key, prefix))
    && (forall i :: lo <= i < hi ==> prefix <= b[i].key)
    && (hi < |b| ==> !(prefix <= b[hi].key))
  }

  lemma {:induction false} NoneMatching<V>(b: seq<Record<V>>, prefix: string)
    requires forall i :: 0 <= i < |b| ==> !(prefix <= b[i].key)
    ensures Matching(b, prefix) == []
  {
    if b != [] {
      NoneMatching(b[..|b| - 1], prefix);
    }
  }

  lemma {:induction false} AllMatching<V>(b: seq<Record<V>>, prefix: string)
    requires forall i :: 0 <= i < |b| ==> prefix <= b[i].key
    ensures Matching(b, prefix) == b
  {
    if b != [] {
      AllMatching(b[..|b| - 1], prefix);
      assert b == b[..|b| - 1] + [b[|b| - 1]];
    }
  }

  lemma {:induction false} MatchingConcat<V>(a: seq<Record<V>>, b: seq<Record<V>>, prefix: string)
    ensures Matching(a + b, prefix) == Matching(a, prefix) + Matching(b, prefix)
    decreases |b|
  {
    if b == [] {
      assert a + b == a;
    } else {
      assert (a + b)[..|a + b| - 1] == a + b[..|b| - 1];
      MatchingConcat(a, b[..|b| - 1], prefix);
    }
  }

  lemma {:induction false} RangeIsMatching<V>(b: seq<Record<V>>, prefix: string, lo: nat, hi: nat)
    requires Bucket(b) && IsRange(b, prefix, lo, hi)
    ensures b[lo..hi] == Matching(b, prefix)
  {
    hide Less, Matching, Bucket;
    var before, range, after := b[..lo], b[lo..hi], b[hi..];
    assert Matching(before, prefix) == [] by {
      forall i | 0 <= i < lo ensures !(prefix <= before[i].key) {
        if prefix <= b[i].key {
          PrefixIsMin(prefix, b[i].key);
        }
      }
      NoneMatching(before, prefix);
    }
    AllMatching(range, prefix);
    assert Matching(after, prefix) == [] by {
      forall i | 0 <= i < |after| ensures !(prefix <= after[i].key) {
        PastTheRange(b, prefix, lo, hi, hi + i);
      }
      NoneMatching(after, prefix);
    }
    MatchingConcat(before, range, prefix);
    MatchingConcat(before + range, after, prefix);
    assert b == before + range + after;
  }

  lemma {:induction false} PastTheRange<V>(b: seq<Record<V>>, prefix: string, lo: nat, hi: nat, i: nat)
    requires Bucket(b) && IsRange(b, prefix, lo, hi) && hi <= i < |b|
    ensures !(prefix <= b[i].key)
  {
    hide Less;
    if i > hi {
      NotBelow(b, prefix, lo, hi);
      PastThePrefix(prefix, b[hi].key, b[i].key);
    }
  }

  lemma {:induction false} NotBelow<V>(b: seq<Record<V>>, prefix: string, lo: nat, hi: nat)
    requires Bucket(b) && IsRange(b, prefix, lo, hi) && hi < |b|
    ensures !Less(b[hi].key, prefix)
  {
    if lo < hi && Less(b[hi].key, prefix) {
      LessTransitive(b[lo].key, b[hi].key, prefix);
    }
  }

  // ---- one page ----------------------------------------------------------

  /** How many leading keys are below this one. */
  function Below<V>(b: seq<Record<V>>, key: string): (i: nat)
    ensures i <= |b| && (i < |b| ==> !Less(b[i].key, key))
    ensures forall k :: 0 <= k < i ==> Less(b[k].key, key)
  {
    if b == [] || !Less(b[0].key, key) then 0 else 1 + Below(b[1..], key)
  }

  /** Where the run of keys under the prefix that starts at `from` ends. */
  function RunEnd<V>(b: seq<Record<V>>, prefix: string, from: nat): (e: nat)
    requires from <= |b|
    ensures from <= e <= |b| && (e < |b| ==> !(prefix <= b[e].key))
    ensures forall k :: from <= k < e ==> prefix <= b[k].key
    decreases |b| - from
  {
    if from == |b| || !(prefix <= b[from].key) then from else RunEnd(b, prefix, from + 1)
  }

  /** Where a page starts: past `after`, whether or not that key is still there, or at the prefix. */
  function PageStart<V>(b: seq<Record<V>>, prefix: string, after: string): (i: nat)
    ensures i <= |b|
  {
    if after == "" then Below(b, prefix)
    else
      var i := Below(b, after);
      if i < |b| && b[i].key == after then i + 1 else i
  }

  method List<V>(b: seq<Record<V>>, prefix: string, after: string, limit: int) returns (page: Page<V>)
    ensures var from := PageStart(b, prefix, after);
            var end := RunEnd(b, prefix, from);
            && page.records == b[from..Min(end, from + Limit(limit))]
            && (page.more <==> from + Limit(limit) < end)
            && page.nextAfter == if page.more then b[from + Limit(limit) - 1].key else ""
  {
    hide Less, Limit, PageStart, RunEnd;
    var i := FirstPosition(b, prefix, after);
    page := Collect(b, prefix, i, Limit(limit));
  }

  /** The cursor's first position, by the options given. */
  method FirstPosition<V>(b: seq<Record<V>>, prefix: string, after: string) returns (i: nat)
    ensures i == PageStart(b, prefix, after)
  {
    hide Less, Below;
    if after != "" {
      i := Seek(b, after);
      if i < |b| && b[i].key == after {
        i := i + 1;
      }
    } else if |prefix| > 0 {
      i := Seek(b, prefix);
    } else {
      i := 0;
      NothingBelowEmpty(b);
    }
  }

  /** The cursor's Seek: the first key at or after this one. */
  method Seek<V>(b: seq<Record<V>>, key: string) returns (i: nat)
    ensures i == Below(b, key)
  {
    i := 0;
    while i < |b| && Less(b[i].key, key)
      invariant i <= |b| && i + Below(b[i..], key) == Below(b, key)
    {
      assert b[i..][1..] == b[i + 1..];
      i := i + 1;
    }
  }

  lemma {:induction false} NothingBelowEmpty<V>(b: seq<Record<V>>)
    ensures Below(b, "") == 0
  {
  }

  /** Records from `from` while they are under the prefix, up to the limit. */
  method Collect<V>(b: seq<Record<V>>, prefix: string, from: nat, n: nat) returns (page: Page<V>)
    requires from <= |b| && n > 0
    ensures var end := RunEnd(b, prefix, from);
            && page.records == b[from..Min(end, from + n)]
            && (page.more <==> from + n < end)
            && page.nextAfter == if page.more then b[from + n - 1].key else ""
  {
    hide RunEnd;
    page := Page([], "", false);
    var i := from;
    while i < |b|
      invariant from <= i <= RunEnd(b, prefix, from) && i - from <= n
      invariant page.records == b[from..i] && !page.more
      invariant page.nextAfter == if i == from then "" else b[i - 1].key
    {
      if |prefix| > 0 && !(prefix <= b[i].key) {
        break;
      }
      assert i < RunEnd(b, prefix, from);
      if |page.records| == n {
        return page.(more := true);
      }
      page := page.(records := page.records + [b[i]], nextAfter := b[i].key);
      i := i + 1;
    }
    page := page.(nextAfter := "");
  }

  // ---- reading a bucket whole --------------------------------------------

  /** The records under the prefix are one run, found where the first page starts. */
  lemma {:induction false} WholeRange<V>(b: seq<Record<V>>, prefix: string)
    requires Bucket(b)
    ensures var lo := PageStart(b, prefix, "");
            b[lo..RunEnd(b, prefix, lo)] == Matching(b, prefix)
  {
    hide Below, RunEnd, Matching, Bucket;
    var lo := PageStart(b, prefix, "");
    RangeIsMatching(b, prefix, lo, RunEnd(b, prefix, lo));
  }

  /** A page that resumes after a key of the bucket starts right past it, in the same run. */
  lemma {:induction false} Resumes<V>(b: seq<Record<V>>, prefix: string, lo: nat, at: nat)
    requires Bucket(b) && lo <= |b| && lo <= at < RunEnd(b, prefix, lo)
    ensures PageStart(b, prefix, b[at].key) == at + 1 && b[at].key != ""
    ensures RunEnd(b, prefix, at + 1) == RunEnd(b, prefix, lo)
  {
    hide Less, Below, RunEnd;
    LessIrreflexive(b[at].key);
    BelowIs(b, b[at].key, at);
    RunEndIs(b, prefix, at + 1, RunEnd(b, prefix, lo));
  }

  lemma {:induction false} BelowIs<V>(b: seq<Record<V>>, key: string, i: nat)
    requires i <= |b| && (i < |b| ==> !Less(b[i].key, key)) && forall k :: 0 <= k < i ==> Less(b[k].key, key)
    ensures Below(b, key) == i
  {
    if i > 0 {
      BelowIs(b[1..], key, i - 1);
    }
  }

  lemma {:induction false} RunEndIs<V>(b: seq<Record<V>>, prefix: string, from: nat, e: nat)
    requires from <= e <= |b| && (e < |b| ==> !(prefix <= b[e].key)) && forall k :: from <= k < e ==> prefix <= b[k].key
    ensures RunEnd(b, prefix, from) == e
    decreases |b| - from
  {
    if from < e {
      RunEndIs(b, prefix, from + 1, e);
    }
  }

  /** Page after page until there are no more: every record under the prefix, once, in key order. */
  method ListAll<V>(b: seq<Record<V>>, prefix: string, limit: int) returns (out: seq<Record<V>>)
    requires Bucket(b)
    ensures out == Matching(b, prefix)
  {
    hide Less, Matching, Bucket, Limit, PageStart, RunEnd;
    WholeRange(b, prefix);
    ghost var lo := PageStart(b, prefix, "");
    ghost var hi := RunEnd(b, prefix, lo);
    ghost var from := lo;
    out := [];
    var after := "";
    while true
      invariant lo <= from <= hi && out == b[lo..from]
      invariant from == PageStart(b, prefix, after) && hi == RunEnd(b, prefix, from)
      decreases hi - from
    {
      var page := List(b, prefix, after, limit);
      out := out + page.records;
      if !page.more {
        return;
      }
      Resumes(b, prefix, from, from + Limit(limit) - 1);
      from, after := from + Limit(limit), page.nextAfter;
    }
  }

  /** Counting, the same way. */
  method CountKind<V>(b: seq<Record<V>>) returns (count: nat)
    requires Bucket(b)
    ensures count == |b|
  {
    hide Less, Matching, Bucket, PageStart, RunEnd;
    WholeRange(b, "");
    AllMatching(b, "");
    ghost var lo := PageStart(b, "", "");
    ghost var hi := RunEnd(b, "", lo);
    ghost var from := lo;
    count := 0;
    var after := "";
    while true
      invariant lo <= from <= hi && count == from - lo
      invariant from == PageStart(b, "", after) && hi == RunEnd(b, "", from)
      decreases hi - from
    {
      var page := List(b, "", after, 500);
      count := count + |page.records|;
      if !page.more {
        return;
      }
      Resumes(b, "", from, from + 499);
      from, after := from + 500, page.nextAfter;
    }
  }

  // ---- seeding cooldowns -------------------------------------------------

  /** A cooldown record's content: the time, or nothing that decodes. */
  type Cooldowns = seq<Record<Option<int>>>

  function ServiceOf(key: string): string {
    if COOLDOWN_PREFIX <= key then key[|COOLDOWN_PREFIX|..] else key
  }

  /** A readable record of a service that still exists. */
  predicate Keeps(r: Record<Option<int>>, live: set<string>) {
    ServiceOf(r.key) in live && r.value.Some?
  }

  function Applied(rs: Cooldowns, live: set<string>): seq<(string, int)> {
    if rs == [] then []
    else
      var r := rs[|rs| - 1];
      Applied(rs[..|rs| - 1], live) + if Keeps(r, live) then [(ServiceOf(r.key), r.value.value)] else []
  }

  function Stale(rs: Cooldowns, live: set<string>): seq<string> {
    if rs == [] then []
    else
      var r := rs[|rs| - 1];
      Stale(rs[..|rs| - 1], live) + if Keeps(r, live) then [] else [r.key]
  }

  method SeedCooldowns(services: seq<Record<string>>, kv: Cooldowns, limit: int)
    returns (applied: seq<(string, int)>, stale: seq<string>)
    requires Bucket(services) && Bucket(kv)
    ensures var live := set i | 0 <= i < |services| :: services[i].value;
            && applied == Applied(Matching(kv, COOLDOWN_PREFIX), live)
            && stale == Stale(Matching(kv, COOLDOWN_PREFIX), live)
  {
    hide Keeps, Applied, Stale;
    var all := ListAll(services, "", limit);
    AllMatching(services, "");
    var live := set i | 0 <= i < |all| :: all[i].value;
    applied, stale := SeedUnder(kv, COOLDOWN_PREFIX, live, limit);
  }

  /** Page by page over the records under the prefix. */
  method SeedUnder(kv: Cooldowns, prefix: string, live: set<string>, limit: int)
    returns (applied: seq<(string, int)>, stale: seq<string>)
    requires Bucket(kv)
    ensures applied == Applied(Matching(kv, prefix), live) && stale == Stale(Matching(kv, prefix), live)
  {
    hide Less, Matching, Bucket, PageStart, RunEnd, Limit, Keeps, Applied, Stale, ServiceOf;
    WholeRange(kv, prefix);
    NothingSeeded(live);
    ghost var lo := PageStart(kv, prefix, "");
    ghost var hi := RunEnd(kv, prefix, lo);
    ghost var from := lo;
    assert kv[lo..from] == [];
    applied, stale := [], [];
    var after := "";
    while true
      invariant lo <= from <= hi
      invariant from == PageStart(kv, prefix, after) && hi == RunEnd(kv, prefix, from)
      invariant applied == Applied(kv[lo..from], live) && stale == Stale(kv[lo..from], live)
      decreases hi - from
    {
      var page := List(kv, prefix, after, limit);
      applied, stale := SeedPage(kv[lo..from], page.records, live, applied, stale);
      assert kv[lo..from] + page.records == kv[lo..from + |page.records|];
      if !page.more {
        return;
      }
      Resumes(kv, prefix, from, from + Limit(limit) - 1);
      from, after := from + Limit(limit), page.nextAfter;
    }
  }

  lemma {:induction false} NothingSeeded(live: set<string>)
    ensures Applied([], live) == [] && Stale([], live) == []
  {
  }

  /** One page of cooldown records. */
  method SeedPage(ghost before: Cooldowns, records: Cooldowns, live: set<string>, applied: seq<(string, int)>, stale: seq<string>)
    returns (nowApplied: seq<(string, int)>, nowStale: seq<string>)
    requires applied == Applied(before, live) && stale == Stale(before, live)
    ensures nowApplied == Applied(before + records, live) && nowStale == Stale(before + records, live)
  {
    nowApplied, nowStale := applied, stale;
    assert before + records[..0] == before;
    for i := 0 to |records|
      invariant nowApplied == Applied(before + records[..i], live)
      invariant nowStale == Stale(before + records[..i], live)
    {
      var rec := records[i];
      ghost var upTo := before + records[..i + 1];
      assert upTo[..|upTo| - 1] == before + records[..i] && upTo[|upTo| - 1] == rec;
      var service := ServiceOf(rec.key);
      if service !in live {
        nowStale := nowStale + [rec.key];
        continue;
      }
      if rec.value.None? {
        nowStale := nowStale + [rec.key];
        continue;
      }
      nowApplied := nowApplied + [(service, rec.value.value)];
    }
    assert records[..|records|] == records;
  }

  /** The entry is a live service with the time its record holds. */
  ghost predicate FromKept(rs: Cooldowns, live: set<string>, e: (string, int)) {
    e.0 in live && exists i :: 0 <= i < |rs| && rs[i] == Record("scaling/cooldown/" + e.0, Some(e.1))
  }

  /** The key is that of a record that does not decode, or of a service that is no longer there. */
  ghost predicate FromRest(rs: Cooldowns, live: set<string>, key: string) {
    exists i :: 0 <= i < |rs| && key == rs[i].key && IsStale(rs[i], live)
  }

  /** The records a seeding reads are under the prefix. */
  ghost predicate AllCooldowns(rs: Cooldowns) {
    forall i :: 0 <= i < |rs| ==> COOLDOWN_PREFIX <= rs[i].key
  }

  lemma {:induction false} MatchingIff<V>(b: seq<Record<V>>, prefix: string)
    ensures forall r :: r in Matching(b, prefix) <==> r in b && prefix <= r.key
  {
    if b != [] {
      MatchingIff(b[..|b| - 1], prefix);
    }
  }

  /** Keeps, by the key alone. */
  lemma {:induction false} KeepsIff(r: Record<Option<int>>, live: set<string>)
    requires COOLDOWN_PREFIX <= r.key
    ensures r.key == "scaling/cooldown/" + ServiceOf(r.key)
    ensures forall service :: r.key == "scaling/cooldown/" + service ==> service == ServiceOf(r.key)
    ensures Keeps(r, live) <==> r.value.Some? && ServiceOf(r.key) in live
  {
    var n := |COOLDOWN_PREFIX|;
    forall service | r.key == "scaling/cooldown/" + service ensures service == ServiceOf(r.key) {
      assert ("scaling/cooldown/" + service)[n..] == service;
    }
  }

  /** Exactly the readable records of live services are applied, exactly the rest are marked, each once. */
  lemma {:induction false} SeedingSplits(rs: Cooldowns, live: set<string>)
    requires AllCooldowns(rs)
    ensures forall e :: e in Applied(rs, live) <==> FromKept(rs, live, e)
    ensures forall key :: key in Stale(rs, live) <==> FromRest(rs, live, key)
    ensures |Applied(rs, live)| + |Stale(rs, live)| == |rs|
  {
    hide *;
    SeedingCounts(rs, live);
    forall e ensures e in Applied(rs, live) <==> FromKept(rs, live, e) {
      AppliedIff(rs, live, e);
    }
    forall key ensures key in Stale(rs, live) <==> FromRest(rs, live, key) {
      StaleIff(rs, live, key);
    }
  }

  lemma {:induction false} AppliedIff(rs: Cooldowns, live: set<string>, e: (string, int))
    requires AllCooldowns(rs)
    ensures e in Applied(rs, live) <==> FromKept(rs, live, e)
  {
    hide ServiceOf, Keeps;
    if rs != [] {
      var front, r := rs[..|rs| - 1], rs[|rs| - 1];
      AppliedIff(front, live, e);
      KeepsIff(r, live);
      var here := e.0 in live && r == Record("scaling/cooldown/" + e.0, Some(e.1));
      assert here <==> Keeps(r, live) && e == (ServiceOf(r.key), r.value.value);
      assert FromKept(rs, live, e) <==> FromKept(front, live, e) || here by {
        if FromKept(front, live, e) {
          var i :| 0 <= i < |front| && front[i] == Record("scaling/cooldown/" + e.0, Some(e.1));
          assert rs[i] == front[i];
        }
        if FromKept(rs, live, e) {
          var i :| 0 <= i < |rs| && rs[i] == Record("scaling/cooldown/" + e.0, Some(e.1));
          assert i < |front| ==> front[i] == rs[i];
        }
      }
    }
  }

  /** The record is stale: unreadable, or of no live service. */
  ghost predicate IsStale(r: Record<Option<int>>, live: set<string>) {
    r.value == None || forall service :: service in live ==> r.key != "scaling/cooldown/" + service
  }

  lemma {:induction false} StaleIff(rs: Cooldowns, live: set<string>, key: string)
    requires AllCooldowns(rs)
    ensures key in Stale(rs, live) <==> FromRest(rs, live, key)
  {
    hide ServiceOf, Keeps;
    if rs != [] {
      var front, r := rs[..|rs| - 1], rs[|rs| - 1];
      StaleIff(front, live, key);
      KeepsIff(r, live);
      assert !Keeps(r, live) <==> IsStale(r, live);
      assert FromRest(rs, live, key) <==> FromRest(front, live, key) || (key == r.key && IsStale(r, live)) by {
        if FromRest(front, live, key) {
          var i :| 0 <= i < |front| && key == front[i].key && IsStale(front[i], live);
          assert rs[i] == front[i];
        }
        if FromRest(rs, live, key) {
          var i :| 0 <= i < |rs| && key == rs[i].key && IsStale(rs[i], live);
          assert i < |front| ==> front[i] == rs[i];
        }
      }
    }
  }

  lemma {:induction false} SeedingCounts(rs: Cooldowns, live: set<string>)
    ensures |Applied(rs, live)| + |Stale(rs, live)| == |rs|
  {
    if rs != [] {
      SeedingCounts(rs[..|rs| - 1], live);
    }
  }

  /** A page holds what was asked for, at most a thousand, and a hundred when nothing sensible was asked. */
  lemma {:induction false} LimitLaw(asked: int)
    ensures Limit(asked) == if 1 <= asked <= 1000 then asked else if asked > 1000 then 1000 else 100
  {
  }
}

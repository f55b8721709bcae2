/** What the store's readers and writers agree on (internal/store/store.go, cmd/kanea/scaling.go). */
module StoreNames {

  const DEFAULT_LIST_LIMIT := 100
  const MAX_LIST_LIMIT := 1000

  /** Where cooldown records live in the kv bucket. */
  const COOLDOWN_PREFIX := "scaling/cooldown/"
}

/**
 The state store's write path (internal/store/bbolt.go): one index per batch, preconditions checked before
 anything is written, and one change-log entry for every mutation that had an effect.
 */
module StateStore {
  import opened Wrappers

  datatype Kind = KindService | KindKV | KindOther(name: string)

  datatype Key = Key(kind: Kind, name: string)

  /** A stored record and the index of the batch that wrote it. */
  datatype Entry<V> = Entry(index: nat, value: V)

  datatype Op<V> = Put(value: V) | Delete

  datatype Mutation<V> = Mutation(op: Op<V>, key: Key, prevIndex: nat, expectAbsent: bool) {
    predicate Valid() {
      key.name != "" && !(prevIndex > 0 && expectAbsent)
    }
  }

  datatype Change<V> = Change(index: nat, op: Op<V>, key: Key)

  datatype Error = Invalid | Conflict

  datatype State<V> = Snapshot(index: nat, records: map<Key, Entry<V>>, changes: seq<Change<V>>)

  /** The mutation's precondition, against the records as the batch found them. */
  predicate Met<V>(records: map<Key, Entry<V>>, m: Mutation<V>) {
    && (m.expectAbsent ==> m.key !in records)
    && (m.prevIndex > 0 ==> m.key in records && records[m.key].index == m.prevIndex)
  }

  function Write<V>(records: map<Key, Entry<V>>, index: nat, m: Mutation<V>): map<Key, Entry<V>> {
    match m.op
    case Put(value) => records[m.key := Entry(index, value)]
    case Delete => records - {m.key}
  }

  function WriteAll<V>(records: map<Key, Entry<V>>, index: nat, ms: seq<Mutation<V>>): map<Key, Entry<V>> {
    if ms == [] then records
    else Write(WriteAll(records, index, ms[..|ms| - 1]), index, ms[|ms| - 1])
  }

  /** Deleting a missing key is the one mutation without an effect. */
  predicate Effective<V>(records: map<Key, Entry<V>>, m: Mutation<V>) {
    m.op.Put? || m.key in records
  }

  /** The log entries of a batch. */
  function Logged<V>(records: map<Key, Entry<V>>, index: nat, ms: seq<Mutation<V>>): seq<Change<V>> {
    if ms == [] then []
    else
      var before := ms[..|ms| - 1];
      var m := ms[|ms| - 1];
      Logged(records, index, before)
      + if Effective(WriteAll(records, index, before), m) then [Change(index, m.op, m.key)] else []
  }

  predicate AllValid<V>(ms: seq<Mutation<V>>) {
    forall i :: 0 <= i < |ms| ==> ms[i].Valid()
  }

  predicate AllMet<V>(records: map<Key, Entry<V>>, ms: seq<Mutation<V>>) {
    forall i :: 0 <= i < |ms| ==> Met(records, ms[i])
  }

  /** Store.Apply: all of the batch or none of it. */
  function ApplyBatch<V>(s: State<V>, ms: seq<Mutation<V>>): Result<State<V>, Error> {
    if !AllValid(ms) then Err(Invalid)
    else if ms == [] then Ok(s)
    else if !AllMet(s.records, ms) then Err(Conflict)
    else Ok(Snapshot(s.index + 1, WriteAll(s.records, s.index + 1, ms), s.changes + Logged(s.records, s.index + 1, ms)))
  }

  class Store<V> {
    var index: nat
    var records: map<Key, Entry<V>>
    var changes: seq<Change<V>>

    function State(): State<V>
      reads this
    {
      Snapshot(index, records, changes)
    }

    constructor ()
      ensures State() == Snapshot(0, map[], [])
    {
      index, records, changes := 0, map[], [];
    }

    /** Two passes, preconditions then writes, so a conflict leaves the store untouched. */
    method Apply(ms: seq<Mutation<V>>) returns (r: Result<nat, Error>)
      modifies this
      ensures match ApplyBatch(old(State()), ms)
              case Ok(s) => State() == s && r == Ok(s.index)
              case Err(e) => State() == old(State()) && r == Err(e)
    {
      for i := 0 to |ms|
        invariant forall k :: 0 <= k < i ==> ms[k].Valid()
      {
        if !ms[i].Valid() {
          return Err(Invalid);
        }
      }
      if |ms| == 0 {
        return Ok(index);
      }
      var next := index + 1;
      for i := 0 to |ms|
        invariant forall k :: 0 <= k < i ==> Met(records, ms[k])
      {
        var m := ms[i];
        if m.prevIndex != 0 || m.expectAbsent {
          if m.expectAbsent && m.key in records {
            return Err(Conflict);
          }
          if m.prevIndex > 0 && m.key !in records {
            return Err(Conflict);
          }
          if m.prevIndex > 0 && records[m.key].index != m.prevIndex {
            return Err(Conflict);
          }
        }
      }
      var written, log := records, changes;
      for i := 0 to |ms|
        invariant written == WriteAll(records, next, ms[..i])
        invariant log == changes + Logged(records, next, ms[..i])
      {
        var m := ms[i];
        assert ms[..i + 1][..i] == ms[..i];
        if m.op.Put? {
          written := written[m.key := Entry(next, m.op.value)];
        } else if m.key in written {
          written := written - {m.key};
        } else {
          assert written - {m.key} == written;
          continue;
        }
        log := log + [Change(next, m.op, m.key)];
      }
      assert ms[..|ms|] == ms;
      records, changes, index := written, log, next;
      return Ok(index);
    }
  }

  // ---- what a committed batch leaves behind ------------------------------

  /** Every record and every log entry carries an index the store has already handed out. */
  ghost predicate Indexed<V>(s: State<V>) {
    && (forall k :: k in s.records ==> 0 < s.records[k].index <= s.index)
    && (forall i :: 0 <= i < |s.changes| ==> 0 < s.changes[i].index <= s.index)
  }

  /** A key either keeps its entry or was written or deleted by this batch. */
  lemma {:induction false} WriteAllTouches<V>(records: map<Key, Entry<V>>, index: nat, ms: seq<Mutation<V>>, k: Key)
    ensures var after := WriteAll(records, index, ms);
            || (k in after && after[k].index == index)
            || (k !in after && exists i :: 0 <= i < |ms| && ms[i].key == k && ms[i].op.Delete?)
            || ((k in after <==> k in records) && (k in after ==> after[k] == records[k]))
  {
    if ms != [] {
      var before := ms[..|ms| - 1];
      WriteAllTouches(records, index, before, k);
      if ms[|ms| - 1].key != k && k !in WriteAll(records, index, before) &&
         (exists i :: 0 <= i < |before| && before[i].key == k && before[i].op.Delete?)
      {
        var i :| 0 <= i < |before| && before[i].key == k && before[i].op.Delete?;
        assert ms[i] == before[i];
      }
    }
  }

  /** Keys a batch does not name keep their entries. */
  lemma {:induction false} WriteAllFrame<V>(records: map<Key, Entry<V>>, index: nat, ms: seq<Mutation<V>>, k: Key)
    requires forall i :: 0 <= i < |ms| ==> ms[i].key != k
    ensures var after := WriteAll(records, index, ms);
            (k in after <==> k in records) && (k in after ==> after[k] == records[k])
  {
    if ms != [] {
      WriteAllFrame(records, index, ms[..|ms| - 1], k);
    }
  }

  lemma {:induction false} LoggedIndex<V>(records: map<Key, Entry<V>>, index: nat, ms: seq<Mutation<V>>)
    ensures forall i :: 0 <= i < |Logged(records, index, ms)| ==> Logged(records, index, ms)[i].index == index
  {
    if ms != [] {
      LoggedIndex(records, index, ms[..|ms| - 1]);
    }
  }

  lemma {:induction false} ApplyKeepsIndexed<V>(s: State<V>, ms: seq<Mutation<V>>)
    requires Indexed(s) && ApplyBatch(s, ms).Ok?
    ensures Indexed(ApplyBatch(s, ms).value)
  {
    if ms != [] {
      var t := ApplyBatch(s, ms).value;
      LoggedIndex(s.records, s.index + 1, ms);
      forall k | k in t.records ensures 0 < t.records[k].index <= t.index {
        WriteAllTouches(s.records, s.index + 1, ms, k);
      }
    }
  }

  // ---- what a batch does, key by key -------------------------------------

  /** Mutation `j` is the last of the batch to name the key. */
  ghost predicate LastToName<V>(ms: seq<Mutation<V>>, k: Key, j: nat) {
    j < |ms| && ms[j].key == k && forall i :: j < i < |ms| ==> ms[i].key != k
  }

  lemma {:induction false} WriteAllByKey<V>(records: map<Key, Entry<V>>, index: nat, ms: seq<Mutation<V>>, k: Key, j: nat)
    requires LastToName(ms, k, j)
    ensures var after := WriteAll(records, index, ms);
            match ms[j].op
            case Put(value) => k in after && after[k] == Entry(index, value)
            case Delete => k !in after
  {
    if j < |ms| - 1 {
      WriteAllByKey(records, index, ms[..|ms| - 1], k, j);
    }
  }

  /**
   A committed batch: it takes one index; a key no mutation names keeps its entry; of a key that is named
   the last mutation decides, a put leaving its value at the new index and a delete leaving nothing.
   */
  lemma {:induction false} LastMutationDecides<V>(s: State<V>, ms: seq<Mutation<V>>, k: Key)
    requires ApplyBatch(s, ms).Ok? && ms != []
    ensures var t := ApplyBatch(s, ms).value;
            && t.index == s.index + 1
            && ((forall i :: 0 <= i < |ms| ==> ms[i].key != k) ==>
                  (k in t.records <==> k in s.records) && (k in t.records ==> t.records[k] == s.records[k]))
            && forall j: nat :: LastToName(ms, k, j) ==>
                 match ms[j].op
                 case Put(value) => k in t.records && t.records[k] == Entry(s.index + 1, value)
                 case Delete => k !in t.records
  {
    if forall i :: 0 <= i < |ms| ==> ms[i].key != k {
      WriteAllFrame(s.records, s.index + 1, ms, k);
    }
    forall j: nat | LastToName(ms, k, j)
      ensures match ms[j].op
              case Put(value) => k in ApplyBatch(s, ms).value.records && ApplyBatch(s, ms).value.records[k] == Entry(s.index + 1, value)
              case Delete => k !in ApplyBatch(s, ms).value.records
    {
      WriteAllByKey(s.records, s.index + 1, ms, k, j);
    }
  }

  /** A mutation that is malformed whatever the store holds: no key, or two preconditions at odds. */
  predicate Malformed<V>(m: Mutation<V>) {
    m.key.name == "" || (m.prevIndex != 0 && m.expectAbsent)
  }

  /** A precondition the records do not meet: a key that should not be there, or not at that index. */
  predicate Unmet<V>(records: map<Key, Entry<V>>, m: Mutation<V>) {
    if m.expectAbsent then m.key in records
    else m.prevIndex != 0 && !(m.key in records && records[m.key].index == m.prevIndex)
  }

  /** When a batch is refused, and for which reason. */
  lemma {:induction false} RefusedIff<V>(s: State<V>, ms: seq<Mutation<V>>)
    ensures ApplyBatch(s, ms) == Err(Invalid) <==> exists i :: 0 <= i < |ms| && Malformed(ms[i])
    ensures ApplyBatch(s, ms) == Err(Conflict) <==>
              (forall i :: 0 <= i < |ms| ==> !Malformed(ms[i])) && exists i :: 0 <= i < |ms| && Unmet(s.records, ms[i])
  {
    assert forall i :: 0 <= i < |ms| ==> (ms[i].Valid() <==> !Malformed(ms[i]));
    assert forall i :: 0 <= i < |ms| && ms[i].Valid() ==> (Met(s.records, ms[i]) <==> !Unmet(s.records, ms[i]));
    if !AllValid(ms) {
      var i :| 0 <= i < |ms| && !ms[i].Valid();
      assert Malformed(ms[i]);
    } else if !AllMet(s.records, ms) {
      var i :| 0 <= i < |ms| && !Met(s.records, ms[i]);
      assert Unmet(s.records, ms[i]);
    }
  }

  /** A mutation is logged with the batch's index exactly when it put something or removed something. */
  lemma {:induction false} LoggedIff<V>(records: map<Key, Entry<V>>, index: nat, ms: seq<Mutation<V>>, m: Mutation<V>)
    ensures Logged(records, index, ms + [m])
         == Logged(records, index, ms)
            + if m.op.Put? || m.key in WriteAll(records, index, ms) then [Change(index, m.op, m.key)] else []
    ensures Logged(records, index, []) == []
  {
    assert (ms + [m])[..|ms|] == ms;
  }
}

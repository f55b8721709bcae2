/** The log tailer (internal/api/tail.go): where a tail starts, and how reads become prefixed lines. */
module Tail {

  import opened ByteStrings

  const NEWLINE: Byte := 10

  // ---- the backward scan -------------------------------------------------

  function Newlines(s: Bytes): nat {
    if s == [] then 0 else Newlines(s[..|s| - 1]) + if s[|s| - 1] == NEWLINE then 1 else 0
  }

  /** Just after the (n+1)-th newline from the end, or the start when there are not that many. */
  ghost predicate StartsLast(s: Bytes, n: nat, offset: nat) {
    && offset <= |s|
    && if Newlines(s) <= n then offset == 0
       else offset > 0 && s[offset - 1] == NEWLINE && Newlines(s[offset..]) == n
  }

  lemma {:induction false} NewlinesConcat(a: Bytes, b: Bytes)
    ensures Newlines(a + b) == Newlines(a) + Newlines(b)
    decreases |b|
  {
    if b == [] {
      assert a + b == a;
    } else {
      assert (a + b)[..|a + b| - 1] == a + b[..|b| - 1];
      NewlinesConcat(a, b[..|b| - 1]);
    }
  }

  lemma {:induction false} NoNewlines()
    ensures Newlines([]) == 0
  {
  }

  /** One step of the scan: the byte at `k` joins what has been scanned. */
  lemma {:induction false} NewlinesFrom(s: Bytes, k: nat)
    requires k < |s|
    ensures Newlines(s[k..]) == Newlines(s[k + 1..]) + if s[k] == NEWLINE then 1 else 0
  {
    assert s[k..] == [s[k]] + s[k + 1..];
    assert [s[k]][..0] == [];
    NewlinesConcat([s[k]], s[k + 1..]);
  }

  /** Where a tail starts is determined. */
  lemma {:induction false} StartIsUnique(s: Bytes, n: nat, a: nat, b: nat)
    requires StartsLast(s, n, a) && StartsLast(s, n, b)
    ensures a == b
  {
    if a < b {
      StartsOrdered(s, n, a, b);
    } else if b < a {
      StartsOrdered(s, n, b, a);
    }
  }

  /** A later start leaves fewer newlines behind it. */
  lemma {:induction false} StartsOrdered(s: Bytes, n: nat, a: nat, b: nat)
    requires a < b <= |s| && s[b - 1] == NEWLINE
    ensures Newlines(s[b..]) < Newlines(s[a..])
  {
    NewlinesFrom(s, b - 1);
    assert s[a..] == s[a..b - 1] + s[b - 1..];
    NewlinesConcat(s[a..b - 1], s[b - 1..]);
  }

  /** The scan, a chunk at a time from the end of the file. */
  method SeekToLastLines(content: Bytes, n: nat, chunk: nat) returns (offset: nat)
    requires chunk > 0
    ensures StartsLast(content, n, offset)
    ensures Newlines(content[offset..]) == if Newlines(content) <= n then Newlines(content) else n
  {
    hide Newlines;
    offset := |content|;
    var lines := 0;
    NoNewlines();
    assert content[|content|..] == [];
    while offset > 0 && lines <= n
      invariant offset <= |content|
      invariant lines == Newlines(content[offset..]) <= n
    {
      var size := chunk;
      if offset < size {
        size := offset;
      }
      var end := offset;
      offset := offset - size;
      var buf := content[offset..end];
      var i := size;
      assert offset + i == end;
      while i > 0
        invariant 0 <= i <= size
        invariant lines == Newlines(content[offset + i..]) <= n
      {
        i := i - 1;
        NewlinesFrom(content, offset + i);
        if buf[i] != NEWLINE {
          continue;
        }
        lines := lines + 1;
        if lines > n {
          offset := offset + i + 1;
          StartsOrdered(content, n, 0, offset);
          assert content[0..] == content;
          return;
        }
      }
    }
    assert content[0..] == content;
  }

  // ---- assembling lines --------------------------------------------------

  /** The first newline, or the length when there is none. */
  function IndexByte(s: Bytes): (i: nat)
    ensures i <= |s|
    ensures i < |s| ==> s[i] == NEWLINE
    ensures forall k :: 0 <= k < i ==> s[k] != NEWLINE
  {
    if s == [] || s[0] == NEWLINE then 0 else 1 + IndexByte(s[1..])
  }

  /** The complete lines of a stream, newlines included. */
  function Lines(s: Bytes): seq<Bytes> {
    var i := IndexByte(s);
    if i == |s| then [] else [s[..i + 1]] + Lines(s[i + 1..])
  }

  /** What follows the last newline. */
  function Unfinished(s: Bytes): Bytes {
    var i := IndexByte(s);
    if i == |s| then s else Unfinished(s[i + 1..])
  }

  /** Each line behind its prefix. */
  function Prefixed(prefix: Bytes, lines: seq<Bytes>): Bytes {
    if lines == [] then [] else Prefixed(prefix, lines[..|lines| - 1]) + prefix + lines[|lines| - 1]
  }

  ghost predicate IsLine(line: Bytes) {
    line != [] && line[|line| - 1] == NEWLINE && forall k :: 0 <= k < |line| - 1 ==> line[k] != NEWLINE
  }

  /** Lines and Unfinished take a stream apart without loss, at its newlines. */
  lemma {:induction false} LinesPartition(s: Bytes)
    ensures Concat(Lines(s)) + Unfinished(s) == s
    ensures forall i :: 0 <= i < |Lines(s)| ==> IsLine(Lines(s)[i])
    ensures NEWLINE !in Unfinished(s)
  {
    hide *;
    LinesRejoin(s);
    LinesAreLines(s);
    UnfinishedIsUnfinished(s);
  }

  lemma {:induction false} LinesUnfold(s: Bytes)
    requires IndexByte(s) < |s|
    ensures var i := IndexByte(s);
            Lines(s) == [s[..i + 1]] + Lines(s[i + 1..]) && Unfinished(s) == Unfinished(s[i + 1..])
  {
  }

  lemma {:induction false} LinesRejoin(s: Bytes)
    ensures Concat(Lines(s)) + Unfinished(s) == s
    decreases |s|
  {
    var i := IndexByte(s);
    if i < |s| {
      assert s == s[..i + 1] + s[i + 1..];
      hide *;
      LinesUnfold(s);
      var line, rest := s[..i + 1], s[i + 1..];
      LinesRejoin(rest);
      ConcatCons(line, Lines(rest));
      Reassociate(line, Concat(Lines(rest)), Unfinished(rest));
    }
  }

  lemma {:induction false} Reassociate(a: Bytes, b: Bytes, c: Bytes)
    ensures (a + b) + c == a + (b + c)
  {
  }

  lemma {:induction false} LinesAreLines(s: Bytes)
    ensures forall i :: 0 <= i < |Lines(s)| ==> IsLine(Lines(s)[i])
    decreases |s|
  {
    var i := IndexByte(s);
    if i < |s| {
      hide *;
      LinesUnfold(s);
      LinesAreLines(s[i + 1..]);
      FirstLineIsLine(s);
    }
  }

  lemma {:induction false} UnfinishedIsUnfinished(s: Bytes)
    ensures NEWLINE !in Unfinished(s)
    decreases |s|
  {
    var i := IndexByte(s);
    if i < |s| {
      UnfinishedIsUnfinished(s[i + 1..]);
    }
  }

  lemma {:induction false} FirstLineIsLine(s: Bytes)
    requires IndexByte(s) < |s|
    ensures IsLine(s[..IndexByte(s) + 1])
  {
    hide IndexByte;
    var i := IndexByte(s);
    var line := s[..i + 1];
    assert line[i] == s[i] && forall k :: 0 <= k < i ==> line[k] == s[k];
  }

  /** Taking the next line off what is left of a stream. */
  lemma {:induction false} TakeLine(tag: Bytes, all: seq<Bytes>, left: Bytes, calls: nat)
    requires calls <= |all| && all[calls..] == Lines(left) && IndexByte(left) < |left|
    ensures var i := IndexByte(left);
            && calls < |all| && all[calls + 1..] == Lines(left[i + 1..])
            && Unfinished(left) == Unfinished(left[i + 1..])
            && Prefixed(tag, all[..calls + 1]) == Prefixed(tag, all[..calls]) + tag + left[..i + 1]
  {
    assert all[calls] == all[calls..][0];
    assert all[calls + 1..] == Lines(left)[1..];
    assert all[..calls + 1][..calls] == all[..calls];
  }

  lemma {:induction false} FirstNewlineAfter(a: Bytes, b: Bytes)
    ensures IndexByte(a) < |a| ==> IndexByte(a + b) == IndexByte(a)
  {
    if IndexByte(a) < |a| {
      var i, j := IndexByte(a), IndexByte(a + b);
      assert (a + b)[i] == a[i];
      assert j < |a| ==> (a + b)[j] == a[j];
    }
  }

  /** The lines of a longer stream: those already complete, then those its unfinished end grows into. */
  lemma {:induction false} LinesGrow(a: Bytes, b: Bytes)
    ensures Lines(a + b) == Lines(a) + Lines(Unfinished(a) + b)
    ensures Unfinished(a + b) == Unfinished(Unfinished(a) + b)
    decreases |a|
  {
    var i := IndexByte(a);
    FirstNewlineAfter(a, b);
    if i < |a| {
      assert (a + b)[..i + 1] == a[..i + 1] && (a + b)[i + 1..] == a[i + 1..] + b;
      LinesGrow(a[i + 1..], b);
    }
  }

  lemma {:induction false} PrefixedConcat(prefix: Bytes, a: seq<Bytes>, b: seq<Bytes>)
    ensures Prefixed(prefix, a + b) == Prefixed(prefix, a) + Prefixed(prefix, b)
    decreases |b|
  {
    if b == [] {
      assert a + b == a;
    } else {
      assert (a + b)[..|a + b| - 1] == a + b[..|b| - 1];
      PrefixedConcat(prefix, a, b[..|b| - 1]);
    }
  }

  class Tailer {
    const tag: Bytes     // the alloc id and the separator printed after it
    const prefix: bool
    var partial: Bytes
    var out: Bytes       // what the writer has accepted
    var accepts: nat     // how many more calls the writer takes before it fails

    /** Between reads only an unfinished line is held. */
    ghost predicate Valid()
      reads this
    {
      NEWLINE !in partial
    }

    constructor (tag: Bytes, prefix: bool, accepts: nat)
      ensures Valid() && partial == [] && out == []
      ensures this.tag == tag && this.prefix == prefix && this.accepts == accepts
    {
      this.tag, this.prefix, this.accepts, partial, out := tag, prefix, accepts, [], [];
    }

    /** One read's data. A line whose write fails has already left `partial`. */
    method Write(data: Bytes) returns (total: nat, ok: bool)
      modifies this
      ensures total == |out| - |old(out)|
      ensures !prefix ==> ok == (old(accepts) > 0) && partial == old(partial)
                          && out == old(out) + (if ok then data else [])
      ensures prefix ==> var lines := Lines(old(partial) + data);
                         && ok == (|lines| <= old(accepts))
                         && out == old(out) + Prefixed(tag, if ok then lines else lines[..old(accepts)])
                         && (ok ==> accepts == old(accepts) - |lines|)
                         && (ok ==> Valid() && partial == Unfinished(old(partial) + data))
    {
      if !prefix {
        ok := accepts > 0;
        if ok {
          out, accepts := out + data, accepts - 1;
        }
        return if ok then |data| else 0, ok;
      }
      partial := partial + data;
      total, ok := EmitLines();
    }

    /** Prints each complete line of `partial` and keeps the rest. */
    method EmitLines() returns (total: nat, ok: bool)
      modifies this
      ensures total == |out| - |old(out)|
      ensures var lines := Lines(old(partial));
              && ok == (|lines| <= old(accepts))
              && out == old(out) + Prefixed(tag, if ok then lines else lines[..old(accepts)])
              && (ok ==> accepts == old(accepts) - |lines|)
              && (ok ==> Valid() && partial == Unfinished(old(partial)))
    {
      hide Lines, Unfinished, Prefixed, IndexByte;
      ghost var all := Lines(partial);
      ghost var calls := 0;
      total := 0;
      UnfinishedIsUnfinished(partial);
      NoLinesNoOutput(tag);
      while true
        invariant 0 <= calls <= |all| && accepts == old(accepts) - calls
        invariant all[calls..] == Lines(partial)
        invariant Unfinished(old(partial)) == Unfinished(partial)
        invariant out == old(out) + Prefixed(tag, all[..calls])
        invariant total == |out| - |old(out)|
        decreases |partial|
      {
        var idx := IndexByte(partial);
        if idx == |partial| {
          NoNewlineNoLines(partial);
          assert calls == |all| && all[..calls] == all;
          return total, true;
        }
        var line := partial[..idx + 1];
        TakeLine(tag, all, partial, calls);
        partial := partial[idx + 1..];
        if accepts == 0 {
          return total, false;
        }
        out, accepts, calls := out + tag + line, accepts - 1, calls + 1;
        total := total + |tag| + |line|;
      }
    }

    /**
     Reads until the end of what is there, however the file hands the bytes out: with no write error the
     output and the held line depend on the bytes alone, not on how they were split into reads.
     */
    method CopyTo(chunks: seq<Bytes>) returns (total: nat, ok: bool)
      requires Valid()
      modifies this
      ensures total == |out| - |old(out)|
      ensures !prefix ==> partial == old(partial) && (ok ==> out == old(out) + Concat(chunks))
      ensures prefix ==> var stream := old(partial) + Concat(chunks);
                         && ok == (|Lines(stream)| <= old(accepts))
                         && (ok ==> out == old(out) + Prefixed(tag, Lines(stream)) && partial == Unfinished(stream))
    {
      hide Lines, Unfinished, Prefixed;
      total, ok := 0, true;
      ghost var held := partial;
      assert chunks[..0] == [];
      NoNewlineNoLines(held);
      NoLinesNoOutput(tag);
      assert held + Concat(chunks[..0]) == held;
      for i := 0 to |chunks|
        invariant ok && total == |out| - |old(out)|
        invariant !prefix ==> out == old(out) + Concat(chunks[..i]) && partial == held
        invariant prefix ==> var stream := held + Concat(chunks[..i]);
                             && partial == Unfinished(stream)
                             && out == old(out) + Prefixed(tag, Lines(stream))
                             && accepts + |Lines(stream)| == old(accepts)
      {
        ghost var stream := held + Concat(chunks[..i]);
        ghost var after := held + Concat(chunks[..i + 1]);
        ConcatAppend(chunks[..i], chunks[i]);
        assert chunks[..i + 1] == chunks[..i] + [chunks[i]];
        assert after == stream + chunks[i];
        LinesGrow(stream, chunks[i]);
        PrefixedConcat(tag, Lines(stream), Lines(Unfinished(stream) + chunks[i]));
        if chunks[i] == [] {
          assert after == stream && Concat(chunks[..i + 1]) == Concat(chunks[..i]);
          continue;
        }
        var written;
        written, ok := Write(chunks[i]);
        total := total + written;
        if !ok {
          if prefix {
            LinesLeft(held, chunks, i + 1);
          }
          return;
        }
      }
      assert chunks[..|chunks|] == chunks;
    }
  }

  /** A stream has at least the lines of its beginning. */
  lemma {:induction false} LinesLeft(held: Bytes, chunks: seq<Bytes>, i: nat)
    requires i <= |chunks|
    ensures |Lines(held + Concat(chunks[..i]))| <= |Lines(held + Concat(chunks))|
  {
    ConcatSplit(chunks, i);
    var a, b := held + Concat(chunks[..i]), Concat(chunks[i..]);
    assert held + Concat(chunks) == a + b;
    LinesGrow(a, b);
  }

  lemma {:induction false} NoNewlineNoLines(s: Bytes)
    requires NEWLINE !in s
    ensures Lines(s) == [] && Unfinished(s) == s
  {
  }

  lemma {:induction false} NoLinesNoOutput(tag: Bytes)
    ensures Prefixed(tag, []) == []
  {
  }

  /** Each line once, in order, right behind the prefix. */
  lemma {:induction false} PrefixedAt(prefix: Bytes, lines: seq<Bytes>, i: nat)
    requires i < |lines|
    ensures Prefixed(prefix, lines) == Prefixed(prefix, lines[..i]) + (prefix + lines[i]) + Prefixed(prefix, lines[i + 1..])
    ensures Prefixed(prefix, []) == []
  {
    PrefixedConcat(prefix, lines[..i], lines[i..]);
    PrefixedConcat(prefix, [lines[i]], lines[i + 1..]);
    assert lines == lines[..i] + lines[i..] && lines[i..] == [lines[i]] + lines[i + 1..];
    assert [lines[i]][..0] == [];
    assert Prefixed(prefix, [lines[i]]) == Prefixed(prefix, []) + prefix + lines[i];
  }
}

/**
 The exec socket (internal/api/exec.go, exec_client.go): stdout, stderr and control frames share one
 connection under a mutex, and the client takes them apart again.

 The mutex makes each write, control send and close one step, so an interleaving is a list of steps.
 */
module Exec {
  import opened ByteStrings

  const STREAM_STDOUT: Byte := 1
  const STREAM_STDERR: Byte := 2

  datatype Stream = Stdout | Stderr {
    function Tag(): Byte {
      if Stdout? then STREAM_STDOUT else STREAM_STDERR
    }
  }

  datatype Control = Exit(code: nat) | Error(message: string)

  /** `Garbled` is a text frame the client cannot decode, or of a type it does not know. */
  datatype Frame = Binary(body: Bytes) | Text(control: Control) | Garbled

  /** `delivered` is how the connection's own write turns out. */
  datatype Step =
    | Write(stream: Stream, data: Bytes, delivered: bool)
    | Send(control: Control, delivered: bool)
    | Close

  /** What the socket has carried, and how often it was closed. */
  datatype Session = Session(closed: bool, frames: seq<Frame>, closes: nat)

  function Apply(s: Session, step: Step): Session {
    match step
    case Write(stream, data, delivered) =>
      if s.closed || !delivered then s else s.(frames := s.frames + [Binary([stream.Tag()] + data)])
    case Send(control, delivered) =>
      if s.closed || !delivered then s else s.(frames := s.frames + [Text(control)])
    case Close =>
      if s.closed then s else s.(closed := true, closes := s.closes + 1)
  }

  function Run(s: Session, steps: seq<Step>): Session {
    if steps == [] then s else Apply(Run(s, steps[..|steps| - 1]), steps[|steps| - 1])
  }

  const OPEN := Session(false, [], 0)

  class ExecSession {
    var closed: bool
    var frames: seq<Frame>
    var closes: nat

    function State(): Session
      reads this
    {
      Session(closed, frames, closes)
    }

    constructor ()
      ensures State() == OPEN
    {
      closed, frames, closes := false, [], 0;
    }

    method WriteStream(stream: Stream, data: Bytes, delivered: bool) returns (n: nat, ok: bool)
      modifies this
      ensures State() == Apply(old(State()), Step.Write(stream, data, delivered))
      ensures ok == Succeeds(old(State()), Step.Write(stream, data, delivered))
      ensures n == if ok then |data| else 0
    {
      var framed := [stream.Tag()];
      framed := framed + data;
      if closed || !delivered {
        return 0, false;
      }
      frames := frames + [Binary(framed)];
      return |data|, true;
    }

    method SendControl(control: Control, delivered: bool)
      modifies this
      ensures State() == Apply(old(State()), Send(control, delivered))
    {
      if !closed && delivered {
        frames := frames + [Text(control)];
      }
    }

    method Shut()
      modifies this
      ensures State() == Apply(old(State()), Close)
    {
      if closed {
        return;
      }
      closed, closes := true, closes + 1;
    }
  }

  // ---- what each stream carried ------------------------------------------

  /** Whether the step's caller was told it succeeded. */
  predicate Succeeds(s: Session, step: Step) {
    step.Write? && !s.closed && step.delivered
  }

  /** The bytes a stream's successful writes carried, in order. */
  function Carried(s: Session, steps: seq<Step>, stream: Stream): Bytes {
    if steps == [] then []
    else
      var before, step := steps[..|steps| - 1], steps[|steps| - 1];
      Carried(s, before, stream)
      + if Succeeds(Run(s, before), step) && step.stream == stream then step.data else []
  }

  /** The client's half of one frame. */
  function Payload(f: Frame, stream: Stream): Bytes {
    if !f.Binary? || |f.body| < 2 then []
    else if (f.body[0] == STREAM_STDERR) == (stream == Stderr) then f.body[1..]
    else []
  }

  function Demultiplexed(frames: seq<Frame>, stream: Stream): Bytes {
    if frames == [] then [] else Demultiplexed(frames[..|frames| - 1], stream) + Payload(frames[|frames| - 1], stream)
  }

  /** What one step adds for the client to take apart. */
  lemma {:induction false} StepAdds(s: Session, step: Step, stream: Stream)
    ensures Demultiplexed(Apply(s, step).frames, stream)
         == Demultiplexed(s.frames, stream) + if Succeeds(s, step) && step.stream == stream then step.data else []
  {
    hide Payload;
    var was, now := s.frames, Apply(s, step).frames;
    if now != was {
      assert now[..|now| - 1] == was;
      if step.Write? {
        PayloadOfWrite(step.stream, step.data, stream);
      } else {
        PayloadOfControl(step.control, stream);
      }
    }
  }

  /** The stream byte in front of a write tells whose it is; an empty write carries nothing either way. */
  lemma {:induction false} PayloadOfWrite(from: Stream, data: Bytes, stream: Stream)
    ensures Payload(Binary([from.Tag()] + data), stream) == if from == stream then data else []
  {
    assert ([from.Tag()] + data)[1..] == data;
  }

  lemma {:induction false} PayloadOfControl(control: Control, stream: Stream)
    ensures Payload(Text(control), stream) == []
  {
  }

  /**
   For every interleaving, what a stream's frames hold once taken apart is what its successful writes
   carried, in order.
   */
  lemma {:induction false} DemultiplexingRecoversStreams(steps: seq<Step>, stream: Stream)
    ensures Demultiplexed(Run(OPEN, steps).frames, stream) == Carried(OPEN, steps, stream)
  {
    hide Apply, Payload, Succeeds, Demultiplexed;
    if steps != [] {
      DemultiplexingRecoversStreams(steps[..|steps| - 1], stream);
      StepAdds(Run(OPEN, steps[..|steps| - 1]), steps[|steps| - 1], stream);
    } else {
      NothingToTakeApart(stream);
    }
  }

  lemma {:induction false} NothingToTakeApart(stream: Stream)
    ensures Demultiplexed([], stream) == []
  {
  }

  /** Nothing is sent after a close, every later write fails, and the socket is closed at most once. */
  lemma {:induction false} NothingAfterClose(before: seq<Step>, after: seq<Step>)
    ensures var closed := Run(OPEN, before + [Close]);
            var later := Run(OPEN, before + [Close] + after);
            && closed.closed && closed.closes == 1 && later == closed
            && closed.frames == Run(OPEN, before).frames
            && forall step :: !Succeeds(later, step)
    decreases |after|
  {
    var upTo := before + [Close];
    assert upTo[..|upTo| - 1] == before;
    ClosesCount(before);
    if after == [] {
      assert upTo + after == upTo;
    } else {
      var all := upTo + after;
      assert all[..|all| - 1] == upTo + after[..|after| - 1];
      NothingAfterClose(before, after[..|after| - 1]);
    }
  }

  /** The flag and the count agree: open and never closed, or closed once. */
  lemma {:induction false} ClosesCount(steps: seq<Step>)
    ensures var s := Run(OPEN, steps);
            s.closes == if s.closed then 1 else 0
  {
    if steps != [] {
      ClosesCount(steps[..|steps| - 1]);
    }
  }

  // ---- the client --------------------------------------------------------

  datatype Outcome = Exited(code: nat) | Failed(message: string) | Ended

  /** Where a control frame first ends the session. */
  function Ending(frames: seq<Frame>): (i: nat)
    ensures i <= |frames|
    ensures i < |frames| ==> frames[i].Text?
    ensures forall k :: 0 <= k < i ==> !frames[k].Text?
  {
    if frames == [] || frames[0].Text? then 0 else 1 + Ending(frames[1..])
  }

  /** Reads until a verdict, or until the connection ends; a clean close without one claims no failure. */
  method ReadExecOutput(frames: seq<Frame>, closedCleanly: bool) returns (stdout: Bytes, stderr: Bytes, outcome: Outcome)
    ensures stdout == Demultiplexed(frames[..Ending(frames)], Stdout)
    ensures stderr == Demultiplexed(frames[..Ending(frames)], Stderr)
    ensures outcome == if Ending(frames) == |frames| then if closedCleanly then Exited(0) else Ended
                       else match frames[Ending(frames)].control
                            case Exit(code) => Exited(code)
                            case Error(message) => Failed(message)
  {
    stdout, stderr := [], [];
    for i := 0 to |frames|
      invariant i <= Ending(frames)
      invariant stdout == Demultiplexed(frames[..i], Stdout)
      invariant stderr == Demultiplexed(frames[..i], Stderr)
    {
      assert frames[..i + 1][..i] == frames[..i];
      match frames[i]
      case Binary(body) =>
        if |body| < 2 {
          continue;
        }
        if body[0] == STREAM_STDERR {
          stderr := stderr + body[1..];
        } else {
          stdout := stdout + body[1..];
        }
      case Garbled =>
        continue;
      case Text(Exit(code)) =>
        return stdout, stderr, Exited(code);
      case Text(Error(message)) =>
        return stdout, stderr, Failed(message);
    }
    return stdout, stderr, if closedCleanly then Exited(0) else Ended;
  }

  predicate OnlyWrites(steps: seq<Step>) {
    forall i :: 0 <= i < |steps| ==> steps[i].Write?
  }

  lemma {:induction false} WritesAreBinary(steps: seq<Step>)
    requires OnlyWrites(steps)
    ensures !Run(OPEN, steps).closed
    ensures forall i :: 0 <= i < |Run(OPEN, steps).frames| ==> Run(OPEN, steps).frames[i].Binary?
  {
    if steps != [] {
      WritesAreBinary(steps[..|steps| - 1]);
    }
  }

  /**
   A whole session: any interleaving of writes, the control frame the handler sends when the process
   ends, the close, and whatever stray writes follow. The client sees every successful write of each
   stream up to the end, and the verdict.
   */
  lemma {:induction false} SessionReachesClient(writes: seq<Step>, control: Control, stray: seq<Step>)
    requires OnlyWrites(writes)
    ensures var frames := Run(OPEN, writes + [Send(control, true)] + [Close] + stray).frames;
            && Ending(frames) == |frames| - 1 && frames[|frames| - 1] == Text(control)
            && forall stream :: Demultiplexed(frames[..Ending(frames)], stream) == Carried(OPEN, writes, stream)
  {
    var sent := writes + [Send(control, true)];
    assert sent[..|sent| - 1] == writes;
    NothingAfterClose(sent, stray);
    WritesAreBinary(writes);
    var frames := Run(OPEN, sent + [Close] + stray).frames;
    var was := Run(OPEN, writes).frames;
    assert frames == was + [Text(control)];
    assert frames[..|frames| - 1] == was;
    forall i | 0 <= i < |was| ensures frames[i].Binary? {
      assert frames[i] == was[i];
    }
    assert frames[|was|] == Text(control);
    assert Ending(frames) == |was|;
    forall stream ensures Demultiplexed(was, stream) == Carried(OPEN, writes, stream) {
      DemultiplexingRecoversStreams(writes, stream);
    }
  }

  // ---- an open session carries -------------------------------------------

  /** An open session whose connection takes the frame sends it behind its stream's byte, 1 or 2, and says so. */
  lemma {:induction false} OpenWriteIsSent(s: Session, stream: Stream, data: Bytes)
    requires !s.closed
    ensures var step := Write(stream, data, true);
            && Succeeds(s, step)
            && Apply(s, step) == s.(frames := s.frames + [Binary([if stream == Stdout then 1 else 2] + data)])
    ensures var step := Write(stream, data, false);
            !Succeeds(s, step) && Apply(s, step) == s
  {
  }

  lemma {:induction false} OpenSendAndClose(s: Session, control: Control)
    requires !s.closed
    ensures Apply(s, Send(control, true)) == s.(frames := s.frames + [Text(control)]) && Apply(s, Send(control, false)) == s
    ensures Apply(s, Close) == s.(closed := true, closes := s.closes + 1)
  {
  }
}

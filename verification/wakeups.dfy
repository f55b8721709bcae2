/**
 The coalescing wake-up plumbing of the control plane: writers that commit to the Store and then offer
 a token to a channel of capacity one, the fan-out loop that forwards it (cmd/kanea/agent.go), and
 listeners that take a token from their own channel, read the Store and act on what they read.

 Every send is non-blocking, so a full channel swallows a token. The question is whether a listener can
 then sleep through a commit.
 */
module WakeUps {

  datatype Phase = Waiting | Woken | Acting

  /** `token` is the listener's channel; `seen` is the Store version its last pass read. */
  datatype Listener = Listener(token: bool, phase: Phase, seen: nat)

  /** The fan-out loop: blocked on its input, or about to offer to listener `next`. */
  datatype FanOut = Idle | Round(next: nat)

  /** `unsent` holds the committed versions whose writer has not reached its send yet. */
  datatype Plumbing = Plumbing(
    version: nat, unsent: set<nat>, inbox: bool, fan: FanOut, listeners: seq<Listener>)

  datatype Event =
    | Commit              // a writer commits the next version
    | Send(version: nat)  // and then offers a token to the input channel
    | Take                // fan-out receives
    | Forward             // fan-out offers to the next listener
    | EndRound
    | Receive(i: nat)     // listener i takes its token
    | Read(i: nat)        // its pass reads the Store
    | Rest(i: nat)        // and ends
    | Tick(i: nat)        // a timer starts a pass instead
    | Offer(i: nat)       // someone else offers listener i a token

  predicate Enabled(s: Plumbing, e: Event) {
    match e
    case Commit => true
    case Send(v) => v in s.unsent
    case Take => s.inbox && s.fan.Idle?
    case Forward => s.fan.Round? && s.fan.next < |s.listeners|
    case EndRound => s.fan.Round? && s.fan.next >= |s.listeners|
    case Receive(i) => i < |s.listeners| && s.listeners[i].token && s.listeners[i].phase == Waiting
    case Read(i) => i < |s.listeners| && s.listeners[i].phase == Woken
    case Rest(i) => i < |s.listeners| && s.listeners[i].phase == Acting
    case Tick(i) => i < |s.listeners| && s.listeners[i].phase == Waiting
    case Offer(i) => i < |s.listeners|
  }

  function Set(s: Plumbing, i: nat, l: Listener): Plumbing
    requires i < |s.listeners|
  {
    s.(listeners := s.listeners[i := l])
  }

  function Next(s: Plumbing, e: Event): Plumbing
    requires Enabled(s, e)
  {
    match e
    case Commit => s.(version := s.version + 1, unsent := s.unsent + {s.version + 1})
    case Send(v) => s.(unsent := s.unsent - {v}, inbox := true)
    case Take => s.(inbox := false, fan := Round(0))
    case Forward => Set(s, s.fan.next, s.listeners[s.fan.next].(token := true)).(fan := Round(s.fan.next + 1))
    case EndRound => s.(fan := Idle)
    case Receive(i) => Set(s, i, s.listeners[i].(token := false, phase := Woken))
    case Read(i) => Set(s, i, s.listeners[i].(phase := Acting, seen := s.version))
    case Rest(i) => Set(s, i, s.listeners[i].(phase := Waiting))
    case Tick(i) => Set(s, i, s.listeners[i].(phase := Woken))
    case Offer(i) => Set(s, i, s.listeners[i].(token := true))
  }

  ghost predicate IsRun(s: Plumbing, es: seq<Event>)
    decreases |es|
  {
    es == [] || (Enabled(s, es[0]) && IsRun(Next(s, es[0]), es[1..]))
  }

  ghost function Run(s: Plumbing, es: seq<Event>): Plumbing
    requires IsRun(s, es)
    decreases |es|
  {
    if es == [] then s else Run(Next(s, es[0]), es[1..])
  }

  function Start(n: nat): Plumbing {
    Plumbing(0, {}, false, Idle, seq(n, _ => Listener(false, Waiting, 0)))
  }

  // ---- no lost wake-up ---------------------------------------------------

  /** Something already under way will make listener `i` read the Store again. */
  predicate ReadIsComing(s: Plumbing, i: nat)
    requires i < |s.listeners|
  {
    || s.inbox
    || (s.fan.Round? && s.fan.next <= i)
    || s.listeners[i].token
    || s.listeners[i].phase == Woken
  }

  /** Every version whose writer has sent has reached every listener, or a read that will see it is coming. */
  ghost predicate Owed(s: Plumbing) {
    forall v, i :: 0 < v <= s.version && v !in s.unsent && 0 <= i < |s.listeners| ==>
      v <= s.listeners[i].seen || ReadIsComing(s, i)
  }

  ghost predicate Sound(s: Plumbing) {
    && (forall v :: v in s.unsent ==> 0 < v <= s.version)
    && (forall i :: 0 <= i < |s.listeners| ==> s.listeners[i].seen <= s.version)
  }

  lemma {:induction false} StepKeepsOwed(s: Plumbing, e: Event)
    requires Sound(s) && Owed(s) && Enabled(s, e)
    ensures Sound(Next(s, e)) && Owed(Next(s, e)) && |Next(s, e).listeners| == |s.listeners|
  {
    var t := Next(s, e);
    forall v, i | 0 < v <= t.version && v !in t.unsent && 0 <= i < |t.listeners|
      ensures v <= t.listeners[i].seen || ReadIsComing(t, i)
    {
      assert e.Send? || v !in s.unsent;
    }
  }

  lemma {:induction false} RunKeepsOwed(s: Plumbing, es: seq<Event>)
    requires Sound(s) && Owed(s) && IsRun(s, es)
    ensures Sound(Run(s, es)) && Owed(Run(s, es)) && |Run(s, es).listeners| == |s.listeners|
    decreases |es|
  {
    if es != [] {
      StepKeepsOwed(s, es[0]);
      RunKeepsOwed(Next(s, es[0]), es[1..]);
    }
  }

  /** No interleaving of writers, fan-out and listeners loses a wake-up. */
  lemma {:induction false} NoLostWakeUp(n: nat, es: seq<Event>)
    requires IsRun(Start(n), es)
    ensures Sound(Run(Start(n), es)) && Owed(Run(Start(n), es)) && |Run(Start(n), es).listeners| == n
  {
    RunKeepsOwed(Start(n), es);
  }

  // ---- and every listener catches up -------------------------------------

  /** The steps that only work off what is already under way. */
  predicate Draining(e: Event) {
    !e.Commit? && !e.Tick? && !e.Offer?
  }

  ghost predicate Quiet(s: Plumbing) {
    forall e :: Draining(e) ==> !Enabled(s, e)
  }

  function ListenerRank(l: Listener): nat {
    (if l.token then 3 else 0) + (match l.phase case Waiting => 0 case Woken => 2 case Acting => 1)
  }

  function Ranks(ls: seq<Listener>): nat {
    if ls == [] then 0 else ListenerRank(ls[0]) + Ranks(ls[1..])
  }

  /** How many draining steps a state has left at most. */
  function Rank(s: Plumbing): nat {
    var n := |s.listeners|;
    |s.unsent| * (4 * n + 3)
    + (if s.inbox then 4 * n + 2 else 0)
    + (if s.fan.Round? then 1 + (if s.fan.next <= n then 4 * (n - s.fan.next) else 0) else 0)
    + Ranks(s.listeners)
  }

  lemma {:induction false} RanksUpdate(ls: seq<Listener>, i: nat, l: Listener)
    requires i < |ls|
    ensures Ranks(ls[i := l]) == Ranks(ls) - ListenerRank(ls[i]) + ListenerRank(l)
  {
    if i > 0 {
      RanksUpdate(ls[1..], i - 1, l);
      assert ls[i := l][1..] == ls[1..][i - 1 := l];
    }
  }

  lemma {:induction false} OneFewer(v: nat, vs: set<nat>, weight: nat)
    requires v in vs
    ensures |vs - {v}| * weight + weight == |vs| * weight
  {
    assert |vs - {v}| == |vs| - 1;
  }

  lemma {:induction false} DrainingDecreases(s: Plumbing, e: Event)
    requires Enabled(s, e) && Draining(e)
    ensures Rank(Next(s, e)) < Rank(s)
  {
    match e
    case Send(v) => OneFewer(v, s.unsent, 4 * |s.listeners| + 3);
    case Forward => RanksUpdate(s.listeners, s.fan.next, s.listeners[s.fan.next].(token := true));
    case Receive(i) => RanksUpdate(s.listeners, i, Next(s, e).listeners[i]);
    case Read(i) => RanksUpdate(s.listeners, i, Next(s, e).listeners[i]);
    case Rest(i) => RanksUpdate(s.listeners, i, Next(s, e).listeners[i]);
    case _ =>
  }

  /** With nothing left to drain, no writer is short of its send and every listener has read the newest version. */
  lemma {:induction false} QuietMeansCurrent(s: Plumbing)
    requires Sound(s) && Owed(s) && Quiet(s)
    ensures s.unsent == {} && forall i :: 0 <= i < |s.listeners| ==> s.listeners[i].seen == s.version
  {
    forall v | v in s.unsent ensures false {
      assert Draining(Send(v)) && Enabled(s, Send(v));
    }
    assert Draining(Take) && Draining(Forward) && Draining(EndRound);
    assert s.fan.Idle? by {
      assert !Enabled(s, Forward) && !Enabled(s, EndRound);
    }
    assert !s.inbox by {
      assert !Enabled(s, Take);
    }
    forall i | 0 <= i < |s.listeners| ensures s.listeners[i].seen == s.version {
      assert Draining(Receive(i)) && Draining(Read(i)) && Draining(Rest(i));
      assert !Enabled(s, Receive(i)) && !Enabled(s, Read(i)) && !Enabled(s, Rest(i));
      assert !ReadIsComing(s, i);
      assert s.version > 0 ==> s.version !in s.unsent;
    }
  }

  lemma {:induction false} DrainingIsBounded(s: Plumbing, es: seq<Event>)
    requires IsRun(s, es) && forall k :: 0 <= k < |es| ==> Draining(es[k])
    ensures Rank(Run(s, es)) + |es| <= Rank(s)
    decreases |es|
  {
    if es != [] {
      DrainingDecreases(s, es[0]);
      DrainingIsBounded(Next(s, es[0]), es[1..]);
    }
  }

  /**
   Catching up, from every reachable state: once commits stop, the plumbing takes at most Rank further
   steps in whatever order they come, and where it can take none every listener has read the last commit.
   */
  lemma {:induction false} EveryListenerCatchesUp(n: nat, es: seq<Event>, drain: seq<Event>)
    requires IsRun(Start(n), es) && IsRun(Run(Start(n), es), drain)
    requires forall k :: 0 <= k < |drain| ==> Draining(drain[k])
    ensures var s := Run(Start(n), es);
            var t := Run(s, drain);
            && |drain| <= Rank(s)
            && t.version == s.version && |t.listeners| == n
            && (Quiet(t) ==> t.unsent == {} && forall i :: 0 <= i < n ==> t.listeners[i].seen == s.version)
            && (!Quiet(t) ==> |drain| < Rank(s))
  {
    NoLostWakeUp(n, es);
    var s := Run(Start(n), es);
    RunKeepsOwed(s, drain);
    DrainingIsBounded(s, drain);
    DrainingKeepsVersion(s, drain);
    var t := Run(s, drain);
    if Quiet(t) {
      QuietMeansCurrent(t);
    } else {
      var e :| Draining(e) && Enabled(t, e);
      DrainingDecreases(t, e);
    }
  }

  lemma {:induction false} DrainingKeepsVersion(s: Plumbing, es: seq<Event>)
    requires IsRun(s, es) && forall k :: 0 <= k < |es| ==> Draining(es[k])
    ensures Run(s, es).version == s.version
    decreases |es|
  {
    if es != [] {
      DrainingKeepsVersion(Next(s, es[0]), es[1..]);
    }
  }

  // ---- the send has to come after the commit -----------------------------

  /**
   A writer that has committed but not yet sent is not covered, and needs to be: with its send still to
   come, a listener can be asleep behind it with nothing under way.
   */
  lemma {:induction false} UnsentIsNotOwed(n: nat)
    requires n > 0
    ensures IsRun(Start(n), [Commit])
    ensures var s := Run(Start(n), [Commit]);
            s.listeners[0].seen < s.version && !ReadIsComing(s, 0)
  {
    assert [Commit][1..] == [];
    assert Run(Start(n), [Commit]) == Run(Next(Start(n), Commit), []);
  }

  // ---- what listeners may do at any time ---------------------------------

  /** A listener waiting for a token may be started by its timer, or offered a token by someone else. */
  lemma {:induction false} OutsideSteps(s: Plumbing, i: nat)
    requires i < |s.listeners|
    ensures Enabled(s, Commit) && Next(s, Commit).version == s.version + 1
    ensures Enabled(s, Tick(i)) <==> s.listeners[i].phase == Waiting
    ensures s.listeners[i].phase == Waiting ==> Next(s, Tick(i)).listeners[i] == s.listeners[i].(phase := Woken)
    ensures Enabled(s, Offer(i)) && Next(s, Offer(i)).listeners[i] == s.listeners[i].(token := true)
  {
  }

  /** A pass reads the newest version, and a token is used up by the pass it starts. */
  lemma {:induction false} PassSteps(s: Plumbing, i: nat)
    requires i < |s.listeners|
    ensures s.listeners[i].phase == Waiting && s.listeners[i].token ==>
              Enabled(s, Receive(i)) && Next(s, Receive(i)).listeners[i] == s.listeners[i].(token := false, phase := Woken)
    ensures s.listeners[i].phase == Woken ==>
              Enabled(s, Read(i)) && Next(s, Read(i)).listeners[i] == s.listeners[i].(phase := Acting, seen := s.version)
    ensures s.listeners[i].phase == Acting ==>
              Enabled(s, Rest(i)) && Next(s, Rest(i)).listeners[i] == s.listeners[i].(phase := Waiting)
  {
  }
}

/**
 The indexing service: a goroutine that follows block headers and a loop that indexes blocks,
 sharing `latestBlock` and a one-slot signal channel.

 Every read and write of the shared variable and every channel operation is one step; a run is
 any interleaving of steps.
 */
module IndexerService {
  import opened Options

  datatype Producer = Receiving | Notifying

  /** `Starting` holds the last indexed block the database reported, -1 for none. */
  datatype Consumer = Starting(indexed: int) | Checking | Waiting | Looping(i: int)

  /**
   `start` remembers the block indexing began after, `handed` the heights given to `IndexBlock`
   and `stored` those for which it succeeded.
   */
  datatype State = State(
    latest: int, signal: bool, producer: Producer,
    consumer: Consumer, last: int,
    start: int, handed: seq<int>, stored: set<int>)

  datatype Event =
    | Header(height: int)   // a block header arrives
    | Notify                // the select with default on the signal channel
    | Begin                 // lastBlock is initialised
    | Check                 // latestBlock <= lastBlock is looked at
    | Wake                  // the signal is received
    | Timeout               // NewBlockWaitTimeout passes
    | LoopEnd               // i <= latestBlock is false
    | FetchFailed           // Block or BlockResults fails: break
      // block i is handed over, its results carry the answered height; a failing IndexBlock is only logged
    | Indexed(answered: int, ok: bool)

  function Init(latest: int, indexed: int): State {
    State(latest, false, Receiving, Starting(indexed), 0, 0, [], {})
  }

  /** One step, or none if the event cannot happen here. */
  function Step(s: State, e: Event): Option<State> {
    match e
    case Header(h) =>
      if s.producer != Receiving then None
      else if h > s.latest then Some(s.(latest := h, producer := Notifying))
      else Some(s)
    case Notify =>
      if s.producer != Notifying then None else Some(s.(signal := true, producer := Receiving))
    case Begin =>
      if !s.consumer.Starting? then None
      else
        var last := if s.consumer.indexed == -1 then s.latest else s.consumer.indexed;
        Some(s.(consumer := Checking, last := last, start := last))
    case Check =>
      if !s.consumer.Checking? then None
      else if s.latest <= s.last then Some(s.(consumer := Waiting))
      else Some(s.(consumer := Looping(s.last + 1)))
    case Wake =>
      if !s.consumer.Waiting? || !s.signal then None else Some(s.(signal := false, consumer := Checking))
    case Timeout =>
      if !s.consumer.Waiting? then None else Some(s.(consumer := Checking))
    case LoopEnd =>
      if !s.consumer.Looping? || s.consumer.i <= s.latest then None else Some(s.(consumer := Checking))
    case FetchFailed =>
      if !s.consumer.Looping? || s.consumer.i > s.latest then None else Some(s.(consumer := Checking))
    case Indexed(answered, ok) =>
      if !s.consumer.Looping? || s.consumer.i > s.latest then None
      else
        var i := s.consumer.i;
        Some(s.(handed := s.handed + [i], stored := if ok then s.stored + {i} else s.stored,
                last := answered, consumer := Looping(i + 1)))
  }

  /** The node answers with the results of the block it was asked for. */
  predicate Honest(s: State, e: Event) {
    e.Indexed? && s.consumer.Looping? ==> e.answered == s.consumer.i
  }

  /** The state after a run, if every step can happen and the node is honest. */
  function Run(s: State, es: seq<Event>): Option<State> {
    if es == [] then Some(s)
    else
      match Run(s, es[..|es| - 1])
      case None => None
      case Some(t) => if Honest(t, es[|es| - 1]) then Step(t, es[|es| - 1]) else None
  }

  ghost predicate Reachable(s: State) {
    exists latest, indexed, es :: indexed >= -1 && Run(Init(latest, indexed), es) == Some(s)
  }

  // ---------------------------------------------------------------- safety

  /** Heights are handed over one after the other, from the block after `start`. */
  ghost predicate Consecutive(s: State) {
    forall k | 0 <= k < |s.handed| :: s.handed[k] == s.start + 1 + k
  }

  /** A consumer that waits although there is work has a signal queued or coming. */
  ghost predicate NoLostWakeup(s: State) {
    s.consumer.Waiting? && s.latest > s.last ==> s.signal || s.producer == Notifying
  }

  ghost predicate Invariant(s: State) {
    && Consecutive(s)
    && NoLostWakeup(s)
    && (s.consumer.Starting? ==> s.handed == [])
    && (!s.consumer.Starting? ==> s.last == s.start + |s.handed|)
    && (s.consumer.Looping? ==> s.consumer.i == s.last + 1)
    && (s.handed != [] ==> s.last <= s.latest)
    && (forall h | h in s.stored :: h in s.handed)
  }

  lemma {:induction false} StepKeepsInvariant(s: State, e: Event)
    requires Invariant(s) && Honest(s, e) && Step(s, e).Some?
    ensures Invariant(Step(s, e).value)
  {}

  lemma {:induction false} RunKeepsInvariant(s: State, es: seq<Event>)
    requires Invariant(s) && Run(s, es).Some?
    ensures Invariant(Run(s, es).value)
  {
    hide Invariant, Step;
    if es != [] {
      RunKeepsInvariant(s, es[..|es| - 1]);
      StepKeepsInvariant(Run(s, es[..|es| - 1]).value, es[|es| - 1]);
    }
  }

  lemma {:induction false} ReachableInvariant(s: State)
    requires Reachable(s)
    ensures Invariant(s)
  {
    var latest, indexed, es :| indexed >= -1 && Run(Init(latest, indexed), es) == Some(s);
    RunKeepsInvariant(Init(latest, indexed), es);
  }

  /**
   In every reachable state, whatever the interleaving and however many fetches failed: no
   height was skipped, repeated or handed over before it was announced, and no wake-up is lost.
   */
  lemma {:induction false} Safety(s: State)
    requires Reachable(s)
    ensures Consecutive(s) && NoLostWakeup(s)
    ensures forall k | 0 <= k < |s.handed| :: s.handed[k] <= s.latest
  {
    ReachableInvariant(s);
  }

  // ---------------------------------------------------------------- a wrong answer

  lemma {:induction false} RunNext(s: State, es: seq<Event>, e: Event)
    requires Run(s, es).Some? && Honest(Run(s, es).value, e)
    ensures Run(s, es + [e]) == Step(Run(s, es).value, e)
  {
    hide Step, Honest;
    assert (es + [e])[..|es|] == es;
  }

  /** From a state whose last answer was wrong, an honest run to a gap: one header, one failed fetch, one block. */
  lemma {:induction false} GapAfter(s: State, i: int) returns (es: seq<Event>)
    requires s.consumer == Looping(i + 1) && s.last != i
    requires s.handed != [] && s.handed[|s.handed| - 1] == i
    ensures Run(s, es).Some? && !Consecutive(Run(s, es).value)
  {
    hide Run;
    RunNothing(s);
    es := [];
    if s.producer == Notifying {
      RunNext(s, es, Notify);
      es := es + [Notify];
    }
    var quiet := Run(s, es).value;
    var top := 1 + if s.last > quiet.latest then s.last else quiet.latest;
    var h := if i + 1 > top then i + 1 else top;
    RunNext(s, es, Header(h));
    es := es + [Header(h)];
    RunNext(s, es, FetchFailed);
    es := es + [FetchFailed];
    RunNext(s, es, Check);
    es := es + [Check];
    RunNext(s, es, Indexed(s.last + 1, true));
    es := es + [Indexed(s.last + 1, true)];
    var t := Run(s, es).value;
    assert t.handed == s.handed + [s.last + 1];
    assert t.handed[|s.handed| - 1] == i && t.handed[|s.handed|] == s.last + 1;
  }

  lemma RunNothing(s: State)
    ensures Run(s, []) == Some(s)
  {}

  /**
   How far `Safety` depends on the node, in every state in which a block is about to be indexed:
   the heights stay consecutive on all honest runs after the answer if and only if the answer is right.
   */
  lemma {:induction false} ConsecutiveIffRightAnswer(s: State, answered: int, ok: bool)
    requires Reachable(s) && s.consumer.Looping? && s.consumer.i <= s.latest
    ensures var t := Step(s, Indexed(answered, ok)).value;
            (forall es | Run(t, es).Some? :: Consecutive(Run(t, es).value)) <==> answered == s.consumer.i
  {
    hide Run, Consecutive;
    var t := Step(s, Indexed(answered, ok)).value;
    ReachableInvariant(s);
    if answered == s.consumer.i {
      StepKeepsInvariant(s, Indexed(answered, ok));
      forall es | Run(t, es).Some?
        ensures Consecutive(Run(t, es).value)
      {
        RunKeepsInvariant(t, es);
      }
    } else {
      var es := GapAfter(t, s.consumer.i);
    }
  }

  /** The state in which the first block after `start` is about to be indexed. */
  function FirstLoop(start: int): State {
    State(start + 1, false, Receiving, Looping(start + 1), start, start, [], {})
  }

  lemma {:induction false} FirstLoopReached(start: int)
    requires start >= 0
    ensures Run(Init(start + 1, start), [Begin, Check]) == Some(FirstLoop(start))
  {
    RunNothing(Init(start + 1, start));
    RunNext(Init(start + 1, start), [], Begin);
    assert [] + [Begin] == [Begin];
    RunNext(Init(start + 1, start), [Begin], Check);
    assert [Begin] + [Check] == [Begin, Check];
  }

  /** So for every start and every wrong answer there is a run that opens a gap or repeats a block. */
  lemma {:induction false} WrongAnswerSkips(start: int, answered: int, ok: bool) returns (es: seq<Event>)
    requires start >= 0 && answered != start + 1
    ensures Run(Init(start + 1, start), [Begin, Check]) == Some(FirstLoop(start))
    ensures Step(FirstLoop(start), Indexed(answered, ok)).Some?
    ensures var t := Step(FirstLoop(start), Indexed(answered, ok)).value;
            Run(t, es).Some? && !Consecutive(Run(t, es).value)
  {
    hide Run, Consecutive;
    FirstLoopReached(start);
    es := GapAfter(Step(FirstLoop(start), Indexed(answered, ok)).value, start + 1);
  }

  // ---------------------------------------------------------------- failed blocks

  /** No `IndexBlock` failed. */
  predicate NoneFailed(es: seq<Event>) {
    forall e | e in es :: e.Indexed? ==> e.ok
  }

  predicate AllStored(s: State) {
    forall h | h in s.handed :: h in s.stored
  }

  /** What a run adds: heights at the end of the list, and only those can become stored. */
  lemma {:induction false} RunGrows(s: State, es: seq<Event>)
    requires Run(s, es).Some?
    ensures var t := Run(s, es).value;
            && s.handed <= t.handed
            && forall h | h in t.stored :: h in s.stored || h in t.handed[|s.handed|..]
  {
    if es != [] {
      var front, e := es[..|es| - 1], es[|es| - 1];
      RunGrows(s, front);
      var t, u := Run(s, front).value, Run(s, es).value;
      if e.Indexed? {
        assert u.handed[|s.handed|..] == t.handed[|s.handed|..] + [t.consumer.i];
      }
    }
  }

  /** A height whose `IndexBlock` failed is never handed over again, so it is never stored. */
  lemma {:induction false} NeverAgain(s: State, h: int, es: seq<Event>)
    requires Reachable(s) && h in s.handed && h !in s.stored && Run(s, es).Some?
    ensures var t := Run(s, es).value;
            s.handed <= t.handed && h !in t.handed[|s.handed|..] && h !in t.stored
  {
    hide Run, Reachable;
    ReachableInvariant(s);
    RunKeepsInvariant(s, es);
    RunGrows(s, es);
    var t := Run(s, es).value;
    var k :| 0 <= k < |s.handed| && s.handed[k] == h;
    assert t.handed[k] == h;
  }

  lemma {:induction false} StepStores(s: State, e: Event)
    requires Invariant(s) && Honest(s, e) && Step(s, e).Some?
    ensures AllStored(Step(s, e).value) <==> AllStored(s) && (e.Indexed? ==> e.ok)
  {
    var t := Step(s, e).value;
    if e.Indexed? {
      var i := s.consumer.i;
      assert i !in s.handed;
      assert t.handed[|s.handed|] == i;
      assert forall h | h in s.handed :: h in t.handed && h != i;
      assert forall h | h in t.handed :: h in s.handed || h == i;
    }
  }

  /** All blocks handed over were stored if and only if no `IndexBlock` of the run failed. */
  lemma {:induction false} StoredIffNoneFailed(latest: int, indexed: int, es: seq<Event>)
    requires indexed >= -1 && Run(Init(latest, indexed), es).Some?
    ensures AllStored(Run(Init(latest, indexed), es).value) <==> NoneFailed(es)
  {
    hide Step, AllStored, Invariant, Honest;
    if es == [] {
      NothingHanded(latest, indexed);
    } else {
      var front, e := es[..|es| - 1], es[|es| - 1];
      assert es == front + [e];
      StoredIffNoneFailed(latest, indexed, front);
      InitInvariant(latest, indexed);
      RunKeepsInvariant(Init(latest, indexed), front);
      StepStores(Run(Init(latest, indexed), front).value, e);
    }
  }

  lemma NothingHanded(latest: int, indexed: int)
    ensures AllStored(Init(latest, indexed))
  {}

  lemma InitInvariant(latest: int, indexed: int)
    ensures Invariant(Init(latest, indexed))
  {}

  // ---------------------------------------------------------------- progress

  /** Everything but the outside world: no new header, no failed fetch, no timeout. */
  predicate Quiet(e: Event) {
    !e.Header? && !e.FetchFailed? && !e.Timeout?
  }

  /** Blocks announced and not yet handed over. */
  function Work(s: State): nat {
    var last := if !s.consumer.Starting? then s.last
                else if s.consumer.indexed == -1 then s.latest else s.consumer.indexed;
    if s.latest > last then s.latest - last else 0
  }

  function Rank(s: State): nat {
    3 * Work(s)
    + (match s.consumer
       case Starting(_) => 3
       case Checking => 2
       case Waiting => 0
       case Looping(_) => if Work(s) == 0 then 3 else 1)
    + (if s.signal then 3 else 0)
    + (if s.producer == Notifying then 4 else 0)
  }

  lemma {:induction false} QuietStepProgresses(s: State, e: Event)
    requires Invariant(s) && Quiet(e) && Honest(s, e) && Step(s, e).Some?
    ensures Rank(Step(s, e).value) < Rank(s)
  {
    hide Consecutive;
  }

  /** A quiet run is no longer than the rank of the state it starts in. */
  lemma {:induction false} QuietRunsEnd(s: State, es: seq<Event>)
    requires Invariant(s) && Run(s, es).Some? && forall e | e in es :: Quiet(e)
    ensures |es| + Rank(Run(s, es).value) <= Rank(s)
  {
    hide Invariant, Step, Rank;
    if es != [] {
      var front, e := es[..|es| - 1], es[|es| - 1];
      assert es == front + [e];
      QuietRunsEnd(s, front);
      RunKeepsInvariant(s, front);
      QuietStepProgresses(Run(s, front).value, e);
    }
  }

  ghost predicate CanStepQuietly(s: State) {
    exists e :: Quiet(e) && Honest(s, e) && Step(s, e).Some?
  }

  /**
   Once headers stop and fetches succeed, the service comes to rest without the help of the
   timeout, and at rest every announced block has been handed over, in order and once.
   */
  lemma {:induction false} AtRestCaughtUp(s: State)
    requires Reachable(s) && !CanStepQuietly(s)
    ensures s.consumer.Waiting? && s.last >= s.latest
    ensures s.latest > s.start ==> s.handed == seq(s.latest - s.start, k => s.start + 1 + k)
  {
    ReachableInvariant(s);
    var e := match s.consumer
      case Starting(_) => Begin
      case Checking => Check
      case Waiting => if s.signal then Wake else Notify
      case Looping(i) => if i <= s.latest then Indexed(i, true) else LoopEnd;
    assert !(Quiet(e) && Honest(s, e) && Step(s, e).Some?);
  }

  /** At rest every announced block is stored if and only if no `IndexBlock` of the run failed. */
  lemma {:induction false} AtRestStored(latest: int, indexed: int, es: seq<Event>, s: State)
    requires indexed >= -1 && Run(Init(latest, indexed), es) == Some(s) && !CanStepQuietly(s)
    ensures (forall h | s.start < h <= s.latest :: h in s.stored) <==> NoneFailed(es)
  {
    hide Run, CanStepQuietly, NoneFailed;
    AtRestCaughtUp(s);
    ReachableInvariant(s);
    StoredIffNoneFailed(latest, indexed, es);
    forall h
      ensures h in s.handed <==> s.start < h <= s.latest
    {
      if s.start < h <= s.latest {
        assert s.handed[h - s.start - 1] == h;
      }
    }
  }

  /** The smallest loss: the first block fails, the service comes to rest, and the block is in no index. */
  lemma {:induction false} FailedBlockLost(start: int)
    requires start >= 0
    ensures var es := [Begin, Check, Indexed(start + 1, false), LoopEnd, Check];
            var s := Run(Init(start + 1, start), es);
            && s.Some? && !CanStepQuietly(s.value)
            && s.value.handed == [start + 1] && s.value.latest == start + 1 && s.value.stored == {}
  {
    hide Run;
    var s := Init(start + 1, start);
    FirstLoopReached(start);
    RunNext(s, [Begin, Check], Indexed(start + 1, false));
    assert [Begin, Check] + [Indexed(start + 1, false)] == [Begin, Check, Indexed(start + 1, false)];
    RunNext(s, [Begin, Check, Indexed(start + 1, false)], LoopEnd);
    var es := [Begin, Check, Indexed(start + 1, false), LoopEnd];
    assert [Begin, Check, Indexed(start + 1, false)] + [LoopEnd] == es;
    RunNext(s, es, Check);
    assert es + [Check] == [Begin, Check, Indexed(start + 1, false), LoopEnd, Check];
  }
}

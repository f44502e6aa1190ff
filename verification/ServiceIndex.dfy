/** The indexing service and the index together: what the database holds after a run, at rest and after a restart. */
module ServiceIndex {
  import opened Options
  import opened Arith
  import opened KVIndexer
  import opened IndexLookup
  import opened IndexBounds
  import opened IndexerService

  // ---------------------------------------------------------------- the database of a run

  /** The database after a run: each `IndexBlock` that succeeds writes the block of its height. */
  function Database(chain: int -> Block, db: DB, s: State, es: seq<Event>): DB
    requires Run(s, es).Some?
  {
    if es == [] then db
    else
      var front, e := es[..|es| - 1], es[|es| - 1];
      var before := Database(chain, db, s, front);
      if e.Indexed? && e.ok then PutAll(before, Entries(chain(Run(s, front).value.consumer.i))) else before
  }

  /** The heights handed over and stored, in the order they were handed over. */
  function InOrder(handed: seq<int>, stored: set<int>): seq<int> {
    if handed == [] then []
    else InOrder(handed[..|handed| - 1], stored) + (if handed[|handed| - 1] in stored then [handed[|handed| - 1]] else [])
  }

  function Blocks(chain: int -> Block, heights: seq<int>): seq<Block> {
    seq(|heights|, i requires 0 <= i < |heights| => chain(heights[i]))
  }

  lemma {:induction false} InOrderWithout(handed: seq<int>, stored: set<int>, h: int)
    requires h !in handed
    ensures InOrder(handed, stored + {h}) == InOrder(handed, stored)
  {
    if handed != [] {
      InOrderWithout(handed[..|handed| - 1], stored, h);
    }
  }

  lemma {:induction false} InOrderAll(handed: seq<int>, stored: set<int>)
    requires forall h | h in handed :: h in stored
    ensures InOrder(handed, stored) == handed
  {
    if handed != [] {
      var front, last := handed[..|handed| - 1], handed[|handed| - 1];
      InOrderAll(front, stored);
      assert last in handed;
      assert handed == front + [last];
    }
  }

  /** What one step keeps. */
  lemma {:induction false} StepKeeps(s: State, e: Event)
    requires Invariant(s) && Honest(s, e) && Step(s, e).Some?
    ensures var t := Step(s, e).value;
            InOrder(t.handed, t.stored) == InOrder(s.handed, s.stored) + if e.Indexed? && e.ok then [s.consumer.i] else []
  {
    if e.Indexed? {
      var i, t := s.consumer.i, Step(s, e).value;
      assert i !in s.handed;
      assert t.handed[..|t.handed| - 1] == s.handed;
      InOrderWithout(s.handed, s.stored, i);
    }
  }

  lemma {:induction false} IndexNext(db: DB, bs: seq<Block>, b: Block)
    ensures IndexAll(db, bs + [b]) == PutAll(IndexAll(db, bs), Entries(b))
  {
    hide PutAll, Entries;
    assert (bs + [b])[..|bs|] == bs;
  }

  /** In every run the database is the one indexing the stored blocks in order gives. */
  lemma {:induction false} DatabaseIs(chain: int -> Block, db: DB, latest: int, indexed: int, es: seq<Event>)
    requires indexed >= -1 && Run(Init(latest, indexed), es).Some?
    ensures var t := Run(Init(latest, indexed), es).value;
            Database(chain, db, Init(latest, indexed), es) == IndexAll(db, Blocks(chain, InOrder(t.handed, t.stored)))
  {
    hide Step, Invariant, Honest, InOrder, PutAll, Entries, IndexAll;
    var s := Init(latest, indexed);
    if es == [] {
      NothingInOrder(chain, db, latest, indexed);
    } else {
      var front, e := es[..|es| - 1], es[|es| - 1];
      DatabaseIs(chain, db, latest, indexed, front);
      InitInvariant(latest, indexed);
      RunKeepsInvariant(s, front);
      var u := Run(s, front).value;
      StepKeeps(u, e);
      var hs := InOrder(u.handed, u.stored);
      if e.Indexed? && e.ok {
        LoopingAt(u, e);
        IndexNext(db, Blocks(chain, hs), chain(u.consumer.i));
        assert Blocks(chain, hs + [u.consumer.i]) == Blocks(chain, hs) + [chain(u.consumer.i)];
      } else {
        assert hs + [] == hs;
      }
    }
  }

  lemma NothingInOrder(chain: int -> Block, db: DB, latest: int, indexed: int)
    ensures var s := Init(latest, indexed); IndexAll(db, Blocks(chain, InOrder(s.handed, s.stored))) == db
  {}

  lemma LoopingAt(s: State, e: Event)
    requires e.Indexed? && Step(s, e).Some?
    ensures s.consumer.Looping?
  {}

  // ---------------------------------------------------------------- at rest

  /** The heights announced since the service began. */
  function Announced(s: State): seq<int> {
    if s.latest > s.start then seq(s.latest - s.start, k => s.start + 1 + k) else []
  }

  lemma {:induction false} AtRestInOrder(latest: int, indexed: int, es: seq<Event>, s: State)
    requires indexed >= -1 && Run(Init(latest, indexed), es) == Some(s) && !CanStepQuietly(s) && NoneFailed(es)
    ensures InOrder(s.handed, s.stored) == Announced(s)
  {
    hide Run, CanStepQuietly, NoneFailed, InOrder, Step;
    AtRestCaughtUp(s);
    ReachableInvariant(s);
    StoredIffNoneFailed(latest, indexed, es);
    InOrderAll(s.handed, s.stored);
    assert s.handed == Announced(s);
  }

  lemma {:induction false} IndexAllConcat(db: DB, bs: seq<Block>, cs: seq<Block>)
    ensures IndexAll(IndexAll(db, bs), cs) == IndexAll(db, bs + cs)
  {
    hide PutAll, Entries;
    if cs == [] {
      assert bs + cs == bs;
    } else {
      IndexAllConcat(db, bs, cs[..|cs| - 1]);
      assert (bs + cs)[..|bs + cs| - 1] == bs + cs[..|cs| - 1];
    }
  }

  /**
   From header to lookup. The service began on the index of earlier blocks, no `IndexBlock` failed, and it is at
   rest: if all hashes are different, every message of every earlier and every announced block is found under both keys.
   */
  lemma {:induction false} EverythingFound(chain: int -> Block, earlier: seq<Block>, latest: int, indexed: int,
                                           es: seq<Event>, s: State, k: nat, i: nat)
    requires indexed >= -1 && Run(Init(latest, indexed), es) == Some(s) && !CanStepQuietly(s) && NoneFailed(es)
    requires var bs := earlier + Blocks(chain, Announced(s));
             && ValidRun(bs) && k < |bs| && i < |Entries(bs[k])|
             && forall g, g' | 0 <= g < g' < |History(bs)| :: History(bs)[g].hash != History(bs)[g'].hash
    ensures var db := Database(chain, IndexAll(map[], earlier), Init(latest, indexed), es);
            var b := (earlier + Blocks(chain, Announced(s)))[k];
            && i < TWO31
            && GetByTxHash(db, Entries(b)[i].hash) == Found(Entries(b)[i].record)
            && GetByBlockAndIndex(db, b.height, i) == Found(Entries(b)[i].record)
  {
    hide *;
    DatabaseIs(chain, IndexAll(map[], earlier), latest, indexed, es);
    AtRestInOrder(latest, indexed, es, s);
    IndexAllConcat(map[], earlier, Blocks(chain, Announced(s)));
    DistinctAgreement(earlier + Blocks(chain, Announced(s)), k, i);
  }

  // ---------------------------------------------------------------- after a restart

  /** The highest of a height and the headers of a run. */
  function Highest(latest: int, es: seq<Event>): int {
    if es == [] then latest
    else
      var h, e := Highest(latest, es[..|es| - 1]), es[|es| - 1];
      if e.Header? && e.height > h then e.height else h
  }

  /** `latestBlock` is the highest header seen. */
  lemma {:induction false} LatestIs(latest: int, indexed: int, es: seq<Event>, s: State)
    requires Run(Init(latest, indexed), es) == Some(s)
    ensures s.latest == Highest(latest, es)
  {
    if es != [] {
      LatestIs(latest, indexed, es[..|es| - 1], Run(Init(latest, indexed), es[..|es| - 1]).value);
    }
  }

  /** Before `Begin` nothing is handed over. */
  lemma {:induction false} NotBegun(latest: int, indexed: int, es: seq<Event>, s: State)
    requires Run(Init(latest, indexed), es) == Some(s)
    ensures s.consumer.Starting? <==> Begin !in es
    ensures s.consumer.Starting? ==> s.consumer.indexed == indexed
  {
    if es != [] {
      var front, e := es[..|es| - 1], es[|es| - 1];
      assert es == front + [e];
      NotBegun(latest, indexed, front, Run(Init(latest, indexed), front).value);
    }
  }

  /**
   Where a run begins: after the block the database reported, or, if it reported none, after the highest header
   seen until then.
   */
  lemma {:induction false} StartIs(latest: int, indexed: int, es: seq<Event>, s: State, k: nat)
    requires Run(Init(latest, indexed), es) == Some(s) && k < |es| && es[k] == Begin
    ensures s.start == if indexed == -1 then Highest(latest, es[..k]) else indexed
  {
    var front, e := es[..|es| - 1], es[|es| - 1];
    var u := Run(Init(latest, indexed), front).value;
    NotBegun(latest, indexed, front, u);
    if k < |es| - 1 {
      assert front[k] == Begin && front[..k] == es[..k];
      StartIs(latest, indexed, front, u, k);
    } else {
      LatestIs(latest, indexed, front, u);
    }
  }

  /** Whoever waits with work to do is helped by the timeout alone. */
  lemma {:induction false} TimeoutSuffices(s: State)
    requires s.consumer.Waiting? && s.latest > s.last
    ensures Run(s, [Timeout, Check]) == Some(s.(consumer := Looping(s.last + 1)))
  {
    RunNothing(s);
    RunNext(s, [], Timeout);
    assert [] + [Timeout] == [Timeout];
    RunNext(s, [Timeout], Check);
    assert [Timeout] + [Check] == [Timeout, Check];
  }

  /** At rest the heights handed over are those above the start. */
  lemma {:induction false} AtRestHanded(s: State, h: int)
    requires Reachable(s) && !CanStepQuietly(s)
    ensures !s.consumer.Starting?
    ensures h in s.handed <==> s.start < h <= s.latest
  {
    hide Reachable, CanStepQuietly;
    AtRestCaughtUp(s);
    ReachableInvariant(s);
    if s.start < h <= s.latest {
      assert s.handed[h - s.start - 1] == h;
    }
  }

  /** `LoadLastBlock` reports this height. */
  ghost predicate Reported(db: DB, last: int64) {
    HasHeight(db, last) && forall h: int64 | HasHeight(db, h) :: h <= last
  }

  /**
   A block that was missed is taken up after a restart if and only if no block at its height or above has left
   anything in the index: the service begins after the last block it finds there.
   */
  lemma {:induction false} TakenUpIff(bs: seq<Block>, last: int64, latest: int, es: seq<Event>, s: State, h: int)
    requires ValidRun(bs) && Reported(IndexAll(map[], bs), last)
    requires Run(Init(latest, last), es) == Some(s) && !CanStepQuietly(s) && h <= s.latest
    ensures h in s.handed <==> forall k | 0 <= k < |bs| && Entries(bs[k]) != [] :: bs[k].height < h
  {
    hide Run, CanStepQuietly, HasHeight, IndexAll, Entries, Step;
    RunHeights(bs);
    AtRestHanded(s, h);
    var begun := BeginsOnce(latest, last, es, s);
    StartIs(latest, last, es, s, begun);
    assert HasHeight(IndexAll(map[], bs), last);
    forall k | 0 <= k < |bs| && Entries(bs[k]) != []
      ensures bs[k].height <= last
    {
      assert HasHeight(IndexAll(map[], bs), bs[k].height);
    }
  }

  /** A run that has begun did so somewhere. */
  lemma {:induction false} BeginsOnce(latest: int, indexed: int, es: seq<Event>, s: State) returns (k: nat)
    requires Run(Init(latest, indexed), es) == Some(s) && !s.consumer.Starting?
    ensures k < |es| && es[k] == Begin
  {
    hide Run, Step;
    NotBegun(latest, indexed, es, s);
    k :| 0 <= k < |es| && es[k] == Begin;
  }

  /**
   On an index in which nothing was found, exactly the blocks above the highest header seen before the service
   began are taken up: the earlier ones never, the later ones all.
   */
  lemma {:induction false} TakenUpFromNothing(latest: int, es: seq<Event>, s: State, k: nat, h: int)
    requires Run(Init(latest, -1), es) == Some(s) && !CanStepQuietly(s) && k < |es| && es[k] == Begin
    ensures h in s.handed <==> Highest(latest, es[..k]) < h <= Highest(latest, es)
  {
    hide Run, CanStepQuietly, Step;
    StartIs(latest, -1, es, s, k);
    LatestIs(latest, -1, es, s);
    AtRestHanded(s, h);
  }
}

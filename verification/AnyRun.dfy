/**
  Every run of the pipeline ends, also with crashes and errors: the number of steps is bounded, and
  until all threads have returned some thread can go on without a further crash.
 */
module AnyRun {
  import opened ByteStrings
  import opened Cutting
  import opened Reorder
  import opened Pipeline

  // ------------------------------------------------------------------ some thread can go on

  /** All threads have returned, regularly or not. */
  predicate AllReturned(s: State) {
    s.reader != Reading && s.sink != Receiving && forall i :: 0 <= i < |s.nodes| ==> AllGone(s.nodes[i].ws)
  }

  /** A step a thread takes by itself, be it to find that its job fails or that a channel is closed. */
  predicate Regular(e: Event) {
    !e.ReaderCrash? && !e.SinkFail? && (e.At? ==> !e.a.Crash?)
  }

  ghost predicate GoesOn(cfg: Config, s: State, e: Event)
    requires Shape(cfg, s)
  {
    Regular(e) && Next(cfg, s, e).Some?
  }

  lemma ActGoesOn(cfg: Config, s: State, i: nat, a: Act)
    requires Shape(cfg, s) && i < |s.nodes| && !a.Crash?
    requires NodeAct(cfg.stages[i], s.nodes[i], ViewOf(cfg, s, i), a).Some?
    ensures GoesOn(cfg, s, At(i, a))
  {
    hide NodeAct;
  }

  /** A worker can act if it can send or its output is closed, unless its input is open and empty. */
  lemma WorkerActs(st: Stage, node: Node, v: View, w: nat) returns (a: Act)
    requires st.Pool? && w < |node.ws| && !Gone(node.ws[w]) && (v.room || v.gone)
    requires node.ws[w].Idle? ==> v.queue != [] || v.closed
    ensures PoolAct(st, node, v, a).Some? && !a.Crash?
  {
    match node.ws[w]
    case Idle => a := if v.queue != [] then Take(w) else Exit(w);
    case Busy(_) => a := Work(w);
    case Ready(_) => a := if v.gone then Drop(w) else Send(w);
  }

  lemma OrderedActs(st: Stage, node: Node, v: View) returns (a: Act)
    requires st.Ordered? && OrderedInv(st, v.cons, node) && !AllGone(node.ws) && (v.room || v.gone)
    requires v.queue != [] || v.closed || |node.put| < |Goal(st, v.cons, node.flushed)| || node.flushed
    ensures OrderedAct(st, node, v, a).Some? && !a.Crash?
  {
    assert node.ws == [Idle];
    if |node.put| < |Goal(st, v.cons, node.flushed)| {
      a := if v.gone then Drop(0) else Send(0);
    } else if node.flushed {
      a := Exit(0);
    } else if v.queue != [] {
      a := Take(0);
    } else {
      a := Work(0);
    }
  }

  /** Stage `i` can act, or else it waits for its own input. */
  lemma StageActs(cfg: Config, s: State, i: nat) returns (waits: bool, e: Event)
    requires Inv(cfg, s) && i < |s.nodes| && !AllGone(s.nodes[i].ws)
    requires Queue(cfg, s, i + 1) == [] || ReceiversGone(s, i + 1)
    ensures !waits ==> GoesOn(cfg, s, e)
    ensures waits ==> Queue(cfg, s, i) == [] && !SendersGone(s, i)
  {
    hide EndInv, GoesOn, PoolAct, OrderedAct, PoolInv;
    var st, node, v := cfg.stages[i], s.nodes[i], ViewOf(cfg, s, i);
    assert NodeInv(st, v.cons, node);
    assert cfg.caps[i + 1] > 0;
    waits := v.queue == [] && !v.closed;
    e := ReaderSend;
    if st.Pool? {
      if w :| 0 <= w < |node.ws| && (node.ws[w].Busy? || node.ws[w].Ready?) {
        var a := WorkerActs(st, node, v, w);
        ActGoesOn(cfg, s, i, a);
        return false, At(i, a);
      } else if !waits {
        var w :| 0 <= w < |node.ws| && !Gone(node.ws[w]);
        var a := WorkerActs(st, node, v, w);
        ActGoesOn(cfg, s, i, a);
        return false, At(i, a);
      }
    } else if !waits || |node.put| < |Goal(st, v.cons, node.flushed)| || node.flushed {
      var a := OrderedActs(st, node, v);
      ActGoesOn(cfg, s, i, a);
      return false, At(i, a);
    }
  }

  lemma ReaderActs(cfg: Config, s: State) returns (e: Event)
    requires Shape(cfg, s) && EndInv(cfg, s) && !SendersGone(s, 0)
    requires Queue(cfg, s, 0) == [] || ReceiversGone(s, 0)
    ensures GoesOn(cfg, s, e)
  {
    assert cfg.caps[0] > 0;
    e := if ReceiversGone(s, 0) then ReaderStop else ReaderSend;
  }

  /** Whoever sends on a channel that is empty or closed can act, or waits for somebody before who can. */
  lemma {:induction false} SendersAct(cfg: Config, s: State, i: nat) returns (e: Event)
    requires Inv(cfg, s) && i <= |s.nodes| && !SendersGone(s, i)
    requires Queue(cfg, s, i) == [] || ReceiversGone(s, i)
    ensures GoesOn(cfg, s, e)
  {
    hide NodesInv, GoesOn;
    if i == 0 {
      e := ReaderActs(cfg, s);
    } else {
      var waits;
      waits, e := StageActs(cfg, s, i - 1);
      if waits {
        e := SendersAct(cfg, s, i - 1);
      }
    }
  }

  /** The last channel that still has a sender leads to nobody. */
  lemma {:induction false} RestActs(cfg: Config, s: State, i: nat) returns (e: Event)
    requires Inv(cfg, s) && i <= |s.nodes| && ReceiversGone(s, i)
    requires s.reader == Reading || exists j :: 0 <= j < i && !AllGone(s.nodes[j].ws)
    ensures GoesOn(cfg, s, e)
  {
    hide NodesInv, EndInv, GoesOn, AllGone;
    if !SendersGone(s, i) {
      e := SendersAct(cfg, s, i);
    } else {
      e := RestActs(cfg, s, i - 1);
    }
  }

  /** No deadlock, whatever has failed: while some thread has not returned, some thread can go on. */
  lemma SomeThreadGoesOn(cfg: Config, s: State) returns (e: Event)
    requires Inv(cfg, s) && !AllReturned(s)
    ensures GoesOn(cfg, s, e)
  {
    hide NodesInv, EndInv, AllGone;
    var n := |s.nodes|;
    if s.sink != Receiving {
      e := RestActs(cfg, s, n);
    } else if Queue(cfg, s, n) != [] {
      e := SinkTake;
    } else if SendersGone(s, n) {
      e := SinkEnd;
    } else {
      e := SendersAct(cfg, s, n);
    }
  }

  // ------------------------------------------------------------------ how much a channel can carry

  function Beginnings(lists: set<seq<Item>>): set<seq<Item>> {
    set xs, k | xs in lists && 0 <= k <= |xs| :: xs[..k]
  }

  /** All lists the items of channel `i` may be taken from, whatever fails and whenever an input ends. */
  ghost function Possible(cfg: Config, i: nat): set<seq<Item>>
    requires i <= |cfg.stages|
  {
    if i == 0 then Beginnings({cfg.input}) else
    var before := Possible(cfg, i - 1);
    match cfg.stages[i - 1]
    case Pool(_, job) => set xs | xs in before :: Mapped(job, xs)
    case Ordered(outs, all) =>
      Beginnings((set xs | xs in Beginnings(before) :: outs(xs))
               + (set xs | xs in Beginnings(before) :: all(xs).GetOr([])))
  }

  lemma IsBeginning(xs: seq<Item>, ys: seq<Item>, lists: set<seq<Item>>)
    requires xs <= ys && ys in lists
    ensures xs in Beginnings(lists)
  {
    assert ys[..|xs|] == xs;
  }

  lemma {:induction false} RefIsPossible(cfg: Config, s: State, i: nat)
    requires Shape(cfg, s) && NodesInv(cfg, s) && i <= |s.nodes|
    ensures Ref(cfg, s, i) in Possible(cfg, i)
  {
    hide NodesInv, ValidConfig, Beginnings, Mapped;
    if i == 0 {
      IsBeginning(cfg.input[..s.sent], cfg.input, {cfg.input});
    } else {
      RefIsPossible(cfg, s, i - 1);
      if cfg.stages[i - 1].Ordered? {
        OrderedIsPossible(cfg, s, i - 1);
      }
    }
  }

  lemma OrderedIsPossible(cfg: Config, s: State, i: nat)
    requires Shape(cfg, s) && NodesInv(cfg, s) && i < |s.nodes| && cfg.stages[i].Ordered?
    requires Ref(cfg, s, i) in Possible(cfg, i)
    ensures s.nodes[i].put in Possible(cfg, i + 1)
  {
    hide NodesInv, ValidConfig, Beginnings, Ref, InOrder, Level;
    var st, node, cons := cfg.stages[i], s.nodes[i], Cons(cfg, s, i);
    var before := Beginnings(Possible(cfg, i));
    Levels(cfg, s, i);
    NodeInvAt(cfg, s, i);
    InOrderOfLevel(Put(cfg, s, i), Ref(cfg, s, i), cons);
    var xs := InOrder(cons);
    IsBeginning(xs, Ref(cfg, s, i), Possible(cfg, i));
    var goals := (set ys | ys in before :: st.outs(ys)) + (set ys | ys in before :: st.all(ys).GetOr([]));
    assert Goal(st, cons, node.flushed) in goals;
    IsBeginning(node.put, Goal(st, cons, node.flushed), goals);
  }

  /** The greatest length of these lists. */
  ghost function Longest(lists: set<seq<Item>>): (n: nat)
    ensures forall xs :: xs in lists ==> |xs| <= n
    decreases |lists|
  {
    if lists == {} then 0 else
    var xs :| xs in lists;
    var n := Longest(lists - {xs});
    assert forall ys :: ys in lists ==> ys == xs || ys in lists - {xs};
    if n < |xs| then |xs| else n
  }

  ghost function MostSizes(cfg: Config): (sizes: seq<nat>)
    ensures |sizes| == |cfg.stages| + 1
  {
    seq(|cfg.stages| + 1, i requires 0 <= i <= |cfg.stages| => Longest(Possible(cfg, i)))
  }

  lemma PutAtMost(cfg: Config, s: State, i: nat)
    requires Inv(cfg, s) && i <= |s.nodes|
    ensures Got(s, i) <= |Put(cfg, s, i)| <= MostSizes(cfg)[i]
  {
    hide NodesInv, EndInv, ValidConfig, Possible, Ref;
    RefIsPossible(cfg, s, i);
    Levels(cfg, s, i);
    DistinctBounded(Put(cfg, s, i), |Ref(cfg, s, i)|);
  }

  lemma {:induction false} MostNodesRank(cfg: Config, s: State, i: nat)
    requires Inv(cfg, s) && i <= |s.nodes|
    ensures NodesRank(MostSizes(cfg), s.nodes, i) >= 0
    decreases |s.nodes| - i
  {
    hide NodesInv, EndInv, ValidConfig, MostSizes;
    if i == |s.nodes| {
    } else {
      MostNodesRank(cfg, s, i + 1);
      PutAtMost(cfg, s, i);
      PutAtMost(cfg, s, i + 1);
    }
  }

  lemma MostRank(cfg: Config, s: State)
    requires Inv(cfg, s)
    ensures Rank(cfg, MostSizes(cfg), s) >= 0
  {
    hide NodesInv, EndInv, ValidConfig, MostSizes, NodesRank;
    MostNodesRank(cfg, s, 0);
    PutAtMost(cfg, s, |s.nodes|);
  }

  // ------------------------------------------------------------------ every run ends

  /**
    Whatever fails and crashes: no run is longer than the bound, and as long as some thread has not
    returned some thread can go on by itself.
   */
  lemma AnyRunEnds(cfg: Config, es: seq<Event>)
    requires ValidConfig(cfg) && Run(cfg, es).Some?
    ensures |es| <= Rank(cfg, MostSizes(cfg), Init(cfg))
    ensures !AllReturned(Run(cfg, es).value) ==> exists e :: Regular(e) && Run(cfg, es + [e]).Some?
  {
    hide ValidConfig, Run, Rank, MostSizes, AllReturned, Regular;
    var s := Run(cfg, es).value;
    RunDecreases(cfg, MostSizes(cfg), es);
    MostRank(cfg, s);
    if !AllReturned(s) {
      var e := SomeThreadGoesOn(cfg, s);
      RunSnoc(cfg, es, e);
      assert Regular(e) && Run(cfg, es + [e]).Some?;
    }
  }

  /** So after any faults the threads only have to be left alone: all of them return. */
  lemma {:induction false} AnyRunReturns(cfg: Config, es: seq<Event>) returns (more: seq<Event>)
    requires ValidConfig(cfg) && Run(cfg, es).Some?
    ensures Run(cfg, es + more).Some? && AllReturned(Run(cfg, es + more).value)
    ensures forall e :: e in more ==> Regular(e)
    decreases Rank(cfg, MostSizes(cfg), Run(cfg, es).value)
  {
    hide ValidConfig, Run, Rank, MostSizes, AllReturned, Regular;
    var s := Run(cfg, es).value;
    MostRank(cfg, s);
    if AllReturned(s) {
      more := [];
      assert es + more == es;
    } else {
      var e := SomeThreadGoesOn(cfg, s);
      RunSnoc(cfg, es, e);
      StepDecreases(cfg, MostSizes(cfg), s, e);
      var rest := AnyRunReturns(cfg, es + [e]);
      more := [e] + rest;
      assert es + more == es + [e] + rest;
    }
  }

  // ------------------------------------------------------------------ the reader stops early

  /** The pipeline whose input ends where the reader has stopped, without a final flag. */
  function CutShort(cfg: Config, s: State): Config
    requires s.sent <= |cfg.input|
  {
    cfg.(input := cfg.input[..s.sent])
  }

  ghost predicate CarriedShort(cfg: Config, s: State, i: nat)
    requires Shape(cfg, s) && i <= |s.nodes|
  {
    var ideal := Ideal(CutShort(cfg, s), i);
    Ref(cfg, s, i) == ideal && forall x :: x in ideal ==> x in Put(cfg, s, i)
  }

  lemma {:induction false} ShortUpTo(cfg: Config, s: State, i: nat)
    requires Inv(cfg, s) && i <= |s.nodes| && forall j :: 0 <= j < i ==> AllFinished(s.nodes[j].ws)
    ensures CarriedShort(cfg, s, i)
  {
    hide NodesInv, EndInv, ValidConfig, AllFinished, NextRef, NextIdeal, Ref, Ideal, Level, Lawful, NodeInv;
    if i == 0 {
      ShortStart(cfg, s);
    } else {
      ShortUpTo(cfg, s, i - 1);
      Levels(cfg, s, i - 1);
      StageFinished(cfg, s, i - 1);
      NodeInvAt(cfg, s, i - 1);
      StageComplete(cfg.stages[i - 1], Put(cfg, s, i - 1), Ref(cfg, s, i - 1), s.nodes[i - 1]);
      NextRefIs(cfg, s, i - 1);
      NextIdealIs(CutShort(cfg, s), i - 1);
    }
  }

  lemma ShortStart(cfg: Config, s: State)
    requires Shape(cfg, s)
    ensures CarriedShort(cfg, s, 0)
  {
  }

  lemma NextIdealIs(cfg: Config, i: nat)
    requires i < |cfg.stages|
    ensures Ideal(cfg, i + 1) == NextIdeal(cfg.stages[i], Ideal(cfg, i))
  {
  }

  /** Nobody but the reader has failed. */
  ghost predicate OnlyReaderFailed(s: State) {
    s.sink != Failing && forall i :: 0 <= i < |s.nodes| ==> NoLoss(s.nodes[i].ws)
  }

  /** Then in the end everything is written that the stages make of the chunks that were read. */
  lemma ShortRunWrites(cfg: Config, s: State)
    requires Inv(cfg, s) && AllReturned(s) && OnlyReaderFailed(s)
    ensures Written(cfg, s) == Payloads(Ideal(CutShort(cfg, s), |cfg.stages|))
  {
    hide NodesInv, ValidConfig, Ref, Ideal, InOrder, Level;
    var n := |s.nodes|;
    forall i | 0 <= i < n
      ensures AllFinished(s.nodes[i].ws)
    {
      assert NoLoss(s.nodes[i].ws) && AllGone(s.nodes[i].ws);
    }
    ShortUpTo(cfg, s, n);
    Levels(cfg, s, n);
    assert Drained(cfg, s, n);
    assert Cons(cfg, s, n) == Put(cfg, s, n);
    CompleteInOrder(Put(cfg, s, n), Ref(cfg, s, n));
  }
}

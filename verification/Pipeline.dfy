/**
  `CryptIo::io_chunks` with the workers of `encrypt_pipe` or `decrypt_pipe` as a state machine: a
  reader, a list of stages and a reordering writer, connected by bounded channels. One event is one
  step of one thread; a run is any sequence of events, so it stands for any schedule. Threads may
  crash at any time, a job may fail, and a thread whose partner is gone sees its channel closed.
 */
module Pipeline {
  import opened ByteStrings
  import opened Cutting
  import opened Reorder

  /**
    `Pool`: `size` workers apply `job` to one item each; `None` is an error.
    `Ordered`: one thread behind a reorder buffer. `outs(xs)` is everything it has sent once `xs`
    have come in without a gap, `all(xs)` also what it sends when the input ends there.
   */
  datatype Stage =
    | Pool(size: nat, job: Item -> Option<Item>)
    | Ordered(outs: seq<Item> -> seq<Item>, all: seq<Item> -> Option<seq<Item>>)

  /** Only the last item may carry the final flag. */
  ghost predicate FinalOnlyLast(xs: seq<Item>) {
    forall i :: 0 <= i < |xs| - 1 ==> !xs[i].final
  }

  ghost predicate LawfulJob(job: Item -> Option<Item>) {
    forall x :: job(x).Some? ==> job(x).value.idx == x.idx && (job(x).value.final ==> x.final)
  }

  ghost predicate LawfulOuts(outs: seq<Item> -> seq<Item>, all: seq<Item> -> Option<seq<Item>>) {
    && (forall xs :: NumberedFrom0(outs(xs)) && FinalOnlyLast(outs(xs)))
    && (forall xs, ys :: xs <= ys && FinalOnlyLast(ys) ==> outs(xs) <= outs(ys))
    && (forall xs :: all(xs).Some? && FinalOnlyLast(xs) ==>
         outs(xs) <= all(xs).value && NumberedFrom0(all(xs).value) && FinalOnlyLast(all(xs).value))
  }

  ghost predicate Lawful(st: Stage) {
    match st
    case Pool(size, job) => size > 0 && LawfulJob(job)
    case Ordered(outs, all) => LawfulOuts(outs, all)
  }

  /** A worker waits, works on an item, waits to send one, or has returned Ok or failed. */
  datatype Worker = Idle | Busy(x: Item) | Ready(y: Item) | Finished | Broken | Failed

  predicate Gone(w: Worker) {
    w.Finished? || w.Broken? || w.Failed?
  }

  predicate AllGone(ws: seq<Worker>) {
    forall w :: 0 <= w < |ws| ==> Gone(ws[w])
  }

  /** One stage: how many items it has taken, all it has sent, and its workers. */
  datatype Node = Node(got: nat, put: seq<Item>, ws: seq<Worker>, flushed: bool)

  /** What a stage sees of the rest: the items it took, those waiting, and the state of its channels. */
  datatype View = View(cons: seq<Item>, queue: seq<Item>, closed: bool, room: bool, gone: bool)

  datatype Act = Take(w: nat) | Work(w: nat) | Send(w: nat) | Drop(w: nat) | Exit(w: nat) | Crash(w: nat)

  function Goal(st: Stage, cons: seq<Item>, flushed: bool): seq<Item>
    requires st.Ordered?
  {
    if flushed then st.all(InOrder(cons)).GetOr([]) else st.outs(InOrder(cons))
  }

  function PoolAct(st: Stage, node: Node, v: View, a: Act): Option<Node>
    requires st.Pool?
  {
    var w := a.w;
    if w >= |node.ws| then None else
    match (a, node.ws[w])
    case (Take(_), Idle) =>
      if v.queue != [] then Some(node.(got := node.got + 1, ws := node.ws[w := Busy(v.queue[0])])) else None
    case (Work(_), Busy(x)) =>
      Some(node.(ws := node.ws[w := match st.job(x) case Some(y) => Ready(y) case None => Failed]))
    case (Send(_), Ready(y)) =>
      if !v.gone && v.room then Some(node.(put := node.put + [y], ws := node.ws[w := Idle])) else None
    case (Drop(_), Ready(y)) =>
      if v.gone then Some(node.(ws := node.ws[w := Broken])) else None
    case (Exit(_), Idle) =>
      if v.queue == [] && v.closed then Some(node.(ws := node.ws[w := Finished])) else None
    case (Crash(_), worker) =>
      if Gone(worker) then None else Some(node.(ws := node.ws[w := Failed]))
    case _ => None
  }

  function OrderedAct(st: Stage, node: Node, v: View, a: Act): Option<Node>
    requires st.Ordered?
  {
    var goal := Goal(st, v.cons, node.flushed);
    if a.w != 0 || node.ws != [Idle] then None else
    match a
    case Take(_) =>
      if !node.flushed && |node.put| == |goal| && v.queue != [] then Some(node.(got := node.got + 1)) else None
    case Send(_) =>
      if |node.put| < |goal| && !v.gone && v.room then Some(node.(put := node.put + [goal[|node.put|]])) else None
    case Drop(_) =>
      if |node.put| < |goal| && v.gone then Some(node.(ws := [Failed])) else None
    case Work(_) => // the input has ended
      if !node.flushed && |node.put| == |goal| && v.queue == [] && v.closed then
        if st.all(InOrder(v.cons)).Some? then Some(node.(flushed := true)) else Some(node.(ws := [Failed]))
      else None
    case Exit(_) =>
      if node.flushed && |node.put| == |goal| then Some(node.(ws := [Finished])) else None
    case Crash(_) => Some(node.(ws := [Failed]))
  }

  function NodeAct(st: Stage, node: Node, v: View, a: Act): Option<Node> {
    if st.Pool? then PoolAct(st, node, v, a) else OrderedAct(st, node, v, a)
  }

  // ------------------------------------------------------------------ one stage alone

  /** How often number `k` occurs in a list. */
  function Occurs(xs: seq<Item>, k: nat): nat {
    if xs == [] then 0 else Occurs(xs[..|xs| - 1], k) + (if xs[|xs| - 1].idx == k then 1 else 0)
  }

  lemma OccursSnoc(xs: seq<Item>, x: Item, k: nat)
    ensures Occurs(xs + [x], k) == Occurs(xs, k) + (if x.idx == k then 1 else 0)
  {
    assert (xs + [x])[..|xs|] == xs;
  }

  /** How many workers hold number `k`. */
  function Held(ws: seq<Worker>, k: nat): nat {
    if ws == [] then 0 else Holds(ws[0], k) + Held(ws[1..], k)
  }

  function Holds(w: Worker, k: nat): nat {
    match w
    case Busy(x) => if x.idx == k then 1 else 0
    case Ready(y) => if y.idx == k then 1 else 0
    case _ => 0
  }

  lemma {:induction false} HeldUpdate(ws: seq<Worker>, w: nat, v: Worker, k: nat)
    requires w < |ws|
    ensures Held(ws[w := v], k) + Holds(ws[w], k) == Held(ws, k) + Holds(v, k)
  {
    if w == 0 {
      assert ws[0 := v][1..] == ws[1..];
    } else {
      HeldUpdate(ws[1..], w - 1, v, k);
      assert ws[w := v][1..] == ws[1..][w - 1 := v];
    }
  }

  ghost predicate Made(job: Item -> Option<Item>, cons: seq<Item>, y: Item) {
    exists x :: x in cons && job(x) == Some(y)
  }

  ghost predicate NoLoss(ws: seq<Worker>) {
    forall w :: 0 <= w < |ws| ==> !ws[w].Broken? && !ws[w].Failed?
  }

  /** Everything a pool sent or is about to send came out of the job on an item it took. */
  ghost predicate Traced(job: Item -> Option<Item>, cons: seq<Item>, node: Node) {
    && (forall y :: y in node.put ==> Made(job, cons, y))
    && (forall w :: 0 <= w < |node.ws| && node.ws[w].Busy? ==> node.ws[w].x in cons)
    && (forall w :: 0 <= w < |node.ws| && node.ws[w].Ready? ==> Made(job, cons, node.ws[w].y))
  }

  /**
    The numbers it took are divided between those it sent and those its workers hold; some are
    missing only if a worker broke off or failed.
   */
  ghost predicate Accounted(cons: seq<Item>, put: seq<Item>, ws: seq<Worker>) {
    && (forall k :: Occurs(put, k) + Held(ws, k) <= Occurs(cons, k))
    && (NoLoss(ws) ==> forall k :: Occurs(put, k) + Held(ws, k) == Occurs(cons, k))
  }

  ghost predicate PoolInv(size: nat, job: Item -> Option<Item>, cons: seq<Item>, node: Node) {
    |node.ws| == size && Traced(job, cons, node) && Accounted(cons, node.put, node.ws)
  }

  /** What an ordered stage keeps: it sent a beginning of what the items it took call for. */
  ghost predicate OrderedInv(st: Stage, cons: seq<Item>, node: Node)
    requires st.Ordered?
  {
    && |node.ws| == 1 && (node.ws[0].Idle? || node.ws[0].Finished? || node.ws[0].Failed?)
    && (node.flushed ==> st.all(InOrder(cons)).Some?)
    && node.put <= Goal(st, cons, node.flushed)
    && (node.ws[0].Finished? ==> node.flushed && node.put == Goal(st, cons, true))
  }

  ghost predicate NodeInv(st: Stage, cons: seq<Item>, node: Node) {
    match st
    case Pool(size, job) => PoolInv(size, job, cons, node)
    case Ordered(_, _) => OrderedInv(st, cons, node)
  }

  /** The items a stage has taken after an action. */
  function ConsAfter(node: Node, v: View, after: Node): seq<Item> {
    if after.got > node.got && v.queue != [] then v.cons + [v.queue[0]] else v.cons
  }

  lemma MadeGrows(job: Item -> Option<Item>, cons: seq<Item>, x: Item)
    ensures forall y :: Made(job, cons, y) ==> Made(job, cons + [x], y)
  {
    forall y | Made(job, cons, y)
      ensures Made(job, cons + [x], y)
    {
      var z :| z in cons && job(z) == Some(y);
      assert z in cons + [x];
    }
  }

  lemma AccountedTake(cons: seq<Item>, put: seq<Item>, ws: seq<Worker>, w: nat, x: Item)
    requires Accounted(cons, put, ws) && w < |ws| && ws[w].Idle?
    ensures Accounted(cons + [x], put, ws[w := Busy(x)])
  {
    forall k: nat
      ensures Occurs(cons + [x], k) - Held(ws[w := Busy(x)], k) == Occurs(cons, k) - Held(ws, k)
    {
      OccursSnoc(cons, x, k);
      HeldUpdate(ws, w, Busy(x), k);
    }
    NoLossUpdate(ws, w, Busy(x));
  }

  lemma AccountedSend(cons: seq<Item>, put: seq<Item>, ws: seq<Worker>, w: nat)
    requires Accounted(cons, put, ws) && w < |ws| && ws[w].Ready?
    ensures Accounted(cons, put + [ws[w].y], ws[w := Idle])
  {
    forall k: nat
      ensures Occurs(put + [ws[w].y], k) + Held(ws[w := Idle], k) == Occurs(put, k) + Held(ws, k)
    {
      OccursSnoc(put, ws[w].y, k);
      HeldUpdate(ws, w, Idle, k);
    }
    NoLossUpdate(ws, w, Idle);
  }

  /** A worker may go on with what it holds, or give it up and be lost. */
  lemma AccountedReplace(cons: seq<Item>, put: seq<Item>, ws: seq<Worker>, w: nat, v: Worker)
    requires Accounted(cons, put, ws) && w < |ws| && !ws[w].Broken? && !ws[w].Failed?
    requires v.Broken? || v.Failed? || forall k :: Holds(v, k) == Holds(ws[w], k)
    ensures Accounted(cons, put, ws[w := v])
  {
    forall k: nat
      ensures Held(ws[w := v], k) + Holds(ws[w], k) == Held(ws, k) + Holds(v, k)
    {
      HeldUpdate(ws, w, v, k);
    }
    NoLossUpdate(ws, w, v);
    assert ws[w := v][w] == v;
  }

  lemma TracedTake(job: Item -> Option<Item>, cons: seq<Item>, node: Node, w: nat, x: Item)
    requires Traced(job, cons, node) && w < |node.ws|
    ensures Traced(job, cons + [x], node.(got := node.got + 1, ws := node.ws[w := Busy(x)]))
  {
    MadeGrows(job, cons, x);
  }

  lemma NoLossUpdate(ws: seq<Worker>, w: nat, v: Worker)
    requires w < |ws| && !ws[w].Broken? && !ws[w].Failed?
    ensures NoLoss(ws[w := v]) ==> NoLoss(ws)
  {
    if NoLoss(ws[w := v]) {
      forall u | 0 <= u < |ws|
        ensures !ws[u].Broken? && !ws[u].Failed?
      {
        assert u != w ==> ws[u] == ws[w := v][u];
      }
    }
  }

  lemma PoolKeeps(st: Stage, node: Node, v: View, a: Act)
    requires st.Pool? && Lawful(st) && PoolInv(st.size, st.job, v.cons, node)
    requires PoolAct(st, node, v, a).Some?
    ensures var after := PoolAct(st, node, v, a).value;
      PoolInv(st.size, st.job, ConsAfter(node, v, after), after)
  {
    var cons, put, ws := v.cons, node.put, node.ws;
    match a {
      case Take(w) =>
        TracedTake(st.job, cons, node, w, v.queue[0]);
        AccountedTake(cons, put, ws, w, v.queue[0]);
      case Send(w) => AccountedSend(cons, put, ws, w);
      case Work(w) =>
        var y := st.job(ws[w].x);
        AccountedReplace(cons, put, ws, w, if y.Some? then Ready(y.value) else Failed);
      case Drop(w) => AccountedReplace(cons, put, ws, w, Broken);
      case Exit(w) => AccountedReplace(cons, put, ws, w, Finished);
      case Crash(w) => AccountedReplace(cons, put, ws, w, Failed);
    }
  }

  /** One more item in order only adds to what the stage has to send. */
  lemma GoalGrows(st: Stage, cons: seq<Item>, x: Item)
    requires st.Ordered? && Lawful(st)
    requires InOrder(cons) <= InOrder(cons + [x]) && FinalOnlyLast(InOrder(cons + [x]))
    ensures Goal(st, cons, false) <= Goal(st, cons + [x], false)
  {
    hide InOrder, FinalOnlyLast, NumberedFrom0;
  }

  /** So does the end of the input. */
  lemma GoalEnds(st: Stage, cons: seq<Item>)
    requires st.Ordered? && Lawful(st) && st.all(InOrder(cons)).Some? && FinalOnlyLast(InOrder(cons))
    ensures Goal(st, cons, false) <= Goal(st, cons, true)
  {
    hide InOrder, FinalOnlyLast, NumberedFrom0;
  }

  lemma OrderedKeeps(st: Stage, node: Node, v: View, a: Act)
    requires st.Ordered? && Lawful(st) && OrderedInv(st, v.cons, node)
    requires OrderedAct(st, node, v, a).Some?
    requires forall more :: more <= v.queue ==>
      InOrder(v.cons) <= InOrder(v.cons + more) && FinalOnlyLast(InOrder(v.cons + more))
    ensures var after := OrderedAct(st, node, v, a).value;
      OrderedInv(st, ConsAfter(node, v, after), after)
  {
    hide InOrder, FinalOnlyLast, Lawful;
    match a {
      case Take(_) =>
        assert [v.queue[0]] <= v.queue;
        GoalGrows(st, v.cons, v.queue[0]);
      case Work(_) =>
        assert [] <= v.queue && v.cons + [] == v.cons;
        if st.all(InOrder(v.cons)).Some? { GoalEnds(st, v.cons); }
      case _ =>
    }
  }

  // ------------------------------------------------------------------ the whole pipeline

  /** The chunks the reader will deliver, the stages, and the capacity of each channel. */
  datatype Config = Config(input: seq<Item>, stages: seq<Stage>, caps: seq<nat>)

  ghost predicate ValidConfig(cfg: Config) {
    && NumberedFrom0(cfg.input)
    && cfg.input != []
    && (forall i :: 0 <= i < |cfg.input| ==> (cfg.input[i].final <==> i == |cfg.input| - 1))
    && |cfg.caps| == |cfg.stages| + 1
    && (forall i :: 0 <= i < |cfg.caps| ==> cfg.caps[i] > 0)
    && (forall i :: 0 <= i < |cfg.stages| ==> Lawful(cfg.stages[i]))
  }

  datatype Reader = Reading | Ended | Stopped | Crashed
  datatype Sink = Receiving | Complete | Failing

  datatype State = State(reader: Reader, sent: nat, nodes: seq<Node>, got: nat, sink: Sink)

  /** All that was ever sent on channel `i`; channel 0 leaves the reader, the last one enters the writer. */
  function Put(cfg: Config, s: State, i: nat): seq<Item>
    requires i <= |s.nodes| && s.sent <= |cfg.input|
  {
    if i == 0 then cfg.input[..s.sent] else s.nodes[i - 1].put
  }

  function Got(s: State, i: nat): nat
    requires i <= |s.nodes|
  {
    if i < |s.nodes| then s.nodes[i].got else s.got
  }

  ghost predicate Shape(cfg: Config, s: State) {
    && ValidConfig(cfg)
    && |s.nodes| == |cfg.stages|
    && s.sent <= |cfg.input|
    && (forall i :: 0 <= i <= |s.nodes| ==> Got(s, i) <= |Put(cfg, s, i)|)
  }

  function Cons(cfg: Config, s: State, i: nat): seq<Item>
    requires i <= |s.nodes| && s.sent <= |cfg.input| && Got(s, i) <= |Put(cfg, s, i)|
  {
    Put(cfg, s, i)[..Got(s, i)]
  }

  function Queue(cfg: Config, s: State, i: nat): seq<Item>
    requires i <= |s.nodes| && s.sent <= |cfg.input| && Got(s, i) <= |Put(cfg, s, i)|
  {
    Put(cfg, s, i)[Got(s, i)..]
  }

  predicate SendersGone(s: State, i: nat)
    requires i <= |s.nodes|
  {
    if i == 0 then s.reader != Reading else AllGone(s.nodes[i - 1].ws)
  }

  predicate ReceiversGone(s: State, i: nat)
    requires i <= |s.nodes|
  {
    if i < |s.nodes| then AllGone(s.nodes[i].ws) else s.sink != Receiving
  }

  ghost predicate Room(cfg: Config, s: State, i: nat)
    requires Shape(cfg, s) && i <= |s.nodes|
  {
    |Queue(cfg, s, i)| < cfg.caps[i]
  }

  ghost function ViewOf(cfg: Config, s: State, i: nat): View
    requires Shape(cfg, s) && i < |s.nodes|
  {
    View(Cons(cfg, s, i), Queue(cfg, s, i), SendersGone(s, i), Room(cfg, s, i + 1), ReceiversGone(s, i + 1))
  }

  datatype Event =
    | ReaderSend | ReaderStop | ReaderCrash
    | At(i: nat, a: Act)
    | SinkTake | SinkEnd | SinkFail

  ghost function Next(cfg: Config, s: State, e: Event): Option<State>
    requires Shape(cfg, s)
  {
    match e
    case ReaderSend =>
      if s.reader == Reading && s.sent < |cfg.input| && Room(cfg, s, 0) && !ReceiversGone(s, 0) then
        Some(s.(sent := s.sent + 1, reader := if cfg.input[s.sent].final then Ended else Reading))
      else None
    case ReaderStop => // the channel is closed from the other side
      if s.reader == Reading && ReceiversGone(s, 0) then Some(s.(reader := Stopped)) else None
    case ReaderCrash =>
      if s.reader == Reading then Some(s.(reader := Crashed)) else None
    case At(i, a) =>
      if i >= |s.nodes| then None else
      var n := NodeAct(cfg.stages[i], s.nodes[i], ViewOf(cfg, s, i), a);
      if n.Some? then Some(s.(nodes := s.nodes[i := n.value])) else None
    case SinkTake =>
      if s.sink == Receiving && Queue(cfg, s, |s.nodes|) != [] then Some(s.(got := s.got + 1)) else None
    case SinkEnd =>
      if s.sink == Receiving && Queue(cfg, s, |s.nodes|) == [] && SendersGone(s, |s.nodes|) then
        Some(s.(sink := Complete)) else None
    case SinkFail =>
      if s.sink == Receiving then Some(s.(sink := Failing)) else None
  }

  /** The buffers the writer has passed to `write_files`. */
  ghost function Written(cfg: Config, s: State): seq<Bytes>
    requires Shape(cfg, s)
  {
    Payloads(InOrder(Cons(cfg, s, |s.nodes|)))
  }

  /** What item number k is on each channel, as far as it is determined. */
  ghost function Ref(cfg: Config, s: State, i: nat): seq<Item>
    requires Shape(cfg, s) && i <= |s.nodes|
  {
    if i == 0 then cfg.input[..s.sent] else NextRef(cfg.stages[i - 1], Ref(cfg, s, i - 1), s.nodes[i - 1])
  }

  ghost function NextRef(st: Stage, ref: seq<Item>, node: Node): seq<Item> {
    match st
    case Pool(_, job) => Mapped(job, ref)
    case Ordered(_, _) => node.put
  }

  ghost function Mapped(job: Item -> Option<Item>, xs: seq<Item>): (ys: seq<Item>)
    ensures |ys| == |xs|
    ensures forall k :: 0 <= k < |xs| ==> ys[k] == job(xs[k]).GetOr(xs[k])
  {
    seq(|xs|, k requires 0 <= k < |xs| => job(xs[k]).GetOr(xs[k]))
  }

  ghost predicate Distinct(xs: seq<Item>) {
    forall k :: Occurs(xs, k) <= 1
  }

  /** Every item on the channel is the one its number stands for, and no number was sent twice. */
  ghost predicate Level(put: seq<Item>, ref: seq<Item>) {
    && (forall x :: x in put ==> x.idx < |ref| && ref[x.idx] == x)
    && Distinct(put)
    && NumberedFrom0(ref) && FinalOnlyLast(ref)
  }

  ghost predicate NodesInv(cfg: Config, s: State)
    requires Shape(cfg, s)
  {
    forall i :: 0 <= i < |s.nodes| ==> NodeInv(cfg.stages[i], Cons(cfg, s, i), s.nodes[i])
  }

  lemma NodeInvAt(cfg: Config, s: State, i: nat)
    requires Shape(cfg, s) && NodesInv(cfg, s) && i < |s.nodes|
    ensures Lawful(cfg.stages[i]) && NodeInv(cfg.stages[i], Put(cfg, s, i)[..Got(s, i)], s.nodes[i])
    ensures |s.nodes[i].ws| >= 1
  {
    hide LawfulJob, LawfulOuts, Traced, Accounted, Goal;
    assert Lawful(cfg.stages[i]);
    assert NodeInv(cfg.stages[i], Cons(cfg, s, i), s.nodes[i]);
  }

  // ------------------------------------------------------------------ what the channels carry

  lemma {:induction false} OccursNumbered(xs: seq<Item>, k: nat)
    requires NumberedFrom0(xs)
    ensures Occurs(xs, k) == if k < |xs| then 1 else 0
  {
    if xs == [] {
    } else {
      OccursNumbered(xs[..|xs| - 1], k);
      assert xs[|xs| - 1].idx == |xs| - 1;
    }
  }

  lemma {:induction false} OccursPrefix(xs: seq<Item>, n: nat, k: nat)
    requires n <= |xs|
    ensures Occurs(xs[..n], k) <= Occurs(xs, k)
    decreases |xs| - n
  {
    if n == |xs| {
      assert xs[..n] == xs;
    } else {
      OccursSnoc(xs[..n], xs[n], k);
      assert xs[..n] + [xs[n]] == xs[..n + 1];
      OccursPrefix(xs, n + 1, k);
    }
  }

  lemma {:induction false} OccursWitness(xs: seq<Item>, k: nat)
    ensures Occurs(xs, k) > 0 <==> exists x :: x in xs && x.idx == k
  {
    if xs == [] {
    } else {
      var n := |xs| - 1;
      OccursWitness(xs[..n], k);
      assert xs == xs[..n] + [xs[n]];
      if x :| x in xs && x.idx == k {
        assert x in xs[..n] || x == xs[n];
      }
    }
  }

  /** Of a channel whose items are known, the reorder buffer releases a beginning of the reference list. */
  lemma InOrderOfLevel(put: seq<Item>, ref: seq<Item>, cons: seq<Item>)
    requires Level(put, ref) && forall x :: x in cons ==> x in put
    ensures Consistent(cons) && InOrder(cons) <= ref && FinalOnlyLast(InOrder(cons))
  {
    forall i, j | 0 <= i < |cons| && 0 <= j < |cons| && cons[i].idx == cons[j].idx
      ensures cons[i] == cons[j]
    {
      assert cons[i] in put && cons[j] in put;
    }
    InOrderShape(cons);
    var run := InOrder(cons);
    forall k | 0 <= k < |run|
      ensures run[k].idx < |ref| && ref[run[k].idx] == run[k]
    {
      assert run[k] in cons;
    }
    StopsBefore(run, |ref|);
    assert run == ref[..|run|];
  }

  lemma LevelOfReader(cfg: Config, sent: nat)
    requires ValidConfig(cfg) && sent <= |cfg.input|
    ensures Level(cfg.input[..sent], cfg.input[..sent])
  {
    forall k
      ensures Occurs(cfg.input[..sent], k) <= 1
    {
      OccursNumbered(cfg.input[..sent], k);
    }
  }

  lemma LevelOfPool(size: nat, job: Item -> Option<Item>, put: seq<Item>, ref: seq<Item>, got: nat, node: Node)
    requires Level(put, ref) && LawfulJob(job) && got <= |put|
    requires PoolInv(size, job, put[..got], node)
    ensures Level(node.put, Mapped(job, ref))
  {
    forall y | y in node.put
      ensures y.idx < |ref| && Mapped(job, ref)[y.idx] == y
    {
      assert Made(job, put[..got], y);
      var x :| x in put[..got] && job(x) == Some(y);
      assert x in put;
    }
    forall k
      ensures Occurs(node.put, k) <= 1
    {
      OccursPrefix(put, got, k);
      assert Occurs(node.put, k) + Held(node.ws, k) <= Occurs(put[..got], k);
    }
  }

  lemma LevelOfOrdered(st: Stage, put: seq<Item>, ref: seq<Item>, got: nat, node: Node)
    requires st.Ordered? && Lawful(st) && Level(put, ref) && got <= |put|
    requires OrderedInv(st, put[..got], node)
    ensures Level(node.put, node.put)
  {
    InOrderOfLevel(put, ref, put[..got]);
    var goal := Goal(st, put[..got], node.flushed);
    assert NumberedFrom0(goal) && FinalOnlyLast(goal);
    forall k
      ensures Occurs(node.put, k) <= 1
    {
      OccursNumbered(node.put, k);
    }
  }

  lemma LevelOfStage(st: Stage, put: seq<Item>, ref: seq<Item>, got: nat, node: Node)
    requires Lawful(st) && Level(put, ref) && got <= |put| && NodeInv(st, put[..got], node)
    ensures Level(node.put, NextRef(st, ref, node))
  {
    match st
    case Pool(size, job) => LevelOfPool(size, job, put, ref, got, node);
    case Ordered(_, _) => LevelOfOrdered(st, put, ref, got, node);
  }

  /** In a state where every stage keeps its invariant, every channel is in order. */
  lemma {:induction false} Levels(cfg: Config, s: State, i: nat)
    requires Shape(cfg, s) && NodesInv(cfg, s) && i <= |s.nodes|
    ensures Level(Put(cfg, s, i), Ref(cfg, s, i))
  {
    hide NodesInv, NodeInv, ValidConfig, Lawful, Level, NextRef;
    if i == 0 {
      LevelOfReader(cfg, s.sent);
    } else {
      Levels(cfg, s, i - 1);
      NodeInvAt(cfg, s, i - 1);
      LevelOfStage(cfg.stages[i - 1], Put(cfg, s, i - 1), Ref(cfg, s, i - 1), Got(s, i - 1), s.nodes[i - 1]);
    }
  }

  // ------------------------------------------------------------------ one step of the pipeline

  /** An action takes at most the first waiting item and only adds to what was sent. */
  lemma NodeActShape(st: Stage, node: Node, v: View, a: Act)
    requires NodeAct(st, node, v, a).Some?
    ensures var after := NodeAct(st, node, v, a).value;
      && node.put <= after.put && |after.ws| == |node.ws|
      && (after.got == node.got || (after.got == node.got + 1 && v.queue != []))
  {
  }

  lemma TakingGrows(put: seq<Item>, ref: seq<Item>, cons: seq<Item>, queue: seq<Item>, more: seq<Item>)
    requires Level(put, ref) && put == cons + queue && more <= queue
    ensures InOrder(cons) <= InOrder(cons + more) && FinalOnlyLast(InOrder(cons + more))
  {
    hide InOrder, FinalOnlyLast;
    InOrderOfLevel(put, ref, cons + more);
    InOrderGrows(cons, more);
  }

  /** What the reorder buffer of a stage releases only grows while its queue is taken. */
  lemma QueueGrows(cfg: Config, s: State, i: nat)
    requires Shape(cfg, s) && NodesInv(cfg, s) && i < |s.nodes|
    ensures var v := ViewOf(cfg, s, i); forall more :: more <= v.queue ==>
      InOrder(v.cons) <= InOrder(v.cons + more) && FinalOnlyLast(InOrder(v.cons + more))
  {
    hide NodesInv, ValidConfig, Level, InOrder, FinalOnlyLast, Ref;
    Levels(cfg, s, i);
    var put, ref := Put(cfg, s, i), Ref(cfg, s, i);
    var v := ViewOf(cfg, s, i);
    assert put == v.cons + v.queue;
    forall more | more <= v.queue
      ensures InOrder(v.cons) <= InOrder(v.cons + more) && FinalOnlyLast(InOrder(v.cons + more))
    {
      TakingGrows(put, ref, v.cons, v.queue, more);
    }
  }

  lemma StageKeeps(st: Stage, node: Node, v: View, a: Act)
    requires Lawful(st) && NodeInv(st, v.cons, node) && NodeAct(st, node, v, a).Some?
    requires forall more :: more <= v.queue ==>
      InOrder(v.cons) <= InOrder(v.cons + more) && FinalOnlyLast(InOrder(v.cons + more))
    ensures var after := NodeAct(st, node, v, a).value; NodeInv(st, ConsAfter(node, v, after), after)
  {
    hide PoolAct, OrderedAct, PoolInv, OrderedInv, LawfulJob, LawfulOuts, ConsAfter;
    if st.Pool? {
      PoolKeeps(st, node, v, a);
    } else {
      OrderedKeeps(st, node, v, a);
    }
  }

  lemma NodeKeeps(cfg: Config, s: State, i: nat, a: Act)
    requires Shape(cfg, s) && NodesInv(cfg, s) && i < |s.nodes|
    requires NodeAct(cfg.stages[i], s.nodes[i], ViewOf(cfg, s, i), a).Some?
    ensures var after := NodeAct(cfg.stages[i], s.nodes[i], ViewOf(cfg, s, i), a).value;
      && after.got <= |Put(cfg, s, i)|
      && NodeInv(cfg.stages[i], Put(cfg, s, i)[..after.got], after)
  {
    var st, node, v := cfg.stages[i], s.nodes[i], ViewOf(cfg, s, i);
    QueueGrows(cfg, s, i);
    NodeInvAt(cfg, s, i);
    StageKeeps(st, node, v, a);
    NodeActShape(st, node, v, a);
    TakenNext(node, v, NodeAct(st, node, v, a).value, Put(cfg, s, i));
  }

  lemma TakenNext(node: Node, v: View, after: Node, put: seq<Item>)
    requires node.got <= |put| && v.cons == put[..node.got] && v.queue == put[node.got..]
    requires after.got == node.got || (after.got == node.got + 1 && v.queue != [])
    ensures after.got <= |put| && ConsAfter(node, v, after) == put[..after.got]
  {
  }

  /** An event adds to the channels and lets one thread take at most one item. */
  lemma StepFrame(cfg: Config, s: State, e: Event)
    requires Shape(cfg, s) && Next(cfg, s, e).Some?
    ensures var t := Next(cfg, s, e).value;
      && Shape(cfg, t)
      && (forall j :: 0 <= j <= |s.nodes| ==> Put(cfg, s, j) <= Put(cfg, t, j))
      && (forall j :: 0 <= j <= |s.nodes| && !(e.At? && e.i == j) && !(e == SinkTake && j == |s.nodes|) ==>
           Got(t, j) == Got(s, j))
  {
    var t := Next(cfg, s, e).value;
    if e.At? {
      NodeActShape(cfg.stages[e.i], s.nodes[e.i], ViewOf(cfg, s, e.i), e.a);
    }
    forall j | 0 <= j <= |s.nodes|
      ensures Put(cfg, s, j) <= Put(cfg, t, j) && Got(t, j) <= |Put(cfg, t, j)|
    {
      assert Got(s, j) <= |Put(cfg, s, j)|;
    }
  }

  lemma StepKeepsNode(cfg: Config, s: State, e: Event, j: nat)
    requires Shape(cfg, s) && NodesInv(cfg, s) && Next(cfg, s, e).Some? && j < |s.nodes|
    ensures var t := Next(cfg, s, e).value; Shape(cfg, t) && NodeInv(cfg.stages[j], Cons(cfg, t, j), t.nodes[j])
  {
    hide NodesInv, ValidConfig, NodeInv, NodeAct, Lawful;
    var t := Next(cfg, s, e).value;
    StepFrame(cfg, s, e);
    NodeInvAt(cfg, s, j);
    assert Put(cfg, s, j) <= Put(cfg, t, j);
    if e.At? && e.i == j {
      NodeKeeps(cfg, s, j, e.a);
      assert Put(cfg, s, j)[..t.nodes[j].got] == Cons(cfg, t, j);
    } else {
      assert Got(t, j) == Got(s, j);
      assert Cons(cfg, t, j) == Cons(cfg, s, j);
    }
  }

  /** Every event keeps every stage's invariant. */
  lemma StepKeepsNodes(cfg: Config, s: State, e: Event)
    requires Shape(cfg, s) && NodesInv(cfg, s) && Next(cfg, s, e).Some?
    ensures Shape(cfg, Next(cfg, s, e).value) && NodesInv(cfg, Next(cfg, s, e).value)
  {
    StepFrame(cfg, s, e);
    var t := Next(cfg, s, e).value;
    assert |t.nodes| == |s.nodes|;
    hide NodeInv, Next, ValidConfig;
    forall j | 0 <= j < |t.nodes|
      ensures NodeInv(cfg.stages[j], Cons(cfg, t, j), t.nodes[j])
    {
      StepKeepsNode(cfg, s, e, j);
    }
  }

  // ------------------------------------------------------------------ shutting down

  ghost predicate HasFailed(ws: seq<Worker>) {
    exists w :: 0 <= w < |ws| && ws[w].Failed?
  }

  /** A thread of stage `i` or behind it has returned an error. */
  ghost predicate FaultFrom(s: State, i: nat) {
    s.sink == Failing || exists j :: i <= j < |s.nodes| && HasFailed(s.nodes[j].ws)
  }

  /** The channel is drained for good. */
  ghost predicate Drained(cfg: Config, s: State, i: nat)
    requires Shape(cfg, s) && i <= |s.nodes|
  {
    SendersGone(s, i) && Queue(cfg, s, i) == []
  }

  ghost predicate SawEnd(node: Node) {
    node.flushed || exists w :: 0 <= w < |node.ws| && node.ws[w].Finished?
  }

  ghost predicate ReaderInv(cfg: Config, s: State) {
    && (s.reader == Reading ==> s.sent < |cfg.input|)
    && (s.reader == Ended ==> s.sent == |cfg.input|)
    && (s.reader == Stopped ==> FaultFrom(s, 0))
  }

  /** Threads end regularly only after their input was drained for good. */
  ghost predicate EndsDrained(cfg: Config, s: State)
    requires Shape(cfg, s)
  {
    && (forall i :: 0 <= i < |s.nodes| && SawEnd(s.nodes[i]) ==> Drained(cfg, s, i))
    && (s.sink == Complete ==> Drained(cfg, s, |s.nodes|))
  }

  /** A thread finds its output closed only because of an error further on. */
  ghost predicate BreaksExplained(s: State) {
    forall i, w :: 0 <= i < |s.nodes| && 0 <= w < |s.nodes[i].ws| && s.nodes[i].ws[w].Broken? ==> FaultFrom(s, i + 1)
  }

  /** Why threads have ended. */
  ghost predicate EndInv(cfg: Config, s: State)
    requires Shape(cfg, s)
  {
    ReaderInv(cfg, s) && EndsDrained(cfg, s) && BreaksExplained(s)
  }

  /** A stage whose workers are all gone does nothing any more. */
  lemma GoneIsIdle(st: Stage, node: Node, v: View, a: Act)
    requires NodeAct(st, node, v, a).Some?
    ensures a.w < |node.ws| && !Gone(node.ws[a.w])
    ensures var after := NodeAct(st, node, v, a).value;
      |after.ws| == |node.ws| && forall u :: 0 <= u < |node.ws| && u != a.w ==> after.ws[u] == node.ws[u]
  {
  }

  /** Errors stay. */
  lemma FaultStays(cfg: Config, s: State, e: Event, i: nat)
    requires Shape(cfg, s) && Next(cfg, s, e).Some? && FaultFrom(s, i)
    ensures FaultFrom(Next(cfg, s, e).value, i)
  {
    var t := Next(cfg, s, e).value;
    if s.sink != Failing {
      var j :| i <= j < |s.nodes| && HasFailed(s.nodes[j].ws);
      var w :| 0 <= w < |s.nodes[j].ws| && s.nodes[j].ws[w].Failed?;
      if e.At? && e.i == j {
        GoneIsIdle(cfg.stages[j], s.nodes[j], ViewOf(cfg, s, j), e.a);
      }
      assert t.nodes[j].ws[w].Failed?;
      assert HasFailed(t.nodes[j].ws);
    }
  }

  /** A drained channel stays drained. */
  lemma DrainedStays(cfg: Config, s: State, e: Event, i: nat)
    requires Shape(cfg, s) && Next(cfg, s, e).Some? && i <= |s.nodes| && Drained(cfg, s, i)
    ensures Shape(cfg, Next(cfg, s, e).value) && Drained(cfg, Next(cfg, s, e).value, i)
  {
    var t := Next(cfg, s, e).value;
    StepFrame(cfg, s, e);
    if e.At? {
      GoneIsIdle(cfg.stages[e.i], s.nodes[e.i], ViewOf(cfg, s, e.i), e.a);
      NodeActShape(cfg.stages[e.i], s.nodes[e.i], ViewOf(cfg, s, e.i), e.a);
      assert e.i + 1 != i;
    }
    assert Put(cfg, t, i) == Put(cfg, s, i);
    assert Got(t, i) == Got(s, i);
  }

  lemma GoneWithoutEnd(s: State, i: nat)
    requires i < |s.nodes| && |s.nodes[i].ws| >= 1 && AllGone(s.nodes[i].ws) && !SawEnd(s.nodes[i])
    requires BreaksExplained(s)
    ensures FaultFrom(s, i)
  {
    var worker := s.nodes[i].ws[0];
    assert Gone(worker) && !worker.Finished?;
    if worker.Failed? {
      assert HasFailed(s.nodes[i].ws);
    }
  }

  /** A receiver that is gone while a sender is still there has failed, or was cut off by a failure behind it. */
  lemma ClosedMeansFault(cfg: Config, s: State, i: nat)
    requires Shape(cfg, s) && NodesInv(cfg, s) && EndInv(cfg, s) && i <= |s.nodes|
    requires ReceiversGone(s, i) && !SendersGone(s, i)
    ensures FaultFrom(s, i)
  {
    hide NodesInv, ReaderInv, BreaksExplained, ValidConfig;
    assert !Drained(cfg, s, i);
    if i < |s.nodes| {
      assert !SawEnd(s.nodes[i]);
      HasWorker(cfg, s, i);
      GoneWithoutEnd(s, i);
    }
  }

  lemma HasWorker(cfg: Config, s: State, i: nat)
    requires Shape(cfg, s) && NodesInv(cfg, s) && i < |s.nodes|
    ensures |s.nodes[i].ws| >= 1
  {
    NodeInvAt(cfg, s, i);
  }

  lemma StepKeepsSawEnd(cfg: Config, s: State, e: Event, i: nat)
    requires Shape(cfg, s) && EndsDrained(cfg, s) && Next(cfg, s, e).Some?
    requires i < |s.nodes| && SawEnd(Next(cfg, s, e).value.nodes[i])
    ensures Shape(cfg, Next(cfg, s, e).value) && Drained(cfg, Next(cfg, s, e).value, i)
  {
    hide ValidConfig, NodeAct;
    if !SawEnd(s.nodes[i]) {
      assert e.At? && e.i == i;
      EndIsSeen(cfg.stages[i], s.nodes[i], ViewOf(cfg, s, i), e.a);
    }
    DrainedStays(cfg, s, e, i);
  }

  lemma StepKeepsBroken(cfg: Config, s: State, e: Event, i: nat, w: nat)
    requires Shape(cfg, s) && NodesInv(cfg, s) && EndInv(cfg, s) && Next(cfg, s, e).Some?
    requires var t := Next(cfg, s, e).value;
      i < |s.nodes| && i < |t.nodes| && w < |t.nodes[i].ws| && t.nodes[i].ws[w].Broken?
    ensures FaultFrom(Next(cfg, s, e).value, i + 1)
  {
    hide ValidConfig, NodeAct, NodesInv, ReaderInv, EndsDrained;
    if w >= |s.nodes[i].ws| || !s.nodes[i].ws[w].Broken? {
      assert e.At? && e.i == i;
      NewlyBroken(cfg, s, i, e.a, w);
      ClosedMeansFault(cfg, s, i + 1);
    }
    FaultStays(cfg, s, e, i + 1);
  }

  lemma NewlyBroken(cfg: Config, s: State, i: nat, a: Act, w: nat)
    requires Shape(cfg, s) && i < |s.nodes|
    requires NodeAct(cfg.stages[i], s.nodes[i], ViewOf(cfg, s, i), a).Some?
    requires var after := NodeAct(cfg.stages[i], s.nodes[i], ViewOf(cfg, s, i), a).value;
      w < |after.ws| && after.ws[w].Broken? && (w >= |s.nodes[i].ws| || !s.nodes[i].ws[w].Broken?)
    ensures ReceiversGone(s, i + 1) && !SendersGone(s, i + 1)
  {
    hide ValidConfig, NodeAct;
    GoneIsIdle(cfg.stages[i], s.nodes[i], ViewOf(cfg, s, i), a);
    BrokenIsSeen(cfg.stages[i], s.nodes[i], ViewOf(cfg, s, i), a, w);
  }

  lemma StepKeepsReader(cfg: Config, s: State, e: Event)
    requires Shape(cfg, s) && NodesInv(cfg, s) && EndInv(cfg, s) && Next(cfg, s, e).Some?
    ensures ReaderInv(cfg, Next(cfg, s, e).value)
  {
    hide NodesInv, EndsDrained, BreaksExplained, NodeAct, FaultFrom;
    if e == ReaderStop {
      ClosedMeansFault(cfg, s, 0);
      FaultStays(cfg, s, e, 0);
    } else if s.reader == Stopped {
      FaultStays(cfg, s, e, 0);
    }
  }

  lemma StepKeepsEndInv(cfg: Config, s: State, e: Event)
    requires Shape(cfg, s) && NodesInv(cfg, s) && EndInv(cfg, s) && Next(cfg, s, e).Some?
    ensures Shape(cfg, Next(cfg, s, e).value) && EndInv(cfg, Next(cfg, s, e).value)
  {
    StepFrame(cfg, s, e);
    StepKeepsReader(cfg, s, e);
    StepKeepsDrained(cfg, s, e);
    StepKeepsExplained(cfg, s, e);
  }

  lemma StepKeepsDrained(cfg: Config, s: State, e: Event)
    requires Shape(cfg, s) && EndsDrained(cfg, s) && Next(cfg, s, e).Some?
    ensures Shape(cfg, Next(cfg, s, e).value) && EndsDrained(cfg, Next(cfg, s, e).value)
  {
    hide ValidConfig, NodeAct, SawEnd;
    var t := Next(cfg, s, e).value;
    StepFrame(cfg, s, e);
    if t.sink == Complete && s.sink == Complete {
      DrainedStays(cfg, s, e, |s.nodes|);
    }
    forall i | 0 <= i < |t.nodes| && SawEnd(t.nodes[i])
      ensures Drained(cfg, t, i)
    {
      StepKeepsSawEnd(cfg, s, e, i);
    }
  }

  lemma StepKeepsExplained(cfg: Config, s: State, e: Event)
    requires Shape(cfg, s) && NodesInv(cfg, s) && EndInv(cfg, s) && Next(cfg, s, e).Some?
    ensures BreaksExplained(Next(cfg, s, e).value)
  {
    var t := Next(cfg, s, e).value;
    StepFrame(cfg, s, e);
    hide NodesInv, EndInv, ValidConfig, NodeAct, FaultFrom;
    forall i, w | 0 <= i < |t.nodes| && 0 <= w < |t.nodes[i].ws| && t.nodes[i].ws[w].Broken?
      ensures FaultFrom(t, i + 1)
    {
      StepKeepsBroken(cfg, s, e, i, w);
    }
  }

  lemma EndIsSeen(st: Stage, node: Node, v: View, a: Act)
    requires NodeAct(st, node, v, a).Some? && !SawEnd(node) && SawEnd(NodeAct(st, node, v, a).value)
    ensures v.closed && v.queue == []
  {
    GoneIsIdle(st, node, v, a);
  }

  lemma BrokenIsSeen(st: Stage, node: Node, v: View, a: Act, w: nat)
    requires NodeAct(st, node, v, a).Some? && w < |node.ws|
    requires NodeAct(st, node, v, a).value.ws[w].Broken? && !node.ws[w].Broken?
    ensures v.gone && !AllGone(node.ws)
  {
    GoneIsIdle(st, node, v, a);
    assert !Gone(node.ws[w]);
  }

  // ------------------------------------------------------------------ runs

  ghost predicate Inv(cfg: Config, s: State) {
    Shape(cfg, s) && NodesInv(cfg, s) && EndInv(cfg, s)
  }

  function InitNode(st: Stage): Node {
    Node(0, [], if st.Pool? then seq(st.size, _ => Idle) else [Idle], false)
  }

  function Init(cfg: Config): State {
    State(Reading, 0, seq(|cfg.stages|, i requires 0 <= i < |cfg.stages| => InitNode(cfg.stages[i])), 0, Receiving)
  }

  lemma {:induction false} HeldByIdle(ws: seq<Worker>, k: nat)
    requires forall w :: 0 <= w < |ws| ==> ws[w].Idle? || ws[w].Finished?
    ensures Held(ws, k) == 0
  {
    if ws == [] {
    } else {
      HeldByIdle(ws[1..], k);
    }
  }

  lemma InitNodeInv(st: Stage)
    requires Lawful(st)
    ensures NodeInv(st, [], InitNode(st)) && !SawEnd(InitNode(st))
  {
    var node := InitNode(st);
    forall k: nat
      ensures Held(node.ws, k) == 0
    {
      HeldByIdle(node.ws, k);
    }
  }

  lemma InitInv(cfg: Config)
    requires ValidConfig(cfg)
    ensures Inv(cfg, Init(cfg))
  {
    var s := Init(cfg);
    forall i | 0 <= i < |s.nodes|
      ensures NodeInv(cfg.stages[i], [], s.nodes[i]) && !SawEnd(s.nodes[i])
      ensures forall w :: 0 <= w < |s.nodes[i].ws| ==> s.nodes[i].ws[w].Idle?
    {
      InitNodeInv(cfg.stages[i]);
    }
    assert forall i :: 0 <= i < |s.nodes| ==> Cons(cfg, s, i) == [];
  }

  /** The state after the events `es`, if each of them was possible; the invariant holds in all of them. */
  ghost function Run(cfg: Config, es: seq<Event>): (r: Option<State>)
    requires ValidConfig(cfg)
    ensures r.Some? ==> Inv(cfg, r.value)
    decreases |es|
  {
    if es == [] then
      InitInv(cfg);
      Some(Init(cfg))
    else
      var n := |es| - 1;
      var before := Run(cfg, es[..n]);
      if before.None? || Next(cfg, before.value, es[n]).None? then None else
      StepKeepsNodes(cfg, before.value, es[n]);
      StepKeepsEndInv(cfg, before.value, es[n]);
      Next(cfg, before.value, es[n])
  }

  // ------------------------------------------------------------------ safety

  lemma {:induction false} OccursAppend(xs: seq<Item>, ys: seq<Item>, k: nat)
    ensures Occurs(xs + ys, k) == Occurs(xs, k) + Occurs(ys, k)
  {
    if ys == [] {
      assert xs + ys == xs;
    } else {
      var n := |ys| - 1;
      OccursAppend(xs, ys[..n], k);
      assert ys == ys[..n] + [ys[n]];
      assert xs + ys == (xs + ys[..n]) + [ys[n]];
      OccursSnoc(xs + ys[..n], ys[n], k);
    }
  }

  lemma NoNumberTwice(put: seq<Item>, got: nat, node: Node, k: nat)
    requires Distinct(put) && got <= |put| && Accounted(put[..got], node.put, node.ws)
    ensures Occurs(put[got..], k) + Held(node.ws, k) + Occurs(node.put, k) <= 1
  {
    assert Occurs(put, k) <= 1;
    OccursAppend(put[..got], put[got..], k);
    assert put[..got] + put[got..] == put;
    assert Occurs(node.put, k) + Held(node.ws, k) <= Occurs(put[..got], k);
  }

  lemma NoChunkTwice(cfg: Config, s: State, i: nat, k: nat)
    requires Shape(cfg, s) && NodesInv(cfg, s) && i < |s.nodes| && cfg.stages[i].Pool?
    ensures Occurs(Queue(cfg, s, i), k) + Held(s.nodes[i].ws, k) + Occurs(s.nodes[i].put, k) <= 1
  {
    Levels(cfg, s, i);
    assert NodeInv(cfg.stages[i], Cons(cfg, s, i), s.nodes[i]);
    NoNumberTwice(Put(cfg, s, i), Got(s, i), s.nodes[i], k);
  }

  /** What came in order out of channel `i`; behind the last stage that is what the writer has passed on. */
  ghost function Chain(cfg: Config, s: State, i: nat): seq<Item>
    requires Shape(cfg, s) && i <= |s.nodes|
  {
    InOrder(Cons(cfg, s, i))
  }

  /**
    `ys` is accounted for by `xs`: item `k` is what the job made of item `k`, without an error; or the
    items are a beginning of what the ordered stage sends for `xs`, with or without an end of input.
   */
  ghost predicate Follows(st: Stage, xs: seq<Item>, ys: seq<Item>) {
    match st
    case Pool(_, job) => |ys| <= |xs| && forall k :: 0 <= k < |ys| ==> job(xs[k]) == Some(ys[k])
    case Ordered(outs, all) => ys <= outs(xs) || (all(xs).Some? && ys <= all(xs).value)
  }

  /** The written buffers go back, stage by stage, to a beginning of the input. */
  ghost predicate Explains(cfg: Config, chain: seq<seq<Item>>, written: seq<Bytes>) {
    && |chain| == |cfg.stages| + 1
    && chain[0] <= cfg.input
    && (forall i :: 0 <= i < |cfg.stages| ==> Follows(cfg.stages[i], chain[i], chain[i + 1]))
    && written == Payloads(chain[|cfg.stages|])
  }

  ghost function Chains(cfg: Config, s: State): (chain: seq<seq<Item>>)
    requires Shape(cfg, s)
    ensures |chain| == |s.nodes| + 1
  {
    seq(|s.nodes| + 1, i requires 0 <= i <= |s.nodes| => Chain(cfg, s, i))
  }

  lemma InOrderOfNumbered(xs: seq<Item>)
    requires NumberedFrom0(xs)
    ensures InOrder(xs) == xs
  {
    InOrderOfPermutation(xs, xs);
  }

  /** Whatever left a pool in order was made by the job from the item with its number. */
  lemma PoolFollows(size: nat, job: Item -> Option<Item>, put: seq<Item>, ref: seq<Item>, got: nat,
                    node: Node, taken: nat)
    requires Level(put, ref) && LawfulJob(job) && got <= |put| && PoolInv(size, job, put[..got], node)
    requires Level(node.put, Mapped(job, ref)) && taken <= |node.put|
    ensures Follows(Pool(size, job), InOrder(put[..got]), InOrder(node.put[..taken]))
  {
    var cons, out := put[..got], node.put[..taken];
    InOrderOfLevel(put, ref, cons);
    InOrderOfLevel(node.put, Mapped(job, ref), out);
    InOrderShape(cons);
    InOrderShape(out);
    var xs, ys := InOrder(cons), InOrder(out);
    forall k | 0 <= k < |ys|
      ensures CameIn(job, cons, ys[k])
    {
      assert ys[k] in out && ys[k] in node.put;
      assert Made(job, cons, ys[k]);
    }
    NoGap(job, cons, xs, ys);
    forall k | 0 <= k < |ys|
      ensures job(xs[k]) == Some(ys[k])
    {
      assert CameIn(job, cons, ys[k]);
      var x :| x in cons && x.idx == ys[k].idx && job(x) == Some(ys[k]);
      assert xs[k] in cons && xs[k].idx == k;
    }
  }

  ghost predicate CameIn(job: Item -> Option<Item>, cons: seq<Item>, y: Item) {
    exists x :: x in cons && x.idx == y.idx && job(x) == Some(y)
  }

  /** The reorder buffer does not stop before a number that came in with all numbers before it. */
  lemma NoGap(job: Item -> Option<Item>, cons: seq<Item>, xs: seq<Item>, ys: seq<Item>)
    requires NumberedFrom0(ys) && forall x :: x in cons ==> x.idx != |xs|
    requires forall k :: 0 <= k < |ys| ==> CameIn(job, cons, ys[k])
    ensures |ys| <= |xs|
  {
    assert |xs| < |ys| ==> CameIn(job, cons, ys[|xs|]);
  }

  /** Whatever left an ordered stage is a beginning of what its input in order calls for. */
  lemma OrderedFollows(st: Stage, put: seq<Item>, ref: seq<Item>, got: nat, node: Node, taken: nat)
    requires st.Ordered? && Lawful(st) && Level(put, ref) && got <= |put|
    requires OrderedInv(st, put[..got], node) && taken <= |node.put|
    ensures Follows(st, InOrder(put[..got]), InOrder(node.put[..taken]))
  {
    InOrderOfLevel(put, ref, put[..got]);
    var goal := Goal(st, put[..got], node.flushed);
    assert NumberedFrom0(goal);
    InOrderOfNumbered(node.put[..taken]);
    assert node.put[..taken] <= goal;
  }

  lemma StageFollows(cfg: Config, s: State, i: nat)
    requires Shape(cfg, s) && NodesInv(cfg, s) && i < |s.nodes|
    ensures Follows(cfg.stages[i], Chain(cfg, s, i), Chain(cfg, s, i + 1))
  {
    hide NodesInv, ValidConfig, Level, PoolInv, OrderedInv, Follows, InOrder, Ref, LawfulJob, LawfulOuts;
    Levels(cfg, s, i);
    Levels(cfg, s, i + 1);
    NodeInvAt(cfg, s, i);
    NextRefIs(cfg, s, i);
    match cfg.stages[i] {
      case Pool(size, job) =>
        PoolFollows(size, job, Put(cfg, s, i), Ref(cfg, s, i), Got(s, i), s.nodes[i], Got(s, i + 1));
      case Ordered(_, _) =>
        OrderedFollows(cfg.stages[i], Put(cfg, s, i), Ref(cfg, s, i), Got(s, i), s.nodes[i], Got(s, i + 1));
    }
  }

  lemma NextRefIs(cfg: Config, s: State, i: nat)
    requires Shape(cfg, s) && i < |s.nodes|
    ensures Ref(cfg, s, i + 1) == NextRef(cfg.stages[i], Ref(cfg, s, i), s.nodes[i])
  {
  }

  lemma ChainStarts(cfg: Config, s: State)
    requires Shape(cfg, s)
    ensures Chain(cfg, s, 0) <= cfg.input
  {
    assert NumberedFrom0(Cons(cfg, s, 0));
    InOrderOfNumbered(Cons(cfg, s, 0));
  }

  lemma StateExplained(cfg: Config, s: State)
    requires Shape(cfg, s) && NodesInv(cfg, s)
    ensures Explains(cfg, Chains(cfg, s), Written(cfg, s))
  {
    hide NodesInv, Follows, InOrder, ValidConfig;
    ChainStarts(cfg, s);
    forall i | 0 <= i < |cfg.stages|
      ensures Follows(cfg.stages[i], Chains(cfg, s)[i], Chains(cfg, s)[i + 1])
    {
      StageFollows(cfg, s, i);
    }
  }

  /**
    Safety of every run, errors and crashes included. What has been written goes back to a beginning
    of the input: every buffer in it came through all jobs without an error, in order and without a
    gap, and what an ordered stage sent is a beginning of what its input calls for. And at every pool
    a number is at most once among the items waiting, in work and sent.
   */
  lemma Safety(cfg: Config, es: seq<Event>, i: nat, k: nat)
    requires ValidConfig(cfg)
    ensures Run(cfg, es).Some? ==>
      var s := Run(cfg, es).value;
      && Explains(cfg, Chains(cfg, s), Written(cfg, s))
      && (i < |s.nodes| && cfg.stages[i].Pool? ==>
           Occurs(Queue(cfg, s, i), k) + Held(s.nodes[i].ws, k) + Occurs(s.nodes[i].put, k) <= 1)
  {
    hide ValidConfig, Run, Written, Ref, NodesInv, EndInv, Occurs, Held, Explains;
    if Run(cfg, es).Some? {
      var s := Run(cfg, es).value;
      StateExplained(cfg, s);
      if i < |s.nodes| && cfg.stages[i].Pool? {
        NoChunkTwice(cfg, s, i, k);
      }
    }
  }

  // ------------------------------------------------------------------ a run that returns Ok

  /** What each stage makes of a complete input. */
  ghost function NextIdeal(st: Stage, xs: seq<Item>): seq<Item> {
    match st
    case Pool(_, job) => Mapped(job, xs)
    case Ordered(_, all) => all(xs).GetOr([])
  }

  /** ... provided it succeeds. */
  ghost predicate Succeeds(st: Stage, xs: seq<Item>) {
    match st
    case Pool(_, job) => forall k :: 0 <= k < |xs| ==> job(xs[k]).Some?
    case Ordered(_, all) => all(xs).Some?
  }

  ghost function Ideal(cfg: Config, i: nat): seq<Item>
    requires i <= |cfg.stages|
  {
    if i == 0 then cfg.input else NextIdeal(cfg.stages[i - 1], Ideal(cfg, i - 1))
  }

  ghost predicate AllFinished(ws: seq<Worker>) {
    forall w :: 0 <= w < |ws| ==> ws[w].Finished?
  }

  lemma PoolComplete(size: nat, job: Item -> Option<Item>, put: seq<Item>, xs: seq<Item>, node: Node)
    requires LawfulJob(job) && Level(put, xs) && (forall x :: x in xs ==> x in put)
    requires PoolInv(size, job, put, node) && AllFinished(node.ws)
    ensures forall k :: 0 <= k < |xs| ==> job(xs[k]).Some? && Mapped(job, xs)[k] in node.put
  {
    forall k | 0 <= k < |xs|
      ensures job(xs[k]).Some? && Mapped(job, xs)[k] in node.put
    {
      assert xs[k] in xs;
      OccursWitness(put, k);
      HeldByIdle(node.ws, k);
      assert NoLoss(node.ws);
      assert Occurs(node.put, k) + Held(node.ws, k) == Occurs(put, k);
      OccursWitness(node.put, k);
      var y :| y in node.put && y.idx == k;
      assert Made(job, put, y);
      var x :| x in put && job(x) == Some(y);
      assert x == xs[k];
    }
  }

  lemma OrderedComplete(st: Stage, put: seq<Item>, xs: seq<Item>, node: Node)
    requires st.Ordered? && Level(put, xs) && (forall x :: x in xs ==> x in put)
    requires OrderedInv(st, put, node) && AllFinished(node.ws)
    ensures st.all(xs) == Some(node.put)
  {
    CompleteInOrder(put, xs);
  }

  lemma CompleteInOrder(put: seq<Item>, xs: seq<Item>)
    requires Level(put, xs) && forall x :: x in xs ==> x in put
    ensures InOrder(put) == xs
  {
    InOrderOfLevel(put, xs, put);
    forall k | 0 <= k < |xs|
      ensures xs[k] in put && xs[k].idx == k
    {
      assert xs[k] in xs;
    }
    InOrderIs(put, xs);
  }

  ghost predicate Carried(cfg: Config, s: State, i: nat)
    requires Shape(cfg, s) && i <= |s.nodes|
  {
    Ref(cfg, s, i) == Ideal(cfg, i) && forall x :: x in Ideal(cfg, i) ==> x in Put(cfg, s, i)
  }

  /** If the reader and all stages before channel `i` have finished regularly, the channel carried everything. */
  lemma {:induction false} CompleteUpTo(cfg: Config, s: State, i: nat)
    requires Inv(cfg, s) && i <= |s.nodes| && s.reader == Ended
    requires forall j :: 0 <= j < i ==> AllFinished(s.nodes[j].ws)
    ensures Carried(cfg, s, i)
  {
    hide NodesInv, EndInv, Carried;
    if i == 0 {
      CompleteStart(cfg, s);
    } else {
      CompleteUpTo(cfg, s, i - 1);
      CompleteStep(cfg, s, i - 1);
    }
  }

  lemma CompleteStart(cfg: Config, s: State)
    requires Inv(cfg, s) && s.reader == Ended
    ensures Carried(cfg, s, 0)
  {
    assert cfg.input[..s.sent] == cfg.input;
  }

  lemma CompleteStep(cfg: Config, s: State, i: nat)
    requires Inv(cfg, s) && i < |s.nodes| && AllFinished(s.nodes[i].ws)
    requires Carried(cfg, s, i)
    ensures Succeeds(cfg.stages[i], Ideal(cfg, i)) && Carried(cfg, s, i + 1)
  {
    Levels(cfg, s, i);
    StageFinished(cfg, s, i);
    StageComplete(cfg.stages[i], Put(cfg, s, i), Ideal(cfg, i), s.nodes[i]);
  }

  lemma StageFinished(cfg: Config, s: State, i: nat)
    requires Inv(cfg, s) && i < |s.nodes| && AllFinished(s.nodes[i].ws)
    ensures NodeInv(cfg.stages[i], Put(cfg, s, i), s.nodes[i])
  {
    assert NodeInv(cfg.stages[i], Cons(cfg, s, i), s.nodes[i]);
    assert Lawful(cfg.stages[i]);
    assert s.nodes[i].ws[0].Finished?;
    assert SawEnd(s.nodes[i]);
    assert Drained(cfg, s, i);
    assert Cons(cfg, s, i) == Put(cfg, s, i);
  }

  lemma StageComplete(st: Stage, put: seq<Item>, xs: seq<Item>, node: Node)
    requires Lawful(st) && Level(put, xs) && (forall x :: x in xs ==> x in put)
    requires NodeInv(st, put, node) && AllFinished(node.ws)
    ensures Succeeds(st, xs) && NextRef(st, xs, node) == NextIdeal(st, xs)
    ensures forall y :: y in NextIdeal(st, xs) ==> y in node.put
  {
    match st {
      case Pool(size, job) => PoolComplete(size, job, put, xs, node);
      case Ordered(_, _) => OrderedComplete(st, put, xs, node);
    }
  }

  /** `io_chunks` returns Ok: the reader ended its loop, and writer and workers have returned Ok. */
  ghost predicate ReturnsOk(s: State) {
    && (s.reader == Ended || s.reader == Stopped)
    && s.sink == Complete
    && (forall i :: 0 <= i < |s.nodes| ==>
         AllGone(s.nodes[i].ws) && forall w :: 0 <= w < |s.nodes[i].ws| ==> !s.nodes[i].ws[w].Failed?)
  }

  /** Ok is returned only if every stage succeeded on the complete input and all of the result was written. */
  lemma OkMeansComplete(cfg: Config, es: seq<Event>)
    requires ValidConfig(cfg)
    ensures Run(cfg, es).Some? && ReturnsOk(Run(cfg, es).value) ==>
      (forall i :: 0 <= i < |cfg.stages| ==> Succeeds(cfg.stages[i], Ideal(cfg, i))) &&
      Written(cfg, Run(cfg, es).value) == Payloads(Ideal(cfg, |cfg.stages|))
  {
    hide ValidConfig, Run, ReturnsOk, Succeeds, Ideal, Written;
    if Run(cfg, es).Some? && ReturnsOk(Run(cfg, es).value) {
      OkStateIsComplete(cfg, Run(cfg, es).value);
    }
  }

  lemma OkStateIsComplete(cfg: Config, s: State)
    requires Inv(cfg, s) && ReturnsOk(s)
    ensures forall i :: 0 <= i < |cfg.stages| ==> Succeeds(cfg.stages[i], Ideal(cfg, i))
    ensures Written(cfg, s) == Payloads(Ideal(cfg, |cfg.stages|))
  {
    assert forall i :: 0 <= i < |s.nodes| ==> !HasFailed(s.nodes[i].ws);
    assert forall i :: !FaultFrom(s, i);
    forall i | 0 <= i < |s.nodes|
      ensures AllFinished(s.nodes[i].ws)
    {
      forall w | 0 <= w < |s.nodes[i].ws|
        ensures s.nodes[i].ws[w].Finished?
      {
        assert Gone(s.nodes[i].ws[w]);
        assert !FaultFrom(s, i + 1);
      }
    }
    EverythingWritten(cfg, s);
  }

  lemma EverythingWritten(cfg: Config, s: State)
    requires Inv(cfg, s) && s.reader == Ended && s.sink == Complete
    requires forall i :: 0 <= i < |s.nodes| ==> AllFinished(s.nodes[i].ws)
    ensures forall i :: 0 <= i < |cfg.stages| ==> Succeeds(cfg.stages[i], Ideal(cfg, i))
    ensures Written(cfg, s) == Payloads(Ideal(cfg, |cfg.stages|))
  {
    var n := |s.nodes|;
    forall i | 0 <= i < |cfg.stages|
      ensures Succeeds(cfg.stages[i], Ideal(cfg, i))
    {
      CompleteUpTo(cfg, s, i);
      CompleteStep(cfg, s, i);
    }
    CompleteUpTo(cfg, s, n);
    Levels(cfg, s, n);
    assert Drained(cfg, s, n);
    assert Cons(cfg, s, n) == Put(cfg, s, n);
    CompleteInOrder(Put(cfg, s, n), Ideal(cfg, n));
  }

  // ------------------------------------------------------------------ fault-free runs

  ghost predicate Healthy(s: State) {
    && (s.reader == Reading || s.reader == Ended)
    && s.sink != Failing
    && (forall i :: 0 <= i < |s.nodes| ==> NoLoss(s.nodes[i].ws))
  }

  /** The input is such that no job fails. */
  ghost predicate AllSucceed(cfg: Config) {
    forall i :: 0 <= i < |cfg.stages| ==> Succeeds(cfg.stages[i], Ideal(cfg, i))
  }

  lemma InputShape(cfg: Config)
    requires ValidConfig(cfg)
    ensures NumberedFrom0(cfg.input) && FinalOnlyLast(cfg.input)
  {
  }

  lemma StageIsLawful(cfg: Config, i: nat)
    requires ValidConfig(cfg) && i < |cfg.stages|
    ensures Lawful(cfg.stages[i])
  {
  }

  lemma {:induction false} IdealShape(cfg: Config, i: nat)
    requires ValidConfig(cfg) && AllSucceed(cfg) && i <= |cfg.stages|
    ensures NumberedFrom0(Ideal(cfg, i)) && FinalOnlyLast(Ideal(cfg, i))
  {
    hide ValidConfig, FinalOnlyLast, NumberedFrom0, Lawful, Succeeds, NextIdeal;
    if i == 0 {
      InputShape(cfg);
    } else {
      StageIsLawful(cfg, i - 1);
      IdealShape(cfg, i - 1);
      NextIdealShape(cfg.stages[i - 1], Ideal(cfg, i - 1));
    }
  }

  lemma NextIdealShape(st: Stage, xs: seq<Item>)
    requires Lawful(st) && Succeeds(st, xs) && NumberedFrom0(xs) && FinalOnlyLast(xs)
    ensures NumberedFrom0(NextIdeal(st, xs)) && FinalOnlyLast(NextIdeal(st, xs))
  {
  }

  /** If everybody who sends on channel `i` is gone, in a healthy state all stages before it have finished. */
  lemma {:induction false} UpstreamFinished(cfg: Config, s: State, i: nat)
    requires Inv(cfg, s) && Healthy(s) && i <= |s.nodes| && SendersGone(s, i)
    ensures s.reader == Ended && forall j :: 0 <= j < i ==> AllFinished(s.nodes[j].ws)
  {
    hide NodesInv, EndInv;
    if i == 0 {
      ReaderEnded(cfg, s);
    } else {
      GoneIsFinished(s, i - 1);
      FinishedSawEnd(cfg, s, i - 1);
      UpstreamFinished(cfg, s, i - 1);
    }
  }

  lemma ReaderEnded(cfg: Config, s: State)
    requires Healthy(s) && SendersGone(s, 0)
    ensures s.reader == Ended
  {
  }

  lemma GoneIsFinished(s: State, i: nat)
    requires Healthy(s) && i < |s.nodes| && AllGone(s.nodes[i].ws)
    ensures AllFinished(s.nodes[i].ws)
  {
    var ws := s.nodes[i].ws;
    assert NoLoss(ws);
    forall w | 0 <= w < |ws|
      ensures ws[w].Finished?
    {
      assert Gone(ws[w]);
    }
  }

  lemma FinishedSawEnd(cfg: Config, s: State, i: nat)
    requires Inv(cfg, s) && i < |s.nodes| && AllFinished(s.nodes[i].ws)
    ensures Drained(cfg, s, i)
  {
    assert NodeInv(cfg.stages[i], Cons(cfg, s, i), s.nodes[i]);
    assert Lawful(cfg.stages[i]);
    assert s.nodes[i].ws[0].Finished?;
    assert SawEnd(s.nodes[i]);
  }

  /** Behind a drained channel the complete input has been seen. */
  lemma DrainedIsComplete(cfg: Config, s: State, i: nat)
    requires Inv(cfg, s) && Healthy(s) && i <= |s.nodes| && Drained(cfg, s, i)
    ensures InOrder(Cons(cfg, s, i)) == Ideal(cfg, i)
  {
    UpstreamFinished(cfg, s, i);
    CompleteUpTo(cfg, s, i);
    Levels(cfg, s, i);
    assert Cons(cfg, s, i) == Put(cfg, s, i);
    CompleteInOrder(Put(cfg, s, i), Ideal(cfg, i));
  }

  /** In a healthy state every channel carries a beginning of what it would carry in the end. */
  lemma {:induction false} HealthyRef(cfg: Config, s: State, i: nat)
    requires Inv(cfg, s) && Healthy(s) && AllSucceed(cfg) && i <= |s.nodes|
    ensures Ref(cfg, s, i) <= Ideal(cfg, i)
  {
    hide NodesInv, EndInv, Healthy, AllSucceed, ValidConfig, NextRef, NextIdeal;
    if i == 0 {
    } else {
      HealthyRef(cfg, s, i - 1);
      HealthyNext(cfg, s, i - 1);
    }
  }

  lemma HealthyNext(cfg: Config, s: State, i: nat)
    requires Inv(cfg, s) && Healthy(s) && AllSucceed(cfg) && i < |s.nodes|
    requires Ref(cfg, s, i) <= Ideal(cfg, i)
    ensures Ref(cfg, s, i + 1) <= Ideal(cfg, i + 1)
  {
    var st, node, cons := cfg.stages[i], s.nodes[i], Cons(cfg, s, i);
    assert NodeInv(st, cons, node) && Lawful(st) && Succeeds(st, Ideal(cfg, i));
    if st.Ordered? {
      IdealShape(cfg, i);
      Levels(cfg, s, i);
      InOrderOfLevel(Put(cfg, s, i), Ref(cfg, s, i), cons);
      if node.flushed {
        assert SawEnd(node);
        DrainedIsComplete(cfg, s, i);
      }
      OrderedWithin(st, cons, Ideal(cfg, i), node);
    }
  }

  lemma OrderedWithin(st: Stage, cons: seq<Item>, ideal: seq<Item>, node: Node)
    requires st.Ordered? && Lawful(st) && OrderedInv(st, cons, node)
    requires st.all(ideal).Some? && FinalOnlyLast(ideal)
    requires InOrder(cons) <= ideal && (node.flushed ==> InOrder(cons) == ideal)
    ensures node.put <= st.all(ideal).value
  {
    assert !node.flushed ==> st.outs(InOrder(cons)) <= st.outs(ideal);
  }

  // ------------------------------------------------------------------ progress

  /** A step that brings no fault. */
  ghost predicate Good(cfg: Config, s: State, e: Event)
    requires Shape(cfg, s)
  {
    Next(cfg, s, e).Some? && Healthy(Next(cfg, s, e).value)
  }

  lemma GoodAct(cfg: Config, s: State, i: nat, a: Act)
    requires Shape(cfg, s) && Healthy(s) && i < |s.nodes|
    requires NodeAct(cfg.stages[i], s.nodes[i], ViewOf(cfg, s, i), a).Some?
    requires NoLoss(NodeAct(cfg.stages[i], s.nodes[i], ViewOf(cfg, s, i), a).value.ws)
    ensures Good(cfg, s, At(i, a))
  {
    var t := Next(cfg, s, At(i, a)).value;
    forall j | 0 <= j < |t.nodes|
      ensures NoLoss(t.nodes[j].ws)
    {
      assert j != i ==> t.nodes[j] == s.nodes[j];
    }
  }

  /** A worker of a pool can act unless it waits for an input channel that is open and empty. */
  lemma PoolProgress(st: Stage, node: Node, v: View, w: nat) returns (a: Act)
    requires st.Pool? && w < |node.ws| && !Gone(node.ws[w]) && NoLoss(node.ws)
    requires v.room && !v.gone
    requires node.ws[w].Busy? ==> st.job(node.ws[w].x).Some?
    requires node.ws[w].Idle? ==> v.queue != [] || v.closed
    ensures PoolAct(st, node, v, a).Some? && NoLoss(PoolAct(st, node, v, a).value.ws)
  {
    match node.ws[w]
    case Idle => a := if v.queue != [] then Take(w) else Exit(w);
    case Busy(_) => a := Work(w);
    case Ready(_) => a := Send(w);
  }

  lemma OrderedProgress(st: Stage, node: Node, v: View) returns (a: Act)
    requires st.Ordered? && OrderedInv(st, v.cons, node) && !AllGone(node.ws)
    requires v.room && !v.gone
    requires v.queue != [] || (v.closed && st.all(InOrder(v.cons)).Some?)
      || |node.put| < |Goal(st, v.cons, node.flushed)| || node.flushed
    ensures OrderedAct(st, node, v, a).Some? && NoLoss(OrderedAct(st, node, v, a).value.ws)
  {
    assert node.ws == [Idle];
    if |node.put| < |Goal(st, v.cons, node.flushed)| {
      a := Send(0);
    } else if node.flushed {
      a := Exit(0);
    } else if v.queue != [] {
      a := Take(0);
    } else {
      a := Work(0);
    }
  }

  /** No job fails on what a healthy state holds. */
  lemma BusySucceeds(cfg: Config, s: State, i: nat, w: nat)
    requires Inv(cfg, s) && Healthy(s) && AllSucceed(cfg) && i < |s.nodes|
    requires cfg.stages[i].Pool? && w < |s.nodes[i].ws| && s.nodes[i].ws[w].Busy?
    ensures cfg.stages[i].job(s.nodes[i].ws[w].x).Some?
  {
    HealthyRef(cfg, s, i);
    Levels(cfg, s, i);
    assert NodeInv(cfg.stages[i], Cons(cfg, s, i), s.nodes[i]);
    var x := s.nodes[i].ws[w].x;
    assert x in Put(cfg, s, i);
    assert Ideal(cfg, i)[x.idx] == x;
    assert Succeeds(cfg.stages[i], Ideal(cfg, i));
  }

  /** Stage `i` can act, or else it waits for its own input. */
  lemma StageProgress(cfg: Config, s: State, i: nat) returns (waits: bool, e: Event)
    requires Inv(cfg, s) && Healthy(s) && AllSucceed(cfg) && i < |s.nodes|
    requires Queue(cfg, s, i + 1) == [] && !ReceiversGone(s, i + 1) && !AllGone(s.nodes[i].ws)
    ensures !waits ==> Good(cfg, s, e)
    ensures waits ==> Queue(cfg, s, i) == [] && !SendersGone(s, i)
  {
    var st, node, v := cfg.stages[i], s.nodes[i], ViewOf(cfg, s, i);
    assert NodeInv(st, v.cons, node) && NoLoss(node.ws);
    assert cfg.caps[i + 1] > 0;
    waits := v.queue == [] && !v.closed;
    e := SinkFail;
    if st.Pool? {
      if w :| 0 <= w < |node.ws| && (node.ws[w].Busy? || node.ws[w].Ready?) {
        if node.ws[w].Busy? { BusySucceeds(cfg, s, i, w); }
        var a := PoolProgress(st, node, v, w);
        GoodAct(cfg, s, i, a);
        return false, At(i, a);
      } else if !waits {
        var w :| 0 <= w < |node.ws| && !Gone(node.ws[w]);
        var a := PoolProgress(st, node, v, w);
        GoodAct(cfg, s, i, a);
        return false, At(i, a);
      }
    } else if !waits || |node.put| < |Goal(st, v.cons, node.flushed)| || node.flushed {
      if v.queue == [] && v.closed {
        DrainedIsComplete(cfg, s, i);
        assert Succeeds(st, Ideal(cfg, i));
      }
      var a := OrderedProgress(st, node, v);
      GoodAct(cfg, s, i, a);
      return false, At(i, a);
    }
  }

  lemma ReaderProgress(cfg: Config, s: State) returns (e: Event)
    requires Shape(cfg, s) && EndInv(cfg, s) && Healthy(s)
    requires Queue(cfg, s, 0) == [] && !ReceiversGone(s, 0) && !SendersGone(s, 0)
    ensures Good(cfg, s, e)
  {
    assert cfg.caps[0] > 0;
    e := ReaderSend;
  }

  lemma {:induction false} SenderProgress(cfg: Config, s: State, i: nat) returns (e: Event)
    requires Inv(cfg, s) && Healthy(s) && AllSucceed(cfg) && i <= |s.nodes|
    requires Queue(cfg, s, i) == [] && !ReceiversGone(s, i) && !SendersGone(s, i)
    ensures Good(cfg, s, e)
  {
    hide NodesInv, Healthy;
    if i == 0 {
      e := ReaderProgress(cfg, s);
    } else {
      var waits;
      waits, e := StageProgress(cfg, s, i - 1);
      if waits {
        e := SenderProgress(cfg, s, i - 1);
      }
    }
  }

  /** Deadlock freedom: while the writer is at work, some thread can make a step that brings no fault. */
  lemma Progress(cfg: Config, s: State) returns (e: Event)
    requires Inv(cfg, s) && Healthy(s) && AllSucceed(cfg) && s.sink == Receiving
    ensures Good(cfg, s, e)
  {
    hide NodesInv, EndInv;
    var n := |s.nodes|;
    if Queue(cfg, s, n) != [] || SendersGone(s, n) {
      e := SinkProgress(cfg, s);
    } else {
      e := SenderProgress(cfg, s, n);
    }
  }

  lemma SinkProgress(cfg: Config, s: State) returns (e: Event)
    requires Shape(cfg, s) && Healthy(s) && s.sink == Receiving
    requires Queue(cfg, s, |s.nodes|) != [] || SendersGone(s, |s.nodes|)
    ensures Good(cfg, s, e)
  {
    e := if Queue(cfg, s, |s.nodes|) != [] then SinkTake else SinkEnd;
  }

  // ------------------------------------------------------------------ every run ends

  function Weight(w: Worker): nat {
    match w
    case Busy(_) => 3
    case Ready(_) => 2
    case Idle => 1
    case _ => 0
  }

  function WorkLeft(ws: seq<Worker>): nat {
    if ws == [] then 0 else Weight(ws[0]) + WorkLeft(ws[1..])
  }

  lemma {:induction false} WorkLeftUpdate(ws: seq<Worker>, w: nat, v: Worker)
    requires w < |ws|
    ensures WorkLeft(ws[w := v]) + Weight(ws[w]) == WorkLeft(ws) + Weight(v)
  {
    if w == 0 {
      assert ws[0 := v][1..] == ws[1..];
    } else {
      WorkLeftUpdate(ws[1..], w - 1, v);
      assert ws[w := v][1..] == ws[1..][w - 1 := v];
    }
  }

  /** What is left to do at a stage that takes `input` and sends `output` items in all. */
  function NodeRank(input: nat, output: nat, node: Node): int {
    3 * (input - node.got) + (output - |node.put|) + WorkLeft(node.ws) + (if node.flushed then 0 else 1)
  }

  lemma PoolRankDecreases(st: Stage, node: Node, v: View, a: Act, input: nat, output: nat)
    requires st.Pool? && PoolAct(st, node, v, a).Some?
    ensures NodeRank(input, output, PoolAct(st, node, v, a).value) < NodeRank(input, output, node)
  {
    hide WorkLeft;
    var after := PoolAct(st, node, v, a).value;
    WorkLeftUpdate(node.ws, a.w, after.ws[a.w]);
    assert after.ws == node.ws[a.w := after.ws[a.w]];
  }

  lemma OrderedRankDecreases(st: Stage, node: Node, v: View, a: Act, input: nat, output: nat)
    requires st.Ordered? && OrderedAct(st, node, v, a).Some?
    ensures NodeRank(input, output, OrderedAct(st, node, v, a).value) < NodeRank(input, output, node)
  {
    hide Goal;
    var after := OrderedAct(st, node, v, a).value;
    assert WorkLeft([Idle]) == 1;
    assert after.ws != node.ws ==> WorkLeft(after.ws) == 0;
  }

  lemma NodeRankDecreases(st: Stage, node: Node, v: View, a: Act, input: nat, output: nat)
    requires NodeAct(st, node, v, a).Some?
    ensures NodeRank(input, output, NodeAct(st, node, v, a).value) < NodeRank(input, output, node)
  {
    hide PoolAct, OrderedAct, NodeRank;
    if st.Pool? {
      PoolRankDecreases(st, node, v, a, input, output);
    } else {
      OrderedRankDecreases(st, node, v, a, input, output);
    }
  }

  /** `sizes` says how many items each channel carries in all. */
  function NodesRank(sizes: seq<nat>, nodes: seq<Node>, i: nat): int
    requires i <= |nodes| && |sizes| == |nodes| + 1
    decreases |nodes| - i
  {
    if i == |nodes| then 0 else NodeRank(sizes[i], sizes[i + 1], nodes[i]) + NodesRank(sizes, nodes, i + 1)
  }

  lemma {:induction false} NodesRankUpdate(sizes: seq<nat>, nodes: seq<Node>, i: nat, k: nat, node: Node)
    requires i <= |nodes| && |sizes| == |nodes| + 1 && k < |nodes|
    ensures NodesRank(sizes, nodes[k := node], i) - NodesRank(sizes, nodes, i) ==
      if i <= k then NodeRank(sizes[k], sizes[k + 1], node) - NodeRank(sizes[k], sizes[k + 1], nodes[k]) else 0
    decreases |nodes| - i
  {
    if i == |nodes| {
    } else {
      NodesRankUpdate(sizes, nodes, i + 1, k, node);
    }
  }

  /** The ranking: items still to be read, taken and sent at every stage, and threads still to end. */
  function Rank(cfg: Config, sizes: seq<nat>, s: State): int
    requires |sizes| == |s.nodes| + 1
  {
    (|cfg.input| - s.sent) + (if s.reader == Reading then 1 else 0)
      + NodesRank(sizes, s.nodes, 0)
      + (sizes[|s.nodes|] - s.got) + (if s.sink == Receiving then 1 else 0)
  }

  /** What the channels carry if there are no faults. */
  ghost function IdealSizes(cfg: Config): (sizes: seq<nat>)
    ensures |sizes| == |cfg.stages| + 1
  {
    seq(|cfg.stages| + 1, i requires 0 <= i <= |cfg.stages| => |Ideal(cfg, i)|)
  }

  /** Every event, faults included, makes the ranking smaller. */
  lemma StepDecreases(cfg: Config, sizes: seq<nat>, s: State, e: Event)
    requires Shape(cfg, s) && Next(cfg, s, e).Some? && |sizes| == |cfg.stages| + 1
    ensures |Next(cfg, s, e).value.nodes| == |cfg.stages|
    ensures Rank(cfg, sizes, Next(cfg, s, e).value) < Rank(cfg, sizes, s)
  {
    if e.At? {
      var st, node, v := cfg.stages[e.i], s.nodes[e.i], ViewOf(cfg, s, e.i);
      NodeRankDecreases(st, node, v, e.a, sizes[e.i], sizes[e.i + 1]);
      NodesRankUpdate(sizes, s.nodes, 0, e.i, NodeAct(st, node, v, e.a).value);
    }
  }

  /** A list without repeated numbers below `n` has at most `n` items. */
  lemma {:induction false} DistinctBounded(xs: seq<Item>, n: nat)
    requires Distinct(xs) && forall x :: x in xs ==> x.idx < n
    ensures |xs| <= n
  {
    IdSetSize(xs);
    SubsetSize(IdSet(xs), UpTo(n));
  }

  function IdSet(xs: seq<Item>): set<nat> {
    set x | x in xs :: x.idx
  }

  function UpTo(n: nat): (ids: set<nat>)
    ensures forall k: nat :: k in ids <==> k < n
    ensures |ids| == n
  {
    if n == 0 then {} else UpTo(n - 1) + {n - 1}
  }

  lemma SubsetSize(a: set<nat>, b: set<nat>)
    requires a <= b
    ensures |a| <= |b|
  {
    assert b == a + (b - a);
  }

  lemma {:induction false} IdSetSize(xs: seq<Item>)
    requires Distinct(xs)
    ensures |IdSet(xs)| == |xs|
  {
    if xs == [] {
    } else {
      var n := |xs| - 1;
      var x := xs[n];
      forall k
        ensures Occurs(xs[..n], k) <= 1
      {
        OccursPrefix(xs, n, k);
        assert Occurs(xs, k) <= 1;
      }
      IdSetSize(xs[..n]);
      assert Occurs(xs, x.idx) <= 1;
      OccursWitness(xs[..n], x.idx);
      assert xs == xs[..n] + [x];
      assert IdSet(xs) == IdSet(xs[..n]) + {x.idx};
    }
  }

  /** In a healthy state no channel has carried more than it ever will. */
  lemma PutBounded(cfg: Config, s: State, i: nat)
    requires Inv(cfg, s) && Healthy(s) && AllSucceed(cfg) && i <= |s.nodes|
    ensures Got(s, i) <= |Put(cfg, s, i)| <= |Ideal(cfg, i)|
  {
    HealthyRef(cfg, s, i);
    Levels(cfg, s, i);
    DistinctBounded(Put(cfg, s, i), |Ideal(cfg, i)|);
  }

  lemma NodeRankNonNegative(cfg: Config, s: State, i: nat)
    requires Inv(cfg, s) && Healthy(s) && AllSucceed(cfg) && i < |s.nodes|
    ensures NodeRank(|Ideal(cfg, i)|, |Ideal(cfg, i + 1)|, s.nodes[i]) >= 0
  {
    hide NodesInv, EndInv, Healthy, AllSucceed, Ideal;
    PutBounded(cfg, s, i);
    PutBounded(cfg, s, i + 1);
  }

  lemma {:induction false} NodesRankNonNegative(cfg: Config, s: State, i: nat)
    requires Inv(cfg, s) && Healthy(s) && AllSucceed(cfg) && i <= |s.nodes|
    ensures NodesRank(IdealSizes(cfg), s.nodes, i) >= 0
    decreases |s.nodes| - i
  {
    hide NodesInv, EndInv, Healthy, AllSucceed, NodeRank, Ideal;
    if i == |s.nodes| {
    } else {
      NodesRankNonNegative(cfg, s, i + 1);
      NodeRankNonNegative(cfg, s, i);
    }
  }

  lemma {:induction false} RunDecreases(cfg: Config, sizes: seq<nat>, es: seq<Event>)
    requires ValidConfig(cfg) && Run(cfg, es).Some? && |sizes| == |cfg.stages| + 1
    ensures Rank(cfg, sizes, Run(cfg, es).value) + |es| <= Rank(cfg, sizes, Init(cfg))
    decreases |es|
  {
    if es == [] {
    } else {
      var n := |es| - 1;
      RunDecreases(cfg, sizes, es[..n]);
      StepDecreases(cfg, sizes, Run(cfg, es[..n]).value, es[n]);
    }
  }

  /**
    A fault-free run is bounded and can go on until the writer is done; then `io_chunks` returns Ok
    and `expected` has been written.
   */
  ghost predicate Completes(cfg: Config, es: seq<Event>, expected: seq<Bytes>)
    requires ValidConfig(cfg)
  {
    Run(cfg, es).Some? && Healthy(Run(cfg, es).value) ==>
      && |es| <= Rank(cfg, IdealSizes(cfg), Init(cfg))
      && (Run(cfg, es).value.sink == Receiving ==>
           exists e :: Run(cfg, es + [e]).Some? && Healthy(Run(cfg, es + [e]).value))
      && (Run(cfg, es).value.sink == Complete ==>
           ReturnsOk(Run(cfg, es).value) && Written(cfg, Run(cfg, es).value) == expected)
  }

  /**
    Every fault-free run ends, after at most `Rank(cfg, IdealSizes(cfg), Init(cfg))` steps, and it cannot end before the
    writer has written everything: until then some thread can go on.
   */
  lemma FaultFreeRunsComplete(cfg: Config, es: seq<Event>)
    requires ValidConfig(cfg) && AllSucceed(cfg)
    ensures Completes(cfg, es, Payloads(Ideal(cfg, |cfg.stages|)))
  {
    hide ValidConfig, AllSucceed, Healthy, Rank, Ideal, Run, Written, ReturnsOk;
    if Run(cfg, es).Some? && Healthy(Run(cfg, es).value) {
      var s := Run(cfg, es).value;
      RunIsBounded(cfg, es);
      if s.sink == Receiving {
        var e := Progress(cfg, s);
        RunSnoc(cfg, es, e);
        assert Run(cfg, es + [e]).Some?;
      } else {
        FinishedIsComplete(cfg, s);
      }
    }
  }

  lemma RunIsBounded(cfg: Config, es: seq<Event>)
    requires ValidConfig(cfg) && AllSucceed(cfg)
    ensures Run(cfg, es).Some? && Healthy(Run(cfg, es).value) ==> |es| <= Rank(cfg, IdealSizes(cfg), Init(cfg))
  {
    hide ValidConfig, AllSucceed, Healthy, Ideal, Run, Rank;
    if Run(cfg, es).Some? && Healthy(Run(cfg, es).value) {
      RunDecreases(cfg, IdealSizes(cfg), es);
      RankNonNegative(cfg, Run(cfg, es).value);
    }
  }

  lemma RankNonNegative(cfg: Config, s: State)
    requires Inv(cfg, s) && Healthy(s) && AllSucceed(cfg)
    ensures Rank(cfg, IdealSizes(cfg), s) >= 0
  {
    hide NodesInv, EndInv, AllSucceed, Healthy, Ideal, ValidConfig;
    NodesRankNonNegative(cfg, s, 0);
    PutBounded(cfg, s, |s.nodes|);
  }

  lemma FinishedIsComplete(cfg: Config, s: State)
    requires Inv(cfg, s) && Healthy(s) && s.sink != Receiving
    ensures ReturnsOk(s) && Written(cfg, s) == Payloads(Ideal(cfg, |cfg.stages|))
  {
    hide NodesInv, ReaderInv, BreaksExplained, ValidConfig, Ideal;
    DrainedIsComplete(cfg, s, |s.nodes|);
    UpstreamFinished(cfg, s, |s.nodes|);
  }

  /** Every fault-free run can be continued to one in which `io_chunks` returns Ok. */
  lemma {:induction false} FaultFreeRunsExtend(cfg: Config, es: seq<Event>) returns (more: seq<Event>)
    requires ValidConfig(cfg) && AllSucceed(cfg) && Run(cfg, es).Some? && Healthy(Run(cfg, es).value)
    ensures Run(cfg, es + more).Some? && ReturnsOk(Run(cfg, es + more).value)
    decreases Rank(cfg, IdealSizes(cfg), Run(cfg, es).value)
  {
    hide ValidConfig, AllSucceed, Healthy, Rank, Ideal, Run, Written, ReturnsOk;
    var s := Run(cfg, es).value;
    RankNonNegative(cfg, s);
    if s.sink != Receiving {
      FinishedIsComplete(cfg, s);
      more := [];
      assert es + more == es;
    } else {
      var e := Progress(cfg, s);
      RunSnoc(cfg, es, e);
      StepDecreases(cfg, IdealSizes(cfg), s, e);
      var rest := FaultFreeRunsExtend(cfg, es + [e]);
      more := [e] + rest;
      assert es + more == es + [e] + rest;
    }
  }

  /** In particular there is such a run. */
  lemma SomeRunReturnsOk(cfg: Config)
    requires ValidConfig(cfg) && AllSucceed(cfg)
    ensures exists es :: Run(cfg, es).Some? && ReturnsOk(Run(cfg, es).value)
  {
    hide ValidConfig, AllSucceed, Rank, Ideal, Run, Written, ReturnsOk;
    StartIsHealthy(cfg);
    var es := FaultFreeRunsExtend(cfg, []);
    assert [] + es == es;
  }

  lemma StartIsHealthy(cfg: Config)
    requires ValidConfig(cfg)
    ensures Run(cfg, []) == Some(Init(cfg)) && Healthy(Init(cfg))
  {
    hide ValidConfig, NodesInv, EndInv, Next;
    assert Run(cfg, []) == Some(Init(cfg));
    forall i | 0 <= i < |cfg.stages|
      ensures NoLoss(InitNode(cfg.stages[i]).ws)
    {
    }
  }

  lemma RunSnoc(cfg: Config, es: seq<Event>, e: Event)
    requires ValidConfig(cfg) && Run(cfg, es).Some?
    ensures Run(cfg, es + [e]) == Next(cfg, Run(cfg, es).value, e)
  {
    assert (es + [e])[..|es|] == es;
  }
}

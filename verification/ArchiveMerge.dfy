/**
  The archiver's chunk reader: it takes messages from the channels of all workers, stays with one
  channel until the entry is complete, and cuts the bytes into chunks. What the workers will send is
  known in advance here: each channel has one sender, so only the choice of the channel is open.
 */
module ArchiveMerge {
  import opened ByteStrings
  import opened Cutting
  import opened ArchiveHeader
  import opened ArchiveEntries
  import opened ArchiveSend

  ghost predicate AllArchivable(es: seq<Entry>) {
    forall e :: e in es ==> Archivable(e)
  }

  /** The messages of a worker for its jobs. */
  ghost function Messages(es: seq<Entry>): seq<Msg>
    requires AllArchivable(es)
  {
    if es == [] then [] else MessagesOf(es[0]) + Messages(es[1..])
  }

  /** All entries given to the workers. */
  ghost function Bag(waiting: seq<seq<Entry>>): multiset<Entry> {
    if waiting == [] then multiset{} else multiset(waiting[0]) + Bag(waiting[1..])
  }

  lemma {:induction false} BagTake(waiting: seq<seq<Entry>>, k: nat)
    requires k < |waiting| && waiting[k] != []
    ensures Bag(waiting) == Bag(waiting[k := waiting[k][1..]]) + multiset{waiting[k][0]}
  {
    if k == 0 {
      assert waiting[0] == [waiting[0][0]] + waiting[0][1..];
      assert waiting[0 := waiting[0][1..]][1..] == waiting[1..];
    } else {
      BagTake(waiting[1..], k - 1);
      assert waiting[k := waiting[k][1..]][1..] == waiting[1..][k - 1 := waiting[k][1..]];
    }
  }

  lemma {:induction false} BagEmpty(waiting: seq<seq<Entry>>)
    requires forall k :: 0 <= k < |waiting| ==> waiting[k] == []
    ensures Bag(waiting) == multiset{}
  {
    if waiting == [] {
    } else {
      BagEmpty(waiting[1..]);
    }
  }

  lemma {:induction false} StreamSnoc(es: seq<Entry>, e: Entry)
    requires AllArchivable(es) && Archivable(e)
    ensures StreamOf(es + [e]) == StreamOf(es) + Group(e)
    decreases |es|
  {
    hide Group, Archivable;
    if es == [] {
      assert [e][1..] == [] && [] + [e] == [e];
    } else {
      StreamSnoc(es[1..], e);
      assert (es + [e])[1..] == es[1..] + [e];
      assert Group(es[0]) + (StreamOf(es[1..]) + Group(e)) == (Group(es[0]) + StreamOf(es[1..])) + Group(e);
    }
  }

  // ------------------------------------------------------------------ an undisturbed merge

  /** The entries in the order they are taken, those still to come, and the rest of the current one. */
  datatype Merge = Merge(order: seq<Entry>, waiting: seq<seq<Entry>>, current: seq<Msg>)

  /** The channels hold the rest of the current entry and whole entries behind it. */
  ghost predicate Channels(g: Merge, rx: seq<seq<Msg>>, index: Option<nat>) {
    && |g.waiting| == |rx|
    && (forall k :: 0 <= k < |rx| ==> AllArchivable(g.waiting[k]))
    && (forall k :: 0 <= k < |rx| ==> rx[k] == (if index == Some(k) then g.current else []) + Messages(g.waiting[k]))
    && (index.None? <==> g.current == []) && (index.Some? ==> index.value < |rx|)
    && (forall i :: 0 <= i < |g.current| ==> (g.current[i].last <==> i == |g.current| - 1))
  }

  /** What was received is a beginning of the stream of the entries in their order, and no entry is lost. */
  ghost predicate Intact(g: Merge, total: multiset<Entry>, rx: seq<seq<Msg>>, index: Option<nat>, received: Bytes) {
    && Channels(g, rx, index)
    && AllArchivable(g.order)
    && received + Flatten(Datas(g.current)) == StreamOf(g.order)
    && multiset(g.order) + Bag(g.waiting) == total
  }

  lemma FirstData(ms: seq<Msg>)
    requires ms != []
    ensures Flatten(Datas(ms)) == ms[0].data + Flatten(Datas(ms[1..]))
  {
    assert Datas(ms)[1..] == Datas(ms[1..]);
  }

  /** The next message of the current entry keeps the merge intact. */
  lemma StayKeeps(g: Merge, total: multiset<Entry>, rx: seq<seq<Msg>>, k: nat, received: Bytes)
    requires Intact(g, total, rx, Some(k), received)
    ensures k < |rx| && rx[k] != [] && g.current != []
    ensures var m := rx[k][0];
      Intact(g.(current := g.current[1..]), total, rx[k := rx[k][1..]],
        if m.last then None else Some(k), received + m.data)
  {
    hide Messages, AllArchivable, StreamOf, Bag;
    assert rx[k] == g.current + Messages(g.waiting[k]);
    var m := rx[k][0];
    assert m == g.current[0];
    assert rx[k][1..] == g.current[1..] + Messages(g.waiting[k]);
    FirstData(g.current);
    var rest := g.current[1..];
    assert received + (m.data + Flatten(Datas(rest))) == (received + m.data) + Flatten(Datas(rest));
    forall j | 0 <= j < |rx| && j != k
      ensures rx[j] == [] + Messages(g.waiting[j])
    {
    }
    if m.last { assert rest == [] && [] + Messages(g.waiting[k]) == Messages(g.waiting[k]); }
  }

  ghost function Picked(g: Merge, k: nat): Merge
    requires k < |g.waiting| && g.waiting[k] != [] && Archivable(g.waiting[k][0])
  {
    var e := g.waiting[k][0];
    Merge(g.order + [e], g.waiting[k := g.waiting[k][1..]], MessagesOf(e)[1..])
  }

  lemma PickShape(g: Merge, rx: seq<seq<Msg>>, k: nat)
    requires Channels(g, rx, None) && k < |rx| && rx[k] != []
    ensures g.waiting[k] != [] && Archivable(g.waiting[k][0]) && AllArchivable(g.waiting[k][1..])
    ensures var ms := MessagesOf(g.waiting[k][0]);
      && ms != [] && rx[k][0] == ms[0] && rx[k][1..] == ms[1..] + Messages(g.waiting[k][1..])
      && (forall i :: 0 <= i < |ms| ==> (ms[i].last <==> i == |ms| - 1))
      && Flatten(Datas(ms)) == Group(g.waiting[k][0])
  {
    hide Archivable, MessagesOf, Group;
    assert rx[k] == [] + Messages(g.waiting[k]) == Messages(g.waiting[k]);
    var e := g.waiting[k][0];
    assert e in g.waiting[k];
    MessagesCarryGroup(e);
    var ms := MessagesOf(e);
    assert (ms + Messages(g.waiting[k][1..]))[1..] == ms[1..] + Messages(g.waiting[k][1..]);
  }

  lemma PickChannels(g: Merge, rx: seq<seq<Msg>>, k: nat)
    requires Channels(g, rx, None) && k < |rx| && rx[k] != []
    ensures g.waiting[k] != [] && Archivable(g.waiting[k][0])
    ensures Channels(Picked(g, k), rx[k := rx[k][1..]], if rx[k][0].last then None else Some(k))
  {
    hide Archivable, MessagesOf, Messages, Group, AllArchivable;
    PickShape(g, rx, k);
    var e := g.waiting[k][0];
    var h := Picked(g, k);
    assert [] + Messages(g.waiting[k][1..]) == Messages(g.waiting[k][1..]);
  }

  /** The first message of an entry from any channel keeps the merge intact. */
  lemma PickKeeps(g: Merge, total: multiset<Entry>, rx: seq<seq<Msg>>, k: nat, received: Bytes)
    requires Intact(g, total, rx, None, received) && k < |rx| && rx[k] != []
    ensures k < |g.waiting| && g.waiting[k] != [] && Archivable(g.waiting[k][0])
    ensures Intact(Picked(g, k), total, rx[k := rx[k][1..]],
      if rx[k][0].last then None else Some(k), received + rx[k][0].data)
  {
    hide Channels, Archivable, MessagesOf, Messages, Group, StreamOf, Bag;
    NoCurrent(g, rx);
    PickShape(g, rx, k);
    PickChannels(g, rx, k);
    var e := g.waiting[k][0];
    BagTake(g.waiting, k);
    StreamSnoc(g.order, e);
    var ms := MessagesOf(e);
    FirstData(ms);
    assert received + [] == received;
    assert Flatten(Datas([])) == [] by { EmptyDatas(); }
    assert received + (ms[0].data + Flatten(Datas(ms[1..]))) == (received + ms[0].data) + Flatten(Datas(ms[1..]));
  }

  lemma NoCurrent(g: Merge, rx: seq<seq<Msg>>)
    requires Channels(g, rx, None)
    ensures g.current == [] && |g.waiting| == |rx|
  {
  }

  lemma EmptyDatas()
    ensures Flatten(Datas([])) == []
  {
  }

  /** When all channels are drained, every entry is in the stream, once. */
  lemma DrainedIsWhole(g: Merge, total: multiset<Entry>, rx: seq<seq<Msg>>, index: Option<nat>, received: Bytes)
    requires Intact(g, total, rx, index, received) && forall k :: 0 <= k < |rx| ==> rx[k] == []
    ensures AllArchivable(g.order) && received == StreamOf(g.order) && multiset(g.order) == total
  {
    hide Archivable, MessagesOf, StreamOf;
    forall k | 0 <= k < |rx|
      ensures g.waiting[k] == []
    {
      SomeMessages(g.waiting[k]);
    }
    BagEmpty(g.waiting);
    assert g.current == [];
    EmptyDatas();
    assert received + [] == received;
  }

  lemma SomeMessages(es: seq<Entry>)
    requires AllArchivable(es)
    ensures Messages(es) == [] ==> es == []
  {
    hide Archivable;
    if es != [] {
      assert es[0] in es;
      MessagesCarryGroup(es[0]);
    }
  }

  // ------------------------------------------------------------------ the reader

  function CountLeft(rx: seq<seq<Msg>>): nat {
    if rx == [] then 0 else |rx[0]| + CountLeft(rx[1..])
  }

  lemma {:induction false} CountTake(rx: seq<seq<Msg>>, k: nat)
    requires k < |rx| && rx[k] != []
    ensures CountLeft(rx[k := rx[k][1..]]) == CountLeft(rx) - 1
  {
    if k == 0 {
      assert rx[0 := rx[0][1..]][1..] == rx[1..];
    } else {
      CountTake(rx[1..], k - 1);
      assert rx[k := rx[k][1..]][1..] == rx[1..][k - 1 := rx[k][1..]];
    }
  }

  function Unfinished(fs: seq<bool>): nat {
    if fs == [] then 0 else (if fs[0] then 0 else 1) + Unfinished(fs[1..])
  }

  lemma {:induction false} UnfinishedLess(fs: seq<bool>, k: nat)
    requires k < |fs| && !fs[k]
    ensures Unfinished(fs[k := true]) < Unfinished(fs)
  {
    if k == 0 {
      assert fs[0 := true][1..] == fs[1..];
    } else {
      UnfinishedLess(fs[1..], k - 1);
      assert fs[k := true][1..] == fs[1..][k - 1 := true];
    }
  }

  class ArchiveRead {
    // what each worker is still going to send
    var rx: seq<seq<Msg>>
    var channelIndex: Option<nat>
    var channelFinished: seq<bool>
    var bufOut: Bytes
    // all bytes received, and those given out in chunks that were not final
    ghost var received: Bytes
    ghost var given: Bytes
    ghost var merge: Merge
    ghost const total: multiset<Entry>

    ghost predicate Valid()
      reads this
    {
      && |channelFinished| == |rx|
      && (channelIndex.Some? ==> channelIndex.value < |rx|)
      && (forall k :: 0 <= k < |rx| && channelFinished[k] ==> rx[k] == [])
      && Small(rx)
      && given + bufOut == received
      && |bufOut| <= 2 * CHUNK_SIZE
    }

    ghost predicate Undisturbed()
      reads this
    {
      Intact(merge, total, rx, channelIndex, received)
    }

    ghost predicate Drained()
      reads this
    {
      forall k :: 0 <= k < |rx| ==> rx[k] == []
    }

    constructor (rx: seq<seq<Msg>>, ghost jobs: seq<seq<Entry>>)
      requires Small(rx)
      ensures Valid() && bufOut == [] && given == []
      ensures this.rx == rx && total == Bag(jobs)
      ensures (|jobs| == |rx| && forall k :: 0 <= k < |rx| ==> AllArchivable(jobs[k]) && rx[k] == Messages(jobs[k]))
        ==> Undisturbed()
    {
      this.rx := rx;
      channelIndex, channelFinished, bufOut := None, seq(|rx|, _ => false), [];
      received, given := [], [];
      merge, total := Merge([], jobs, []), Bag(jobs);
    }

    /** `recv` and `try_recv`: the next message, or the news that the worker has ended. */
    method Receive(k: nat) returns (m: Option<Msg>)
      requires k < |rx|
      modifies this`rx
      ensures m.None? <==> old(rx[k]) == []
      ensures rx == if m.Some? then old(rx)[k := old(rx[k])[1..]] else old(rx)
      ensures m.Some? ==> m.value == old(rx[k])[0] && CountLeft(rx) < old(CountLeft(rx))
    {
      if rx[k] == [] {
        return None;
      }
      CountTake(rx, k);
      m := Some(rx[k][0]);
      rx := rx[k := rx[k][1..]];
    }

    /** The blocking receive on the channel of the entry that is under way. */
    method StayOnChannel() returns (got: bool)
      requires Valid() && channelIndex.Some? && |bufOut| <= CHUNK_SIZE
      modifies this
      ensures Valid() && given == old(given) && old(bufOut) <= bufOut && channelFinished == old(channelFinished)
      ensures old(Undisturbed()) ==> got && Undisturbed()
      ensures if got then CountLeft(rx) < old(CountLeft(rx)) else unchanged(this)
    {
      hide Intact;
      var k := channelIndex.value;
      if Undisturbed() { StayKeeps(merge, total, rx, k, received); }
      var m := Receive(k);
      if m.None? {
        return false;
      }
      StillSmall(old(rx), k);
      assert given + (bufOut + m.value.data) == (given + bufOut) + m.value.data;
      bufOut := bufOut + m.value.data;
      received := received + m.value.data;
      merge := merge.(current := if merge.current == [] then [] else merge.current[1..]);
      if m.value.last {
        channelIndex := None;
      }
      return true;
    }

    /** The first message of an entry; the channel is kept unless it is also the last one. */
    method Begin(k: nat, m: Msg, ghost was: seq<seq<Msg>>)
      requires |channelFinished| == |rx| && |bufOut| <= CHUNK_SIZE && given + bufOut == received
      requires Small(rx) && |m.data| <= CHUNK_SIZE
      requires forall j :: 0 <= j < |rx| && channelFinished[j] ==> rx[j] == []
      requires channelIndex.Some? ==> channelIndex.value < |rx|
      requires k < |was| && was[k] != [] && m == was[k][0] && rx == was[k := was[k][1..]]
      requires Intact(merge, total, was, channelIndex, received) ==> channelIndex == None
      modifies this`bufOut, this`received, this`channelIndex, this`merge
      ensures Valid() && bufOut == old(bufOut) + m.data
      ensures old(Intact(merge, total, was, channelIndex, received)) ==> Undisturbed()
    {
      hide Intact, Small, Picked;
      if Intact(merge, total, was, channelIndex, received) {
        PickKeeps(merge, total, was, k, received);
        merge := Picked(merge, k);
      }
      assert given + (bufOut + m.data) == (given + bufOut) + m.data;
      bufOut := bufOut + m.data;
      received := received + m.data;
      if !m.last {
        channelIndex := Some(k);
      }
    }

    /** Takes a message from a ready channel, or notes that its worker has ended. */
    method TryChannel(k: nat)
      requires Valid() && k < |rx| && !channelFinished[k] && |bufOut| <= CHUNK_SIZE
      requires Undisturbed() ==> channelIndex == None
      modifies this
      ensures Valid() && given == old(given) && old(bufOut) <= bufOut
      ensures old(Undisturbed()) ==> Undisturbed()
      ensures CountLeft(rx) < old(CountLeft(rx)) ||
        (rx == old(rx) && bufOut == old(bufOut) && Unfinished(channelFinished) < old(Unfinished(channelFinished)))
    {
      hide Intact, CountLeft, Small, Unfinished;
      ghost var was := rx;
      var m := Receive(k);
      if m.Some? {
        StillSmall(was, k);
        Begin(k, m.value, was);
      } else {
        UnfinishedLess(channelFinished, k);
        channelFinished := channelFinished[k := true];
      }
    }

    /** `self.channel_finished.iter().all(|x| *x)`. */
    predicate AllFinished()
      reads this
    {
      forall k :: 0 <= k < |channelFinished| ==> channelFinished[k]
    }

    /**
      The loop of `read_chunk`: receives until there is more than a chunk or every worker has ended.
      Any ready channel may be picked when no entry is under way.
     */
    method Collect()
      requires Valid()
      modifies this
      ensures Valid() && given == old(given) && old(bufOut) <= bufOut
      ensures old(Undisturbed()) ==> Undisturbed()
      ensures |bufOut| > CHUNK_SIZE || AllFinished()
      ensures CountLeft(rx) < old(CountLeft(rx)) || (CountLeft(rx) == old(CountLeft(rx)) && bufOut == old(bufOut))
    {
      hide Intact, CountLeft, Unfinished, Small;
      while !AllFinished() && |bufOut| <= CHUNK_SIZE
        invariant Valid() && given == old(given) && old(bufOut) <= bufOut
        invariant old(Undisturbed()) ==> Undisturbed()
        invariant CountLeft(rx) < old(CountLeft(rx)) || (CountLeft(rx) == old(CountLeft(rx)) && bufOut == old(bufOut))
        decreases CountLeft(rx), Unfinished(channelFinished)
      {
        var got := false;
        if channelIndex.Some? {
          got := StayOnChannel();
        }
        if !got {
          var k :| 0 <= k < |rx| && !channelFinished[k];
          TryChannel(k);
        }
      }
    }

    /**
      `read_chunk`: a full chunk while bytes are left behind it, and the final chunk once every
      channel is drained and closed. The buffer never holds more than two chunks.
     */
    method ReadChunk() returns (chunk: Bytes, finalChunk: bool)
      requires Valid()
      modifies this
      ensures Valid()
      ensures old(Undisturbed()) ==> Undisturbed()
      ensures old(bufOut) <= chunk + bufOut
      ensures finalChunk ==> Drained() && |chunk| <= CHUNK_SIZE && old(bufOut) <= chunk
      ensures finalChunk ==> old(given) + chunk == received && given == old(given)
      ensures !finalChunk ==> |chunk| == CHUNK_SIZE && bufOut != [] && given == old(given) + chunk
      ensures !finalChunk ==>
        (CountLeft(rx) < old(CountLeft(rx)) || (CountLeft(rx) == old(CountLeft(rx)) && |bufOut| < |old(bufOut)|))
    {
      hide Intact, CountLeft, Small;
      Collect();
      if |bufOut| > CHUNK_SIZE {
        chunk := bufOut[..CHUNK_SIZE];
        assert bufOut == chunk + bufOut[CHUNK_SIZE..];
        bufOut := bufOut[CHUNK_SIZE..];
        given := given + chunk;
        assert given + bufOut == received;
        finalChunk := false;
      } else {
        chunk := bufOut;
        finalChunk := true;
      }
    }

    /**
      The reading loop of `io_chunks` over an archive whose workers all end regularly: the chunks are
      the pieces of the stream of all entries in some order, each entry once.
     */
    method ReadAll() returns (sent: seq<Item>, ghost order: seq<Entry>)
      requires Valid() && Undisturbed() && given == []
      modifies this
      ensures multiset(order) == total && AllArchivable(order)
      ensures sent == Numbered(Pieces(CHUNK_SIZE, StreamOf(order)))
    {
      hide Intact, CountLeft, Small, StreamOf, AllArchivable, Pieces;
      ghost var ps: seq<Bytes> := [];
      var chunkCount := 0;
      var finalChunk := false;
      sent := [];
      while !finalChunk
        invariant Valid() && Undisturbed()
        invariant chunkCount == |sent| == |ps|
        invariant forall i :: 0 <= i < |ps| ==> sent[i] == Item(ps[i], i, finalChunk && i == |ps| - 1)
        invariant !finalChunk ==> Flatten(ps) == given && (forall i :: 0 <= i < |ps| ==> |ps[i]| == CHUNK_SIZE)
        invariant !finalChunk && ps != [] ==> bufOut != []
        invariant finalChunk ==> Flatten(ps) == received && WellCut(CHUNK_SIZE, ps) && Drained()
        decreases !finalChunk, CountLeft(rx), |bufOut|
      {
        var chunk;
        chunk, finalChunk := ReadChunk();
        FlattenSnoc(ps, chunk);
        ps := ps + [chunk];
        sent := sent + [Item(chunk, chunkCount, finalChunk)];
        chunkCount := chunkCount + 1;
      }
      order := merge.order;
      DrainedIsWhole(merge, total, rx, channelIndex, received);
      WellCutUnique(CHUNK_SIZE, ps);
      assert sent == Numbered(ps);
    }
  }

  /** A message is at most a chunk. */
  ghost predicate Small(rx: seq<seq<Msg>>) {
    forall k, i :: 0 <= k < |rx| && 0 <= i < |rx[k]| ==> |rx[k][i].data| <= CHUNK_SIZE
  }

  lemma StillSmall(rx: seq<seq<Msg>>, k: nat)
    requires Small(rx) && k < |rx| && rx[k] != []
    ensures Small(rx[k := rx[k][1..]]) && |rx[k][0].data| <= CHUNK_SIZE
  {
  }
}

/**
  The reorder buffer: numbered items arrive in any order and leave in the order of their numbers.
  The writer thread and both resegmenters run this loop around different work.
 */
module Reorder {
  import opened ByteStrings
  import opened Cutting

  /** The map of everything that arrived. */
  function Arrived(rx: seq<Item>): map<nat, Item> {
    if rx == [] then map[] else
    var x := rx[|rx| - 1];
    Arrived(rx[..|rx| - 1])[x.idx := x]
  }

  /** The items that can leave, starting with number `next`. */
  function Drain(pending: map<nat, Item>, next: nat): seq<Item>
    decreases |pending|
  {
    if next in pending then [pending[next]] + Drain(pending - {next}, next + 1) else []
  }

  /** What has left after the arrivals `rx`: the items numbered 0, 1, 2, ... up to the first gap. */
  function InOrder(rx: seq<Item>): seq<Item> {
    Drain(Arrived(rx), 0)
  }

  /** A number stands for one item only. */
  ghost predicate Consistent(rx: seq<Item>) {
    forall i, j :: 0 <= i < |rx| && 0 <= j < |rx| && rx[i].idx == rx[j].idx ==> rx[i] == rx[j]
  }

  lemma {:induction false} ArrivedHas(rx: seq<Item>)
    requires Consistent(rx)
    ensures forall x :: x in rx ==> x.idx in Arrived(rx) && Arrived(rx)[x.idx] == x
    ensures forall k :: k in Arrived(rx) ==> Arrived(rx)[k] in rx && Arrived(rx)[k].idx == k
  {
    if rx == [] {
    } else {
      var n := |rx| - 1;
      ArrivedHas(rx[..n]);
      assert rx == rx[..n] + [rx[n]];
    }
  }

  /**
    The state of the loop: of the arrivals `m`, the items `done` have left, and `pending` holds
    every other arrival.
   */
  ghost predicate Buffered(m: map<nat, Item>, pending: map<nat, Item>, done: seq<Item>) {
    && (forall k :: 0 <= k < |done| ==> k in m && m[k] == done[k])
    && (forall k :: |done| <= k ==> (k in pending <==> k in m))
    && (forall k :: |done| <= k && k in m ==> pending[k] == m[k])
  }

  lemma BufferedArrive(rx: seq<Item>, i: nat, pending: map<nat, Item>, done: seq<Item>)
    requires Consistent(rx) && i < |rx|
    requires Buffered(Arrived(rx[..i]), pending, done)
    ensures Buffered(Arrived(rx[..i + 1]), pending[rx[i].idx := rx[i]], done)
  {
    assert rx[..i + 1][..i] == rx[..i];
    ArrivedHas(rx[..i]);
    var m := Arrived(rx[..i]);
    if rx[i].idx in m {
      assert m[rx[i].idx] in rx[..i];
    }
  }

  lemma BufferedLeave(m: map<nat, Item>, pending: map<nat, Item>, done: seq<Item>)
    requires Buffered(m, pending, done) && |done| in pending
    ensures Buffered(m, pending - {|done|}, done + [pending[|done|]])
  {
  }

  /** When the loop rests, what has left is what the arrivals determine. */
  lemma BufferedRest(m: map<nat, Item>, pending: map<nat, Item>, done: seq<Item>)
    requires Buffered(m, pending, done) && |done| !in pending
    ensures Drain(m, 0) == done
  {
    DrainIs(m, 0, done);
  }

  lemma {:induction false} DrainIs(m: map<nat, Item>, next: nat, run: seq<Item>)
    requires forall j :: next <= j < next + |run| ==> j in m && m[j] == run[j - next]
    requires next + |run| !in m
    ensures Drain(m, next) == run
    decreases |run|
  {
    if run == [] {
    } else {
      var m' := m - {next};
      forall j | next + 1 <= j < next + |run|
        ensures j in m' && m'[j] == run[1..][j - (next + 1)]
      {
        assert j in m;
      }
      DrainIs(m', next + 1, run[1..]);
      assert next in m;
    }
  }

  lemma DrainStep(m: map<nat, Item>, next: nat)
    ensures Drain(m, next) == if next in m then [m[next]] + Drain(m - {next}, next + 1) else []
  {
  }

  lemma {:induction false} DrainShape(m: map<nat, Item>, next: nat)
    ensures forall j :: next <= j < next + |Drain(m, next)| ==> j in m && Drain(m, next)[j - next] == m[j]
    ensures next + |Drain(m, next)| !in m
    decreases |m|
  {
    hide Drain;
    DrainStep(m, next);
    if next !in m {
    } else {
      var m' := m - {next};
      assert |m'| < |m|;
      var rest := Drain(m', next + 1);
      DrainShape(m', next + 1);
      forall j | next + 1 <= j < next + |Drain(m, next)|
        ensures j in m && Drain(m, next)[j - next] == m[j]
      {
        assert j in m' && rest[j - (next + 1)] == m'[j];
      }
    }
  }

  /** The reference description: the outcome is numbered from 0, came in, and stops at a missing number. */
  lemma InOrderShape(rx: seq<Item>)
    requires Consistent(rx)
    ensures forall k :: 0 <= k < |InOrder(rx)| ==> InOrder(rx)[k] in rx && InOrder(rx)[k].idx == k
    ensures forall x :: x in rx ==> x.idx != |InOrder(rx)|
  {
    ArrivedHas(rx);
    DrainShape(Arrived(rx), 0);
    forall k | 0 <= k < |InOrder(rx)|
      ensures InOrder(rx)[k] in rx && InOrder(rx)[k].idx == k
    {
      assert k in Arrived(rx) && InOrder(rx)[k - 0] == Arrived(rx)[k];
    }
  }

  /** Nothing else fits that description. */
  lemma InOrderIs(rx: seq<Item>, run: seq<Item>)
    requires Consistent(rx)
    requires forall k :: 0 <= k < |run| ==> run[k] in rx && run[k].idx == k
    requires forall x :: x in rx ==> x.idx != |run|
    ensures InOrder(rx) == run
  {
    ArrivedHas(rx);
    forall j | 0 <= j < |run|
      ensures j in Arrived(rx) && Arrived(rx)[j] == run[j - 0]
    {
      assert run[j] in rx;
    }
    DrainIs(Arrived(rx), 0, run);
  }

  ghost predicate NumberedFrom0(items: seq<Item>) {
    forall k :: 0 <= k < |items| ==> items[k].idx == k
  }

  /** Whatever the order of arrival, a complete list comes out as it was numbered. */
  lemma InOrderOfPermutation(rx: seq<Item>, items: seq<Item>)
    requires NumberedFrom0(items) && multiset(rx) == multiset(items)
    ensures Consistent(rx) && InOrder(rx) == items
  {
    forall x | x in rx
      ensures x in items
    {
      assert x in multiset(rx);
    }
    forall x | x in items
      ensures x in rx
    {
      assert x in multiset(items);
    }
    assert Consistent(rx) by {
      forall i, j | 0 <= i < |rx| && 0 <= j < |rx| && rx[i].idx == rx[j].idx
        ensures rx[i] == rx[j]
      {
        assert rx[i] in rx && rx[j] in rx;
        assert rx[i] == items[rx[i].idx];
      }
    }
    InOrderIs(rx, items);
  }

  lemma {:induction false} StopsBefore(items: seq<Item>, n: nat)
    requires NumberedFrom0(items)
    requires forall k :: 0 <= k < |items| ==> items[k].idx != n
    ensures |items| <= n
  {
    if |items| == 0 {
    } else {
      StopsBefore(items[..|items| - 1], n);
      assert items[|items| - 1].idx == |items| - 1;
    }
  }

  /** More arrivals only add to the end. */
  lemma InOrderGrows(rx: seq<Item>, more: seq<Item>)
    requires Consistent(rx + more)
    ensures Consistent(rx) && InOrder(rx) <= InOrder(rx + more)
  {
    assert Consistent(rx) by {
      forall i, j | 0 <= i < |rx| && 0 <= j < |rx| && rx[i].idx == rx[j].idx
        ensures rx[i] == rx[j]
      {
        assert (rx + more)[i] == (rx + more)[j];
      }
    }
    InOrderShape(rx);
    InOrderShape(rx + more);
    var a, b := InOrder(rx), InOrder(rx + more);
    forall k | 0 <= k < |a|
      ensures a[k].idx != |b|
    {
      assert a[k] in rx + more;
    }
    StopsBefore(a, |b|);
    forall k | 0 <= k < |a|
      ensures k < |b| && a[k] == b[k]
    {
      assert a[k] in rx + more && b[k] in rx + more;
    }
  }

  /**
    The writer thread of `io_chunks`, for every order in which the workers deliver: the buffers
    passed on to `write_files`, one call after the other.
   */
  method WriterThread(rxOut: seq<Item>) returns (calls: seq<Bytes>)
    requires Consistent(rxOut)
    ensures calls == Payloads(InOrder(rxOut))
  {
    var pendingChunks: map<nat, Item> := map[];
    var writeIndex := 0;
    ghost var done := [];
    calls := [];
    for i := 0 to |rxOut|
      invariant Buffered(Arrived(rxOut[..i]), pendingChunks, done)
      invariant writeIndex == |done| && writeIndex !in pendingChunks
      invariant calls == Payloads(done)
    {
      BufferedArrive(rxOut, i, pendingChunks, done);
      pendingChunks := pendingChunks[rxOut[i].idx := rxOut[i]];
      while writeIndex in pendingChunks
        invariant Buffered(Arrived(rxOut[..i + 1]), pendingChunks, done)
        invariant writeIndex == |done|
        invariant calls == Payloads(done)
        decreases |pendingChunks|
      {
        BufferedLeave(Arrived(rxOut[..i + 1]), pendingChunks, done);
        done := done + [pendingChunks[writeIndex]];
        calls := calls + [pendingChunks[writeIndex].data];
        pendingChunks := pendingChunks - {writeIndex};
        writeIndex := writeIndex + 1;
      }
    }
    assert rxOut[..|rxOut|] == rxOut;
    BufferedRest(Arrived(rxOut), pendingChunks, done);
  }
}

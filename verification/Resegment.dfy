/**
  With compression on, the compressed chunks, each behind a 3 byte length, form one stream that is
  cut into equal chunks again before sealing; decryption turns that stream back into the compressed
  chunks.
 */
module Resegment {
  import opened ByteStrings
  import opened Cutting
  import opened Reorder

  const COMPRESS_LENGTH_SIZE: nat := 3
  // one more than the largest length the prefix can hold
  const PREFIX_LIMIT: nat := 0x100_0000

  function Frame(p: Bytes): Bytes {
    LE(|p|, COMPRESS_LENGTH_SIZE) + p
  }

  function Framed(ps: seq<Bytes>): Bytes {
    if ps == [] then [] else Frame(ps[0]) + Framed(ps[1..])
  }

  lemma {:induction false} FramedSnoc(ps: seq<Bytes>, p: Bytes)
    ensures Framed(ps + [p]) == Framed(ps) + Frame(p)
  {
    hide Frame;
    if ps == [] {
      assert ps + [p] == [p] && [p][1..] == [];
      assert Framed([p]) == Frame(p) + [] == [] + Frame(p);
    } else {
      FramedSnoc(ps[1..], p);
      assert (ps + [p])[1..] == ps[1..] + [p];
      assert Framed(ps + [p]) == Frame(ps[0]) + (Framed(ps[1..]) + Frame(p));
    }
  }

  /** The frames that are complete in a stream, and the bytes behind the last of them. */
  datatype Unframed = Unframed(ps: seq<Bytes>, rest: Bytes)

  function Unframe(s: Bytes): Unframed
    decreases |s|
  {
    if |s| < 3 then Unframed([], s) else
    var n := FromLE(s[..3]);
    if |s| < 3 + n then Unframed([], s) else
    var u := Unframe(s[3 + n..]);
    Unframed([s[3..3 + n]] + u.ps, u.rest)
  }

  /** A stream may be taken apart in steps: only the bytes behind the last frame matter. */
  lemma {:induction false} UnframeAppend(s: Bytes, t: Bytes)
    ensures Unframe(s + t).ps == Unframe(s).ps + Unframe(Unframe(s).rest + t).ps
    ensures Unframe(s + t).rest == Unframe(Unframe(s).rest + t).rest
    decreases |s|
  {
    hide FromLE;
    if |s| < 3 {
    } else {
      var n := FromLE(s[..3]);
      assert (s + t)[..3] == s[..3];
      if |s| >= 3 + n {
        var u := Unframe(s[3 + n..]);
        UnframeAppend(s[3 + n..], t);
        assert (s + t)[3 + n..] == s[3 + n..] + t;
        assert (s + t)[3..3 + n] == s[3..3 + n];
        assert [s[3..3 + n]] + (u.ps + Unframe(u.rest + t).ps) == ([s[3..3 + n]] + u.ps) + Unframe(u.rest + t).ps;
      }
    }
  }

  lemma UnframeFrame(p: Bytes, t: Bytes)
    requires |p| < PREFIX_LIMIT
    ensures Unframe(Frame(p) + t) == Unframed([p] + Unframe(t).ps, Unframe(t).rest)
  {
    Widths();
    FromLEOfLE(|p|, 3);
    var s := Frame(p) + t;
    assert s[..3] == LE(|p|, 3);
    assert s[3..3 + |p|] == p && s[3 + |p|..] == t;
  }

  lemma {:induction false} UnframeFramed(ps: seq<Bytes>)
    requires forall p :: p in ps ==> |p| < PREFIX_LIMIT
    ensures Unframe(Framed(ps)) == Unframed(ps, [])
  {
    if ps == [] {
    } else {
      UnframeFramed(ps[1..]);
      UnframeFrame(ps[0], Framed(ps[1..]));
      assert [ps[0]] + ps[1..] == ps;
    }
  }

  /** A payload the prefix cannot hold is not recovered: only the low 24 bits of its length are stored. */
  lemma UnframeTooLong(p: Bytes, t: Bytes)
    requires |p| >= PREFIX_LIMIT
    ensures Unframe(Frame(p) + t).ps == [] || |Unframe(Frame(p) + t).ps[0]| < |p|
  {
    Widths();
    var s := Frame(p) + t;
    assert s[..3] == LE(|p|, 3);
  }

  /** Framing is reversible exactly when every payload is shorter than 2^24 bytes. */
  lemma {:induction false} FramingReversibleIff(ps: seq<Bytes>)
    ensures Unframe(Framed(ps)) == Unframed(ps, []) <==> forall p :: p in ps ==> |p| < PREFIX_LIMIT
  {
    if forall p :: p in ps ==> |p| < PREFIX_LIMIT {
      UnframeFramed(ps);
    } else {
      NotReversible(ps);
    }
  }

  lemma {:induction false} NotReversible(ps: seq<Bytes>)
    requires exists p :: p in ps && |p| >= PREFIX_LIMIT
    ensures Unframe(Framed(ps)).ps != ps
  {
    if |ps[0]| >= PREFIX_LIMIT {
      UnframeTooLong(ps[0], Framed(ps[1..]));
    } else {
      var p :| p in ps && |p| >= PREFIX_LIMIT;
      assert p in ps[1..];
      NotReversible(ps[1..]);
      UnframeFrame(ps[0], Framed(ps[1..]));
      var u := Unframe(Framed(ps[1..])).ps;
      assert ([ps[0]] + u)[1..] == u;
    }
  }

  // ------------------------------------------------------------------ encryption side

  /** The final flag has been seen: nothing is appended after this item. */
  predicate Closed(items: seq<Item>) {
    items != [] && items[|items| - 1].final
  }

  function Cut(ps: seq<Bytes>, closed: bool): (items: seq<Item>)
    ensures |items| == |ps|
  {
    seq(|ps|, i requires 0 <= i < |ps| => Item(ps[i], i, closed && i == |ps| - 1))
  }

  /** What has been sent on once `items` have been appended in this order. */
  function EncOuts(items: seq<Item>): seq<Item> {
    var s := Framed(Payloads(items));
    Cut(FullPieces(CHUNK_SIZE, s), Closed(items) && Remainder(CHUNK_SIZE, s) == [])
  }

  /** ... and with the chunk sent after the input has ended; a payload length above 32 bits is an error. */
  function EncAll(items: seq<Item>): Option<seq<Item>> {
    if exists x :: x in items && |x.data| >= U32_LIMIT then None else
    var s := Framed(Payloads(items));
    var rest := Remainder(CHUNK_SIZE, s);
    Some(EncOuts(items) + (if rest == [] then [] else [Item(rest, |FullPieces(CHUNK_SIZE, s)|, true)]))
  }

  /** The flag is on the highest number. */
  ghost predicate FinalIsLast(rx: seq<Item>) {
    forall x, y :: x in rx && y in rx && x.final ==> y.idx <= x.idx
  }

  lemma EncAppend(items: seq<Item>, x: Item)
    ensures var s := Framed(Payloads(items)); var r := Remainder(CHUNK_SIZE, s) + Frame(x.data);
      && Framed(Payloads(items + [x])) == s + Frame(x.data)
      && FullPieces(CHUNK_SIZE, s + Frame(x.data)) == FullPieces(CHUNK_SIZE, s) + FullPieces(CHUNK_SIZE, r)
      && Remainder(CHUNK_SIZE, s + Frame(x.data)) == Remainder(CHUNK_SIZE, r)
  {
    assert Payloads(items + [x]) == Payloads(items) + [x.data];
    FramedSnoc(Payloads(items), x.data);
    FullPiecesAppend(CHUNK_SIZE, Framed(Payloads(items)), Frame(x.data));
  }

  /**
    `Encryption::resegment`, for every order of arrival. It fails only on a payload whose length
    does not fit 32 bits.
   */
  method EncryptResegment(rxC: seq<Item>) returns (txE: seq<Item>, ok: bool)
    requires Consistent(rxC) && FinalIsLast(rxC)
    ensures EncAll(InOrder(rxC)) == if ok then Some(txE) else None
  {
    var pendingChunks: map<nat, Item> := map[];
    var newFinalChunk := false;
    var bufOut: Bytes := [];
    var outIndex := 0;
    ghost var done := [];
    txE, ok := [], true;
    for i := 0 to |rxC|
      invariant Buffered(Arrived(rxC[..i]), pendingChunks, done)
      invariant outIndex == |done| && outIndex !in pendingChunks
      invariant EncState(done, txE, bufOut, newFinalChunk)
    {
      BufferedArrive(rxC, i, pendingChunks, done);
      pendingChunks := pendingChunks[rxC[i].idx := rxC[i]];
      txE, bufOut, newFinalChunk, pendingChunks, outIndex, done, ok :=
        EncryptReady(rxC, i + 1, txE, bufOut, newFinalChunk, pendingChunks, outIndex, done);
      if !ok {
        return;
      }
    }
    assert rxC[..|rxC|] == rxC;
    BufferedRest(Arrived(rxC), pendingChunks, done);
    assert txE + [] == txE;
    if bufOut != [] {
      newFinalChunk := true;
      txE := txE + [Item(bufOut, |txE|, newFinalChunk)];
    }
  }

  /** The loop over the items that have become ready; `outIndex` is the number of the next one. */
  method EncryptReady(ghost rxC: seq<Item>, ghost i: nat, tx: seq<Item>, buf: Bytes, fin: bool,
                      pending: map<nat, Item>, index: nat, ghost left: seq<Item>)
    returns (txE: seq<Item>, bufOut: Bytes, newFinalChunk: bool, pendingChunks: map<nat, Item>,
             outIndex: nat, ghost done: seq<Item>, ok: bool)
    requires Consistent(rxC) && FinalIsLast(rxC) && i <= |rxC|
    requires Buffered(Arrived(rxC[..i]), pending, left) && index == |left|
    requires EncState(left, tx, buf, fin)
    ensures ok ==> Buffered(Arrived(rxC[..i]), pendingChunks, done)
    ensures ok ==> outIndex == |done| && outIndex !in pendingChunks
    ensures ok ==> EncState(done, txE, bufOut, newFinalChunk)
    ensures !ok ==> exists x :: x in InOrder(rxC) && |x.data| >= U32_LIMIT
  {
    txE, bufOut, newFinalChunk, pendingChunks, outIndex, done := tx, buf, fin, pending, index, left;
    while outIndex in pendingChunks
      invariant Buffered(Arrived(rxC[..i]), pendingChunks, done) && outIndex == |done|
      invariant EncState(done, txE, bufOut, newFinalChunk)
      decreases |pendingChunks|
    {
      var x := pendingChunks[outIndex];
      LastNotYetLeft(rxC, i, pendingChunks, done);
      BufferedLeave(Arrived(rxC[..i]), pendingChunks, done);
      pendingChunks := pendingChunks - {outIndex};
      if |x.data| >= U32_LIMIT {
        HasLeft(rxC, i, pendingChunks, done, x);
        ok := false;
        return;
      }
      txE, bufOut, newFinalChunk := EncryptItem(done, x, txE, bufOut);
      outIndex := outIndex + 1;
      done := done + [x];
    }
    ok := true;
  }

  ghost predicate EncState(done: seq<Item>, txE: seq<Item>, bufOut: Bytes, newFinalChunk: bool) {
    && txE == EncOuts(done)
    && bufOut == Remainder(CHUNK_SIZE, Framed(Payloads(done)))
    && (newFinalChunk ==> Closed(done))
    && (forall x :: x in done ==> |x.data| < U32_LIMIT)
  }

  /**
    Appends one compressed chunk behind its length and sends the chunks that are full; the last of
    them carries the flag if it takes the last byte of a final payload. Chunks are numbered as they
    are sent.
   */
  method EncryptItem(ghost done: seq<Item>, x: Item, tx: seq<Item>, buf: Bytes)
    returns (txE: seq<Item>, bufOut: Bytes, newFinalChunk: bool)
    requires EncState(done, tx, buf, false) && !Closed(done) && |x.data| < U32_LIMIT
    ensures EncState(done + [x], txE, bufOut, newFinalChunk)
  {
    hide Framed, Payloads, Cut;
    LEPrefix(|x.data|, 4, 3);
    bufOut := buf + LE(|x.data|, 4)[..COMPRESS_LENGTH_SIZE];
    bufOut := bufOut + x.data;
    assert bufOut == buf + Frame(x.data);
    EncAppend(done, x);
    ghost var s := Framed(Payloads(done + [x]));
    ghost var full := FullPieces(CHUNK_SIZE, s);
    txE, newFinalChunk := tx, false;
    while |bufOut| >= CHUNK_SIZE
      invariant |txE| <= |full|
      invariant full[|txE|..] == FullPieces(CHUNK_SIZE, bufOut)
      invariant Remainder(CHUNK_SIZE, bufOut) == Remainder(CHUNK_SIZE, s)
      invariant newFinalChunk == (x.final && bufOut == [])
      invariant txE == Cut(full[..|txE|], newFinalChunk)
      decreases |bufOut|
    {
      var newChunk := bufOut[..CHUNK_SIZE];
      bufOut := bufOut[CHUNK_SIZE..];
      if x.final && bufOut == [] {
        newFinalChunk := true;
      }
      CutNext(full, |txE|, newChunk, newFinalChunk);
      txE := txE + [Item(newChunk, |txE|, newFinalChunk)];
    }
    assert full[..|txE|] == full;
  }

  lemma CutNext(full: seq<Bytes>, n: nat, p: Bytes, closed: bool)
    requires n < |full| && full[n..][0] == p
    ensures full[n..][1..] == full[n + 1..]
    ensures Cut(full[..n + 1], closed) == Cut(full[..n], false) + [Item(p, n, closed)]
  {
  }

  lemma LastNotYetLeft(rx: seq<Item>, i: nat, pending: map<nat, Item>, done: seq<Item>)
    requires Consistent(rx) && FinalIsLast(rx) && i <= |rx|
    requires Buffered(Arrived(rx[..i]), pending, done) && |done| in pending
    ensures !Closed(done)
    ensures pending[|done|].idx == |done|
  {
    ArrivedHas(rx[..i]);
    var m := Arrived(rx[..i]);
    assert m[|done|] in rx;
    if done != [] {
      assert |done| - 1 in m && m[|done| - 1] in rx;
    }
  }

  /** An item that has left belongs to the outcome. */
  lemma HasLeft(rx: seq<Item>, i: nat, pending: map<nat, Item>, done: seq<Item>, x: Item)
    requires Consistent(rx) && i <= |rx|
    requires Buffered(Arrived(rx[..i]), pending, done + [x])
    ensures x in InOrder(rx)
  {
    var a, k := rx[..i], |done|;
    assert rx == a + rx[i..];
    InOrderGrows(a, rx[i..]);
    DrainShape(Arrived(a), 0);
    assert (done + [x])[k] == x && k in Arrived(a);
    assert forall j :: 0 <= j < |done + [x]| ==> j in Arrived(a);
    assert |InOrder(a)| > k;
    assert InOrder(a)[k - 0] == Arrived(a)[k];
    assert InOrder(rx)[k] == x;
  }

  // ------------------------------------------------------------------ decryption side

  function DecOuts(items: seq<Item>): seq<Item> {
    Cut(Unframe(Flatten(Payloads(items))).ps, false)
  }

  /**
    The test at the end looks at the buffer only, from which a length prefix has been removed as
    soon as it was complete: it also accepts a stream that ends right behind a prefix.
   */
  predicate Accepts(rest: Bytes) {
    rest == [] || |rest| == 3
  }

  function DecAll(items: seq<Item>): Option<seq<Item>> {
    if Accepts(Unframe(Flatten(Payloads(items))).rest) then Some(DecOuts(items)) else None
  }

  /** `Decryption::resegment`, for every order of arrival and any content. */
  method DecryptResegment(rxE: seq<Item>) returns (txC: seq<Item>, ok: bool)
    requires Consistent(rxE)
    ensures txC == DecOuts(InOrder(rxE))
    ensures ok <==> DecAll(InOrder(rxE)).Some?
  {
    var pendingChunks: map<nat, Item> := map[];
    var bufOut: Bytes := [];
    var compressedChunkLen: Option<nat> := None;
    var outIndex := 0;
    ghost var done, head := [], [];
    txC := [];
    for i := 0 to |rxE|
      invariant Buffered(Arrived(rxE[..i]), pendingChunks, done)
      invariant outIndex == |done| && outIndex !in pendingChunks
      invariant DecState(done, txC, bufOut, compressedChunkLen, head)
    {
      BufferedArrive(rxE, i, pendingChunks, done);
      pendingChunks := pendingChunks[rxE[i].idx := rxE[i]];
      txC, bufOut, compressedChunkLen, pendingChunks, outIndex, done, head :=
        DecryptReady(Arrived(rxE[..i + 1]), txC, bufOut, compressedChunkLen, pendingChunks, outIndex, done, head);
    }
    assert rxE[..|rxE|] == rxE;
    BufferedRest(Arrived(rxE), pendingChunks, done);
    ok := bufOut == [];
  }

  method DecryptReady(ghost m: map<nat, Item>, tx: seq<Item>, buf: Bytes, len: Option<nat>,
                      pending: map<nat, Item>, index: nat, ghost left: seq<Item>, ghost head0: Bytes)
    returns (txC: seq<Item>, bufOut: Bytes, compressedChunkLen: Option<nat>, pendingChunks: map<nat, Item>,
             outIndex: nat, ghost done: seq<Item>, ghost head: Bytes)
    requires Buffered(m, pending, left) && index == |left|
    requires DecState(left, tx, buf, len, head0)
    ensures Buffered(m, pendingChunks, done) && outIndex == |done| && outIndex !in pendingChunks
    ensures DecState(done, txC, bufOut, compressedChunkLen, head)
  {
    txC, bufOut, compressedChunkLen, pendingChunks, outIndex, done, head := tx, buf, len, pending, index, left, head0;
    while outIndex in pendingChunks
      invariant Buffered(m, pendingChunks, done) && outIndex == |done|
      invariant DecState(done, txC, bufOut, compressedChunkLen, head)
      decreases |pendingChunks|
    {
      var x := pendingChunks[outIndex];
      BufferedLeave(m, pendingChunks, done);
      pendingChunks := pendingChunks - {outIndex};
      txC, bufOut, compressedChunkLen, head := DecryptItem(done, x, txC, bufOut, compressedChunkLen, head);
      outIndex := outIndex + 1;
      done := done + [x];
    }
  }

  /** `head` are the bytes of the prefix that has been read already. */
  ghost predicate DecState(done: seq<Item>, txC: seq<Item>, bufOut: Bytes, len: Option<nat>, head: Bytes) {
    && txC == DecOuts(done)
    && Unframe(Flatten(Payloads(done))).rest == head + bufOut
    && HeadIs(len, head)
    && Blocked(len, bufOut)
  }

  ghost predicate HeadIs(len: Option<nat>, head: Bytes) {
    if len.None? then head == [] else |head| == 3 && len.value == FromLE(head)
  }

  /** The inner loop cannot go on. */
  ghost predicate Blocked(len: Option<nat>, bufOut: Bytes) {
    if len.None? then |bufOut| < 3 else |bufOut| < len.value
  }

  /** Appends one chunk and sends every payload that has become complete, numbered as they are sent. */
  method DecryptItem(ghost done: seq<Item>, x: Item, tx: seq<Item>, buf: Bytes, len: Option<nat>, ghost head0: Bytes)
    returns (txC: seq<Item>, bufOut: Bytes, compressedChunkLen: Option<nat>, ghost head: Bytes)
    requires DecState(done, tx, buf, len, head0)
    ensures DecState(done + [x], txC, bufOut, compressedChunkLen, head)
  {
    hide Unframe, Payloads, Flatten, Cut;
    ghost var u := Unframe(Flatten(Payloads(done + [x])));
    DecAppend(done, x, head0, buf);
    bufOut := buf + x.data;
    txC, compressedChunkLen, head := tx, len, head0;
    while true
      invariant HeadIs(compressedChunkLen, head)
      invariant |txC| <= |u.ps| && txC == Cut(u.ps[..|txC|], false)
      invariant Unframe(head + bufOut) == Unframed(u.ps[|txC|..], u.rest)
      decreases |bufOut|, compressedChunkLen.Some?
    {
      if compressedChunkLen.Some? {
        if |bufOut| >= compressedChunkLen.value {
          var newChunk := bufOut[..compressedChunkLen.value];
          PopFrame(head, bufOut, u, |txC|);
          CutNext(u.ps, |txC|, newChunk, false);
          bufOut := bufOut[compressedChunkLen.value..];
          txC := txC + [Item(newChunk, |txC|, false)];
          compressedChunkLen, head := None, [];
        } else {
          break; // not enough data, get more
        }
      } else if |bufOut| >= COMPRESS_LENGTH_SIZE {
        var lengthBytes := bufOut[..COMPRESS_LENGTH_SIZE];
        head := lengthBytes;
        assert head + bufOut[COMPRESS_LENGTH_SIZE..] == [] + bufOut;
        bufOut := bufOut[COMPRESS_LENGTH_SIZE..];
        compressedChunkLen := Some(FromLE(lengthBytes));
      } else {
        break; // not enough data, get more
      }
    }
    NoFrame(compressedChunkLen, head, bufOut);
    assert u.ps[..|txC|] == u.ps;
  }

  lemma DecAppend(done: seq<Item>, x: Item, head: Bytes, buf: Bytes)
    requires Unframe(Flatten(Payloads(done))).rest == head + buf
    ensures var v := Unframe(Flatten(Payloads(done))); var u := Unframe(Flatten(Payloads(done + [x])));
      && |v.ps| <= |u.ps| && u.ps[..|v.ps|] == v.ps
      && Unframe(head + (buf + x.data)) == Unframed(u.ps[|v.ps|..], u.rest)
  {
    assert Payloads(done + [x]) == Payloads(done) + [x.data];
    FlattenSnoc(Payloads(done), x.data);
    hide Unframe, Payloads, Flatten;
    UnframeMore(Flatten(Payloads(done)), x.data, head, buf);
  }

  lemma UnframeMore(s: Bytes, d: Bytes, head: Bytes, buf: Bytes)
    requires Unframe(s).rest == head + buf
    ensures var v, u := Unframe(s), Unframe(s + d);
      && |v.ps| <= |u.ps| && u.ps[..|v.ps|] == v.ps
      && Unframe(head + (buf + d)) == Unframed(u.ps[|v.ps|..], u.rest)
  {
    hide Unframe;
    UnframeAppend(s, d);
    assert (head + buf) + d == head + (buf + d);
    SplitAt(Unframe(s).ps, Unframe(head + (buf + d)).ps);
  }

  lemma SplitAt(a: seq<Bytes>, b: seq<Bytes>)
    ensures (a + b)[..|a|] == a && (a + b)[|a|..] == b
  {
  }

  lemma PopFrame(head: Bytes, buf: Bytes, u: Unframed, k: nat)
    requires |head| == 3 && FromLE(head) <= |buf| && k <= |u.ps|
    requires Unframe(head + buf) == Unframed(u.ps[k..], u.rest)
    ensures k < |u.ps| && u.ps[k..][0] == buf[..FromLE(head)]
    ensures Unframe([] + buf[FromLE(head)..]) == Unframed(u.ps[k + 1..], u.rest)
  {
    var n := FromLE(head);
    UnframeHead(head, buf);
    var v := Unframe(buf[n..]);
    assert ([buf[..n]] + v.ps)[1..] == v.ps;
    assert u.ps[k..][1..] == u.ps[k + 1..];
    assert [] + buf[n..] == buf[n..];
  }

  lemma UnframeHead(head: Bytes, buf: Bytes)
    requires |head| == 3 && FromLE(head) <= |buf|
    ensures var n := FromLE(head); var v := Unframe(buf[n..]);
      Unframe(head + buf) == Unframed([buf[..n]] + v.ps, v.rest)
  {
    var s, n := head + buf, FromLE(head);
    assert s[..3] == head && s[3..3 + n] == buf[..n] && s[3 + n..] == buf[n..];
  }

  lemma NoFrame(len: Option<nat>, head: Bytes, buf: Bytes)
    requires HeadIs(len, head) && Blocked(len, buf)
    ensures Unframe(head + buf) == Unframed([], head + buf)
  {
    if len.Some? {
      assert (head + buf)[..3] == head;
    }
  }

  // ------------------------------------------------------------------ both together

  /** The payloads numbered as the decryption side numbers them: no final flag. */
  function Plain(ps: seq<Bytes>): seq<Item> {
    Cut(ps, false)
  }

  /**
    The chunks that are sealed: for a complete list they are the pieces of the framed stream, all
    but the last exactly full, the last not empty, and the final flag on the last one only.
   */
  lemma EncryptSideShape(ps: seq<Bytes>)
    requires ps != [] && forall p :: p in ps ==> |p| < U32_LIMIT
    ensures EncAll(Numbered(ps)) == Some(Numbered(Pieces(CHUNK_SIZE, Framed(ps))))
    ensures WellCut(CHUNK_SIZE, Pieces(CHUNK_SIZE, Framed(ps)))
    ensures Pieces(CHUNK_SIZE, Framed(ps))[|Pieces(CHUNK_SIZE, Framed(ps))| - 1] != []
  {
    var s := Framed(ps);
    assert s != [] by { assert |Frame(ps[0])| >= 3; }
    PiecesOfFull(CHUNK_SIZE, s);
    PiecesWellCut(CHUNK_SIZE, s);
    EncAllOfNumbered(ps);
    CutOrRest(FullPieces(CHUNK_SIZE, s), Remainder(CHUNK_SIZE, s));
  }

  lemma EncAllOfNumbered(ps: seq<Bytes>)
    requires ps != [] && forall p :: p in ps ==> |p| < U32_LIMIT
    ensures var s := Framed(ps); var full, rest := FullPieces(CHUNK_SIZE, s), Remainder(CHUNK_SIZE, s);
      EncAll(Numbered(ps)) == Some(Cut(full, rest == []) + (if rest == [] then [] else [Item(rest, |full|, true)]))
  {
    hide Framed, FullPieces, Remainder, Cut;
    assert Payloads(Numbered(ps)) == ps;
    assert Closed(Numbered(ps));
    assert forall x :: x in Numbered(ps) ==> x.data in ps;
  }

  /** With or without a last chunk that is not full, the numbered chunks with the flag on the last one. */
  lemma CutOrRest(full: seq<Bytes>, rest: Bytes)
    ensures Cut(full, rest == []) + (if rest == [] then [] else [Item(rest, |full|, true)])
      == Numbered(full + (if rest == [] then [] else [rest]))
  {
  }

  /**
    The round trip through both resegmenters: whatever the order in which the compression workers
    deliver to the first and the crypt workers to the second, the payloads come back as they were,
    numbered 0, 1, 2, ..., and the end is accepted.
   */
  lemma ResegmentRoundTrip(ps: seq<Bytes>, rxC: seq<Item>, txE: seq<Item>, rxE: seq<Item>)
    requires ps != [] && forall p :: p in ps ==> |p| < PREFIX_LIMIT
    requires multiset(rxC) == multiset(Numbered(ps))
    requires Consistent(rxC) ==> Some(txE) == EncAll(InOrder(rxC))
    requires multiset(rxE) == multiset(txE)
    ensures Consistent(rxC) && FinalIsLast(rxC) && Consistent(rxE)
    ensures InOrder(rxE) == Numbered(Pieces(CHUNK_SIZE, Framed(ps)))
    ensures DecAll(InOrder(rxE)) == Some(Plain(ps))
  {
    hide EncAll, DecAll, InOrder, Pieces, Framed, Numbered, Consistent;
    assert NumberedFrom0(Numbered(ps)) by { NumberedIs(ps); }
    InOrderOfPermutation(rxC, Numbered(ps));
    FlagOfPermutation(rxC, ps);
    EncryptSideShape(ps);
    NumberedIs(Pieces(CHUNK_SIZE, Framed(ps)));
    InOrderOfPermutation(rxE, txE);
    DecryptSideInverts(ps);
  }

  lemma NumberedIs(ps: seq<Bytes>)
    ensures NumberedFrom0(Numbered(ps))
  {
  }

  lemma FlagOfPermutation(rx: seq<Item>, ps: seq<Bytes>)
    requires multiset(rx) == multiset(Numbered(ps))
    ensures FinalIsLast(rx)
  {
    forall x, y | x in rx && y in rx && x.final
      ensures y.idx <= x.idx
    {
      assert x in multiset(rx) && y in multiset(rx);
      assert x in Numbered(ps) && y in Numbered(ps);
    }
  }

  /** The decryption side undoes the encryption side on complete lists. */
  lemma DecryptSideInverts(ps: seq<Bytes>)
    requires forall p :: p in ps ==> |p| < PREFIX_LIMIT
    ensures DecAll(Numbered(Pieces(CHUNK_SIZE, Framed(ps)))) == Some(Plain(ps))
  {
    var pieces := Pieces(CHUNK_SIZE, Framed(ps));
    assert Payloads(Numbered(pieces)) == pieces;
    PiecesWellCut(CHUNK_SIZE, Framed(ps));
    UnframeFramed(ps);
  }

  /**
    What the end test lets through: a stream that stops right behind a length prefix which
    announces bytes that never come is accepted, and the payload is missing.
   */
  lemma EndTestAcceptsBarePrefix()
    ensures var x := Item(LE(5, 3), 0, true);
      DecAll([x]) == Some([])
  {
    var s := LE(5, 3);
    Widths();
    FromLEOfLE(5, 3);
    assert Payloads([Item(s, 0, true)]) == [s];
    FlattenSnoc([], s);
    assert Flatten([s]) == s by { assert [] + [s] == [s]; }
    assert s[..3] == s;
    assert Unframe(s) == Unframed([], s);
  }

  /** Exactly which streams the end test accepts although they are not a list of whole frames. */
  lemma EndTestIff(items: seq<Item>)
    ensures var u := Unframe(Flatten(Payloads(items)));
      DecAll(items).Some? <==> (u.rest == [] || (|u.rest| == 3 && FromLE(u.rest) > 0))
  {
    RestIsPartial(Flatten(Payloads(items)));
  }

  lemma {:induction false} RestIsPartial(s: Bytes)
    ensures var r := Unframe(s).rest; |r| < 3 || |r| < 3 + FromLE(r[..3])
    ensures var r := Unframe(s).rest; |r| == 3 ==> r[..3] == r
    decreases |s|
  {
    if |s| < 3 || |s| < 3 + FromLE(s[..3]) {
    } else {
      RestIsPartial(s[3 + FromLE(s[..3])..]);
    }
  }
}

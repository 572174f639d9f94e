/**
  What encryption leaves behind when it fails. Without compression the written chunks always show
  that they are incomplete. With compression they need not: if reading the input fails, the
  resegmenter marks its last chunk as final all the same, and the files may open completely to a
  beginning of the data.
 */
module EncryptFaults {
  import opened ByteStrings
  import opened Cutting
  import opened Reorder
  import opened Resegment
  import opened Sealing
  import opened Pipeline
  import opened AnyRun
  import opened EndToEnd

  // ------------------------------------------------------------------ without compression

  /**
    At any time of any run what was written is a beginning of the sealed chunks, and not longer than
    what was read: the final chunk is written only if all of the input was read.
   */
  lemma UncompressedPart(keys: FileKeys, ns: Nonces, data: Bytes, n: Threads, caps: seq<nat>, es: seq<Event>)
    requires ValidNonces(ns) && ValidThreads(n) && ValidCaps(caps, EncryptStages(None, keys, ns, n))
    ensures var cfg := EncryptConfig(None, keys, ns, data, n, caps);
      ValidConfig(cfg) && (Run(cfg, es).Some? ==>
        && Written(cfg, Run(cfg, es).value) <= SealAll(keys, ns, Pieces(CHUNK_SIZE, data))
        && |Written(cfg, Run(cfg, es).value)| <= Run(cfg, es).value.sent)
  {
    hide ValidConfig, Run, ValidNonces, Pieces, SealChunk, InOrder, NodesInv, EndInv;
    var cfg := EncryptConfig(None, keys, ns, data, n, caps);
    var ps := Pieces(CHUNK_SIZE, data);
    EncryptConfigValid(None, keys, ns, data, n, caps);
    if Run(cfg, es).Some? {
      var s := Run(cfg, es).value;
      ChainIsShort(cfg, s);
      StageFollows(cfg, s, 0);
      var xs, ys := Chain(cfg, s, 0), Chain(cfg, s, 1);
      assert Follows(Pool(n.e, SealJob(keys, ns)), xs, ys);
      forall k | 0 <= k < |ys|
        ensures Payloads(ys)[k] == SealAll(keys, ns, ps)[k]
      {
        assert xs[k] == Numbered(ps)[k];
      }
      assert Written(cfg, s) == Payloads(ys);
    }
  }

  lemma ChainIsShort(cfg: Config, s: State)
    requires Shape(cfg, s)
    ensures Chain(cfg, s, 0) <= cfg.input && |Chain(cfg, s, 0)| <= s.sent
  {
    assert NumberedFrom0(Cons(cfg, s, 0));
    InOrderOfNumbered(Cons(cfg, s, 0));
  }

  // ------------------------------------------------------------------ with compression

  lemma EncAllCutShort(ps: seq<Bytes>)
    requires ps != [] && forall p :: p in ps ==> |p| < U32_LIMIT
    ensures var s := Framed(ps); var full, rest := FullPieces(CHUNK_SIZE, s), Remainder(CHUNK_SIZE, s);
      EncAll(Cut(ps, false)) == Some(Cut(full, false) + (if rest == [] then [] else [Item(rest, |full|, true)]))
  {
    hide Framed, FullPieces, Remainder;
    assert Payloads(Cut(ps, false)) == ps;
    assert forall x :: x in Cut(ps, false) ==> x.data in ps;
  }

  /**
    The resegmenter sends the same chunks for an input that was cut short as for one that ends there
    with the final flag, unless the frames fill the last chunk exactly.
   */
  lemma CutShortIff(ps: seq<Bytes>)
    requires ps != [] && forall p :: p in ps ==> |p| < U32_LIMIT
    ensures EncAll(Cut(ps, false)) == EncAll(Numbered(ps)) <==> Remainder(CHUNK_SIZE, Framed(ps)) != []
  {
    hide EncAll, Numbered, Remainder, FullPieces, Framed;
    EncAllCutShort(ps);
    EncAllOfNumbered(ps);
    var s := Framed(ps);
    var full := FullPieces(CHUNK_SIZE, s);
    if Remainder(CHUNK_SIZE, s) == [] {
      assert full != [] by { SomethingFramed(ps); }
      assert Cut(full, false)[|full| - 1] != Cut(full, true)[|full| - 1];
      assert Cut(full, false) + [] == Cut(full, false) && Cut(full, true) + [] == Cut(full, true);
    }
  }

  lemma SomethingFramed(ps: seq<Bytes>)
    requires ps != [] && Remainder(CHUNK_SIZE, Framed(ps)) == []
    ensures FullPieces(CHUNK_SIZE, Framed(ps)) != []
  {
    assert |Frame(ps[0])| >= 3;
  }

  /** What becomes of the chunks of the resegmenter. */
  ghost function SealedOf(keys: FileKeys, ns: Nonces, xs: seq<Item>): (cs: seq<Bytes>)
    requires ValidNonces(ns)
    ensures |cs| == |xs|
  {
    Payloads(Mapped(SealJob(keys, ns), xs))
  }

  /** Sealed chunks tell numbers, flags and texts. */
  lemma SealedOfInjective(keys: FileKeys, ns: Nonces, xs: seq<Item>, ys: seq<Item>)
    requires ValidNonces(ns) && NumberedFrom0(xs) && NumberedFrom0(ys)
    requires |xs| <= U32_LIMIT && |ys| <= U32_LIMIT && SealedOf(keys, ns, xs) == SealedOf(keys, ns, ys)
    ensures xs == ys
  {
    hide SealChunk, OpenChunk, ValidNonces;
    assert |xs| == |SealedOf(keys, ns, xs)| == |ys|;
    forall k | 0 <= k < |xs|
      ensures xs[k] == ys[k]
    {
      var c := SealChunk(keys, ns, k, xs[k].final, xs[k].data);
      assert SealedOf(keys, ns, xs)[k] == c;
      assert SealedOf(keys, ns, ys)[k] == SealChunk(keys, ns, k, ys[k].final, ys[k].data);
      OpensOnlyInPlace(keys, ns, k, xs[k].final, k, xs[k].final, xs[k].data);
      OpensOnlyInPlace(keys, ns, k, xs[k].final, k, ys[k].final, ys[k].data);
    }
  }

  /** The beginning of the data that was read is cut as the data are. */
  lemma PartIsCut(data: Bytes, k: nat)
    requires 0 < k < |Pieces(CHUNK_SIZE, data)|
    ensures var ps := Pieces(CHUNK_SIZE, data)[..k]; Pieces(CHUNK_SIZE, Flatten(ps)) == ps
  {
    PiecesWellCut(CHUNK_SIZE, data);
    WellCutUnique(CHUNK_SIZE, Pieces(CHUNK_SIZE, data)[..k]);
  }

  lemma ShortIdeal(c: Codec, keys: FileKeys, ns: Nonces, data: Bytes, n: Threads, caps: seq<nat>, k: nat)
    requires ValidNonces(ns) && LawfulCodec(c) && 0 < k < |Pieces(CHUNK_SIZE, data)|
    ensures var cfg := EncryptConfig(Some(c), keys, ns, data, n, caps);
      var cs := Compressed(c, Pieces(CHUNK_SIZE, data)[..k]);
      && EncAll(Cut(cs, false)).Some? && k <= |cfg.input|
      && Payloads(Ideal(cfg.(input := cfg.input[..k]), |cfg.stages|))
         == SealedOf(keys, ns, EncAll(Cut(cs, false)).value)
  {
    hide ValidNonces, LawfulCodec, Pieces, EncAll, SealJob, Ideal, Payloads, Framed;
    var cfg := EncryptConfig(Some(c), keys, ns, data, n, caps);
    var ps := Pieces(CHUNK_SIZE, data)[..k];
    var short := cfg.(input := cfg.input[..k]);
    var cs := Compressed(c, ps);
    IdealThree(short);
    CompressedCut(c, Pieces(CHUNK_SIZE, data), k);
    PartIsCut(data, k);
    CompressedFit(c, Flatten(ps));
    EncAllCutShort(cs);
  }

  lemma CompressedCut(c: Codec, ps: seq<Bytes>, k: nat)
    requires k < |ps|
    ensures Mapped(CompressJob(c), Numbered(ps)[..k]) == Cut(Compressed(c, ps[..k]), false)
  {
  }

  /**
    Exactly when a failed encryption with compression leaves the files of a successful one behind, of
    less data. Reading has failed after some chunks, nothing else, and the threads got through before
    the program ended: what was written are the sealed texts of the data read so far, complete with the
    final flag, if and only if the compressed chunks do not fill the last chunk exactly.
   */
  lemma TruncatedIff(c: Codec, keys: FileKeys, ns: Nonces, data: Bytes, n: Threads, caps: seq<nat>, es: seq<Event>)
    requires ValidNonces(ns) && Processable(Some(c), data)
    requires ValidThreads(n) && ValidCaps(caps, EncryptStages(Some(c), keys, ns, n))
    ensures var cfg := EncryptConfig(Some(c), keys, ns, data, n, caps);
      ValidConfig(cfg) && (Run(cfg, es).Some? ==>
        var s := Run(cfg, es).value;
        0 < s.sent < |cfg.input| && AllReturned(s) && OnlyReaderFailed(s) ==>
          var part := Pieces(CHUNK_SIZE, data)[..s.sent];
          Written(cfg, s) == SealAll(keys, ns, Texts(Some(c), Flatten(part)))
          <==> Remainder(CHUNK_SIZE, Framed(Compressed(c, part))) != [])
  {
    hide ValidConfig, Run, ValidNonces, Processable, Pieces, AllReturned, OnlyReaderFailed, Written, Ideal;
    hide EncryptStages, Compressed, Framed, Remainder, SealAll, Texts;
    var cfg := EncryptConfig(Some(c), keys, ns, data, n, caps);
    EncryptConfigValid(Some(c), keys, ns, data, n, caps);
    if Run(cfg, es).Some? {
      var s := Run(cfg, es).value;
      if 0 < s.sent < |cfg.input| && AllReturned(s) && OnlyReaderFailed(s) {
        ShortRunWrites(cfg, s);
        WrittenIff(c, keys, ns, data, n, caps, s.sent);
      }
    }
  }

  lemma WrittenIff(c: Codec, keys: FileKeys, ns: Nonces, data: Bytes, n: Threads, caps: seq<nat>, k: nat)
    requires ValidNonces(ns) && Processable(Some(c), data) && 0 < k < |Pieces(CHUNK_SIZE, data)|
    ensures var cfg := EncryptConfig(Some(c), keys, ns, data, n, caps);
      var part := Pieces(CHUNK_SIZE, data)[..k];
      k <= |cfg.input| &&
      (Payloads(Ideal(cfg.(input := cfg.input[..k]), |cfg.stages|)) == SealAll(keys, ns, Texts(Some(c), Flatten(part)))
       <==> Remainder(CHUNK_SIZE, Framed(Compressed(c, part))) != [])
  {
    hide ValidNonces, Pieces, Ideal, Compressed, Framed, Remainder, SealAll, EncAll, SealedOf, LawfulCodec, Payloads;
    hide EncryptStages;
    var part := Pieces(CHUNK_SIZE, data)[..k];
    var cs := Compressed(c, part);
    ShortIdeal(c, keys, ns, data, n, caps, k);
    PartIsCut(data, k);
    CompressedFit(c, Flatten(part));
    CutShortIff(cs);
    EncryptSideShape(cs);
    SealedOfTexts(keys, ns, Pieces(CHUNK_SIZE, Framed(cs)));
    if Remainder(CHUNK_SIZE, Framed(cs)) == [] {
      ShortIsCountable(c, data, k);
      if SealedOf(keys, ns, EncAll(Cut(cs, false)).value) == SealedOf(keys, ns, EncAll(Numbered(cs)).value) {
        EncAllShape(Cut(cs, false));
        EncAllShape(Numbered(cs));
        SealedOfInjective(keys, ns, EncAll(Cut(cs, false)).value, EncAll(Numbered(cs)).value);
      }
    }
  }

  lemma SealedOfTexts(keys: FileKeys, ns: Nonces, ts: seq<Bytes>)
    requires ValidNonces(ns)
    ensures SealedOf(keys, ns, Numbered(ts)) == SealAll(keys, ns, ts)
  {
    hide SealChunk;
  }

  /** Less data make no more chunks. */
  lemma ShortIsCountable(c: Codec, data: Bytes, k: nat)
    requires Processable(Some(c), data) && 0 < k < |Pieces(CHUNK_SIZE, data)|
    ensures var cs := Compressed(c, Pieces(CHUNK_SIZE, data)[..k]);
      EncAll(Cut(cs, false)).Some? ==> |EncAll(Cut(cs, false)).value| <= U32_LIMIT
  {
    hide Pieces, Framed, LawfulCodec, EncOuts;
    var ps := Pieces(CHUNK_SIZE, data);
    var all := Compressed(c, ps);
    var xs, ys := Cut(Compressed(c, ps[..k]), false), Numbered(all);
    assert xs <= ys && FinalOnlyLast(ys);
    EncOutsGrow(xs, ys);
    CompressedFit(c, data);
    EncryptSideShape(all);
    EncAllShape(ys);
  }
}

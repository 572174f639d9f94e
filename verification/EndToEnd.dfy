/**
  Encryption and decryption as a whole: the stages of both pipelines, and what a run of one followed
  by a run of the other gives back.
 */
module EndToEnd {
  import opened ByteStrings
  import opened Cutting
  import opened Reorder
  import opened Resegment
  import opened Sealing
  import opened Pipeline
  import SplitFiles
  import FileHeader

  // ------------------------------------------------------------------ the stages

  /** bzip2 as a pair of functions. */
  datatype Codec = Codec(compress: Bytes -> Bytes, decompress: Bytes -> Option<Bytes>)

  /** What is assumed of it: decompression undoes compression, and a compressed chunk is shorter than 2^24 bytes. */
  ghost predicate LawfulCodec(c: Codec) {
    forall x: Bytes :: |x| <= CHUNK_SIZE ==> |c.compress(x)| < PREFIX_LIMIT && c.decompress(c.compress(x)) == Some(x)
  }

  /** The assumption can be met. */
  lemma SomeCodecIsLawful()
    ensures LawfulCodec(Codec((x: Bytes) => x, (x: Bytes) => Some(x)))
  {
  }

  ghost function SealJob(keys: FileKeys, ns: Nonces): Item -> Option<Item>
    requires ValidNonces(ns)
  {
    (x: Item) => Some(Item(SealChunk(keys, ns, x.idx, x.final, x.data), x.idx, false))
  }

  function OpenJob(keys: FileKeys): Item -> Option<Item> {
    (x: Item) =>
      match OpenChunk(keys, x.idx, x.final, x.data)
      case None => None
      case Some(text) => Some(Item(text, x.idx, false))
  }

  function CompressJob(c: Codec): Item -> Option<Item> {
    (x: Item) => Some(Item(c.compress(x.data), x.idx, x.final))
  }

  function DecompressJob(c: Codec): Item -> Option<Item> {
    (x: Item) =>
      match c.decompress(x.data)
      case None => None
      case Some(text) => Some(Item(text, x.idx, false))
  }

  /** The number of compression and of cipher threads. */
  datatype Threads = Threads(c: nat, e: nat)

  ghost predicate ValidThreads(n: Threads) {
    n.c > 0 && n.e > 0
  }

  ghost function EncryptStages(codec: Option<Codec>, keys: FileKeys, ns: Nonces, n: Threads): seq<Stage>
    requires ValidNonces(ns)
  {
    match codec
    case None => [Pool(n.e, SealJob(keys, ns))]
    case Some(c) => [Pool(n.c, CompressJob(c)), Ordered(EncOuts, EncAll), Pool(n.e, SealJob(keys, ns))]
  }

  ghost function DecryptStages(codec: Option<Codec>, keys: FileKeys, n: Threads): seq<Stage> {
    match codec
    case None => [Pool(n.e, OpenJob(keys))]
    case Some(c) => [Pool(n.e, OpenJob(keys)), Ordered(DecOuts, DecAll), Pool(n.c, DecompressJob(c))]
  }

  ghost predicate ValidCaps(caps: seq<nat>, stages: seq<Stage>) {
    |caps| == |stages| + 1 && forall i :: 0 <= i < |caps| ==> caps[i] > 0
  }

  // ------------------------------------------------------------------ the stages are lawful

  lemma EncOutsGrow(xs: seq<Item>, ys: seq<Item>)
    requires xs <= ys && FinalOnlyLast(ys)
    ensures EncOuts(xs) <= EncOuts(ys)
  {
    if xs == ys {
    } else {
      var t := ys[|xs|..];
      assert ys == xs + t;
      assert !Closed(xs);
      assert Payloads(ys) == Payloads(xs) + Payloads(t);
      FramedAppend(Payloads(xs), Payloads(t));
      var a, b := Framed(Payloads(xs)), Framed(Payloads(t));
      assert |b| >= 3 by { assert |Frame(Payloads(t)[0])| >= 3; }
      CutsGrow(a, b, Closed(ys));
    }
  }

  lemma CutsGrow(a: Bytes, b: Bytes, closed: bool)
    requires b != []
    ensures Cut(FullPieces(CHUNK_SIZE, a), false)
      <= Cut(FullPieces(CHUNK_SIZE, a + b), closed && Remainder(CHUNK_SIZE, a + b) == [])
  {
    FullPiecesAppend(CHUNK_SIZE, a, b);
    var r := Remainder(CHUNK_SIZE, a) + b;
    var front, tail := FullPieces(CHUNK_SIZE, a), FullPieces(CHUNK_SIZE, r);
    if tail == [] { NoFullPiece(r); }
    CutPrefix(front, tail, closed && Remainder(CHUNK_SIZE, r) == []);
  }

  lemma NoFullPiece(s: Bytes)
    requires FullPieces(CHUNK_SIZE, s) == []
    ensures Remainder(CHUNK_SIZE, s) == s
  {
  }

  lemma CutPrefix(front: seq<Bytes>, tail: seq<Bytes>, closed: bool)
    requires closed ==> tail != []
    ensures Cut(front, false) <= Cut(front + tail, closed)
  {
  }

  lemma {:induction false} FramedAppend(a: seq<Bytes>, b: seq<Bytes>)
    ensures Framed(a + b) == Framed(a) + Framed(b)
  {
    hide Frame;
    if a == [] {
      assert a + b == b;
    } else {
      FramedAppend(a[1..], b);
      assert (a + b)[1..] == a[1..] + b;
      assert Frame(a[0]) + (Framed(a[1..]) + Framed(b)) == (Frame(a[0]) + Framed(a[1..])) + Framed(b);
    }
  }

  lemma CutShape(ps: seq<Bytes>, closed: bool)
    ensures NumberedFrom0(Cut(ps, closed)) && FinalOnlyLast(Cut(ps, closed))
  {
  }

  lemma EncAllShape(xs: seq<Item>)
    ensures NumberedFrom0(EncOuts(xs)) && FinalOnlyLast(EncOuts(xs))
    ensures EncAll(xs).Some? ==>
      EncOuts(xs) <= EncAll(xs).value && NumberedFrom0(EncAll(xs).value) && FinalOnlyLast(EncAll(xs).value)
  {
    var s := Framed(Payloads(xs));
    var full, rest := FullPieces(CHUNK_SIZE, s), Remainder(CHUNK_SIZE, s);
    CutShape(full, Closed(xs) && rest == []);
    if EncAll(xs).Some? {
      if rest != [] {
        assert EncAll(xs).value == Cut(full, false) + [Item(rest, |full|, true)];
      } else {
        assert EncAll(xs).value == EncOuts(xs) + [] == EncOuts(xs);
      }
    }
  }

  lemma EncResegmenterLawful()
    ensures LawfulOuts(EncOuts, EncAll)
  {
    hide EncOuts, EncAll, NumberedFrom0, FinalOnlyLast;
    forall xs
      ensures NumberedFrom0(EncOuts(xs)) && FinalOnlyLast(EncOuts(xs))
      ensures EncAll(xs).Some? ==>
        EncOuts(xs) <= EncAll(xs).value && NumberedFrom0(EncAll(xs).value) && FinalOnlyLast(EncAll(xs).value)
    {
      EncAllShape(xs);
    }
    forall xs, ys | xs <= ys && FinalOnlyLast(ys)
      ensures EncOuts(xs) <= EncOuts(ys)
    {
      EncOutsGrow(xs, ys);
    }
  }

  lemma DecOutsGrow(xs: seq<Item>, ys: seq<Item>)
    requires xs <= ys
    ensures DecOuts(xs) <= DecOuts(ys)
  {
    hide Unframe, Flatten;
    var t := ys[|xs|..];
    assert Payloads(ys) == Payloads(xs) + Payloads(t);
    FlattenAppend(Payloads(xs), Payloads(t));
    UnframeAppend(Flatten(Payloads(xs)), Flatten(Payloads(t)));
  }

  lemma DecResegmenterLawful()
    ensures LawfulOuts(DecOuts, DecAll)
  {
    hide NumberedFrom0, FinalOnlyLast;
    forall xs
      ensures NumberedFrom0(DecOuts(xs)) && FinalOnlyLast(DecOuts(xs))
    {
      CutShape(Unframe(Flatten(Payloads(xs))).ps, false);
    }
    hide DecOuts;
    forall xs, ys | xs <= ys && FinalOnlyLast(ys)
      ensures DecOuts(xs) <= DecOuts(ys)
    {
      DecOutsGrow(xs, ys);
    }
    forall xs | DecAll(xs).Some?
      ensures DecAll(xs).value == DecOuts(xs)
    {
    }
  }

  lemma EncryptStagesLawful(codec: Option<Codec>, keys: FileKeys, ns: Nonces, n: Threads)
    requires ValidNonces(ns) && ValidThreads(n)
    ensures forall i :: 0 <= i < |EncryptStages(codec, keys, ns, n)| ==> Lawful(EncryptStages(codec, keys, ns, n)[i])
  {
    hide EncOuts, EncAll, LawfulOuts, SealChunk, ValidNonces;
    EncResegmenterLawful();
  }

  lemma DecryptStagesLawful(codec: Option<Codec>, keys: FileKeys, n: Threads)
    requires ValidThreads(n)
    ensures forall i :: 0 <= i < |DecryptStages(codec, keys, n)| ==> Lawful(DecryptStages(codec, keys, n)[i])
  {
    hide DecOuts, DecAll, LawfulOuts, OpenChunk;
    DecResegmenterLawful();
  }

  // ------------------------------------------------------------------ encryption

  ghost function EncryptConfig(codec: Option<Codec>, keys: FileKeys, ns: Nonces, data: Bytes,
                               n: Threads, caps: seq<nat>): Config
    requires ValidNonces(ns)
  {
    Config(Numbered(Pieces(CHUNK_SIZE, data)), EncryptStages(codec, keys, ns, n), caps)
  }

  function Compressed(c: Codec, ps: seq<Bytes>): (cs: seq<Bytes>)
    ensures |cs| == |ps|
  {
    seq(|ps|, i requires 0 <= i < |ps| => c.compress(ps[i]))
  }

  /** The texts that are sealed: the chunks of the data, or of the framed compressed chunks. */
  function Texts(codec: Option<Codec>, data: Bytes): (ts: seq<Bytes>)
    ensures |ts| >= 1
  {
    match codec
    case None => Pieces(CHUNK_SIZE, data)
    case Some(c) => Pieces(CHUNK_SIZE, Framed(Compressed(c, Pieces(CHUNK_SIZE, data))))
  }

  /** The assumptions about compression hold and there are fewer chunks than a 32 bit number can count. */
  ghost predicate Processable(codec: Option<Codec>, data: Bytes) {
    && (codec.Some? ==> LawfulCodec(codec.value))
    && |Pieces(CHUNK_SIZE, data)| < U32_LIMIT && |Texts(codec, data)| < U32_LIMIT
  }

  lemma NumberedShape(ps: seq<Bytes>)
    requires ps != []
    ensures var xs := Numbered(ps);
      xs != [] && NumberedFrom0(xs) && forall i :: 0 <= i < |xs| ==> (xs[i].final <==> i == |xs| - 1)
  {
  }

  lemma EncryptConfigValid(codec: Option<Codec>, keys: FileKeys, ns: Nonces, data: Bytes, n: Threads, caps: seq<nat>)
    requires ValidNonces(ns) && ValidThreads(n) && ValidCaps(caps, EncryptStages(codec, keys, ns, n))
    ensures ValidConfig(EncryptConfig(codec, keys, ns, data, n, caps))
  {
    hide Lawful, EncryptStages, ValidNonces;
    EncryptStagesLawful(codec, keys, ns, n);
    NumberedShape(Pieces(CHUNK_SIZE, data));
  }

  lemma SealedItems(keys: FileKeys, ns: Nonces, ts: seq<Bytes>)
    requires ValidNonces(ns)
    ensures Succeeds(Pool(1, SealJob(keys, ns)), Numbered(ts))
    ensures Payloads(Mapped(SealJob(keys, ns), Numbered(ts))) == SealAll(keys, ns, ts)
  {
    hide SealChunk;
  }

  lemma CompressedItems(c: Codec, ps: seq<Bytes>)
    ensures Succeeds(Pool(1, CompressJob(c)), Numbered(ps))
    ensures Mapped(CompressJob(c), Numbered(ps)) == Numbered(Compressed(c, ps))
  {
  }

  lemma IdealOne(cfg: Config)
    requires |cfg.stages| == 1
    ensures Ideal(cfg, 0) == cfg.input && Ideal(cfg, 1) == NextIdeal(cfg.stages[0], cfg.input)
  {
  }

  lemma IdealThree(cfg: Config)
    requires |cfg.stages| == 3
    ensures Ideal(cfg, 0) == cfg.input && Ideal(cfg, 1) == NextIdeal(cfg.stages[0], cfg.input)
    ensures Ideal(cfg, 2) == NextIdeal(cfg.stages[1], Ideal(cfg, 1))
    ensures Ideal(cfg, 3) == NextIdeal(cfg.stages[2], Ideal(cfg, 2))
  {
    hide NextIdeal;
  }

  lemma CompressedFit(c: Codec, data: Bytes)
    requires LawfulCodec(c)
    ensures forall p :: p in Compressed(c, Pieces(CHUNK_SIZE, data)) ==> |p| < PREFIX_LIMIT
  {
    hide Pieces;
    PiecesFit(data);
    var ps := Pieces(CHUNK_SIZE, data);
    forall i | 0 <= i < |ps|
      ensures |Compressed(c, ps)[i]| < PREFIX_LIMIT
    {
      assert ps[i] in ps;
    }
  }

  /** No stage of the encryption pipeline can fail, and what it makes of the data are the sealed texts. */
  lemma EncryptIdeal(codec: Option<Codec>, keys: FileKeys, ns: Nonces, data: Bytes, n: Threads, caps: seq<nat>)
    requires ValidNonces(ns) && Processable(codec, data)
    ensures var cfg := EncryptConfig(codec, keys, ns, data, n, caps);
      AllSucceed(cfg) && Payloads(Ideal(cfg, |cfg.stages|)) == SealAll(keys, ns, Texts(codec, data))
  {
    hide ValidNonces, SealAll, Mapped, Numbered, Payloads, Pieces, EncAll, SealJob, CompressJob;
    hide Ideal, Framed, Compressed, LawfulCodec;
    var cfg := EncryptConfig(codec, keys, ns, data, n, caps);
    var ps := Pieces(CHUNK_SIZE, data);
    SealedItems(keys, ns, Texts(codec, data));
    match codec {
      case None =>
        IdealOne(cfg);
      case Some(c) =>
        IdealThree(cfg);
        CompressedItems(c, ps);
        CompressedFit(c, data);
        EncryptSideShape(Compressed(c, ps));
    }
  }

  /**
    Encryption, for every schedule: if `io_chunks` returns Ok, what was written are the sealed texts,
    in order and complete; and every fault-free run gets there.
   */
  lemma EncryptWrites(codec: Option<Codec>, keys: FileKeys, ns: Nonces, data: Bytes,
                      n: Threads, caps: seq<nat>, es: seq<Event>)
    requires ValidNonces(ns) && Processable(codec, data)
    requires ValidThreads(n) && ValidCaps(caps, EncryptStages(codec, keys, ns, n))
    ensures var cfg := EncryptConfig(codec, keys, ns, data, n, caps);
      ValidConfig(cfg) && (Run(cfg, es).Some? && ReturnsOk(Run(cfg, es).value) ==>
        Written(cfg, Run(cfg, es).value) == SealAll(keys, ns, Texts(codec, data)))
  {
    hide ValidConfig, Run, ReturnsOk, Written, Ideal, EncryptConfig, SealAll, Succeeds, AllSucceed, ValidNonces;
    hide Processable;
    var cfg := EncryptConfig(codec, keys, ns, data, n, caps);
    EncryptConfigValid(codec, keys, ns, data, n, caps);
    EncryptIdeal(codec, keys, ns, data, n, caps);
    if Run(cfg, es).Some? && ReturnsOk(Run(cfg, es).value) {
      OkMeansComplete(cfg, es);
    }
  }

  // ------------------------------------------------------------------ decryption

  ghost function DecryptConfig(codec: Option<Codec>, keys: FileKeys, chunks: seq<Bytes>,
                               n: Threads, caps: seq<nat>): Config
  {
    Config(Numbered(chunks), DecryptStages(codec, keys, n), caps)
  }

  lemma DecryptConfigValid(codec: Option<Codec>, keys: FileKeys, chunks: seq<Bytes>, n: Threads, caps: seq<nat>)
    requires chunks != [] && ValidThreads(n) && ValidCaps(caps, DecryptStages(codec, keys, n))
    ensures ValidConfig(DecryptConfig(codec, keys, chunks, n, caps))
  {
    hide Lawful, DecryptStages;
    DecryptStagesLawful(codec, keys, n);
    NumberedShape(chunks);
  }

  // ------------------------------------------------------------------ bytes that may come from anywhere

  /** The box of the AES layer of chunk `i`. */
  ghost function ChunkBox(keys: FileKeys, ns: Nonces, ts: seq<Bytes>, i: nat): Box
    requires ValidNonces(ns) && i < |ts|
  {
    var last := i == |ts| - 1;
    Box(keys.aes, ns.aes(i), AesAad(keys.fileId, i, last), ChaSeal(keys.cha, ns.cha(i), i, last, keys.fileId, ts[i]))
  }

  /**
    Bytes from somebody without the AES key of the file: parts of its boxes in any order, and any
    other bytes, but no box that was made under that key otherwise.
   */
  ghost predicate Honest(keys: FileKeys, ns: Nonces, ts: seq<Bytes>, c: Bytes)
    requires ValidNonces(ns)
  {
    forall b :: b in c && b.Cipher? && b.box.key == keys.aes ==> FromFile(keys, ns, ts, b.box)
  }

  ghost predicate FromFile(keys: FileKeys, ns: Nonces, ts: seq<Bytes>, box: Box)
    requires ValidNonces(ns)
  {
    exists i: nat :: i < |ts| && box == ChunkBox(keys, ns, ts, i)
  }

  /** The first byte of a box names the box. */
  lemma FirstByte(key: Key, n: Nonce, aad: Bytes, text: Bytes, c: Bytes)
    requires Encrypt(key, n, aad, text) <= c
    ensures Cipher(Box(key, n, aad, text), 0) in c
  {
    assert c[0] == Encrypt(key, n, aad, text)[0] == Cipher(Box(key, n, aad, text), 0);
  }

  /** Whatever such bytes are, a chunk of them opens only to the text sealed under its number and flag. */
  lemma HonestOpens(keys: FileKeys, ns: Nonces, ts: seq<Bytes>, idx: nat, fin: bool, c: Bytes)
    requires ValidNonces(ns) && |ts| <= U32_LIMIT && idx < U32_LIMIT && Honest(keys, ns, ts, c)
    requires OpenChunk(keys, idx, fin, c).Some?
    ensures idx < |ts| && (fin <==> idx == |ts| - 1) && OpenChunk(keys, idx, fin, c) == Some(ts[idx])
  {
    hide ChaOpen, ChaSeal, AesOpen, AesAad, Encrypt;
    AesOpensOnlySealed(keys.aes, idx, fin, keys.fileId, c);
    var pos := |c| - AES_NONCE_SIZE;
    var inner, n := AesOpen(keys.aes, idx, fin, keys.fileId, c).value, AsNonce(c[pos..]);
    assert c[..pos] <= c;
    FirstByte(keys.aes, n, AesAad(keys.fileId, idx, fin), inner, c);
    assert FromFile(keys, ns, ts, Box(keys.aes, n, AesAad(keys.fileId, idx, fin), inner));
    var i: nat :| i < |ts| && Box(keys.aes, n, AesAad(keys.fileId, idx, fin), inner) == ChunkBox(keys, ns, ts, i);
    AesAadInjective(keys.fileId, idx, fin, i, i == |ts| - 1);
    ChaOpensOnlyInPlace(keys.cha, ns.cha(i), idx, fin, idx, fin, keys.fileId, ts[i]);
  }

  /** The chunks of the file itself are such bytes. */
  lemma SealedIsHonest(keys: FileKeys, ns: Nonces, ts: seq<Bytes>, c: Bytes)
    requires ValidNonces(ns) && c in SealAll(keys, ns, ts)
    ensures Honest(keys, ns, ts, c)
  {
    hide ValidNonces, AesAad, ChaSeal, AsBytes;
    var i :| 0 <= i < |ts| && SealAll(keys, ns, ts)[i] == c;
    var box := ChunkBox(keys, ns, ts, i);
    var e := Encrypt(box.key, box.nonce, box.aad, box.text);
    assert c == e + AsBytes(ns.aes(i));
    forall b | b in c && b.Cipher?
      ensures b.box == box
    {
      NoCipherInNonce(ns.aes(i));
      assert b in e;
    }
  }

  lemma NoCipherInNonce(n: Nonce)
    ensures forall b :: b in AsBytes(n) ==> b.Raw?
  {
  }

  ghost predicate AllHonest(keys: FileKeys, ns: Nonces, ts: seq<Bytes>, cs: seq<Bytes>)
    requires ValidNonces(ns)
  {
    forall c :: c in cs ==> Honest(keys, ns, ts, c)
  }

  lemma HonestJob(keys: FileKeys, ns: Nonces, ts: seq<Bytes>, cs: seq<Bytes>, k: nat)
    requires ValidNonces(ns) && |ts| <= U32_LIMIT && |cs| <= U32_LIMIT && AllHonest(keys, ns, ts, cs) && k < |cs|
    requires OpenJob(keys)(Numbered(cs)[k]).Some?
    ensures k < |ts| && (k == |cs| - 1 <==> k == |ts| - 1)
    ensures OpenJob(keys)(Numbered(cs)[k]) == Some(Item(ts[k], k, false))
  {
    hide OpenChunk, ValidNonces, Honest;
    assert cs[k] in cs;
    HonestOpens(keys, ns, ts, k, k == |cs| - 1, cs[k]);
  }

  /** What the decryption workers pass on is a beginning of the texts. */
  lemma OpenedPrefix(keys: FileKeys, ns: Nonces, ts: seq<Bytes>, cs: seq<Bytes>, xs: seq<Item>, ys: seq<Item>)
    requires ValidNonces(ns) && |ts| <= U32_LIMIT && |cs| <= U32_LIMIT && AllHonest(keys, ns, ts, cs)
    requires xs <= Numbered(cs) && Follows(Pool(1, OpenJob(keys)), xs, ys)
    ensures ys <= Cut(ts, false)
  {
    hide OpenJob, AllHonest, ValidNonces, Numbered;
    forall k | 0 <= k < |ys|
      ensures k < |ts| && ys[k] == Item(ts[k], k, false)
    {
      assert xs[k] == Numbered(cs)[k];
      HonestJob(keys, ns, ts, cs, k);
    }
    if ys != [] { assert ys[|ys| - 1].idx == |ys| - 1; }
  }

  /** If they pass on everything they passed on all texts. */
  lemma OpenedAll(keys: FileKeys, ns: Nonces, ts: seq<Bytes>, cs: seq<Bytes>)
    requires ValidNonces(ns) && |ts| <= U32_LIMIT && 0 < |cs| <= U32_LIMIT && AllHonest(keys, ns, ts, cs)
    requires Succeeds(Pool(1, OpenJob(keys)), Numbered(cs))
    ensures |cs| == |ts| && Mapped(OpenJob(keys), Numbered(cs)) == Cut(ts, false)
  {
    hide OpenJob, AllHonest, ValidNonces;
    forall k | 0 <= k < |cs|
      ensures k < |ts| && (k == |cs| - 1 <==> k == |ts| - 1)
      ensures OpenJob(keys)(Numbered(cs)[k]) == Some(Item(ts[k], k, false))
    {
      HonestJob(keys, ns, ts, cs, k);
    }
    assert OpenJob(keys)(Numbered(cs)[|cs| - 1]).Some?;
  }

  lemma OpenedItems(keys: FileKeys, ns: Nonces, ts: seq<Bytes>)
    requires ValidNonces(ns) && |ts| <= U32_LIMIT
    ensures Succeeds(Pool(1, OpenJob(keys)), Numbered(SealAll(keys, ns, ts)))
    ensures Mapped(OpenJob(keys), Numbered(SealAll(keys, ns, ts))) == Cut(ts, false)
  {
    hide SealChunk, OpenChunk, SealAll, ValidNonces;
    var cs := SealAll(keys, ns, ts);
    forall i | 0 <= i < |cs|
      ensures OpenJob(keys)(Numbered(cs)[i]) == Some(Item(ts[i], i, false))
    {
      SealAllOpens(keys, ns, ts, i);
    }
  }

  lemma DecompressedItems(c: Codec, ps: seq<Bytes>)
    requires LawfulCodec(c) && forall p :: p in ps ==> |p| <= CHUNK_SIZE
    ensures Succeeds(Pool(1, DecompressJob(c)), Cut(Compressed(c, ps), false))
    ensures Mapped(DecompressJob(c), Cut(Compressed(c, ps), false)) == Cut(ps, false)
    ensures forall p :: p in Compressed(c, ps) ==> |p| < PREFIX_LIMIT
  {
    forall i | 0 <= i < |ps|
      ensures DecompressJob(c)(Cut(Compressed(c, ps), false)[i]) == Some(Item(ps[i], i, false))
      ensures |Compressed(c, ps)[i]| < PREFIX_LIMIT
    {
      assert ps[i] in ps;
    }
  }

  /** The resegmenter does not look at numbers and flags. */
  lemma DecAllOfTexts(ts: seq<Bytes>)
    ensures DecAll(Cut(ts, false)) == DecAll(Numbered(ts))
    ensures Payloads(Cut(ts, false)) == ts
  {
    assert Payloads(Cut(ts, false)) == ts == Payloads(Numbered(ts));
  }

  lemma PiecesFit(data: Bytes)
    ensures forall p :: p in Pieces(CHUNK_SIZE, data) ==> |p| <= CHUNK_SIZE
  {
    PiecesWellCut(CHUNK_SIZE, data);
  }

  /** Once all texts are opened the other stages succeed and the result is the data, cut as it was. */
  lemma DecryptIdeal(codec: Option<Codec>, keys: FileKeys, chunks: seq<Bytes>, data: Bytes, n: Threads, caps: seq<nat>)
    requires Processable(codec, data)
    requires Mapped(OpenJob(keys), Numbered(chunks)) == Cut(Texts(codec, data), false)
    ensures var cfg := DecryptConfig(codec, keys, chunks, n, caps);
      && Payloads(Ideal(cfg, |cfg.stages|)) == Pieces(CHUNK_SIZE, data)
      && forall i :: 1 <= i < |cfg.stages| ==> Succeeds(cfg.stages[i], Ideal(cfg, i))
  {
    hide LawfulCodec, Mapped, Numbered, Payloads, Pieces, DecAll, OpenJob, DecompressJob, Ideal, Framed;
    hide Compressed, Cut;
    var cfg := DecryptConfig(codec, keys, chunks, n, caps);
    var ps := Pieces(CHUNK_SIZE, data);
    DecAllOfTexts(Texts(codec, data));
    match codec {
      case None =>
        IdealOne(cfg);
      case Some(c) =>
        IdealThree(cfg);
        PiecesFit(data);
        DecompressedItems(c, ps);
        DecryptSideInverts(Compressed(c, ps));
        DecAllOfTexts(ps);
    }
  }

  /** Decryption of the chunks as they were sealed cannot fail. */
  lemma DecryptSucceeds(codec: Option<Codec>, keys: FileKeys, ns: Nonces, data: Bytes, n: Threads, caps: seq<nat>)
    requires ValidNonces(ns) && Processable(codec, data)
    ensures var cfg := DecryptConfig(codec, keys, SealAll(keys, ns, Texts(codec, data)), n, caps);
      AllSucceed(cfg) && Payloads(Ideal(cfg, |cfg.stages|)) == Pieces(CHUNK_SIZE, data)
  {
    hide ValidNonces, LawfulCodec, SealAll, OpenJob, Mapped, Texts, Pieces, Payloads;
    var chunks := SealAll(keys, ns, Texts(codec, data));
    OpenedItems(keys, ns, Texts(codec, data));
    DecryptIdeal(codec, keys, chunks, data, n, caps);
    FirstStage(codec, keys, chunks, n, caps);
  }

  lemma FirstStage(codec: Option<Codec>, keys: FileKeys, chunks: seq<Bytes>, n: Threads, caps: seq<nat>)
    ensures var cfg := DecryptConfig(codec, keys, chunks, n, caps);
      && |cfg.stages| > 0 && Ideal(cfg, 0) == Numbered(chunks)
      && (Succeeds(cfg.stages[0], Ideal(cfg, 0)) <==> Succeeds(Pool(1, OpenJob(keys)), Numbered(chunks)))
      && (forall xs, ys :: Follows(cfg.stages[0], xs, ys) <==> Follows(Pool(1, OpenJob(keys)), xs, ys))
  {
    hide OpenJob, Numbered;
  }

  /** A beginning of the texts leads to a beginning of the data, through the other stages. */
  lemma TextsLeadToData(codec: Option<Codec>, keys: FileKeys, data: Bytes, n: Threads, chain: seq<seq<Item>>)
    requires Processable(codec, data)
    requires var stages := DecryptStages(codec, keys, n);
      && |chain| == |stages| + 1 && chain[1] <= Cut(Texts(codec, data), false)
      && forall i :: 1 <= i < |stages| ==> Follows(stages[i], chain[i], chain[i + 1])
    ensures Payloads(chain[|chain| - 1]) <= Pieces(CHUNK_SIZE, data)
  {
    hide LawfulCodec, Pieces, OpenJob, DecompressJob, Framed, Compressed, Cut, DecOuts, DecAll, Follows, Payloads;
    var ts, ps := Texts(codec, data), Pieces(CHUNK_SIZE, data);
    DecAllOfTexts(ts);
    match codec {
      case None =>
        PayloadsPrefix(chain[1], Cut(ts, false));
      case Some(c) =>
        var stages := DecryptStages(codec, keys, n);
        assert Follows(stages[1], chain[1], chain[2]) && Follows(stages[2], chain[2], chain[3]);
        PiecesFit(data);
        DecompressedItems(c, ps);
        DecryptSideInverts(Compressed(c, ps));
        FramesPrefix(chain[1], chain[2], Cut(ts, false));
        SizeDoesNotMatter(DecompressJob(c), n.c, chain[2], chain[3]);
        JobPrefix(DecompressJob(c), chain[2], chain[3], Cut(Compressed(c, ps), false), Cut(ps, false));
        DecAllOfTexts(ps);
        PayloadsPrefix(chain[3], Cut(ps, false));
    }
  }

  lemma SizeDoesNotMatter(job: Item -> Option<Item>, size: nat, xs: seq<Item>, ys: seq<Item>)
    ensures Follows(Pool(size, job), xs, ys) <==> Follows(Pool(1, job), xs, ys)
  {
  }

  lemma PayloadsPrefix(xs: seq<Item>, ys: seq<Item>)
    requires xs <= ys
    ensures Payloads(xs) <= Payloads(ys)
  {
  }

  /** Of a beginning of the stream the resegmenter makes a beginning of the frames, also if its input ends there. */
  lemma FramesPrefix(xs: seq<Item>, ys: seq<Item>, all: seq<Item>)
    requires xs <= all && DecAll(all).Some? && Follows(Ordered(DecOuts, DecAll), xs, ys)
    ensures ys <= DecAll(all).value
  {
    DecOutsGrow(xs, all);
    hide DecOuts;
    assert DecAll(xs).Some? ==> DecAll(xs).value == DecOuts(xs);
  }

  lemma JobPrefix(job: Item -> Option<Item>, xs: seq<Item>, ys: seq<Item>, before: seq<Item>, behind: seq<Item>)
    requires xs <= before && Follows(Pool(1, job), xs, ys)
    requires Succeeds(Pool(1, job), before) && Mapped(job, before) == behind
    ensures ys <= behind
  {
    forall k | 0 <= k < |ys|
      ensures k < |behind| && ys[k] == behind[k]
    {
      assert xs[k] == before[k] && job(before[k]).Some?;
    }
  }

  /**
    Decryption of any chunks from somebody without the key, for every schedule, faults included:
    whatever has been written at any time is a beginning of the data, and if Ok is returned it is all.
   */
  lemma DecryptWritesOnlyData(codec: Option<Codec>, keys: FileKeys, ns: Nonces, data: Bytes, chunks: seq<Bytes>,
                              n: Threads, caps: seq<nat>, es: seq<Event>)
    requires ValidNonces(ns) && Processable(codec, data)
    requires 0 < |chunks| < U32_LIMIT && AllHonest(keys, ns, Texts(codec, data), chunks)
    requires ValidThreads(n) && ValidCaps(caps, DecryptStages(codec, keys, n))
    ensures var cfg := DecryptConfig(codec, keys, chunks, n, caps);
      ValidConfig(cfg) && (Run(cfg, es).Some? ==>
        && Written(cfg, Run(cfg, es).value) <= Pieces(CHUNK_SIZE, data)
        && (ReturnsOk(Run(cfg, es).value) ==>
             |chunks| == |Texts(codec, data)| && Written(cfg, Run(cfg, es).value) == Pieces(CHUNK_SIZE, data)))
  {
    hide ValidConfig, Run, ReturnsOk, Written, DecryptConfig, ValidNonces, Processable, AllHonest, Pieces, Texts;
    var cfg := DecryptConfig(codec, keys, chunks, n, caps);
    DecryptConfigValid(codec, keys, chunks, n, caps);
    if Run(cfg, es).Some? {
      PartIsData(codec, keys, ns, data, chunks, n, caps, Run(cfg, es).value);
      if ReturnsOk(Run(cfg, es).value) {
        OkIsAllData(codec, keys, ns, data, chunks, n, caps, es);
      }
    }
  }

  lemma PartIsData(codec: Option<Codec>, keys: FileKeys, ns: Nonces, data: Bytes, chunks: seq<Bytes>,
                   n: Threads, caps: seq<nat>, s: State)
    requires ValidNonces(ns) && Processable(codec, data)
    requires 0 < |chunks| < U32_LIMIT && AllHonest(keys, ns, Texts(codec, data), chunks)
    requires Inv(DecryptConfig(codec, keys, chunks, n, caps), s)
    ensures Written(DecryptConfig(codec, keys, chunks, n, caps), s) <= Pieces(CHUNK_SIZE, data)
  {
    hide ValidConfig, NodesInv, EndInv, Written, Chains, ValidNonces, LawfulCodec, AllHonest, Pieces, Texts, Follows;
    hide DecryptStages, OpenJob, Payloads, Numbered;
    var cfg := DecryptConfig(codec, keys, chunks, n, caps);
    StateExplained(cfg, s);
    var chain := Chains(cfg, s);
    FirstStage(codec, keys, chunks, n, caps);
    OpenedPrefix(keys, ns, Texts(codec, data), chunks, chain[0], chain[1]);
    TextsLeadToData(codec, keys, data, n, chain);
  }

  lemma OkIsAllData(codec: Option<Codec>, keys: FileKeys, ns: Nonces, data: Bytes, chunks: seq<Bytes>,
                    n: Threads, caps: seq<nat>, es: seq<Event>)
    requires ValidNonces(ns) && Processable(codec, data)
    requires 0 < |chunks| < U32_LIMIT && AllHonest(keys, ns, Texts(codec, data), chunks)
    requires ValidConfig(DecryptConfig(codec, keys, chunks, n, caps))
    ensures var cfg := DecryptConfig(codec, keys, chunks, n, caps);
      Run(cfg, es).Some? && ReturnsOk(Run(cfg, es).value) ==>
        |chunks| == |Texts(codec, data)| && Written(cfg, Run(cfg, es).value) == Pieces(CHUNK_SIZE, data)
  {
    hide ValidConfig, Run, ReturnsOk, Written, ValidNonces, LawfulCodec, AllHonest, Pieces, Texts, Succeeds;
    hide DecryptStages, OpenJob, Payloads, Numbered, Ideal;
    var cfg := DecryptConfig(codec, keys, chunks, n, caps);
    if Run(cfg, es).Some? && ReturnsOk(Run(cfg, es).value) {
      OkMeansComplete(cfg, es);
      FirstStage(codec, keys, chunks, n, caps);
      assert Succeeds(cfg.stages[0], Ideal(cfg, 0));
      OpenedAll(keys, ns, Texts(codec, data), chunks);
      DecryptIdeal(codec, keys, chunks, data, n, caps);
    }
  }

  /** Decryption of the chunks as they were sealed, for every schedule. */
  lemma DecryptWrites(codec: Option<Codec>, keys: FileKeys, ns: Nonces, data: Bytes,
                      n: Threads, caps: seq<nat>, es: seq<Event>)
    requires ValidNonces(ns) && Processable(codec, data)
    requires ValidThreads(n) && ValidCaps(caps, DecryptStages(codec, keys, n))
    ensures var cfg := DecryptConfig(codec, keys, SealAll(keys, ns, Texts(codec, data)), n, caps);
      ValidConfig(cfg) && (Run(cfg, es).Some? && ReturnsOk(Run(cfg, es).value) ==>
        Written(cfg, Run(cfg, es).value) == Pieces(CHUNK_SIZE, data))
  {
    hide ValidConfig, Run, ReturnsOk, Written, Ideal, DecryptConfig, SealAll, AllSucceed, ValidNonces;
    hide LawfulCodec, Texts, Pieces;
    var chunks := SealAll(keys, ns, Texts(codec, data));
    var cfg := DecryptConfig(codec, keys, chunks, n, caps);
    DecryptConfigValid(codec, keys, chunks, n, caps);
    DecryptSucceeds(codec, keys, ns, data, n, caps);
    OkMeansComplete(cfg, es);
  }

  /**
    Decryption of anything made of chunks of one file: repeated, reordered, dropped or cut short. At
    any time a beginning of the data has been written, and Ok is returned only for the original list.
   */
  lemma DecryptOkMeansOriginal(codec: Option<Codec>, keys: FileKeys, ns: Nonces, data: Bytes, chunks: seq<Bytes>,
                               n: Threads, caps: seq<nat>, es: seq<Event>)
    requires ValidNonces(ns) && Processable(codec, data)
    requires 0 < |chunks| < U32_LIMIT && forall c :: c in chunks ==> c in SealAll(keys, ns, Texts(codec, data))
    requires ValidThreads(n) && ValidCaps(caps, DecryptStages(codec, keys, n))
    ensures var cfg := DecryptConfig(codec, keys, chunks, n, caps);
      ValidConfig(cfg) && (Run(cfg, es).Some? ==>
        && Written(cfg, Run(cfg, es).value) <= Pieces(CHUNK_SIZE, data)
        && (ReturnsOk(Run(cfg, es).value) ==>
             chunks == SealAll(keys, ns, Texts(codec, data)) && Flatten(Written(cfg, Run(cfg, es).value)) == data))
  {
    hide ValidConfig, Run, ReturnsOk, Written, Ideal, DecryptConfig, SealAll, Succeeds, ValidNonces, LawfulCodec;
    hide OpensCompletely, Honest, Pieces, Texts;
    var ts := Texts(codec, data);
    forall c | c in chunks
      ensures Honest(keys, ns, ts, c)
    {
      SealedIsHonest(keys, ns, ts, c);
    }
    DecryptWritesOnlyData(codec, keys, ns, data, chunks, n, caps, es);
    var cfg := DecryptConfig(codec, keys, chunks, n, caps);
    if Run(cfg, es).Some? && ReturnsOk(Run(cfg, es).value) {
      OkMeansComplete(cfg, es);
      SucceedsMeansOpens(codec, keys, chunks, n, caps);
      RearrangementRejected(keys, ns, ts, chunks);
      PiecesWellCut(CHUNK_SIZE, data);
    }
  }

  lemma SucceedsMeansOpens(codec: Option<Codec>, keys: FileKeys, chunks: seq<Bytes>, n: Threads, caps: seq<nat>)
    requires var cfg := DecryptConfig(codec, keys, chunks, n, caps);
      forall i :: 0 <= i < |cfg.stages| ==> Succeeds(cfg.stages[i], Ideal(cfg, i))
    ensures OpensCompletely(keys, chunks)
  {
    hide OpenChunk;
    var cfg := DecryptConfig(codec, keys, chunks, n, caps);
    assert Succeeds(cfg.stages[0], Ideal(cfg, 0));
    assert Ideal(cfg, 0) == Numbered(chunks);
    forall i | 0 <= i < |chunks|
      ensures OpenChunk(keys, i, i == |chunks| - 1, chunks[i]).Some?
    {
      assert OpenJob(keys)(Numbered(chunks)[i]).Some?;
    }
  }

  // ------------------------------------------------------------------ through the files

  lemma {:induction false} FlattenLength(c: nat, cs: seq<Bytes>)
    requires forall x :: x in cs ==> |x| >= c
    ensures cs != [] ==> |Flatten(cs)| >= c
  {
    if cs != [] {
      assert cs[0] in cs;
    }
  }

  lemma TextsWellCut(codec: Option<Codec>, data: Bytes)
    ensures WellCut(CHUNK_SIZE, Texts(codec, data))
  {
    hide Framed, Compressed;
    PiecesWellCut(CHUNK_SIZE, data);
    if codec.Some? {
      PiecesWellCut(CHUNK_SIZE, Framed(Compressed(codec.value, Pieces(CHUNK_SIZE, data))));
    }
  }

  /**
    What decryption reads from the files that encryption wrote, however they were split: the header,
    then exactly the sealed chunks. The files are never too short to be opened.
   */
  lemma FilesGiveChunksBack(split: seq<nat>, header: Bytes, keys: FileKeys, ns: Nonces, ts: seq<Bytes>)
    requires ValidNonces(ns) && WellCut(CHUNK_SIZE, ts) && |header| == FileHeader.HEADER_SIZE
    ensures var all := Flatten(SplitFiles.Layout(split, header + Flatten(SealAll(keys, ns, ts))));
      && |all| >= FileHeader.HEADER_SIZE + OVERHEAD
      && all[..FileHeader.HEADER_SIZE] == header
      && Pieces(CHUNK_SIZE + OVERHEAD, all[FileHeader.HEADER_SIZE..]) == SealAll(keys, ns, ts)
  {
    hide SealChunk, ValidNonces, SplitFiles.Layout, Pieces, Flatten;
    var cs := SealAll(keys, ns, ts);
    var body := Flatten(cs);
    SplitFiles.LayoutShape(split, header + body);
    BoundariesRecovered(CHUNK_SIZE, keys, ns, ts);
    FlattenLength(OVERHEAD, cs);
    assert (header + body)[..|header|] == header && (header + body)[|header|..] == body;
  }

  /** Every byte of a chunk is a byte of the stream. */
  lemma {:induction false} PiecesAreParts(c: nat, s: Bytes)
    requires c > 0
    ensures forall p, b :: p in Pieces(c, s) && b in p ==> b in s
    decreases |s|
  {
    if |s| <= c {
    } else {
      PiecesAreParts(c, s[c..]);
    }
  }

  /**
    Decryption of any bytes whatever behind the header: cut inside a chunk, with bytes changed, left
    out or inserted. Without the key nothing but a beginning of the data is ever written, and Ok
    means all of it.
   */
  lemma ForgedBodyWritesOnlyData(codec: Option<Codec>, keys: FileKeys, ns: Nonces, data: Bytes, body: Bytes,
                                 n: Threads, caps: seq<nat>, es: seq<Event>)
    requires ValidNonces(ns) && Processable(codec, data) && Honest(keys, ns, Texts(codec, data), body)
    requires |Pieces(CHUNK_SIZE + OVERHEAD, body)| < U32_LIMIT
    requires ValidThreads(n) && ValidCaps(caps, DecryptStages(codec, keys, n))
    ensures var cfg := DecryptConfig(codec, keys, Pieces(CHUNK_SIZE + OVERHEAD, body), n, caps);
      ValidConfig(cfg) && (Run(cfg, es).Some? ==>
        && Written(cfg, Run(cfg, es).value) <= Pieces(CHUNK_SIZE, data)
        && (ReturnsOk(Run(cfg, es).value) ==> Flatten(Written(cfg, Run(cfg, es).value)) == data))
  {
    hide ValidConfig, Run, ReturnsOk, Written, DecryptConfig, ValidNonces, Processable, Pieces, Texts, FromFile;
    var chunks := Pieces(CHUNK_SIZE + OVERHEAD, body);
    PiecesAreParts(CHUNK_SIZE + OVERHEAD, body);
    forall c | c in chunks
      ensures Honest(keys, ns, Texts(codec, data), c)
    {
    }
    DecryptWritesOnlyData(codec, keys, ns, data, chunks, n, caps, es);
    PiecesWellCut(CHUNK_SIZE, data);
  }
}

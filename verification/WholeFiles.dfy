/**
  `encrypt` and `decrypt` from file to file. The decrypter knows the files and the user's secrets;
  keys, file ID and compression it finds through the header.
 */
module WholeFiles {
  import opened ByteStrings
  import opened Cutting
  import opened Sealing
  import opened FileHeader
  import opened Pipeline
  import opened EndToEnd
  import SplitFiles

  datatype KeyPair = KeyPair(cha: Key, aes: Key)

  /**
    Key derivation with the secrets of one user - password, key file, USB security key - as two
    functions: from the salts in the clear to the header keys, and from the salts and the credential
    in the header to the body keys.
   */
  datatype Secrets = Secrets(
    header: (Bytes, Bytes) -> KeyPair,
    body: (Bytes, Bytes, Option<Bytes>, Option<Bytes>) -> KeyPair)

  function BodyKeys(secrets: Secrets, p: Params): FileKeys {
    var k := secrets.body(p.saltBodyPw, p.saltBodyEnc, p.saltBodyFido, p.credentialIdFido);
    FileKeys(k.cha, k.aes, p.fileId)
  }

  function CodecOf(c: Codec, p: Params): Option<Codec> {
    if p.compress then Some(c) else None
  }

  // ------------------------------------------------------------------ writing a file

  /** What `encrypt` makes sure of: a USB security key comes with a salt and a credential, and only then. */
  ghost predicate Sensible(p: Params) {
    && ValidParams(p)
    && (p.usbKey <==> p.saltBodyFido.Some?) && (p.usbKey <==> p.credentialIdFido.Some?)
    && |p.credentialIdFido.GetOr([])| <= 255
  }

  /** The header `encrypt` writes. */
  ghost function HeaderFor(secrets: Secrets, p: Params, d: Draw): Bytes
    requires Sensible(p) && ValidDraw(d)
  {
    var k := secrets.header(d.saltHeaderPw, d.saltHeaderEnc);
    HeaderBytes(p, k.cha, k.aes, d).value
  }

  /** One file to be encrypted: the data, the parameters, and what is drawn at random. */
  datatype Job = Job(data: Bytes, p: Params, d: Draw, ns: Nonces)

  ghost predicate ValidJob(codec: Codec, job: Job) {
    Sensible(job.p) && ValidDraw(job.d) && ValidNonces(job.ns) && Processable(CodecOf(codec, job.p), job.data)
  }

  ghost function Encrypter(codec: Codec, secrets: Secrets, job: Job, n: Threads, caps: seq<nat>): Config
    requires ValidJob(codec, job)
  {
    EncryptConfig(CodecOf(codec, job.p), BodyKeys(secrets, job.p), job.ns, job.data, n, caps)
  }

  /** There are threads, and every channel has room for something. */
  ghost predicate EncrypterFits(codec: Codec, secrets: Secrets, job: Job, n: Threads, caps: seq<nat>)
    requires ValidJob(codec, job)
  {
    ValidThreads(n) && ValidCaps(caps, EncryptStages(CodecOf(codec, job.p), BodyKeys(secrets, job.p), job.ns, n))
  }

  ghost predicate DecrypterFits(codec: Codec, secrets: Secrets, p: Params, n: Threads, caps: seq<nat>) {
    ValidThreads(n) && ValidCaps(caps, DecryptStages(CodecOf(codec, p), BodyKeys(secrets, p), n))
  }

  /** The files after the header and the buffers of the writer have been written. */
  ghost function FilesOf(secrets: Secrets, job: Job, split: seq<nat>, written: seq<Bytes>): seq<Bytes>
    requires Sensible(job.p) && ValidDraw(job.d)
  {
    SplitFiles.Layout(split, HeaderFor(secrets, job.p, job.d) + Flatten(written))
  }

  // ------------------------------------------------------------------ reading a file

  /**
    What `decrypt` learns from the bytes of the files. `None` is an error: too short, a header that
    does not open, another format version, or a key file that is needed and missing.
   */
  function ReadParams(secrets: Secrets, hasKeyfile: bool, all: Bytes): Option<Params> {
    if |all| < HEADER_SIZE + OVERHEAD then None else
    var h := all[..HEADER_SIZE];
    var k := secrets.header(h[..SALT_SIZE], h[SALT_SIZE..2 * SALT_SIZE]);
    match DecodeHeader(k.cha, k.aes, h[2 * SALT_SIZE..])
    case None => None
    case Some(v) =>
      if v.0 != FILE_FORMAT_VERSION || (v.1.keyfile && !hasKeyfile) then None else Some(v.1)
  }

  /** The pipeline that decrypts the rest, set up from the header alone. */
  ghost function Decrypter(codec: Codec, secrets: Secrets, p: Params, all: Bytes, n: Threads, caps: seq<nat>): Config
    requires |all| >= HEADER_SIZE
  {
    DecryptConfig(CodecOf(codec, p), BodyKeys(secrets, p), Pieces(CHUNK_SIZE + OVERHEAD, all[HEADER_SIZE..]), n, caps)
  }

  /** The beginning of `decrypt`: opens the series, reads the header and takes it apart. */
  method ReadHeader(disk: seq<Bytes>, isSeries: bool, secrets: Secrets, hasKeyfile: bool)
    returns (p: Option<Params>, input: SplitFiles.ReadInput?)
    requires |disk| >= 1 && (isSeries || |disk| == 1)
    ensures p == ReadParams(secrets, hasKeyfile, Flatten(disk))
    ensures p.Some? ==>
      && input != null && input.Valid() && input.chunkSize == CHUNK_SIZE + OVERHEAD
      && |Flatten(disk)| >= HEADER_SIZE && input.Unread() == Flatten(disk)[HEADER_SIZE..]
      && input.fInTotalSizeRemaining == |input.Unread()|
  {
    hide DecodeHeader, SplitFiles.Tail, Flatten;
    p := None;
    input := SplitFiles.ReadInput.Open(disk, isSeries, CHUNK_SIZE + OVERHEAD, HEADER_SIZE, OVERHEAD);
    if input == null {
      return;
    }
    var header := new Byte[HEADER_SIZE](_ => ZERO);
    var ok := input.ReadFiles(header);
    var saltHeaderPw, saltHeaderEnc, rest := GetUnencryptedHeaderItems(header[..]);
    ghost var h := Flatten(disk)[..HEADER_SIZE];
    assert saltHeaderPw == h[..SALT_SIZE] && saltHeaderEnc == h[SALT_SIZE..2 * SALT_SIZE] && rest == h[2 * SALT_SIZE..];
    var keys := secrets.header(saltHeaderPw, saltHeaderEnc);
    var items := GetEncryptedHeaderItems(rest, keys.cha, keys.aes);
    if items.None? {
      return;
    }
    if items.value.0 != FILE_FORMAT_VERSION {
      return;
    }
    if items.value.1.keyfile && !hasKeyfile {
      return;
    }
    p := Some(items.value.1);
  }

  // ------------------------------------------------------------------ the identity

  ghost predicate EndsOk(cfg: Config, es: seq<Event>)
    requires ValidConfig(cfg)
    ensures EndsOk(cfg, es) ==> Run(cfg, es).Some?
  {
    Run(cfg, es).Some? && ReturnsOk(Run(cfg, es).value)
  }

  /** All parameters come back through the header. */
  lemma ParamsComeBack(secrets: Secrets, hasKeyfile: bool, p: Params, d: Draw, body: Bytes)
    requires Sensible(p) && ValidDraw(d) && (p.keyfile ==> hasKeyfile) && |body| >= OVERHEAD
    ensures |HeaderFor(secrets, p, d)| == HEADER_SIZE
    ensures ReadParams(secrets, hasKeyfile, HeaderFor(secrets, p, d) + body) == Some(p)
  {
    hide DecodeHeader, HeaderBytes;
    var k := secrets.header(d.saltHeaderPw, d.saltHeaderEnc);
    HeaderDecodes(p, k.cha, k.aes, d);
    var h := HeaderFor(secrets, p, d);
    assert (h + body)[..HEADER_SIZE] == h;
    assert Kept(p, d.filler) == p;
  }

  /** The files of a successful encryption hold the header and the sealed texts, and are read back as such. */
  lemma FilesReadBack(codec: Codec, secrets: Secrets, hasKeyfile: bool, job: Job, split: seq<nat>)
    requires ValidJob(codec, job) && (job.p.keyfile ==> hasKeyfile)
    ensures var ts := Texts(CodecOf(codec, job.p), job.data);
      var sealed := SealAll(BodyKeys(secrets, job.p), job.ns, ts);
      var all := Flatten(FilesOf(secrets, job, split, sealed));
      && ReadParams(secrets, hasKeyfile, all) == Some(job.p)
      && |all| >= HEADER_SIZE && Pieces(CHUNK_SIZE + OVERHEAD, all[HEADER_SIZE..]) == sealed
  {
    hide SealAll, SplitFiles.Layout, Pieces, Texts, HeaderFor, ReadParams, Flatten, BodyKeys, Processable, ValidNonces;
    var ts := Texts(CodecOf(codec, job.p), job.data);
    var keys := BodyKeys(secrets, job.p);
    var header := HeaderFor(secrets, job.p, job.d);
    var body := Flatten(SealAll(keys, job.ns, ts));
    TextsWellCut(CodecOf(codec, job.p), job.data);
    ParamsComeBack(secrets, hasKeyfile, job.p, job.d, Zeros(OVERHEAD));
    FilesGiveChunksBack(split, header, keys, job.ns, ts);
    SplitFiles.LayoutShape(split, header + body);
    ParamsComeBack(secrets, hasKeyfile, job.p, job.d, body);
  }

  /**
    The identity the program is for: any run of encryption that returns Ok, written through any split
    list; then decryption from these files and the same secrets alone, by any run that returns Ok.
    All parameters come back, and what is written are the data, cut into the same chunks. Holds for
    empty data and for exact multiples of the chunk size.
   */
  lemma RoundTrip(codec: Codec, secrets: Secrets, hasKeyfile: bool, job: Job, split: seq<nat>,
                  ne: Threads, capsE: seq<nat>, esE: seq<Event>, nd: Threads, capsD: seq<nat>, esD: seq<Event>)
    requires ValidJob(codec, job) && (job.p.keyfile ==> hasKeyfile)
    requires EncrypterFits(codec, secrets, job, ne, capsE) && DecrypterFits(codec, secrets, job.p, nd, capsD)
    ensures var enc := Encrypter(codec, secrets, job, ne, capsE);
      ValidConfig(enc) && (EndsOk(enc, esE) ==>
        var all := Flatten(FilesOf(secrets, job, split, Written(enc, Run(enc, esE).value)));
        && ReadParams(secrets, hasKeyfile, all) == Some(job.p) && |all| >= HEADER_SIZE
        && var dec := Decrypter(codec, secrets, ReadParams(secrets, hasKeyfile, all).value, all, nd, capsD);
        ValidConfig(dec) && (EndsOk(dec, esD) ==>
          Written(dec, Run(dec, esD).value) == Pieces(CHUNK_SIZE, job.data) &&
          Flatten(Written(dec, Run(dec, esD).value)) == job.data))
  {
    hide ValidConfig, Run, ReturnsOk, Written, DecryptConfig, EncryptConfig, SealAll, Pieces, Texts, BodyKeys;
    hide FilesOf, ReadParams, Processable, Flatten, ValidNonces, ValidDraw, Sensible;
    var c, keys := CodecOf(codec, job.p), BodyKeys(secrets, job.p);
    EncryptWrites(c, keys, job.ns, job.data, ne, capsE, esE);
    FilesReadBack(codec, secrets, hasKeyfile, job, split);
    DecryptWrites(c, keys, job.ns, job.data, nd, capsD, esD);
    PiecesWellCut(CHUNK_SIZE, job.data);
  }

  /** Such runs exist: both pipelines have runs that return Ok, and no fault-free run gets stuck before. */
  lemma RoundTripHappens(codec: Codec, secrets: Secrets, job: Job,
                         ne: Threads, capsE: seq<nat>, nd: Threads, capsD: seq<nat>)
    requires ValidJob(codec, job)
    requires EncrypterFits(codec, secrets, job, ne, capsE) && DecrypterFits(codec, secrets, job.p, nd, capsD)
    ensures var enc := Encrypter(codec, secrets, job, ne, capsE);
      ValidConfig(enc) && exists es :: EndsOk(enc, es)
    ensures var dec := DecryptConfig(CodecOf(codec, job.p), BodyKeys(secrets, job.p),
        SealAll(BodyKeys(secrets, job.p), job.ns, Texts(CodecOf(codec, job.p), job.data)), nd, capsD);
      ValidConfig(dec) && exists es :: EndsOk(dec, es)
  {
    hide ValidConfig, Run, ReturnsOk, DecryptConfig, EncryptConfig, SealAll, Texts, BodyKeys, Processable, ValidNonces;
    hide AllSucceed;
    var c, keys := CodecOf(codec, job.p), BodyKeys(secrets, job.p);
    EncryptConfigValid(c, keys, job.ns, job.data, ne, capsE);
    EncryptIdeal(c, keys, job.ns, job.data, ne, capsE);
    var enc := Encrypter(codec, secrets, job, ne, capsE);
    SomeRunReturnsOk(enc);
    var es :| Run(enc, es).Some? && ReturnsOk(Run(enc, es).value);
    assert EndsOk(enc, es);
    var chunks := SealAll(keys, job.ns, Texts(c, job.data));
    DecryptConfigValid(c, keys, chunks, nd, capsD);
    DecryptSucceeds(c, keys, job.ns, job.data, nd, capsD);
    var dec := DecryptConfig(c, keys, chunks, nd, capsD);
    SomeRunReturnsOk(dec);
    var es' :| Run(dec, es').Some? && ReturnsOk(Run(dec, es').value);
    assert EndsOk(dec, es');
  }

  /** Fault-free runs of both pipelines end, return Ok, and have written everything. */
  lemma BothPipelinesComplete(codec: Codec, secrets: Secrets, job: Job,
                              ne: Threads, capsE: seq<nat>, esE: seq<Event>,
                              nd: Threads, capsD: seq<nat>, esD: seq<Event>)
    requires ValidJob(codec, job)
    requires EncrypterFits(codec, secrets, job, ne, capsE) && DecrypterFits(codec, secrets, job.p, nd, capsD)
    ensures var enc := Encrypter(codec, secrets, job, ne, capsE);
      var sealed := SealAll(BodyKeys(secrets, job.p), job.ns, Texts(CodecOf(codec, job.p), job.data));
      var dec := DecryptConfig(CodecOf(codec, job.p), BodyKeys(secrets, job.p), sealed, nd, capsD);
      && ValidConfig(enc) && Completes(enc, esE, sealed)
      && ValidConfig(dec) && Completes(dec, esD, Pieces(CHUNK_SIZE, job.data))
  {
    hide ValidConfig, DecryptConfig, EncryptConfig, SealAll, ValidNonces, Processable, Completes, AllSucceed;
    hide BodyKeys, Texts;
    var c, keys := CodecOf(codec, job.p), BodyKeys(secrets, job.p);
    EncryptConfigValid(c, keys, job.ns, job.data, ne, capsE);
    EncryptIdeal(c, keys, job.ns, job.data, ne, capsE);
    FaultFreeRunsComplete(Encrypter(codec, secrets, job, ne, capsE), esE);
    var chunks := SealAll(keys, job.ns, Texts(c, job.data));
    DecryptConfigValid(c, keys, chunks, nd, capsD);
    DecryptSucceeds(c, keys, job.ns, job.data, nd, capsD);
    FaultFreeRunsComplete(DecryptConfig(c, keys, chunks, nd, capsD), esD);
  }
}

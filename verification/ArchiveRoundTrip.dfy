/**
  A directory tree through archiver, encryption, files, decryption and extractor: for every
  distribution of the entries over the archiver's workers, every choice of channels and every
  schedule of both pipelines the tree is restored.
 */
module ArchiveRoundTrip {
  import opened ByteStrings
  import opened Cutting
  import opened ArchiveHeader
  import opened FileTree
  import opened ArchiveStream
  import opened ArchiveEntries
  import opened Extraction
  import opened ArchiveSend
  import opened ArchiveMerge
  import opened EndToEnd
  import opened WholeFiles
  import opened FileHeader
  import Extractor
  import Pipeline

  /** What each worker sends for the entries given to it. */
  ghost function WorkerStreams(given: seq<seq<Entry>>): (rx: seq<seq<Msg>>)
    requires forall k :: 0 <= k < |given| ==> AllArchivable(given[k])
    ensures |rx| == |given|
  {
    seq(|given|, k requires 0 <= k < |given| => Messages(given[k]))
  }

  lemma {:induction false} MessagesAreSmall(es: seq<Entry>, i: nat)
    requires AllArchivable(es) && i < |Messages(es)|
    ensures |Messages(es)[i].data| <= CHUNK_SIZE
    decreases |es|
  {
    hide MessagesOf, Archivable;
    var ms := MessagesOf(es[0]);
    assert es[0] in es;
    MessagesCarryGroup(es[0]);
    if i < |ms| {
    } else {
      MessagesAreSmall(es[1..], i - |ms|);
    }
  }

  /**
    The archiver's half: whatever worker gets which entries, and whatever channels are picked, the
    chunks are the pieces of the stream of all entries in some order.
   */
  method Archive(rx: seq<seq<Msg>>, ghost given: seq<seq<Entry>>) returns (sent: seq<Item>, ghost order: seq<Entry>)
    requires forall k :: 0 <= k < |given| ==> AllArchivable(given[k])
    requires rx == WorkerStreams(given)
    ensures multiset(order) == Bag(given) && AllArchivable(order)
    ensures sent == Numbered(Pieces(CHUNK_SIZE, StreamOf(order)))
  {
    hide AllArchivable, StreamOf, Bag, Pieces, Intact;
    forall k, i | 0 <= k < |rx| && 0 <= i < |rx[k]|
      ensures |rx[k][i].data| <= CHUNK_SIZE
    {
      MessagesAreSmall(given[k], i);
    }
    var reader := new ArchiveRead(rx, given);
    sent, order := reader.ReadAll();
  }

  /** Which entries are expected back does not depend on their order. */
  lemma RestoredInAnyOrder(es: seq<Entry>, order: seq<Entry>, t: Tree)
    requires multiset(order) == multiset(es) && Restored(order, t)
    ensures Restored(es, t)
  {
    forall e
      ensures e in order <==> e in es
    {
      assert e in multiset(order) <==> e in multiset(es);
    }
    forall p | p in t && p != []
      ensures HasReason(es, p, t[p])
    {
      assert HasReason(order, p, t[p]);
    }
  }

  lemma PiecesNotEmpty(data: Bytes)
    requires data != []
    ensures forall c :: c in Pieces(CHUNK_SIZE, data) ==> c != []
  {
    PiecesWellCut(CHUNK_SIZE, data);
    var ps := Pieces(CHUNK_SIZE, data);
    if |ps| == 1 { assert Flatten(ps) == ps[0] + Flatten(ps[1..]) == ps[0]; }
  }

  lemma StreamNotEmpty(es: seq<Entry>)
    requires AllArchivable(es)
    ensures es != [] ==> StreamOf(es) != []
  {
    hide Archivable, Group;
    if es != [] {
      assert es[0] in es;
      GroupNotEmpty(es[0]);
    }
  }

  /**
    The extractor's half: decrypted chunks of the stream restore the walked tree, whatever the order
    in which the entries were archived.
   */
  method Restore(chunks: seq<Bytes>, tree: Tree, ghost found: seq<Found>, ghost order: seq<Entry>)
    returns (ok: bool, restored: Tree)
    requires TreeWalk(found) && Fresh(World(tree, [], [], []))
    requires AllArchivable(EntriesOf(JobsFor(found)))
    requires multiset(order) == multiset(EntriesOf(JobsFor(found))) && AllArchivable(order)
    requires chunks == Pieces(CHUNK_SIZE, StreamOf(order))
    ensures ok && Restored(EntriesOf(JobsFor(found)), restored)
    ensures FoundRestored(found, restored) <==> SharedAreSame(found)
  {
    hide FoundRestored, SharedAreSame;
    hide TreeWalk, Fresh, Restored, Archivable, Pieces, StreamOf, TreeOk, EntriesOf, JobsFor;
    ghost var es := EntriesOf(JobsFor(found));
    WalkIsTree(found);
    TreeInAnyOrder(es, order);
    PiecesWellCut(CHUNK_SIZE, StreamOf(order));
    if order != [] {
      StreamNotEmpty(order);
      PiecesNotEmpty(StreamOf(order));
    }
    ok, restored := Extractor.Extract(chunks, tree, order);
    RestoredInAnyOrder(es, order, restored);
    FoundRestoredIff(found, restored);
  }

  /**
    The tree through everything. `order` is the order in which the archiver happened to take the
    entries. Encryption has returned Ok; from the files and the secrets alone decryption finds all
    parameters, the archive flag among them, and has returned Ok; its writer hands the buffers to the
    extractor one by one and then finishes. The entries that were archived are restored, and everything
    that was found reads as it was, if and only if no two different files share an inode number.
   */
  lemma TreeRoundTrip(found: seq<Found>, order: seq<Entry>, w: World,
                      codec: Codec, secrets: Secrets, hasKeyfile: bool, job: WholeFiles.Job, split: seq<nat>,
                      ne: Threads, capsE: seq<nat>, esE: seq<Pipeline.Event>,
                      nd: Threads, capsD: seq<nat>, esD: seq<Pipeline.Event>)
    requires TreeWalk(found) && AllArchivable(EntriesOf(JobsFor(found))) && Fresh(w)
    requires multiset(order) == multiset(EntriesOf(JobsFor(found))) && AllArchivable(order)
    requires ValidJob(codec, job) && job.data == StreamOf(order) && job.p.archive && (job.p.keyfile ==> hasKeyfile)
    requires EncrypterFits(codec, secrets, job, ne, capsE) && DecrypterFits(codec, secrets, job.p, nd, capsD)
    ensures var enc := Encrypter(codec, secrets, job, ne, capsE);
      Pipeline.ValidConfig(enc) && (EndsOk(enc, esE) ==>
        var all := Flatten(FilesOf(secrets, job, split, Pipeline.Written(enc, Pipeline.Run(enc, esE).value)));
        var p := ReadParams(secrets, hasKeyfile, all);
        && p == Some(job.p) && p.value.archive && |all| >= HEADER_SIZE
        && var dec := Decrypter(codec, secrets, p.value, all, nd, capsD);
        Pipeline.ValidConfig(dec) && (EndsOk(dec, esD) ==>
          Restores(w, Pipeline.Written(dec, Pipeline.Run(dec, esD).value), found)))
  {
    hide Pipeline.ValidConfig, EndsOk, Pipeline.Written, Pipeline.Run, Restores, Encrypter, Decrypter, FilesOf;
    hide ReadParams;
    hide TreeWalk, Fresh, StreamOf, Pieces, EntriesOf, JobsFor, Flatten, Archivable, ValidJob, EncrypterFits;
    hide DecrypterFits;
    RoundTrip(codec, secrets, hasKeyfile, job, split, ne, capsE, esE, nd, capsD, esD);
    PiecesRestore(found, order, w);
  }

  /** Calls of `write_files` and `write_others` that bring back what was archived, and what was found. */
  ghost predicate Restores(w: World, calls: seq<Bytes>, found: seq<Found>) {
    var p := ParseCalls(false, Some(Parsed(w, AtLength, [])), calls);
    && p.Some? && p.value.m == AtLength && p.value.rest == []
    && Finish(p.value.w).ok && Restored(EntriesOf(JobsFor(found)), Finish(p.value.w).tree)
    && (FoundRestored(found, Finish(p.value.w).tree) <==> SharedAreSame(found))
  }

  lemma PiecesRestore(found: seq<Found>, order: seq<Entry>, w: World)
    requires TreeWalk(found) && AllArchivable(EntriesOf(JobsFor(found))) && Fresh(w)
    requires multiset(order) == multiset(EntriesOf(JobsFor(found))) && AllArchivable(order)
    ensures Restores(w, Pieces(CHUNK_SIZE, StreamOf(order)), found)
  {
    hide TreeWalk, Fresh, Restored, Archivable, Pieces, StreamOf, TreeOk, EntriesOf, JobsFor, ParseCalls;
    hide Finish, FoundRestored, SharedAreSame;
    var es := EntriesOf(JobsFor(found));
    WalkIsTree(found);
    TreeInAnyOrder(es, order);
    PiecesWellCut(CHUNK_SIZE, StreamOf(order));
    if order != [] {
      StreamNotEmpty(order);
      PiecesNotEmpty(StreamOf(order));
    }
    ExtractionRestores(order, w, Pieces(CHUNK_SIZE, StreamOf(order)));
    var p := ParseCalls(false, Some(Parsed(w, AtLength, [])), Pieces(CHUNK_SIZE, StreamOf(order))).value;
    RestoredInAnyOrder(es, order, Finish(p.w).tree);
    FoundRestoredIff(found, Finish(p.w).tree);
  }
}

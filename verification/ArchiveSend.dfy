/**
  The archiver's threads: one walks the directory tree and finds out which files are further names
  of a file it has seen, the others turn entries into messages.
 */
module ArchiveSend {
  import opened ByteStrings
  import opened Cutting
  import opened ArchiveHeader
  import opened FileTree
  import opened Paths
  import opened ArchiveEntries
  import opened Extraction

  // ------------------------------------------------------------------ the walker

  /** A walked entry with the number of its links, its device and its inode number there. */
  datatype Found = Found(entry: Entry, links: nat, dev: nat, ino: nat)

  /** A job for a worker; `target` is set for a further name of a file. */
  datatype Job = Job(entry: Entry, target: Option<Bytes>)

  ghost predicate Walked(found: seq<Found>) {
    forall f :: f in found ==> !f.entry.HardLink?
  }

  /** The identity of a file is its inode number; the device plays no part. */
  predicate Shares(f: Found, id: nat) {
    f.entry.File? && f.links > 1 && f.ino == id
  }

  /** The first file with this identity. */
  function FirstWith(found: seq<Found>, id: nat): Option<Bytes> {
    if found == [] then None else
    if Shares(found[0], id) then Some(found[0].entry.path) else FirstWith(found[1..], id)
  }

  lemma {:induction false} FirstWithSnoc(found: seq<Found>, f: Found, id: nat)
    ensures FirstWith(found + [f], id) ==
      if FirstWith(found, id).Some? then FirstWith(found, id)
      else if Shares(f, id) then Some(f.entry.path) else None
  {
    if found == [] {
      assert [f][1..] == [];
    } else {
      FirstWithSnoc(found[1..], f, id);
      assert (found + [f])[1..] == found[1..] + [f];
    }
  }

  /** What the job for each entry must be: a link to the first name, if there was one before. */
  function JobFor(before: seq<Found>, f: Found): Job {
    Job(f.entry, if f.entry.File? && f.links > 1 then FirstWith(before, f.ino) else None)
  }

  function JobsFor(found: seq<Found>): (jobs: seq<Job>)
    ensures |jobs| == |found|
  {
    seq(|found|, i requires 0 <= i < |found| => JobFor(found[..i], found[i]))
  }

  /** The walker's loop with its map of the files that have several names. */
  method Walk(found: seq<Found>) returns (jobs: seq<Job>)
    ensures jobs == JobsFor(found)
  {
    var hardLinkFiles: map<nat, Bytes> := map[];
    jobs := [];
    for i := 0 to |found|
      invariant jobs == JobsFor(found)[..i]
      invariant forall id :: FirstWith(found[..i], id) == if id in hardLinkFiles then Some(hardLinkFiles[id]) else None
    {
      var f := found[i];
      assert found[..i + 1] == found[..i] + [f];
      forall id {
        FirstWithSnoc(found[..i], f, id);
      }
      var hardLinkTarget: Option<Bytes> := None;
      if f.entry.File? {
        if f.links > 1 {
          if f.ino in hardLinkFiles {
            // entry is a hard link
            hardLinkTarget := Some(hardLinkFiles[f.ino]);
          } else {
            // entry is taken as the original
            hardLinkFiles := hardLinkFiles[f.ino := f.entry.path];
          }
        }
      }
      jobs := jobs + [Job(f.entry, hardLinkTarget)];
    }
  }

  function EntryOf(j: Job): Entry {
    match j.target
    case None => j.entry
    case Some(target) => HardLink(j.entry.path, target)
  }

  function EntriesOf(jobs: seq<Job>): (es: seq<Entry>)
    ensures |es| == |jobs|
  {
    seq(|jobs|, i requires 0 <= i < |jobs| => EntryOf(jobs[i]))
  }

  /** The first of the files that share an identity. */
  ghost predicate IsFirst(found: seq<Found>, k: nat, id: nat) {
    k < |found| && Shares(found[k], id) && forall j :: 0 <= j < k ==> !Shares(found[j], id)
  }

  lemma {:induction false} FirstIsFile(found: seq<Found>, id: nat, n: nat) returns (k: nat)
    requires n <= |found|
    ensures FirstWith(found[..n], id).None? ==> forall j :: 0 <= j < n ==> !Shares(found[j], id)
    ensures FirstWith(found[..n], id).Some? ==>
      k < n && IsFirst(found, k, id) && Some(found[k].entry.path) == FirstWith(found[..n], id)
    decreases n
  {
    if n == 0 {
      k := 0;
    } else {
      assert found[..n] == found[..n - 1] + [found[n - 1]];
      FirstWithSnoc(found[..n - 1], found[n - 1], id);
      k := FirstIsFile(found, id, n - 1);
      if FirstWith(found[..n - 1], id).None? { k := n - 1; }
    }
  }

  /** The first file is archived as it is, and every further one as a link to the first. */
  lemma EntryOfFound(found: seq<Found>, i: nat) returns (k: nat)
    requires Walked(found) && i < |found|
    ensures var es, f := EntriesOf(JobsFor(found)), found[i];
      && k <= i && es[k] == found[k].entry
      && (f.entry.File? && f.links > 1 ==> IsFirst(found, k, f.ino))
      && (k == i || (f.entry.File? && f.links > 1 && es[i] == HardLink(f.entry.path, es[k].path)))
  {
    var f := found[i];
    assert f in found;
    k := i;
    if f.entry.File? && f.links > 1 {
      var first := FirstIsFile(found, f.ino, i);
      if FirstWith(found[..i], f.ino).Some? {
        k := first;
        assert FirstWith(found[..k], f.ino).None? by { NoneBefore(found, f.ino, k); }
        assert JobsFor(found)[k] == JobFor(found[..k], found[k]);
      }
    }
  }

  lemma NoneBefore(found: seq<Found>, id: nat, k: nat)
    requires k <= |found| && forall j :: 0 <= j < k ==> !Shares(found[j], id)
    ensures FirstWith(found[..k], id).None?
  {
    var j := FirstIsFile(found, id, k);
  }

  /** Entry `i` is a link to the first of the files with its inode number. */
  ghost predicate LinksToFirst(found: seq<Found>, es: seq<Entry>, i: nat)
    requires i < |found| == |es|
  {
    exists k :: 0 <= k < i && IsFirst(found, k, found[i].ino)
      && es[k] == found[k].entry && es[i] == HardLink(found[i].entry.path, es[k].path)
  }

  /** Every hard link that is archived leads to an entry of the archive that is a regular file. */
  lemma LinksLeadToFiles(found: seq<Found>, i: nat)
    requires Walked(found) && i < |found|
    ensures var es := EntriesOf(JobsFor(found));
      es[i].HardLink? ==> IsFileEntry(es, es[i].target) && LinksToFirst(found, es, i)
  {
    var es := EntriesOf(JobsFor(found));
    assert found[i] in found;
    var k := EntryOfFound(found, i);
    if es[i].HardLink? {
      assert es[k] in es;
    }
  }

  /** The paths of a walk form a tree. */
  ghost predicate TreeWalk(found: seq<Found>) {
    Walked(found) && forall i :: 0 <= i < |found| ==>
      ProperPath(found[i].entry) && forall k :: 0 <= k < i ==> Compatible(found[k].entry, found[i].entry)
  }

  /** So the walker's jobs describe one directory tree, hard links included. */
  lemma WalkIsTree(found: seq<Found>)
    requires TreeWalk(found)
    ensures TreeOk(EntriesOf(JobsFor(found)))
  {
    var es := EntriesOf(JobsFor(found));
    forall i | 0 <= i < |es|
      ensures Fitting(es[..i], es[i])
    {
      WalkFits(found, i);
    }
    forall e | e in es && e.HardLink?
      ensures IsFileEntry(es, e.target)
    {
      var i :| 0 <= i < |es| && es[i] == e;
      LinksLeadToFiles(found, i);
    }
  }

  lemma WalkFits(found: seq<Found>, i: nat)
    requires TreeWalk(found) && i < |found|
    ensures var es := EntriesOf(JobsFor(found)); Fitting(es[..i], es[i])
  {
    var es := EntriesOf(JobsFor(found));
    forall d | d in es[..i]
      ensures Compatible(d, es[i])
    {
      var k :| 0 <= k < i && es[k] == d;
      SameKind(found, k);
      SameKind(found, i);
      assert Compatible(found[k].entry, found[i].entry);
    }
    SameKind(found, i);
  }

  lemma SameKind(found: seq<Found>, i: nat)
    requires Walked(found) && i < |found|
    ensures var e := EntriesOf(JobsFor(found))[i];
      e.path == found[i].entry.path && (e.Directory? <==> found[i].entry.Directory?)
  {
    assert found[i] in found;
  }

  /** The order in which the entries reach the archive does not matter. */
  lemma TreeInAnyOrder(es: seq<Entry>, order: seq<Entry>)
    requires TreeOk(es) && multiset(order) == multiset(es)
    ensures TreeOk(order)
  {
    forall e | e in order
      ensures e in es
    {
      assert e in multiset(order);
    }
    forall e | e in es
      ensures e in order
    {
      assert e in multiset(es);
    }
    forall i | 0 <= i < |order|
      ensures Fitting(order[..i], order[i])
    {
      OrderFits(es, order, i);
    }
    forall e | e in order && e.HardLink?
      ensures IsFileEntry(order, e.target)
    {
      assert IsFileEntry(es, e.target);
    }
  }

  lemma OrderFits(es: seq<Entry>, order: seq<Entry>, i: nat)
    requires TreeOk(es) && multiset(order) == multiset(es) && i < |order|
    requires forall e :: e in order ==> e in es
    ensures Fitting(order[..i], order[i])
  {
    var b := order[i];
    assert b in es;
    var j :| 0 <= j < |es| && es[j] == b;
    assert Fitting(es[..j], es[j]);
    forall d | d in order[..i]
      ensures Compatible(d, b)
    {
      assert d in order && d in es;
      var k :| 0 <= k < |es| && es[k] == d;
      if k == j {
        TwiceInOrder(order, i, d);
        OnceInTree(es, d);
      } else {
        FittingPairs(es, k, j);
      }
    }
  }

  lemma TwiceInOrder(order: seq<Entry>, i: nat, d: Entry)
    requires i < |order| && d in order[..i] && order[i] == d
    ensures multiset(order)[d] >= 2
  {
    assert order == order[..i] + [order[i]] + order[i + 1..];
    assert d in multiset(order[..i]);
  }

  lemma {:induction false} OnceInTree(es: seq<Entry>, d: Entry)
    requires forall i :: 0 <= i < |es| ==> Fitting(es[..i], es[i])
    ensures multiset(es)[d] <= 1
  {
    if es == [] {
    } else {
      var n := |es| - 1;
      assert es == es[..n] + [es[n]];
      forall i | 0 <= i < n
        ensures Fitting(es[..n][..i], es[..n][i])
      {
        assert es[..n][..i] == es[..i];
      }
      OnceInTree(es[..n], d);
      assert Fitting(es[..n], es[n]);
      assert d in es[..n] ==> Compatible(d, es[n]);
    }
  }

  // ------------------------------------------------------------------ what was found comes back

  /** Looking the entry up in the restored tree gives its content, mode and times. */
  ghost predicate ReadsAs(t: Tree, e: Entry) {
    && (!e.Symlink? ==> Find(t, e.path) == There(e.path))
    && FileBehind(t, e.path) in t && t[FileBehind(t, e.path)] == NodeOf(e)
  }

  ghost predicate FoundRestored(found: seq<Found>, t: Tree) {
    forall f :: f in found ==> ReadsAs(t, f.entry)
  }

  /** Files with one inode number are one file, whatever device they are on. */
  ghost predicate SharedAreSame(found: seq<Found>) {
    forall i, k :: 0 <= i < |found| && 0 <= k < |found| ==> SameIfShared(found[i], found[k])
  }

  predicate SameIfShared(f: Found, g: Found) {
    f.entry.File? && f.links > 1 && Shares(g, f.ino) ==> NodeOf(f.entry) == NodeOf(g.entry)
  }

  /** What is read at a found path is the first file with its identity. */
  lemma ReadsFirst(found: seq<Found>, t: Tree, i: nat) returns (k: nat)
    requires TreeWalk(found) && Restored(EntriesOf(JobsFor(found)), t) && i < |found|
    ensures k <= i && (found[i].entry.File? && found[i].links > 1 ==> IsFirst(found, k, found[i].ino))
    ensures k != i ==> found[i].entry.File? && found[i].links > 1
    ensures var p := found[i].entry.path; FileBehind(t, p) in t && t[FileBehind(t, p)] == NodeOf(found[k].entry)
    ensures !found[i].entry.Symlink? ==> Find(t, found[i].entry.path) == There(found[i].entry.path)
  {
    hide WellFormed, Find, Canonical, IsFirst, Compatible, JobsFor;
    var es := EntriesOf(JobsFor(found));
    k := EntryOfFound(found, i);
    var e, p := es[i], found[i].entry.path;
    assert found[i] in found && found[k] in found;
    assert e in es && es[k] in es;
    assert ProperPath(found[i].entry);
    PresentReachable(t, p);
    if !found[i].entry.Symlink? {
      assert !IsLink(t, p);
      FindCanonical(t, p);
    }
  }

  /**
    Once the archive is restored, every entry that was found reads as it was, if and only if files
    with one inode number have the same content, mode and times.
   */
  lemma FoundRestoredIff(found: seq<Found>, t: Tree)
    requires TreeWalk(found) && Restored(EntriesOf(JobsFor(found)), t)
    ensures FoundRestored(found, t) <==> SharedAreSame(found)
  {
    hide TreeWalk, Restored, JobsFor, EntriesOf, Find;
    if SharedAreSame(found) {
      forall f | f in found
        ensures ReadsAs(t, f.entry)
      {
        var i :| 0 <= i < |found| && found[i] == f;
        var k := ReadsFirst(found, t, i);
        assert SameIfShared(found[i], found[k]);
      }
    }
    if FoundRestored(found, t) {
      forall i, k | 0 <= i < |found| && 0 <= k < |found|
        ensures SameIfShared(found[i], found[k])
      {
        assert ReadsAs(t, found[i].entry) && ReadsAs(t, found[k].entry);
        var m := ReadsFirst(found, t, i);
        var n := ReadsFirst(found, t, k);
      }
    }
  }

  /** On one device files with the same inode number are one file. */
  ghost predicate InodesIdentify(found: seq<Found>) {
    forall i, k :: 0 <= i < |found| && 0 <= k < |found| && found[i].dev == found[k].dev ==>
      SameIfShared(found[i], found[k])
  }

  ghost predicate OneDevice(found: seq<Found>) {
    forall i, k :: 0 <= i < |found| && 0 <= k < |found| ==> found[i].dev == found[k].dev
  }

  /** So a tree that does not reach across devices comes back as it was found. */
  lemma OneDeviceComesBack(found: seq<Found>, t: Tree)
    requires TreeWalk(found) && Restored(EntriesOf(JobsFor(found)), t)
    requires InodesIdentify(found) && OneDevice(found)
    ensures FoundRestored(found, t)
  {
    hide TreeWalk, Restored, JobsFor, EntriesOf, SameIfShared;
    FoundRestoredIff(found, t);
  }

  /**
    Across devices it need not: two files with the same number, each with a second name
    somewhere. The second one is archived as a link to the first and comes back with its content.
   */
  lemma SecondFileIsLost(x: Bytes, y: Bytes, t: Tree)
    requires x != y
    ensures var a, b := File([Raw(97)], 0, 0, 0, x, []), File([Raw(98)], 0, 0, 0, y, []);
      var found := [Found(a, 2, 1, 7), Found(b, 2, 2, 7)];
      && TreeWalk(found) && EntriesOf(JobsFor(found)) == [a, HardLink(b.path, a.path)]
      && (Restored(EntriesOf(JobsFor(found)), t) ==> t[FileBehind(t, b.path)] == NodeOf(a) != NodeOf(b))
  {
    var a, b := File([Raw(97)], 0, 0, 0, x, []), File([Raw(98)], 0, 0, 0, y, []);
    var found := [Found(a, 2, 1, 7), Found(b, 2, 2, 7)];
    OneLetter(a.path);
    OneLetter(b.path);
    assert found[..0] == [] && found[..1] == [found[0]] && found[..1][1..] == [];
    var es := EntriesOf(JobsFor(found));
    assert es == [a, HardLink(b.path, a.path)];
    if Restored(es, t) {
      assert es[0] in es && es[1] in es;
    }
  }

  lemma OneLetter(p: Bytes)
    requires |p| == 1 && p[0] != SLASH && p != DOT
    ensures Canonical(p) && Parent(p) == [] && forall q: Bytes :: Above(q, p) ==> q == []
  {
    assert p[..0] == [];
    assert Parent([]) == [] && Parent(p) == [];
    assert Base(p) == p && Join([], p) == p;
  }

  // ------------------------------------------------------------------ a worker

  /** A message to the chunk reader; `last` marks the last message of an entry. */
  datatype Msg = Msg(data: Bytes, last: bool)

  /** Consecutive messages; the last one is marked if the entry ends there. */
  function Marked(parts: seq<Bytes>, last: bool): (ms: seq<Msg>)
    ensures |ms| == |parts|
  {
    seq(|parts|, i requires 0 <= i < |parts| => Msg(parts[i], last && i == |parts| - 1))
  }

  lemma MarkedAppend(front: seq<Bytes>, tail: seq<Bytes>)
    ensures Marked(front + tail, true) == Marked(front, tail == []) + Marked(tail, true)
  {
  }

  function Datas(ms: seq<Msg>): (parts: seq<Bytes>)
    ensures |parts| == |ms|
  {
    seq(|ms|, i requires 0 <= i < |ms| => ms[i].data)
  }

  /** The pieces of the data segments; a hole at the very end is announced by an empty message. */
  function SegParts(content: Bytes, segs: seq<Seg>): seq<Bytes>
    requires forall s :: s in segs ==> s.start <= s.end <= |content|
  {
    if segs == [] then [] else
    (if segs[0].Data? then Pieces(CHUNK_SIZE, content[segs[0].start..segs[0].end])
     else if |segs| == 1 then [[]] else []) + SegParts(content, segs[1..])
  }

  ghost function BodyParts(e: Entry): seq<Bytes>
    requires ValidEntry(e)
  {
    if !e.File? || e.content == [] then [] else
    if e.segs == [] then Pieces(CHUNK_SIZE, e.content) else
    SegsInside(e);
    SegParts(e.content, e.segs)
  }

  /** All messages of an entry. */
  ghost function MessagesOf(e: Entry): seq<Msg>
    requires Archivable(e)
  {
    Marked([Encode(e).value] + BodyParts(e), true)
  }

  lemma {:induction false} SegPartsFlatten(content: Bytes, segs: seq<Seg>)
    requires Inside(content, segs)
    ensures Flatten(SegParts(content, segs)) == DataBytes(content, segs)
    ensures forall p :: p in SegParts(content, segs) ==> |p| <= CHUNK_SIZE
    decreases |segs|
  {
    if segs == [] {
    } else {
      assert segs[0] in segs;
      SegPartsFlatten(content, segs[1..]);
      var front := if segs[0].Data? then Pieces(CHUNK_SIZE, content[segs[0].start..segs[0].end])
        else if |segs| == 1 then [[]] else [];
      FrontParts(content, segs[0], front);
      FlattenAppend(front, SegParts(content, segs[1..]));
    }
  }

  lemma FrontParts(content: Bytes, s: Seg, front: seq<Bytes>)
    requires s.start <= s.end <= |content|
    requires if s.Data? then front == Pieces(CHUNK_SIZE, content[s.start..s.end]) else front == [] || front == [[]]
    ensures Flatten(front) == if s.Data? then content[s.start..s.end] else []
    ensures forall p :: p in front ==> |p| <= CHUNK_SIZE
  {
    if s.Data? {
      PiecesWellCut(CHUNK_SIZE, content[s.start..s.end]);
    } else if front != [] {
      assert front[1..] == [];
    }
  }

  /**
    The messages of an entry carry its header and exactly its data, in buffers that fit a chunk;
    the last one, and no other, is marked.
   */
  lemma MessagesCarryGroup(e: Entry)
    requires Archivable(e)
    ensures Flatten(Datas(MessagesOf(e))) == Group(e)
    ensures MessagesOf(e) != []
    ensures forall i :: 0 <= i < |MessagesOf(e)| ==> |MessagesOf(e)[i].data| <= CHUNK_SIZE
    ensures forall i :: 0 <= i < |MessagesOf(e)| ==> (MessagesOf(e)[i].last <==> i == |MessagesOf(e)| - 1)
  {
    hide Pieces, SegParts, DataBytes, Body;
    var parts := [Encode(e).value] + BodyParts(e);
    assert Datas(Marked(parts, true)) == parts;
    assert parts[1..] == BodyParts(e);
    HeaderFitsChunk(e);
    BodyPartsFlatten(e);
    assert forall p :: p in parts ==> |p| <= CHUNK_SIZE;
    assert Datas(MessagesOf(e)) == parts;
  }

  lemma HeaderFitsChunk(e: Entry)
    requires Fits(e)
    ensures |Encode(e).value| <= CHUNK_SIZE
  {
  }

  lemma BodyPartsFlatten(e: Entry)
    requires Archivable(e)
    ensures Flatten(BodyParts(e)) == DataOf(e)
    ensures forall p :: p in BodyParts(e) ==> |p| <= CHUNK_SIZE
  {
    hide Pieces, SegParts, DataBytes, Fits, ValidEntry, HolesAreZero, WellCut, Inside;
    if e.File? {
      if e.content == [] {
        EmptyHasNoSegs(e);
      } else if e.segs == [] {
        WholeFile(e.content);
      } else {
        SegsInside(e);
        SegPartsFlatten(e.content, e.segs);
      }
    }
  }

  lemma WholeFile(content: Bytes)
    ensures Flatten(Pieces(CHUNK_SIZE, content)) == content
    ensures forall p :: p in Pieces(CHUNK_SIZE, content) ==> |p| <= CHUNK_SIZE
  {
    PiecesWellCut(CHUNK_SIZE, content);
  }

  lemma EmptyHasNoSegs(e: Entry)
    requires e.File? && ValidEntry(e) && e.content == []
    ensures e.segs == []
  {
    SegsInside(e);
  }

  /** `read_data`: the next bytes of the file, at most a chunk, and how many remain. */
  method ReadData(content: Bytes, cursor: nat, dataSize: nat) returns (buf: Bytes, left: nat)
    requires cursor + dataSize <= |content|
    ensures |buf| == if dataSize < CHUNK_SIZE then dataSize else CHUNK_SIZE
    ensures buf == content[cursor..cursor + |buf|] && left == dataSize - |buf|
  {
    var bufLen := if CHUNK_SIZE < dataSize then CHUNK_SIZE else dataSize;
    buf := content[cursor..cursor + bufLen];
    left := dataSize - bufLen;
  }

  /** Sends `size` bytes from the cursor on; the last message is marked if `last` says so. */
  method SendData(content: Bytes, cursor: nat, size: nat, last: bool, sent: seq<Msg>) returns (r: seq<Msg>)
    requires cursor + size <= |content| && size > 0
    ensures r == sent + Marked(Pieces(CHUNK_SIZE, content[cursor..cursor + size]), last)
  {
    hide Pieces;
    ghost var ps := Pieces(CHUNK_SIZE, content[cursor..cursor + size]);
    ghost var ms := Marked(ps, last);
    var pos: nat, segSize: nat := cursor, size;
    r := sent;
    ghost var k: nat := 0;
    while segSize != 0
      invariant cursor <= pos && pos + segSize == cursor + size
      invariant k <= |ps| && r == sent + ms[..k]
      invariant ps[k..] == if segSize == 0 then [] else Pieces(CHUNK_SIZE, content[pos..pos + segSize])
      decreases segSize
    {
      var bufRead, left := ReadData(content, pos, segSize);
      NextPiece(content, pos, segSize, ps, k);
      pos := pos + |bufRead|;
      segSize := left;
      r := r + [Msg(bufRead, segSize == 0 && last)];
      assert ms[..k + 1] == ms[..k] + [ms[k]];
      k := k + 1;
    }
    assert ms[..k] == ms;
  }

  lemma NextPiece(content: Bytes, pos: nat, size: nat, ps: seq<Bytes>, k: nat)
    requires pos + size <= |content| && 0 < size && k <= |ps|
    requires ps[k..] == Pieces(CHUNK_SIZE, content[pos..pos + size])
    ensures var n := if size < CHUNK_SIZE then size else CHUNK_SIZE;
      && k < |ps| && ps[k] == content[pos..pos + n]
      && ps[k + 1..] == (if size == n then [] else Pieces(CHUNK_SIZE, content[pos + n..pos + size]))
      && (k == |ps| - 1 <==> size == n)
  {
    var rest := content[pos..pos + size];
    var n := if size < CHUNK_SIZE then size else CHUNK_SIZE;
    assert rest[..n] == content[pos..pos + n] && rest[n..] == content[pos + n..pos + size];
    assert ps[k] == ps[k..][0] && ps[k + 1..] == ps[k..][1..];
  }

  lemma {:induction false} SomeParts(content: Bytes, segs: seq<Seg>)
    requires segs != [] && Inside(content, segs)
    ensures SegParts(content, segs) != []
    decreases |segs|
  {
    if |segs| <= 1 {
    } else {
      SomeParts(content, segs[1..]);
    }
  }

  lemma {:induction false} SegmentEnds(segs: seq<Seg>, start: nat, end: nat, i: nat)
    requires Alternating(segs, start, end) && i < |segs|
    ensures segs[i].start < segs[i].end
    ensures i == 0 ==> segs[i].start == start
    ensures i + 1 < |segs| ==> segs[i + 1].start == segs[i].end
    decreases segs
  {
    if i == 0 {
    } else {
      SegmentEnds(segs[1..], segs[0].end, end, i - 1);
    }
  }

  /** What is sent for one segment. */
  ghost function PartsAt(content: Bytes, segs: seq<Seg>, i: nat): seq<Bytes>
    requires Inside(content, segs) && i < |segs|
  {
    assert segs[i] in segs;
    if segs[i].Data? then Pieces(CHUNK_SIZE, content[segs[i].start..segs[i].end])
    else if i == |segs| - 1 then [[]] else []
  }

  lemma NextSegment(content: Bytes, segs: seq<Seg>, i: nat)
    requires Inside(content, segs) && i < |segs|
    ensures Marked(SegParts(content, segs[i..]), true) ==
      Marked(PartsAt(content, segs, i), i == |segs| - 1) + Marked(SegParts(content, segs[i + 1..]), true)
  {
    hide Pieces;
    assert segs[i] in segs;
    assert segs[i..][1..] == segs[i + 1..];
    if i < |segs| - 1 {
      SomeParts(content, segs[i + 1..]);
    }
    MarkedAppend(PartsAt(content, segs, i), SegParts(content, segs[i + 1..]));
  }

  /** The messages of one segment, from the current position of the file on. */
  method SendSegment(content: Bytes, segs: seq<Seg>, idx: nat, cursor: nat, sent: seq<Msg>) returns (r: seq<Msg>)
    requires Inside(content, segs) && idx < |segs|
    requires cursor == segs[idx].start < segs[idx].end <= |content|
    ensures r == sent + Marked(PartsAt(content, segs, idx), idx == |segs| - 1)
  {
    hide Pieces;
    var lastSegment := |segs| - 1 == idx;
    r := sent;
    if segs[idx].Data? {
      r := SendData(content, cursor, segs[idx].end - segs[idx].start, lastSegment, r);
    } else { // hole
      if lastSegment {
        r := r + [Msg([], true)];
      }
    }
  }

  /** The loop over the segments of a scanned file. */
  method SendSegments(e: Entry, header: seq<Msg>) returns (sent: seq<Msg>)
    requires e.File? && ValidEntry(e) && e.segs != []
    ensures Inside(e.content, e.segs)
    ensures sent == header + Marked(SegParts(e.content, e.segs), true)
  {
    hide SegParts, Alternating, PartsAt, Marked;
    SegsInside(e);
    var segs := e.segs;
    var cursor := 0;
    sent := header;
    assert segs[0..] == segs;
    SegmentEnds(segs, 0, |e.content|, 0);
    for idx := 0 to |segs|
      invariant idx < |segs| ==> cursor == segs[idx].start
      invariant sent + Marked(SegParts(e.content, segs[idx..]), true)
        == header + Marked(SegParts(e.content, segs), true)
    {
      SegmentEnds(segs, 0, |e.content|, idx);
      assert segs[idx] in segs;
      NextSegment(e.content, segs, idx);
      ghost var before := sent;
      sent := SendSegment(e.content, segs, idx, cursor, sent);
      AppendStep(before, Marked(PartsAt(e.content, segs, idx), idx == |segs| - 1),
        Marked(SegParts(e.content, segs[idx + 1..]), true));
      cursor := segs[idx].end;
    }
    NothingMore(e.content, segs, sent);
  }

  lemma AppendStep(a: seq<Msg>, b: seq<Msg>, c: seq<Msg>)
    ensures a + (b + c) == (a + b) + c
  {
  }

  lemma NothingMore(content: Bytes, segs: seq<Seg>, sent: seq<Msg>)
    requires Inside(content, segs)
    ensures sent + Marked(SegParts(content, segs[|segs|..]), true) == sent
  {
    assert segs[|segs|..] == [];
  }

  /**
    What a worker sends for one job; an entry whose header cannot be built is skipped.
   */
  method SendEntry(e: Entry) returns (sent: seq<Msg>)
    requires ValidEntry(e) && (e.File? ==> HolesAreZero(e.content, e.segs))
    ensures Fits(e) ==> Archivable(e) && sent == MessagesOf(e)
    ensures !Fits(e) ==> sent == []
  {
    hide Fits, ValidEntry, Pieces, SegParts, HolesAreZero, Body;
    var header := BuildHeader(e);
    if header.None? {
      return [];
    }
    ghost var first := [header.value];
    MarkedAppend(first, BodyParts(e));
    if e.File? {
      var lastChunk := |e.content| == 0;
      sent := [Msg(header.value, lastChunk)];
      sent := SendBody(e, sent);
    } else {
      sent := [Msg(header.value, true)];
    }
  }

  method SendBody(e: Entry, header: seq<Msg>) returns (sent: seq<Msg>)
    requires e.File? && ValidEntry(e)
    ensures sent == header + Marked(BodyParts(e), true)
    ensures BodyParts(e) == [] <==> e.content == []
  {
    hide Pieces, SegParts, Inside;
    if e.content == [] { EmptyHasNoSegs(e); }
    if e.segs == [] {
      sent := header;
      assert e.content[0..0 + |e.content|] == e.content;
      if |e.content| != 0 {
        sent := SendData(e.content, 0, |e.content|, true, sent);
      }
    } else {
      SegsInside(e);
      SomeParts(e.content, e.segs);
      sent := SendSegments(e, header);
    }
  }
}

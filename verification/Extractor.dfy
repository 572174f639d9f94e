/**
  The extractor as it is programmed: an object that is handed the archive stream in buffers of any
  size and keeps its place in a handful of fields. Every call is proved to do what the stream
  language says.
 */
module Extractor {
  import opened ByteStrings
  import opened ArchiveHeader
  import opened FileTree
  import opened ArchiveStream
  import opened ArchiveEntries
  import Extraction
  import NoOverwrite

  class ArchiveWrite {
    // the place of the open file; the handle itself stays valid whatever happens to the path
    var fOut: Option<Bytes>
    var bufOut: Bytes
    var headerLength: Option<nat>
    // bytes of the current file not written yet, holes included
    var fileSize: nat
    var fileTimes: Stamp
    var dirTimes: seq<DirTime>
    var pendingHardlinks: seq<LinkJob>
    var sparseSegments: seq<Seg>
    var sparseSegmentsIndex: nat
    // what is left of the current data segment; 0 stands for all of it
    var dataSegmentSize: nat
    const list: bool
    // the output directory, and the headers printed in list and verbose mode
    var tree: Tree
    var printed: seq<Header>

    /** The guard of the first branch of the loop. */
    predicate Busy()
      reads this
    {
      (!list && fOut.Some?) || (list && fileSize > 0)
    }

    /** The segments not finished yet. */
    ghost function RunsLeft(): seq<Run>
      reads this
    {
      if sparseSegments == [] then [Take(fileSize)]
      else if sparseSegmentsIndex >= |sparseSegments| then []
      else
        var runs := Runs(sparseSegments[sparseSegmentsIndex..]);
        if dataSegmentSize == 0 then runs else [Take(dataSegmentSize)] + runs[1..]
    }

    ghost function Out(): Option<Target>
      reads this
    {
      if fOut.Some? then Some(Target(fOut.value, fileTimes)) else None
    }

    /** The place in the stream. */
    ghost function Place(): Mode
      reads this
    {
      if Busy() then InBody(Out(), RunsLeft(), fileSize)
      else if headerLength.Some? then AtHeader(headerLength.value)
      else AtLength
    }

    ghost function Done(): World
      reads this
    {
      World(tree, dirTimes, pendingHardlinks, printed)
    }

    /** Between files nothing is left of the segments of the last one. */
    ghost predicate Valid()
      reads this
    {
      && (list ==> fOut == None)
      && (Busy() ==> headerLength == None)
      && (sparseSegments == [] ==> sparseSegmentsIndex == 0 && dataSegmentSize == 0)
      && (!Busy() ==> sparseSegmentsIndex == 0 && dataSegmentSize == 0 && (!list ==> sparseSegments == []))
      && Partial()
    }

    /** A data segment that was begun. */
    ghost predicate Partial()
      reads this
    {
      dataSegmentSize > 0 ==>
        sparseSegmentsIndex < |sparseSegments| && RunOf(sparseSegments[sparseSegmentsIndex]).Take?
    }

    constructor (list: bool, tree: Tree)
      ensures Valid() && Place() == AtLength && bufOut == [] && this.list == list
      ensures Done() == World(tree, [], [], [])
    {
      fOut, bufOut, headerLength, fileSize, fileTimes := None, [], None, 0, Now;
      dirTimes, pendingHardlinks := [], [];
      sparseSegments, sparseSegmentsIndex, dataSegmentSize := [], 0, 0;
      this.list, this.tree, printed := list, tree, [];
    }

    // ---------------------------------------------------------------- one turn of the loop

    /** Writes buffered bytes to the open file, at most `size`, and drops them from the buffer. */
    method WriteData(size: nat) returns (written: nat)
      modifies this`bufOut, this`tree
      ensures written == Min(|old(bufOut)|, size)
      ensures bufOut == old(bufOut)[written..]
      ensures Done() == Write(old(Done()), Out(), old(bufOut)[..written])
    {
      written := if |bufOut| < size then |bufOut| else size;
      if fOut.Some? {
        tree := FileTree.Append(tree, fOut.value, bufOut[..written]);
      }
      bufOut := bufOut[written..];
    }

    /** Restores the times of the file and closes it. */
    method CloseFile()
      modifies this`fOut, this`tree
      ensures fOut == None
      ensures Done() == Close(old(Done()), old(Out()))
    {
      if fOut.Some? {
        tree := SetStamp(tree, fOut.value, fileTimes);
      }
      fOut := None;
    }

    /** The branch for a file that is not sparse. */
    method WritePlain() returns (wait: bool)
      requires Valid() && Busy() && sparseSegments == []
      modifies this
      ensures Valid()
      ensures var s := old(OneStep(list, Done(), Place(), bufOut));
        && !s.Fail? && s.w == Done() && s.m == Place() && s.rest == bufOut
        && (wait ==> bufOut == [] && (s.Go? ==> Place() == AtLength))
        && (!wait ==> s.Go?)
    {
      hide Write, Close;
      ghost var w, out, size, buf := Done(), Out(), fileSize, bufOut;
      var writeSize := WriteData(fileSize);
      fileSize := fileSize - writeSize;
      if fileSize == 0 {
        CloseFile();
      }
      wait := bufOut == [];
      PlainStep(w, out, size, buf);
    }

    /** Everything that follows when a sparse file is complete. */
    method FinishSparse()
      modifies this`dataSegmentSize, this`sparseSegmentsIndex, this`sparseSegments, this`fOut, this`tree
      ensures dataSegmentSize == 0 && sparseSegmentsIndex == 0 && sparseSegments == [] && fOut == None
      ensures Done() == Close(old(Done()), old(Out()))
    {
      dataSegmentSize := 0;
      sparseSegmentsIndex := 0;
      sparseSegments := [];
      CloseFile();
    }

    /** The data branch for a sparse file: as much of the current segment as is there. */
    method WriteDataSegment(seg: Seg) returns (ok: bool)
      requires Valid() && Busy() && sparseSegmentsIndex < |sparseSegments|
      requires seg == sparseSegments[sparseSegmentsIndex] && seg.Data? && seg.start <= seg.end
      modifies this`dataSegmentSize, this`bufOut, this`tree, this`fileSize, this`sparseSegmentsIndex
      ensures ok ==> Out() == old(Out())
      ensures var runs := old(RunsLeft());
        runs != [] && runs[0].Take? &&
        var n := runs[0].n; var k := Min(|old(bufOut)|, n);
        && (ok <==> k <= old(fileSize))
        && Done() == Write(old(Done()), old(Out()), old(bufOut)[..k])
        && (ok ==>
             && bufOut == old(bufOut)[k..]
             && fileSize == old(fileSize) - k && sparseSegmentsIndex <= |sparseSegments|
             && RunsLeft() == (if k == n then runs[1..] else [Take(n - k)] + runs[1..])
             && Partial())
    {
      hide Write;
      ghost var segs, i, runs := sparseSegments, sparseSegmentsIndex, RunsLeft();
      RunsAt(segs, i);
      if dataSegmentSize == 0 {
        dataSegmentSize := seg.end - seg.start;
      }
      assert runs == [Take(dataSegmentSize)] + runs[1..];
      var writeSize := WriteData(dataSegmentSize);
      dataSegmentSize := dataSegmentSize - writeSize;
      if writeSize > fileSize {
        return false;
      }
      fileSize := fileSize - writeSize;
      if dataSegmentSize == 0 {
        sparseSegmentsIndex := sparseSegmentsIndex + 1;
      }
      return true;
    }

    /** The hole branch: moves on to the last byte of the hole and writes it. */
    method WriteHole(seg: Seg) returns (ok: bool)
      requires Valid() && Busy() && sparseSegmentsIndex < |sparseSegments|
      requires seg == sparseSegments[sparseSegmentsIndex] && seg.Hole? && seg.start <= seg.end
      modifies this`tree, this`fileSize, this`sparseSegmentsIndex
      ensures ok ==> Out() == old(Out())
      ensures var runs := old(RunsLeft()); var n := seg.end - seg.start;
        && runs != [] && runs[0] == Skip(n)
        && (ok <==> n <= old(fileSize) && (n > 0 || old(fOut).None?))
        && Done() == (if n == 0 && old(fOut).Some? then old(Done()) else Write(old(Done()), old(Out()), Zeros(n)))
        && (ok ==>
             && fileSize == old(fileSize) - n
             && sparseSegmentsIndex <= |sparseSegments| && RunsLeft() == runs[1..])
    {
      hide Append;
      RunsAt(sparseSegments, sparseSegmentsIndex);
      assert dataSegmentSize == 0;
      var n := seg.end - seg.start;
      if fOut.Some? {
        if n == 0 {
          return false;
        }
        assert Zeros(n) == Zeros(n - 1) + [ZERO];
        tree := FileTree.Append(tree, fOut.value, Zeros(n - 1) + [ZERO]);
      }
      if n > fileSize {
        return false;
      }
      fileSize := fileSize - n;
      sparseSegmentsIndex := sparseSegmentsIndex + 1;
      return true;
    }

    /** The branch for a sparse file. */
    method WriteSparse() returns (ok: bool, wait: bool)
      requires Valid() && Busy() && sparseSegments != []
      modifies this
      ensures ok ==> Valid()
      ensures var s := old(OneStep(list, Done(), Place(), bufOut));
        if !ok then s == Fail(Done())
        else s == if wait then Halt(Done(), Place(), bufOut) else Go(Done(), Place(), bufOut)
    {
      hide BodyStep, AfterRun, RunsLeft, Done, Out;
      wait := false;
      ok := WriteSegment();
      if ok {
        wait := EndOfTurn();
      }
    }

    /** The current segment, as far as it goes; a segment that is not there or inverted is a panic. */
    method WriteSegment() returns (ok: bool)
      requires Valid() && Busy() && sparseSegments != []
      modifies this`dataSegmentSize, this`bufOut, this`tree, this`fileSize, this`sparseSegmentsIndex
      ensures ok ==> sparseSegmentsIndex <= |sparseSegments| && Partial()
      ensures var s := old(BodyStep(Done(), Out(), RunsLeft(), fileSize, bufOut));
        if !ok then s == Fail(Done()) else s == AfterRun(Done(), Out(), RunsLeft(), fileSize, bufOut)
    {
      hide Write, AfterRun, Zeros, Min, Done;
      if sparseSegmentsIndex >= |sparseSegments| {
        return false;
      }
      var segment := sparseSegments[sparseSegmentsIndex];
      if segment.end < segment.start {
        InvertedStep(sparseSegments, sparseSegmentsIndex);
        return false;
      }
      if segment.Data? {
        ok := WriteDataSegment(segment);
      } else {
        ok := WriteHole(segment);
      }
    }

    /** What follows each segment: the end of the file, or the test whether bytes are needed. */
    method EndOfTurn() returns (wait: bool)
      requires sparseSegments != [] && sparseSegmentsIndex <= |sparseSegments|
      requires !list <==> fOut.Some?
      requires headerLength == None
      requires Partial()
      modifies this`dataSegmentSize, this`sparseSegmentsIndex, this`sparseSegments, this`fOut, this`tree
      ensures Valid()
      ensures old(AfterRun(Done(), Out(), RunsLeft(), fileSize, bufOut)) ==
        if wait then Halt(Done(), Place(), bufOut) else Go(Done(), Place(), bufOut)
    {
      hide Close;
      ghost var segs, i, left := sparseSegments, sparseSegmentsIndex, RunsLeft();
      if fileSize == 0 {
        FinishSparse();
      }
      wait := bufOut == [] && sparseSegmentsIndex < |sparseSegments| && !sparseSegments[sparseSegmentsIndex].Hole?;
      if fileSize != 0 && i < |segs| {
        RunsAt(segs, i);
      }
    }

    /** `eval_header`. */
    method EvalHeader(header: Bytes) returns (ok: bool)
      requires Valid() && !Busy()
      modifies this
      ensures bufOut == old(bufOut) && headerLength == old(headerLength)
      ensures match Decode(header)
        case None => !ok && Done() == old(Done())
        case Some(h) =>
          var e := old(Eval(list, Done(), h));
          && (ok <==> e.Some?)
          && (!ok ==> Done() == old(EvalLeft(Done(), h)))
          && (ok ==> Done() == e.value.0 && Start(e.value.1))
    {
      hide Decode, Enter, SegsOf;
      var hdr := ParseHeader(header);
      if hdr.None? {
        return false;
      }
      var h := hdr.value;
      printed := printed + [h];
      if list {
        if h.OfFile? {
          fileSize := h.size;
          sparseSegments := h.segs;
        }
        StartListed(h);
        return true;
      }
      ok := CreateElement(h);
    }

    /** The fields describe the body that starts now. */
    ghost predicate Start(m: Mode)
      reads this
    {
      if m.InBody? then
        && Busy() && fileSize == m.size && Out() == m.out && RunsLeft() == m.runs
        && sparseSegmentsIndex == 0 && dataSegmentSize == 0 && (list ==> fOut == None)
      else
        && m == AtLength && !Busy() && (list ==> fOut == None)
        && sparseSegmentsIndex == 0 && dataSegmentSize == 0 && (!list ==> sparseSegments == [])
    }

    lemma StartListed(h: Header)
      requires list && fOut == None && sparseSegmentsIndex == 0 && dataSegmentSize == 0
      requires if h.OfFile? then fileSize == h.size && sparseSegments == h.segs else fileSize == 0
      ensures Start(if h.OfFile? && h.size > 0 then InBody(None, BodyRuns(h.segs, h.size), h.size) else AtLength)
    {
      assert sparseSegments[0..] == sparseSegments;
    }

    /** `create_parent_directory`. */
    method CreateParentDirectory(path: Bytes) returns (ok: bool)
      modifies this`tree
      ensures Made(ok, tree) == MakeParent(old(tree), path)
    {
      hide MakeDirs, Resolve;
      var steps := Steps(path);
      if steps == [] {
        return true;
      }
      var dir := steps[..|steps| - 1];
      if !Resolve(tree, [], dir, LINK_LIMIT, false).There? {
        var made := MakeDirs(tree, dir);
        tree := made.tree;
        return made.ok;
      }
      return true;
    }

    /** The part of `eval_header` that creates something. */
    method CreateElement(h: Header) returns (ok: bool)
      requires !list && fOut == None && sparseSegments == []
      modifies this`fOut, this`fileTimes, this`fileSize, this`sparseSegments, this`tree
      modifies this`dirTimes, this`pendingHardlinks
      ensures var made := Enter(old(tree), h);
        && ok == made.ok && tree == made.tree
        && (!ok ==> dirTimes == old(dirTimes) && pendingHardlinks == old(pendingHardlinks))
        && (ok ==>
             && dirTimes == old(dirTimes) + (if h.OfDirectory? then [DirTime(h.path, TimesOf(h))] else [])
             && pendingHardlinks == old(pendingHardlinks) + (if h.OfHardLink? then [LinkJob(h.target, h.path)] else [])
             && (if h.OfFile? then fOut == Some(made.key) && fileTimes == TimesOf(h)
                   && fileSize == h.size && sparseSegments == h.segs
                 else fOut == None && sparseSegments == []))
    {
      hide Exists, MakeParent, MakeDirs, CreateFile, CreateLink, SetPerm, SetPermAt, Steps;
      if !h.OfDirectory? && Exists(tree, h.path) {
        return false;
      }
      if h.OfHardLink? {
        pendingHardlinks := pendingHardlinks + [LinkJob(h.target, h.path)];
        return true;
      }
      fileTimes := TimesOf(h);
      if h.OfDirectory? {
        if !Exists(tree, h.path) {
          var made := MakeDirs(tree, Steps(h.path));
          tree := made.tree;
          if !made.ok {
            return false;
          }
        }
        dirTimes := dirTimes + [DirTime(h.path, TimesOf(h))];
        tree := SetPermAt(tree, h.path, h.perm);
        return true;
      } else if h.OfFile? {
        ok := CreateParentDirectory(h.path);
        if !ok {
          return;
        }
        var file := CreateFile(tree, h.path);
        tree := file.tree;
        if !file.ok {
          return false;
        }
        fOut := Some(file.key);
        fileSize := h.size;
        if h.segs != [] {
          sparseSegments := h.segs;
        }
        tree := SetPerm(tree, file.key, h.perm);
      } else if h.OfSymlink? {
        ok := CreateParentDirectory(h.path);
        if !ok {
          return;
        }
        var made := CreateLink(tree, h.path, Link(h.target, TimesOf(h)));
        tree := made.tree;
        return made.ok;
      } else {
        return false;
      }
    }

    // ---------------------------------------------------------------- the calls

    /** The branches for a complete header length and a complete header. */
    method ReadHeader() returns (ok: bool, wait: bool)
      requires Valid() && !Busy()
      modifies this
      ensures ok ==> Valid()
      ensures var s := old(OneStep(list, Done(), Place(), bufOut));
        if !ok then s == Fail(Done())
        else s == if wait then Halt(Done(), Place(), bufOut) else Go(Done(), Place(), bufOut)
    {
      hide Eval, Decode, FromLE;
      ok, wait := true, false;
      if headerLength.Some? {
        var n := headerLength.value;
        if |bufOut| >= n {
          var header := bufOut[..n];
          bufOut := bufOut[n..];
          ok := EvalHeader(header);
          headerLength := None;
        } else {
          wait := true; // not enough data
        }
      } else if |bufOut| >= 2 {
        var headerLengthBytes := bufOut[..2];
        bufOut := bufOut[2..];
        headerLength := Some(FromLE(headerLengthBytes));
      } else {
        wait := true; // not enough data
      }
    }

    /** One turn of the loop is one step of the parser. */
    method Turn() returns (ok: bool, wait: bool)
      requires Valid()
      modifies this
      ensures ok ==> Valid()
      ensures var s := old(OneStep(list, Done(), Place(), bufOut));
        && (!ok ==> s == Fail(Done()))
        && (ok && !wait ==> s == Go(Done(), Place(), bufOut))
        && (ok && wait ==>
             (s == Halt(Done(), Place(), bufOut) ||
              (s == Go(Done(), Place(), bufOut) && bufOut == [] && Place() == AtLength)))
    {
      hide OneStep;
      ok, wait := true, false;
      if Busy() {
        if sparseSegments == [] {
          wait := WritePlain();
        } else {
          ok, wait := WriteSparse();
        }
      } else {
        ok, wait := ReadHeader();
      }
    }

    /**
      One call of `write_files`: the object ends where the stream language says, or fails where it
      says so. The loop ends, as each turn takes bytes, finishes a segment or closes the file.
     */
    method WriteFiles(bufIn: Bytes) returns (ok: bool)
      requires Valid()
      modifies this
      ensures ok ==> Valid()
      ensures (if ok then Some(Parsed(Done(), Place(), bufOut)) else None)
        == old(Parse(list, Done(), Place(), bufOut + bufIn))
      ensures Done() == old(Left(list, Done(), Place(), bufOut + bufIn))
    {
      hide OneStep, Decode, FromLE;
      ghost var target := Parse(list, Done(), Place(), bufOut + bufIn);
      ghost var end := Left(list, Done(), Place(), bufOut + bufIn);
      bufOut := bufOut + bufIn;
      while true
        invariant Valid()
        invariant Parse(list, Done(), Place(), bufOut) == target
        invariant Left(list, Done(), Place(), bufOut) == end
        decreases |bufOut|, Rank(Place())
      {
        Unfold(list, Done(), Place(), bufOut);
        var wait;
        ok, wait := Turn();
        if !ok {
          return;
        }
        if wait {
          AtRest(list, Done());
          break;
        }
      }
    }

    /** `write_others`: links first, then the times of the directories. */
    method WriteOthers() returns (ok: bool)
      modifies this`tree
      ensures Made(ok, tree) == old(Extraction.Finish(Done()))
    {
      hide Extraction.MakeLink, SetStampAt;
      for i := 0 to |pendingHardlinks|
        invariant Extraction.MakeLinks(old(tree), pendingHardlinks[..i]) == Made(true, tree)
        invariant pendingHardlinks == old(pendingHardlinks) && dirTimes == old(dirTimes)
      {
        NextLink(old(tree), pendingHardlinks, i);
        ok := HardLink(pendingHardlinks[i]);
        if !ok {
          return;
        }
      }
      assert pendingHardlinks[..|pendingHardlinks|] == pendingHardlinks;
      ghost var linked := tree;
      for i := 0 to |dirTimes|
        invariant tree == Extraction.SetTimes(linked, dirTimes[..i])
        invariant dirTimes == old(dirTimes)
      {
        assert dirTimes[..i + 1][..i] == dirTimes[..i];
        tree := SetStampAt(tree, dirTimes[i].path, dirTimes[i].stamp);
      }
      assert dirTimes[..|dirTimes|] == dirTimes;
      return true;
    }

    /** One hard link; its directory is created if it is not there. */
    method HardLink(l: LinkJob) returns (ok: bool)
      modifies this`tree
      ensures Made(ok, tree) == Extraction.MakeLink(old(tree), l)
    {
      hide MakeParent, CreateName;
      ok := CreateParentDirectory(l.path);
      if ok {
        var made := CreateName(tree, l.target, l.path);
        tree := made.tree;
        return made.ok;
      }
    }
  }

  /** A link that fails makes the whole list fail. */
  lemma NextLink(t: Tree, links: seq<LinkJob>, i: nat)
    requires i < |links| && Extraction.MakeLinks(t, links[..i]).ok
    ensures var m := Extraction.MakeLink(Extraction.MakeLinks(t, links[..i]).tree, links[i]);
      && Extraction.MakeLinks(t, links[..i + 1]) == m
      && (!m.ok ==> Extraction.MakeLinks(t, links) == m)
  {
    hide Extraction.MakeLink;
    assert links[..i + 1][..i] == links[..i];
    if !Extraction.MakeLinks(t, links[..i + 1]).ok {
      FailedLink(t, links, i + 1, |links|);
    }
  }

  lemma {:induction false} FailedLink(t: Tree, links: seq<LinkJob>, i: nat, n: nat)
    requires i <= n <= |links| && !Extraction.MakeLinks(t, links[..i]).ok
    ensures Extraction.MakeLinks(t, links[..n]) == Extraction.MakeLinks(t, links[..i]) && links[..|links|] == links
    decreases n - i
  {
    hide Extraction.MakeLink;
    if i == n {
    } else {
      assert links[..i + 1][..i] == links[..i];
      FailedLink(t, links, i + 1, n);
    }
  }

  lemma PlainStep(w: World, out: Option<Target>, size: nat, buf: Bytes)
    ensures var k := Min(|buf|, size);
      var v := Write(w, out, buf[..k]);
      BodyStep(w, out, [Take(size)], size, buf) ==
        if k == size then Go(Close(v, out), AtLength, buf[k..])
        else Halt(v, InBody(out, [Take(size - k)], size - k), buf[k..])
  {
    hide Write, Close;
    assert [Take(size)][1..] == [];
    var k := Min(|buf|, size);
    assert [Take(size - k)] + [] == [Take(size - k)];
  }

  lemma RunsAt(segs: seq<Seg>, i: nat)
    requires i < |segs|
    ensures Runs(segs[i..]) != [] && Runs(segs[i..])[0] == RunOf(segs[i])
    ensures Runs(segs[i..])[1..] == Runs(segs[i + 1..])
  {
  }

  /** What one step says about the whole call. */
  lemma Unfold(list: bool, w: World, m: Mode, buf: Bytes)
    ensures match OneStep(list, w, m, buf)
      case Fail(v) => Parse(list, w, m, buf) == None && Left(list, w, m, buf) == v
      case Halt(v, n, rest) => Parse(list, w, m, buf) == Some(Parsed(v, n, rest)) && Left(list, w, m, buf) == v
      case Go(v, n, rest) =>
        && Parse(list, w, m, buf) == Parse(list, v, n, rest)
        && Left(list, w, m, buf) == Left(list, v, n, rest)
        && (|rest| < |buf| || (|rest| == |buf| && Rank(n) < Rank(m)))
  {
    hide OneStep;
    if OneStep(list, w, m, buf).Go? {
      StepShrinks(list, w, m, buf);
    }
  }

  lemma InvertedStep(segs: seq<Seg>, i: nat)
    requires i < |segs| && segs[i].end < segs[i].start
    ensures Runs(segs[i..]) != [] && Runs(segs[i..])[0].Inverted?
  {
  }

  /** The writer's calls, one after the other. */
  method WriteCalls(aw: ArchiveWrite, calls: seq<Bytes>) returns (ok: bool)
    requires aw.Valid()
    modifies aw
    ensures ok ==> aw.Valid()
    ensures (if ok then Some(Parsed(aw.Done(), aw.Place(), aw.bufOut)) else None)
      == ParseCalls(aw.list, Some(old(Parsed(aw.Done(), aw.Place(), aw.bufOut))), calls)
    ensures aw.Done() == CallsLeft(aw.list, old(Parsed(aw.Done(), aw.Place(), aw.bufOut)), calls)
  {
    hide Parse, Left;
    ghost var start := Some(Parsed(aw.Done(), aw.Place(), aw.bufOut));
    assert calls[0..] == calls;
    for i := 0 to |calls|
      invariant aw.Valid()
      invariant CallsLeft(aw.list, start.value, calls) ==
        CallsLeft(aw.list, Parsed(aw.Done(), aw.Place(), aw.bufOut), calls[i..])
      invariant ParseCalls(aw.list, start, calls) ==
        ParseCalls(aw.list, Some(Parsed(aw.Done(), aw.Place(), aw.bufOut)), calls[i..])
    {
      assert calls[i..][1..] == calls[i + 1..];
      ok := aw.WriteFiles(calls[i]);
      if !ok {
        NoneStays(aw.list, calls[i + 1..]);
        return;
      }
    }
    assert calls[|calls|..] == [];
    return true;
  }

  /**
    A whole extraction into an empty directory: for every archive of one directory tree, in any
    order of its entries and any division into calls, it succeeds and everything is restored.
   */
  method Extract(calls: seq<Bytes>, tree: Tree, ghost es: seq<Entry>) returns (ok: bool, restored: Tree)
    requires Extraction.TreeOk(es) && Extraction.Fresh(World(tree, [], [], []))
    requires forall e :: e in es ==> Archivable(e)
    requires Flatten(calls) == StreamOf(es) && (es == [] || forall c :: c in calls ==> c != [])
    ensures ok && Extraction.Restored(es, restored)
  {
    hide Archivable, ParseCalls, Extraction.TreeOk, Extraction.Restored, Extraction.Fresh, Extraction.Finish;
    var aw := new ArchiveWrite(false, tree);
    Extraction.ExtractionRestores(es, World(tree, [], [], []), calls);
    ok := WriteCalls(aw, calls);
    ok := aw.WriteOthers();
    restored := aw.tree;
  }

  /**
    Extraction of any bytes into any directory: whether it succeeds or not, the content of what was
    there before is still there, unless a file entry had `..` in its path.
   */
  method ExtractAnything(calls: seq<Bytes>, tree: Tree) returns (ok: bool, after: Tree, read: seq<Header>)
    requires WellFormed(tree)
    ensures read == CallsLeft(false, Parsed(World(tree, [], [], []), AtLength, []), calls).seen
    ensures NoOverwrite.StraightFrom(read, 0) ==> AllKept(tree, after)
  {
    hide CallsLeft, ParseCalls, Extraction.Finish, AllKept, NoOverwrite.StraightFrom;
    var aw := new ArchiveWrite(false, tree);
    NoOverwrite.NeverOverwrites(World(tree, [], [], []), calls);
    ok := WriteCalls(aw, calls);
    read := aw.printed;
    if ok {
      ok := aw.WriteOthers();
    }
    after := aw.tree;
  }

  /** Listing the same archive prints its headers in order and leaves the directory alone. */
  method List(calls: seq<Bytes>, tree: Tree, ghost es: seq<Entry>) returns (ok: bool, headers: seq<Header>, after: Tree)
    requires forall e :: e in es ==> Archivable(e)
    requires Flatten(calls) == StreamOf(es) && (es == [] || forall c :: c in calls ==> c != [])
    ensures ok && headers == HeadersOf(es) && after == tree
  {
    hide Archivable, ParseCalls;
    var aw := new ArchiveWrite(true, tree);
    ghost var w := World(tree, [], [], []);
    ListedAll(w, es);
    StreamParsesInCalls(true, w, es, calls);
    assert [] + HeadersOf(es) == HeadersOf(es);
    ok := WriteCalls(aw, calls);
    headers, after := aw.printed, aw.tree;
  }
}

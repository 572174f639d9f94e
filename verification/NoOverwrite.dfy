/**
  What extraction does to files that are there already. A file entry whose path leads somewhere is
  refused, but the path is followed again after its directories have been made, and with `..` in it
  it may lead to an old file then. That is the only way to lose one: without `..` in the paths of
  file entries every old file keeps its content, whatever the stream, malformed or not, and whatever
  the calls, also when a call fails.
 */
module NoOverwrite {
  import opened ByteStrings
  import opened ArchiveHeader
  import opened FileTree
  import opened Paths
  import opened ArchiveStream
  import opened ArchiveEntries
  import opened Extraction
  import CutGuard

  // ------------------------------------------------------------------ one header

  lemma MakeParentKeeps(t: Tree, p: Bytes)
    requires WellFormed(t)
    ensures var m := MakeParent(t, p); AllKept(t, m.tree) && WellFormed(m.tree)
  {
    hide MakeDirs, AllKept, WellFormed, Resolve, Steps;
    SelfKept(t);
    var steps := Steps(p);
    StepsAreStepwise(p);
    if steps != [] {
      forall s | s in steps[..|steps| - 1]
        ensures s == ROOT || IsName(s)
      {
        assert s in steps;
      }
      MakeDirsKeeps(t, steps[..|steps| - 1]);
    }
  }

  /** A file that is created is new, or an old one is emptied and nothing else changes. */
  lemma CreateFileKeeps(t: Tree, p: Bytes)
    requires WellFormed(t)
    ensures var f := CreateFile(t, p);
      && WellFormed(f.tree)
      && (!f.ok || f.key !in t ==> AllKept(t, f.tree))
      && (f.ok ==> f.key in f.tree && f.tree[f.key].Plain?)
      && (f.ok && f.key in t ==> t[f.key].Plain? && f.tree == t[f.key := Plain([], Now, t[f.key].perm)])
  {
    hide Resolve, WellFormed, AllKept, Steps;
    SelfKept(t);
    var r := Resolve(t, [], Steps(p), LINK_LIMIT, true);
    var node := Plain([], Now, NEW_PERM);
    if r.There? {
      if r.key !in t {
        StepsAreStepwise(p);
        var d, n := CreatePlace(t, [], Steps(p), LINK_LIMIT);
        CreateAtWellFormed(t, d, n, node);
        CreateAtKeeps(t, r.key, node);
      } else {
        var k := FileBehind(t, r.key);
        if k in t && t[k].Plain? { ReplacedWellFormed(t, k, Plain([], Now, t[k].perm)); }
      }
    }
  }

  lemma CreateLinkKeeps(t: Tree, p: Bytes, node: Node)
    requires WellFormed(t) && !node.Also?
    ensures var m := CreateLink(t, p, node); AllKept(t, m.tree) && WellFormed(m.tree)
  {
    hide Slot, WellFormed, AllKept, Steps;
    SelfKept(t);
    var r := Slot(t, Steps(p));
    if r.There? && r.key !in t {
      StepsAreStepwise(p);
      var d, n := SlotPlace(t, Steps(p));
      CreateAtKeeps(t, r.key, node);
      CreateAtWellFormed(t, d, n, node);
    }
  }

  lemma CreateNameKeeps(t: Tree, target: Bytes, p: Bytes)
    requires WellFormed(t)
    ensures var m := CreateName(t, target, p); AllKept(t, m.tree) && WellFormed(m.tree)
  {
    hide Slot, AllKept, Steps, CreateAt;
    SelfKept(t);
    var r := Slot(t, Steps(p));
    if CreateName(t, target, p).ok {
      StepsAreStepwise(p);
      var d, n := SlotPlace(t, Steps(p));
      var node := Also(FileBehind(t, Slot(t, Steps(target)).key));
      CreateAtKeeps(t, r.key, node);
      CreateAtWellFormed(t, d, n, node);
    }
  }

  lemma PermKeeps(t: Tree, k: Bytes, perm: Option<nat>)
    requires WellFormed(t)
    ensures AllKept(t, SetPerm(t, k, perm)) && WellFormed(SetPerm(t, k, perm))
  {
  }

  lemma StampKeeps(t: Tree, k: Bytes, stamp: Stamp)
    requires WellFormed(t)
    ensures AllKept(t, SetStamp(t, k, stamp)) && WellFormed(SetStamp(t, k, stamp))
  {
  }

  predicate Straight(p: Bytes) {
    DOTDOT !in Names(p)
  }

  /** An absolute path is barred. */
  lemma RootedIsRefused(t: Tree, p: Bytes)
    requires WellFormed(t) && p != [] && p[0] == SLASH
    ensures !CreateFile(t, p).ok
  {
    hide Names;
    assert Steps(p)[0] == ROOT;
  }

  lemma StraightIsForward(p: Bytes)
    requires Straight(p) && (p != [] ==> p[0] != SLASH)
    ensures Forward(Steps(p))
  {
    NamesAreNames(p);
  }

  /** Without `..` in its path a file that is created is always new: nothing is emptied. */
  lemma StraightFileIsNew(t: Tree, p: Bytes)
    requires WellFormed(t) && Straight(p) && !Exists(t, p)
    ensures var m := MakeParent(t, p); m.ok && CreateFile(m.tree, p).ok ==> CreateFile(m.tree, p).key !in m.tree
  {
    hide Names, Resolve, WellFormed, AllKept, Empty, MakeDirs, Straight;
    var m := MakeParent(t, p);
    var steps := Steps(p);
    MakeParentKeeps(t, p);
    CreateFinds(m.tree, [], steps, LINK_LIMIT);
    if p != [] && p[0] == SLASH {
      RootedIsRefused(m.tree, p);
    } else if steps == [] {
      EmptyPathIsRefused(t, p);
    } else if m.ok && !Resolve(t, [], steps[..|steps| - 1], LINK_LIMIT, false).There? {
      StraightIsForward(p);
      var front, n := steps[..|steps| - 1], steps[|steps| - 1];
      assert n in steps;
      NewDirs(t, front);
      var d := Resolve(m.tree, [], front, LINK_LIMIT, false).key;
      NothingInside(t, m.tree, d, n);
      ResolveLast(m.tree, [], front, LINK_LIMIT, n, true);
      assert front + [n] == steps;
    }
  }

  lemma EmptyPathIsRefused(t: Tree, p: Bytes)
    requires WellFormed(t) && Steps(p) == []
    ensures Exists(t, p)
  {
  }

  lemma EnterFileKeeps(t: Tree, h: Header)
    requires WellFormed(t) && h.OfFile? && !Exists(t, h.path)
    ensures var r := Enter(t, h);
      && WellFormed(r.tree)
      && (!r.ok || r.key !in t ==> AllKept(t, r.tree))
      && (Straight(h.path) && r.ok ==> r.key !in t)
  {
    hide MakeParent, CreateFile, SetPerm, AllKept, WellFormed, Exists, Straight;
    var p := h.path;
    var m := MakeParent(t, p);
    MakeParentKeeps(t, p);
    if m.ok {
      var f := CreateFile(m.tree, p);
      CreateFileKeeps(m.tree, p);
      if Straight(p) { StraightFileIsNew(t, p); }
      if f.ok {
        PermKeeps(f.tree, f.key, h.perm);
        if f.key !in m.tree {
          NotThereBefore(t, m.tree, f.key);
          KeptTwice(t, m.tree, f.tree);
        } else if f.key !in t {
          ChangesNew(t, m.tree, f.key, f.tree[f.key]);
        }
        if f.key !in t { KeptTwice(t, f.tree, SetPerm(f.tree, f.key, h.perm)); }
      } else {
        KeptTwice(t, m.tree, f.tree);
      }
    }
  }

  lemma ChangesNew(t: Tree, u: Tree, k: Bytes, node: Node)
    requires AllKept(t, u) && k !in t
    ensures AllKept(t, u[k := node])
  {
  }

  lemma NotThereBefore(t: Tree, u: Tree, p: Bytes)
    requires AllKept(t, u) && p !in u
    ensures p !in t
  {
  }

  lemma EnterDirectoryKeeps(t: Tree, h: Header)
    requires WellFormed(t) && h.OfDirectory?
    ensures AllKept(t, Enter(t, h).tree) && WellFormed(Enter(t, h).tree)
  {
    hide MakeDirs, AllKept, WellFormed, Find, Steps, SetPerm, FileBehind;
    SelfKept(t);
    StepsAreStepwise(h.path);
    MakeDirsKeeps(t, Steps(h.path));
    var m := if Exists(t, h.path) then Made(true, t) else MakeDirs(t, Steps(h.path));
    var r := Find(m.tree, h.path);
    if m.ok && r.There? {
      PermKeeps(m.tree, FileBehind(m.tree, r.key), h.perm);
      KeptTwice(t, m.tree, Enter(t, h).tree);
    }
  }

  lemma EnterLinkKeeps(t: Tree, h: Header)
    requires WellFormed(t) && h.OfSymlink?
    ensures AllKept(t, Enter(t, h).tree) && WellFormed(Enter(t, h).tree)
  {
    hide MakeParent, CreateLink, AllKept, WellFormed, Exists;
    SelfKept(t);
    var m := MakeParent(t, h.path);
    MakeParentKeeps(t, h.path);
    if m.ok {
      var node := Link(h.target, TimesOf(h));
      CreateLinkKeeps(m.tree, h.path, node);
      KeptTwice(t, m.tree, CreateLink(m.tree, h.path, node).tree);
    }
  }

  /** A header other than that of a file, or one with a straight path, changes nothing that was there. */
  lemma EnterKeeps(t: Tree, h: Header)
    requires WellFormed(t)
    ensures var r := Enter(t, h);
      && WellFormed(r.tree)
      && (h.OfFile? && Straight(h.path) && r.ok ==> r.key !in t)
      && (!h.OfFile? || Straight(h.path) ==> AllKept(t, r.tree))
  {
    hide MakeParent, CreateFile, MakeDirs, SetPerm, SetPermAt, CreateLink, AllKept, WellFormed, Exists, Straight;
    SelfKept(t);
    if h.OfFile? && !Exists(t, h.path) {
      EnterFileKeeps(t, h);
    } else if h.OfDirectory? {
      EnterDirectoryKeeps(t, h);
    } else if h.OfSymlink? {
      EnterLinkKeeps(t, h);
    }
  }

  // ------------------------------------------------------------------ which entries overwrite

  /** The path leads nowhere, and once its directories have been made it leads to `k`. */
  predicate LeadsBack(t: Tree, p: Bytes, k: Bytes) {
    var m := MakeParent(t, p);
    var r := Find(m.tree, p);
    !Exists(t, p) && m.ok && r.There? && FileBehind(m.tree, r.key) == k
  }

  /**
    Exactly when a header makes the program open an old file for writing, and then the file is empty
    at once: the path of a file entry leads to it only after the directories have been made. Every
    other old file keeps its content.
   */
  lemma OverwrittenIff(t: Tree, h: Header, k: Bytes)
    requires WellFormed(t) && k in t && t[k].Plain?
    ensures var r := Enter(t, h);
      && (h.OfFile? && r.ok && r.key == k <==> h.OfFile? && LeadsBack(t, h.path, k))
      && k in r.tree && r.tree[k].Plain?
      && r.tree[k].data == if h.OfFile? && LeadsBack(t, h.path, k) then [] else t[k].data
  {
    hide MakeParent, CreateFile, MakeDirs, SetPermAt, CreateLink, AllKept, WellFormed, Find, Straight;
    EnterKeeps(t, h);
    if h.OfFile? && !Exists(t, h.path) {
      var m := MakeParent(t, h.path);
      MakeParentKeeps(t, h.path);
      KeptFile(t, m.tree, k);
      if m.ok {
        CreatesWhereFound(m.tree, h.path, k);
      }
    } else {
      KeptFile(t, Enter(t, h).tree, k);
    }
  }

  lemma KeptFile(t: Tree, u: Tree, k: Bytes)
    requires k in t && t[k].Plain?
    ensures AllKept(t, u) ==> k in u && u[k].Plain? && u[k].data == t[k].data
  {
  }

  /** `File::create` opens an existing file exactly if the path leads to it. */
  lemma CreatesWhereFound(t: Tree, p: Bytes, k: Bytes)
    requires WellFormed(t) && k in t && t[k].Plain?
    ensures var f, r := CreateFile(t, p), Find(t, p);
      && (f.ok && f.key == k <==> r.There? && FileBehind(t, r.key) == k)
      && k in f.tree && f.tree[k].Plain? && f.tree[k].data == if f.ok && f.key == k then [] else t[k].data
  {
    hide Resolve, WellFormed, AllKept, Steps;
    CreateFileKeeps(t, p);
    CreateFinds(t, [], Steps(p), LINK_LIMIT);
    KeptFile(t, CreateFile(t, p).tree, k);
  }

  // ------------------------------------------------------------------ steps and calls

  /** The open file, if any, was not there before. */
  ghost predicate Safe(t: Tree, w: World, m: Mode) {
    && WellFormed(w.tree) && AllKept(t, w.tree)
    && (m.InBody? && m.out.Some? ==> m.out.value.key !in t)
  }

  /** The headers from number `n` on: the paths of files are straight. */
  predicate StraightFrom(hs: seq<Header>, n: nat) {
    forall i :: n <= i < |hs| && hs[i].OfFile? ==> Straight(hs[i].path)
  }

  lemma EvalSafe(t: Tree, w: World, h: Header)
    requires WellFormed(w.tree) && AllKept(t, w.tree) && (h.OfFile? ==> Straight(h.path))
    ensures AllKept(t, EvalLeft(w, h).tree) && WellFormed(EvalLeft(w, h).tree)
    ensures var e := Eval(false, w, h); e.Some? ==> Safe(t, e.value.0, e.value.1)
  {
    hide Enter, AllKept, BodyRuns, WellFormed, Straight;
    EnterKeeps(w.tree, h);
    KeptTwice(t, w.tree, Enter(w.tree, h).tree);
    if h.OfFile? && Enter(w.tree, h).ok { NotThereBefore(t, w.tree, Enter(w.tree, h).key); }
  }

  /** Writing to a path that was not there before. */
  lemma WriteKeeps(t: Tree, w: World, out: Option<Target>, bytes: Bytes)
    requires WellFormed(w.tree) && AllKept(t, w.tree) && (out.Some? ==> out.value.key !in t)
    ensures var v := Write(w, out, bytes); AllKept(t, v.tree) && WellFormed(v.tree)
    ensures var v := Close(w, out); AllKept(t, v.tree) && WellFormed(v.tree)
  {
    hide AllKept, WellFormed;
    if out.Some? {
      var k := out.value.key;
      StampKeeps(w.tree, k, out.value.stamp);
      KeptTwice(t, w.tree, SetStamp(w.tree, k, out.value.stamp));
      if bytes != [] && k in w.tree && w.tree[k].Plain? {
        var node := Plain(w.tree[k].data + bytes, Now, w.tree[k].perm);
        ReplacedWellFormed(w.tree, k, node);
        ChangesNew(t, w.tree, k, node);
      }
    }
  }

  lemma AfterRunSafe(t: Tree, w: World, out: Option<Target>, left: seq<Run>, size: nat, buf: Bytes)
    requires WellFormed(w.tree) && AllKept(t, w.tree) && (out.Some? ==> out.value.key !in t)
    ensures var s := AfterRun(w, out, left, size, buf); Safe(t, s.w, s.m)
  {
    hide AllKept, WellFormed, Close;
    WriteKeeps(t, w, out, []);
  }

  lemma BodyStepSafe(t: Tree, w: World, out: Option<Target>, runs: seq<Run>, size: nat, buf: Bytes)
    requires WellFormed(w.tree) && AllKept(t, w.tree) && (out.Some? ==> out.value.key !in t)
    ensures var s := BodyStep(w, out, runs, size, buf);
      AllKept(t, s.w.tree) && WellFormed(s.w.tree) && (!s.Fail? ==> Safe(t, s.w, s.m))
  {
    hide AllKept, WellFormed, Write, AfterRun;
    if runs != [] {
      match runs[0] {
        case Take(n) =>
          var k := Min(|buf|, n);
          WriteKeeps(t, w, out, buf[..k]);
          if k <= size {
            var left := if k == n then runs[1..] else [Take(n - k)] + runs[1..];
            AfterRunSafe(t, Write(w, out, buf[..k]), out, left, size - k, buf[k..]);
          }
        case Skip(n) =>
          WriteKeeps(t, w, out, Zeros(n));
          if n <= size {
            AfterRunSafe(t, Write(w, out, Zeros(n)), out, runs[1..], size - n, buf);
          }
        case Inverted(_) =>
      }
    }
  }

  /** No step touches what was there, neither one that goes on nor one that fails. */
  lemma StepSafe(t: Tree, w: World, m: Mode, buf: Bytes)
    requires Safe(t, w, m) && StraightFrom(OneStep(false, w, m, buf).w.seen, |w.seen|)
    ensures var s := OneStep(false, w, m, buf);
      AllKept(t, s.w.tree) && WellFormed(s.w.tree) && (!s.Fail? ==> Safe(t, s.w, s.m))
  {
    hide AllKept, WellFormed, BodyStep, Enter, Decode, Straight, BodyRuns;
    match m {
      case AtLength =>
      case AtHeader(n) =>
        if |buf| >= n && Decode(buf[..n]).Some? {
          var h := Decode(buf[..n]).value;
          assert OneStep(false, w, m, buf).w.seen[|w.seen|] == h;
          EvalSafe(t, w, h);
        }
      case InBody(out, runs, size) =>
        BodyStepSafe(t, w, out, runs, size, buf);
    }
  }

  /** Headers are only added to the list. */
  lemma StepSeen(w: World, m: Mode, buf: Bytes)
    ensures w.seen <= OneStep(false, w, m, buf).w.seen
  {
    hide Enter, Decode, BodyRuns, Append, SetStamp;
  }

  lemma {:induction false} CallSeen(w: World, m: Mode, buf: Bytes)
    ensures w.seen <= Left(false, w, m, buf).seen
    decreases |buf|, Rank(m)
  {
    hide OneStep;
    StepSeen(w, m, buf);
    var s := OneStep(false, w, m, buf);
    if !s.Go? {
    } else {
      StepShrinks(false, w, m, buf);
      CallSeen(s.w, s.m, s.rest);
    }
  }

  /** So no call does, whether it gets through or fails. */
  lemma {:induction false} CallSafe(t: Tree, w: World, m: Mode, buf: Bytes)
    requires Safe(t, w, m) && StraightFrom(Left(false, w, m, buf).seen, |w.seen|)
    ensures var v := Left(false, w, m, buf); AllKept(t, v.tree) && WellFormed(v.tree)
    ensures var p := Parse(false, w, m, buf); p.Some? ==> Safe(t, p.value.w, p.value.m)
    decreases |buf|, Rank(m)
  {
    hide OneStep, Safe, AllKept, WellFormed, Straight;
    var s := OneStep(false, w, m, buf);
    StepSeen(w, m, buf);
    if !s.Go? {
      StepSafe(t, w, m, buf);
    } else {
      StepShrinks(false, w, m, buf);
      CallSeen(s.w, s.m, s.rest);
      StepSafe(t, w, m, buf);
      CallSafe(t, s.w, s.m, s.rest);
    }
  }

  lemma {:induction false} CallsSeen(p: Parsed, calls: seq<Bytes>)
    ensures p.w.seen <= CallsLeft(false, p, calls).seen
    decreases |calls|
  {
    hide Parse, Left;
    if calls == [] {
    } else {
      CallSeen(p.w, p.m, p.rest + calls[0]);
      LeftIsParsed(false, p.w, p.m, p.rest + calls[0]);
      var q := Resume(false, Some(p), calls[0]);
      if q.Some? { CallsSeen(q.value, calls[1..]); }
    }
  }

  lemma {:induction false} CallsSafe(t: Tree, p: Parsed, calls: seq<Bytes>)
    requires Safe(t, p.w, p.m) && StraightFrom(CallsLeft(false, p, calls).seen, |p.w.seen|)
    ensures var v := CallsLeft(false, p, calls); AllKept(t, v.tree) && WellFormed(v.tree)
    decreases |calls|
  {
    hide Parse, Left, AllKept, WellFormed, Straight;
    if calls == [] {
    } else {
      var q := Resume(false, Some(p), calls[0]);
      CallSeen(p.w, p.m, p.rest + calls[0]);
      LeftIsParsed(false, p.w, p.m, p.rest + calls[0]);
      if q.Some? {
        CallsSeen(q.value, calls[1..]);
        CallSafe(t, p.w, p.m, p.rest + calls[0]);
        CallsSafe(t, q.value, calls[1..]);
      } else {
        CallSafe(t, p.w, p.m, p.rest + calls[0]);
      }
    }
  }

  // ------------------------------------------------------------------ the deferred work

  lemma MakeLinkKeeps(t: Tree, l: LinkJob)
    requires WellFormed(t)
    ensures var m := MakeLink(t, l); AllKept(t, m.tree) && WellFormed(m.tree)
  {
    hide MakeParent, CreateName, AllKept, WellFormed;
    var m := MakeParent(t, l.path);
    MakeParentKeeps(t, l.path);
    if m.ok {
      CreateNameKeeps(m.tree, l.target, l.path);
      KeptTwice(t, m.tree, CreateName(m.tree, l.target, l.path).tree);
    }
  }

  lemma {:induction false} MakeLinksKeep(t: Tree, links: seq<LinkJob>)
    requires WellFormed(t)
    ensures var m := MakeLinks(t, links); AllKept(t, m.tree) && WellFormed(m.tree)
    decreases |links|
  {
    hide MakeLink, AllKept, WellFormed;
    if links == [] {
      SelfKept(t);
    } else {
      var n := |links| - 1;
      MakeLinksKeep(t, links[..n]);
      var m := MakeLinks(t, links[..n]);
      if m.ok {
        MakeLinkKeeps(m.tree, links[n]);
        KeptTwice(t, m.tree, MakeLink(m.tree, links[n]).tree);
      }
    }
  }

  lemma StampAtKeeps(t: Tree, p: Bytes, stamp: Stamp)
    requires WellFormed(t)
    ensures AllKept(t, SetStampAt(t, p, stamp)) && WellFormed(SetStampAt(t, p, stamp))
  {
    hide Find, SetStamp, AllKept, WellFormed;
    SelfKept(t);
    var r := Find(t, p);
    if r.There? { StampKeeps(t, FileBehind(t, r.key), stamp); }
  }

  lemma {:induction false} SetTimesKeep(t: Tree, dirTimes: seq<DirTime>)
    requires WellFormed(t)
    ensures AllKept(t, SetTimes(t, dirTimes)) && WellFormed(SetTimes(t, dirTimes))
    decreases |dirTimes|
  {
    hide SetStampAt, AllKept, WellFormed;
    if dirTimes == [] {
      SelfKept(t);
    } else {
      var n := |dirTimes| - 1;
      SetTimesKeep(t, dirTimes[..n]);
      var u := SetTimes(t, dirTimes[..n]);
      StampAtKeeps(u, dirTimes[n].path, dirTimes[n].stamp);
      KeptTwice(t, u, SetTimes(t, dirTimes));
    }
  }

  /** The deferred work never touches a content. */
  lemma FinishKeeps(w: World)
    requires WellFormed(w.tree)
    ensures AllKept(w.tree, Finish(w).tree)
  {
    hide MakeLinks, SetTimes, AllKept, WellFormed;
    var m := MakeLinks(w.tree, w.links);
    MakeLinksKeep(w.tree, w.links);
    if m.ok {
      SetTimesKeep(m.tree, w.dirTimes);
      KeptTwice(w.tree, m.tree, Finish(w).tree);
    }
  }

  /**
    For every stream, every division into calls and every output directory: if no file entry has `..`
    in its path, what was there before is there with its content after the last call, whether that
    call got through or failed, and after the deferred work, whether that got through or failed.
   */
  lemma NeverOverwrites(w: World, calls: seq<Bytes>)
    requires WellFormed(w.tree)
    ensures var v := CallsLeft(false, Parsed(w, AtLength, []), calls);
      StraightFrom(v.seen, |w.seen|) ==> AllKept(w.tree, v.tree) && AllKept(w.tree, Finish(v).tree)
  {
    hide CallsLeft, Finish, AllKept, WellFormed, StraightFrom;
    SelfKept(w.tree);
    var v := CallsLeft(false, Parsed(w, AtLength, []), calls);
    if StraightFrom(v.seen, |w.seen|) {
      CallsSafe(w.tree, Parsed(w, AtLength, []), calls);
      FinishKeeps(v);
      KeptTwice(w.tree, v.tree, Finish(v).tree);
    }
  }

  // ------------------------------------------------------------------ a file that is lost

  /** `x/../a` */
  const THROUGH_X: Bytes := [Raw(120), SLASH, Raw(46), Raw(46), SLASH, Raw(97)]

  lemma ThroughXSteps()
    ensures Steps(THROUGH_X) == [[Raw(120)], DOTDOT, [Raw(97)]]
  {
    hide Names, Join;
    var x, a := [Raw(120)], [Raw(97)];
    assert Join([], x) == x && Join(x, DOTDOT) == x + [SLASH] + DOTDOT by { JoinIs([], x); JoinIs(x, DOTDOT); }
    var q := Join(x, DOTDOT);
    assert Join(q, a) == q + [SLASH] + a == THROUGH_X by { JoinIs(q, a); }
    assert Names([]) == [] by { NoNames([]); }
    NamesOfJoin([], x);
    NamesOfJoin(x, DOTDOT);
    NamesOfJoin(q, a);
  }

  lemma JoinIs(d: Bytes, n: Bytes)
    ensures Join(d, n) == if d == [] then n else d + [SLASH] + n
  {
  }

  /** An output directory with a file `a` and nothing else. */
  ghost predicate OnlyA(t: Tree) {
    t.Keys == {[], [Raw(97)]} && t[[]].Dir? && t[[Raw(97)]].Plain?
  }

  lemma OnlyAWellFormed(t: Tree)
    requires OnlyA(t)
    ensures WellFormed(t)
  {
    var a := [Raw(97)];
    assert a[..0] == [];
    assert Parent(a) == [];
  }

  /** The directory `x` is made, and then the path leads to `a`. */
  lemma ThroughXLeadsBack(t: Tree)
    requires OnlyA(t)
    ensures LeadsBack(t, THROUGH_X, [Raw(97)])
  {
    var x, a := [Raw(120)], [Raw(97)];
    var steps := [x, DOTDOT, a];
    ThroughXSteps();
    assert steps[..2] == [x, DOTDOT] && steps[..2][..1] == [x] && [x][..0] == [];
    assert steps[1..] == [DOTDOT, a] && steps[1..][1..] == [a] && [a][1..] == [] && [x][1..] == [];
    assert [x, DOTDOT][1..] == [DOTDOT] && [DOTDOT][1..] == [];
    assert x[..0] == [] && Parent(x) == [];
    var u := CreateAt(t, x, Dir(Now, NEW_PERM));
    assert Slot(t, [x]) == There(x) && MakeDir(t, [x]) == Made(true, u);
    assert Resolve(t, [], [x], LINK_LIMIT, false) == Absent && Slot(t, [x, DOTDOT]) == Absent;
    assert MakeDirs(t, [x]) == Made(true, u);
    assert Resolve(u, x, [DOTDOT], LINK_LIMIT, false) == There([]);
    assert IsDir(u, [x, DOTDOT]);
    assert Resolve(u, [], [x], LINK_LIMIT, false) == There(x) && Slot(u, [x, DOTDOT]) == Barred;
    assert MakeDirs(t, [x, DOTDOT]) == Made(true, u);
    assert Resolve(u, [], [a], LINK_LIMIT, false) == There(a);
    assert Resolve(u, x, [DOTDOT, a], LINK_LIMIT, false) == There(a);
    assert Find(u, THROUGH_X) == There(a);
  }

  /** So a header with that path is accepted and opens `a`, which is empty then. */
  lemma ThroughXOpens(w: World, size: nat)
    requires OnlyA(w.tree)
    ensures var x := Eval(false, w, OfFile(THROUGH_X, 0, 0, size, [], Some(0))); var a := [Raw(97)];
      && x.Some? && x.value.1 == InBody(Some(Target(a, At(0, 0))), [Take(size)], size)
      && a in x.value.0.tree && x.value.0.tree[a].Plain? && x.value.0.tree[a].data == []
  {
    hide Enter, LeadsBack, WellFormed;
    OnlyAWellFormed(w.tree);
    ThroughXLeadsBack(w.tree);
    OverwrittenIff(w.tree, OfFile(THROUGH_X, 0, 0, size, [], Some(0)), [Raw(97)]);
  }

  /** The archive of one file `x/../a` is extracted without an error, and the old file `a` has the new content. */
  lemma DotDotOverwrites(w: World, data: Bytes)
    requires OnlyA(w.tree) && |data| < U64_LIMIT
    ensures var h := CutGuard.StoredHeader(THROUGH_X, |data|, []);
      var p := Parse(false, w, AtLength, LE(|h|, 2) + h + data);
      && p.Some? && p.value.m == AtLength && p.value.rest == []
      && [Raw(97)] in p.value.w.tree
      && p.value.w.tree[[Raw(97)]].Plain? && p.value.w.tree[[Raw(97)]].data == data
  {
    hide Decode, CutGuard.StoredHeader, Eval, Parse, OnlyA, SafeStream, LE;
    var h := CutGuard.StoredHeader(THROUGH_X, |data|, []);
    CutGuard.StoredHeaderDecodes(THROUGH_X, |data|, []);
    NoHolesNoSegs(|data|);
    ThroughXOpens(w, |data|);
    ThroughXIsShort(|data|);
    CutGuard.HeaderLeadsTo(false, w, h, data);
    var x := Eval(false, w, Decode(h).value).value;
    OneRun(data);
    BodyParses(false, x.0, x.1.out, x.1.runs, data, []);
    assert data + [] == data && [] + data == data;
    AtRest(false, Filled(x.0, x.1.out, data));
    EmptyIsFilled(x.0, x.1.out.value, data);
  }

  lemma EmptyIsFilled(w: World, o: Target, data: Bytes)
    requires o.key in w.tree && w.tree[o.key].Plain? && w.tree[o.key].data == []
    ensures var t := Filled(w, Some(o), data).tree; o.key in t && t[o.key].Plain? && t[o.key].data == data
  {
    assert [] + data == data;
  }

  lemma NoHolesNoSegs(size: nat)
    ensures SegsOf([], size) == []
  {
  }

  lemma ThroughXIsShort(size: nat)
    ensures |CutGuard.StoredHeader(THROUGH_X, size, [])| < U16_LIMIT
  {
    hide LE;
  }

  // ------------------------------------------------------------------ an entry that exists already

  /** An entry whose path leads somewhere makes the call fail, unless it is a directory. */
  lemma TakenPathIsRefused(w: World, e: Entry, t: Bytes)
    requires Archivable(e) && !e.Directory? && Exists(w.tree, e.path)
    ensures Parse(false, w, AtLength, Group(e) + t) == None
    ensures Left(false, w, AtLength, Group(e) + t).tree == w.tree
  {
    hide Decode, Body, DataOf, Fits, LE, FromLE, Pow256, ReadBack, Exists;
    var body := Body(e);
    FitsLength(e);
    FromLEOfLE(|body|, 2);
    var all, s := Group(e) + t, body + (DataOf(e) + t);
    assert all[..2] == LE(|body|, 2) && all[2..] == s;
    assert OneStep(false, w, AtLength, all) == Go(w, AtHeader(|body|), s);
    TakenStep(w, e, s);
  }

  lemma FitsLength(e: Entry)
    requires Fits(e)
    ensures |Body(e)| < Pow256(2)
  {
    Widths();
  }

  lemma TakenStep(w: World, e: Entry, s: Bytes)
    requires Archivable(e) && !e.Directory? && Exists(w.tree, e.path) && Body(e) <= s
    ensures var r := OneStep(false, w, AtHeader(|Body(e)|), s); r.Fail? && r.w.tree == w.tree
  {
    hide Decode, Body, Fits, LE, MakeParent, Exists;
    HeaderRoundTrip(e);
    assert s[..|Body(e)|] == Body(e);
    ReadBackPath(e);
  }

  lemma ReadBackPath(e: Entry)
    ensures ReadBack(e).path == e.path && (ReadBack(e).OfDirectory? <==> e.Directory?)
  {
  }

  /** The name of a place with a symbolic link leads where the link leads. */
  lemma LinkLeads(t: Tree, p: Bytes, create: bool)
    requires WellFormed(t) && Canonical(p) && p in t && IsLink(t, p)
    ensures p != []
    ensures Resolve(t, [], Steps(p), LINK_LIMIT, create)
      == Resolve(t, Parent(p), LinkSteps(t, p), LINK_LIMIT - 1, create)
    ensures MakeParent(t, p) == Made(true, t)
  {
    hide WellFormed, Canonical, IsLink, LinkSteps, Names, MakeDirs;
    NotRoot(t, p);
    UpIsDir(t, p);
    StepsOfCanonical(p);
    CanonicalLeads(t, Parent(p), [Base(p)], LINK_LIMIT, create);
    CanonicalLeads(t, Parent(p), [], LINK_LIMIT, false);
    assert Names(Parent(p)) + [] == Names(Parent(p));
    assert [Base(p)][1..] == [] && LinkSteps(t, p) + [] == LinkSteps(t, p);
  }

  /** A place that is taken by anything but a symbolic link exists; a link exists if it leads somewhere. */
  lemma TakenPlaceExists(t: Tree, p: Bytes)
    requires WellFormed(t) && Canonical(p) && p in t
    ensures !IsLink(t, p) ==> Exists(t, p)
    ensures IsLink(t, p) ==>
      (Exists(t, p) <==> Resolve(t, Parent(p), LinkSteps(t, p), LINK_LIMIT - 1, false).There?)
  {
    hide WellFormed, Canonical, IsLink, LinkSteps, Resolve, Reachable;
    if IsLink(t, p) {
      LinkLeads(t, p, false);
    } else {
      PresentReachable(t, p);
      FindCanonical(t, p);
    }
  }

  /** A file entry at the place of a link that leads nowhere creates the file the link leads to. */
  lemma LinkToNothingIsFollowed(t: Tree, h: Header, k: Bytes)
    requires WellFormed(t) && h.OfFile? && Canonical(h.path) && h.path in t && IsLink(t, h.path)
    requires Resolve(t, Parent(h.path), LinkSteps(t, h.path), LINK_LIMIT - 1, true) == There(k) && k !in t
    ensures var r := Enter(t, h); r.ok && r.key == k && k in r.tree && r.tree[k].Plain? && AllKept(t, r.tree)
  {
    hide WellFormed, Canonical, IsLink, LinkSteps, Resolve, AllKept, MakeParent, CreateAt;
    LinkLeads(t, h.path, true);
    CreateFinds(t, [], Steps(h.path), LINK_LIMIT);
    CreateFileKeeps(t, h.path);
    EnterFileKeeps(t, h);
  }

  lemma NotRoot(t: Tree, p: Bytes)
    requires WellFormed(t) && p in t && IsLink(t, p)
    ensures p != []
  {
  }

  // ------------------------------------------------------------------ list mode

  lemma BodyStepListsOnly(w: World, runs: seq<Run>, size: nat, buf: Bytes)
    ensures var s := BodyStep(w, None, runs, size, buf);
      s.w.tree == w.tree && (!s.Fail? && s.m.InBody? ==> s.m.out == None)
  {
  }

  /** List mode changes nothing on any stream. */
  lemma {:induction false} ListingChangesNothing(w: World, m: Mode, buf: Bytes)
    requires m.InBody? ==> m.out == None
    ensures Left(true, w, m, buf).tree == w.tree
    decreases |buf|, Rank(m)
  {
    hide BodyStep, Decode, BodyRuns;
    if m.InBody? { BodyStepListsOnly(w, m.runs, m.size, buf); }
    var s := OneStep(true, w, m, buf);
    if !s.Go? {
    } else {
      StepShrinks(true, w, m, buf);
      ListingChangesNothing(s.w, s.m, s.rest);
    }
  }
}

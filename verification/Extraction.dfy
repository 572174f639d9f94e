/**
  From the parsed stream to the restored directory: whatever the order of the entries, afterwards
  every entry is there as it was archived, and nothing else but directories that lead to entries.
 */
module Extraction {
  import opened ByteStrings
  import opened ArchiveHeader
  import opened FileTree
  import opened Paths
  import opened ArchiveStream
  import opened ArchiveEntries

  // ------------------------------------------------------------------ what is expected

  /** Two different entries of one directory tree. */
  ghost predicate Compatible(a: Entry, b: Entry) {
    && a.path != b.path
    && (Above(a.path, b.path) ==> a.Directory?)
    && (Above(b.path, a.path) ==> b.Directory?)
  }

  /** The empty path is the archived directory itself. */
  predicate ProperPath(e: Entry) {
    Canonical(e.path) && (e.path == [] ==> e.Directory?)
  }

  ghost predicate Fitting(done: seq<Entry>, e: Entry) {
    ProperPath(e) && forall d :: d in done ==> Compatible(d, e)
  }

  ghost predicate IsFileEntry(es: seq<Entry>, p: Bytes) {
    exists f :: f in es && f.File? && f.path == p
  }

  /** The entries of one directory tree in any order; a hard link leads to a regular file among them. */
  ghost predicate TreeOk(es: seq<Entry>) {
    && (forall i :: 0 <= i < |es| ==> Fitting(es[..i], es[i]))
    && (forall e :: e in es && e.HardLink? ==> IsFileEntry(es, e.target))
  }

  function NodeOf(e: Entry): Node {
    match e
    case File(_, atime, mtime, mode, content, _) => Plain(content, At(atime, mtime), mode % 0x1000)
    case Directory(_, atime, mtime, mode) => Dir(At(atime, mtime), mode % 0x1000)
    case Symlink(_, atime, mtime, target, _) => Link(target, At(atime, mtime))
    case HardLink(_, target) => Also(target)
  }

  /** Nothing is there without a reason. */
  ghost predicate Known(es: seq<Entry>, t: Tree) {
    && WellFormed(t)
    && forall p :: p in t && p != [] ==> HasReason(es, p, t[p])
  }

  ghost predicate HasReason(es: seq<Entry>, p: Bytes, n: Node) {
    exists e :: e in es && (e.path == p || (Above(p, e.path) && n.Dir?))
  }

  /** Every entry has been restored. */
  ghost predicate Restored(es: seq<Entry>, t: Tree) {
    && (forall e :: e in es ==> e.path in t && t[e.path] == NodeOf(e))
    && (forall e :: e in es && e.HardLink? ==> e.target in t && t[e.target].Plain?)
    && Known(es, t)
  }

  // ------------------------------------------------------------------ adding one node

  /** Only `p` is new or different, apart from directories on the way to it and times of directories. */
  ghost predicate Placed(t: Tree, u: Tree, p: Bytes) {
    && (forall q :: q in t && q != p ==> q in u && Same(t[q], u[q]))
    && (forall q :: q in u && q !in t && q != p ==> u[q].Dir? && Above(q, p))
  }

  /** The way to a fitting entry is free, and so is its place, unless a directory is there already. */
  lemma WayIsFree(done: seq<Entry>, t: Tree, e: Entry)
    requires Known(done, t) && Fitting(done, e)
    requires forall d :: d in done && d.Directory? && d.path in t ==> t[d.path].Dir?
    ensures Reachable(t, e.path)
    ensures e.path in t ==> e.Directory? && t[e.path].Dir?
  {
    forall q | q in t && Above(q, e.path)
      ensures t[q].Dir?
    {
      if q != [] {
        assert HasReason(done, q, t[q]);
        var d :| d in done && (d.path == q || (Above(q, d.path) && t[q].Dir?));
        assert Compatible(d, e);
      }
    }
    if e.path in t && e.path != [] {
      assert HasReason(done, e.path, t[e.path]);
      var d :| d in done && (d.path == e.path || (Above(e.path, d.path) && t[e.path].Dir?));
      assert Compatible(d, e);
    }
  }

  lemma PlacedKnown(done: seq<Entry>, t: Tree, u: Tree, e: Entry)
    requires Known(done, t) && Placed(t, u, e.path) && WellFormed(u)
    ensures Known(done + [e], u)
  {
    forall p | p in u && p != []
      ensures HasReason(done + [e], p, u[p])
    {
      if p in t && p != e.path {
        assert HasReason(done, p, t[p]);
        var d :| d in done && (d.path == p || (Above(p, d.path) && t[p].Dir?));
        assert d in done + [e];
      } else {
        assert e in done + [e];
      }
    }
  }

  // ------------------------------------------------------------------ one entry

  /** An entry right after it was read: directories have no times yet, hard links are not there yet. */
  ghost predicate Entered(e: Entry, t: Tree) {
    if e.HardLink? then e.path !in t else
    && e.path in t
    && if e.Directory? then t[e.path].Dir? && t[e.path].perm == e.mode % 0x1000 else t[e.path] == NodeOf(e)
  }

  /** The state after some of the entries. */
  ghost predicate Extracted(done: seq<Entry>, w: World) {
    && Known(done, w.tree)
    && (forall d :: d in done ==> Entered(d, w.tree))
    && w.dirTimes == DirTimesOf(done)
    && w.links == LinksOf(done)
  }

  function DirTimesOf(es: seq<Entry>): seq<DirTime> {
    if es == [] then [] else
    var e := es[|es| - 1];
    DirTimesOf(es[..|es| - 1]) + (if e.Directory? then [DirTime(e.path, At(e.atime, e.mtime))] else [])
  }

  function LinksOf(es: seq<Entry>): seq<LinkJob> {
    if es == [] then [] else
    var e := es[|es| - 1];
    LinksOf(es[..|es| - 1]) + (if e.HardLink? then [LinkJob(e.target, e.path)] else [])
  }

  lemma ListsSnoc(es: seq<Entry>, e: Entry)
    ensures DirTimesOf(es + [e])
      == DirTimesOf(es) + (if e.Directory? then [DirTime(e.path, At(e.atime, e.mtime))] else [])
    ensures LinksOf(es + [e]) == LinksOf(es) + (if e.HardLink? then [LinkJob(e.target, e.path)] else [])
  {
    assert (es + [e])[..|es|] == es;
  }

  lemma EnteredStays(d: Entry, e: Entry, t: Tree, u: Tree)
    requires Entered(d, t) && Compatible(d, e) && Placed(t, u, e.path)
    ensures Entered(d, u)
  {
  }

  /** A place where nothing is yet, and the way there is free. */
  ghost predicate Free(t: Tree, p: Bytes) {
    WellFormed(t) && Canonical(p) && Reachable(t, p) && p != [] && p !in t
  }

  lemma FreeDoesNotExist(t: Tree, p: Bytes)
    requires Free(t, p)
    ensures !Exists(t, p)
  {
    FindCanonical(t, p);
  }

  lemma FileEntered(t: Tree, e: Entry)
    requires e.File? && Free(t, e.path)
    ensures var r, u := Enter(t, ReadBack(e)), CreateAt(MakeParent(t, e.path).tree, e.path, Plain([], Now, NEW_PERM));
      r.ok && r.key == e.path && r.tree == SetPerm(u, e.path, Some(e.mode % 0x1000))
  {
    hide Exists, Resolve, MakeParent, CreateAt, Reachable, Canonical, WellFormed, SegsOf;
    FreeDoesNotExist(t, e.path);
    CreateGrows(t, e.path, Plain([], Now, NEW_PERM));
  }

  lemma FileAfter(w: World, e: Entry)
    requires e.File? && Free(w.tree, e.path)
    ensures After(false, w, e).Some?
    ensures var v := After(false, w, e).value;
      && Placed(w.tree, v.tree, e.path) && WellFormed(v.tree) && e.path in v.tree && v.tree[e.path] == NodeOf(e)
      && v.dirTimes == w.dirTimes && v.links == w.links
  {
    hide Enter, MakeParent, CreateAt, BodyRuns, SegsOf, Reachable, Canonical, WellFormed, Append, SetPerm, SetStamp;
    FileEntered(w.tree, e);
    CreateGrows(w.tree, e.path, Plain([], Now, NEW_PERM));
    var u := CreateAt(MakeParent(w.tree, e.path).tree, e.path, Plain([], Now, NEW_PERM));
    FileFilled(u, e);
    ReplacedWellFormed(u, e.path, NodeOf(e));
  }

  lemma ReplacedWellFormed(t: Tree, k: Bytes, node: Node)
    requires WellFormed(t) && k in t && ((t[k].Plain? && node.Plain?) || (t[k].Dir? && node.Dir?))
    ensures WellFormed(t[k := node])
  {
  }

  lemma FileFilled(u: Tree, e: Entry)
    requires e.File? && e.path in u && u[e.path] == Plain([], Now, NEW_PERM)
    ensures SetStamp(Append(SetPerm(u, e.path, Some(e.mode % 0x1000)), e.path, e.content), e.path, At(e.atime, e.mtime))
      == u[e.path := NodeOf(e)]
  {
    var a := SetPerm(u, e.path, Some(e.mode % 0x1000));
    assert a[e.path] == Plain([], Now, e.mode % 0x1000);
    var b := Append(a, e.path, e.content);
    assert [] + e.content == e.content;
    assert b[e.path] == Plain(e.content, Now, e.mode % 0x1000);
  }

  /** A directory where nothing is in the way. */
  ghost predicate FreeForDir(t: Tree, p: Bytes) {
    WellFormed(t) && Canonical(p) && Reachable(t, p) && (p in t ==> t[p].Dir?)
  }

  lemma DirPermitted(t: Tree, p: Bytes, perm: nat)
    requires FreeForDir(t, p) && p in t
    ensures SetPermAt(t, p, Some(perm)) == t[p := Dir(t[p].stamp, perm % 0x1000)]
    ensures WellFormed(t[p := Dir(t[p].stamp, perm % 0x1000)])
  {
    hide Find, Reachable, Canonical;
    DirNoLink(t, p);
    FindCanonical(t, p);
  }

  lemma DirectoryEntered(t: Tree, e: Entry)
    requires e.Directory? && FreeForDir(t, e.path)
    ensures var r := Enter(t, ReadBack(e));
      && r.ok && Placed(t, r.tree, e.path) && WellFormed(r.tree)
      && e.path in r.tree && r.tree[e.path].Dir? && r.tree[e.path].perm == e.mode % 0x1000
  {
    hide Exists, SetPermAt, MakeDirs, FreeForDir, WellFormed, Steps, GrewTo, Placed;
    var p := e.path;
    var m := if Exists(t, p) then Made(true, t) else MakeDirs(t, Steps(p));
    DirectoryMade(t, p);
    DirPermitted(m.tree, p, e.mode % 0x1000);
    PermittedIsPlaced(t, m.tree, p, Dir(m.tree[p].stamp, e.mode % 0x1000));
  }

  lemma PermittedIsPlaced(t: Tree, u: Tree, p: Bytes, node: Node)
    requires GrewTo(t, u, p) && p in u
    ensures Placed(t, u[p := node], p)
  {
  }

  /** The directory of an entry, whether it was there or had to be made. */
  lemma DirectoryMade(t: Tree, p: Bytes)
    requires FreeForDir(t, p)
    ensures var m := if Exists(t, p) then Made(true, t) else MakeDirs(t, Steps(p));
      m.ok && FreeForDir(m.tree, p) && GrewTo(t, m.tree, p) && p in m.tree && m.tree[p].Dir?
  {
    hide Find, MakeDirs, Canonical, WellFormed, Steps;
    if p in t { DirNoLink(t, p); }
    FindCanonical(t, p);
    StepsOfCanonical(p);
    MakeDirsGrows(t, p);
  }

  lemma DirectoryAfter(w: World, e: Entry)
    requires e.Directory? && FreeForDir(w.tree, e.path)
    ensures After(false, w, e).Some?
    ensures var v := After(false, w, e).value;
      && Placed(w.tree, v.tree, e.path) && WellFormed(v.tree) && Entered(e, v.tree)
      && v.dirTimes == w.dirTimes + [DirTime(e.path, At(e.atime, e.mtime))] && v.links == w.links
  {
    hide Enter, WellFormed, Placed, FreeForDir;
    DirectoryEntered(w.tree, e);
  }

  lemma SymlinkAfter(w: World, e: Entry)
    requires e.Symlink? && Free(w.tree, e.path)
    ensures After(false, w, e).Some?
    ensures var v := After(false, w, e).value;
      && Placed(w.tree, v.tree, e.path) && WellFormed(v.tree) && e.path in v.tree && v.tree[e.path] == NodeOf(e)
      && v.dirTimes == w.dirTimes && v.links == w.links
  {
    hide Exists, Resolve, Slot, MakeParent, CreateAt, Reachable, Canonical, WellFormed;
    FreeDoesNotExist(w.tree, e.path);
    CreateGrows(w.tree, e.path, NodeOf(e));
  }

  lemma HardLinkAfter(w: World, e: Entry)
    requires e.HardLink? && Free(w.tree, e.path)
    ensures After(false, w, e).Some?
    ensures var v := After(false, w, e).value;
      && v.tree == w.tree && v.dirTimes == w.dirTimes && v.links == w.links + [LinkJob(e.target, e.path)]
  {
    hide Exists, Resolve, Reachable, Canonical, WellFormed;
    FreeDoesNotExist(w.tree, e.path);
  }

  lemma EntryAfter(w: World, e: Entry)
    requires WellFormed(w.tree) && ProperPath(e) && Reachable(w.tree, e.path)
    requires e.path in w.tree ==> e.Directory? && w.tree[e.path].Dir?
    ensures After(false, w, e).Some?
    ensures var v := After(false, w, e).value;
      && Placed(w.tree, v.tree, e.path) && WellFormed(v.tree) && Entered(e, v.tree)
      && v.dirTimes == w.dirTimes + (if e.Directory? then [DirTime(e.path, At(e.atime, e.mtime))] else [])
      && v.links == w.links + (if e.HardLink? then [LinkJob(e.target, e.path)] else [])
  {
    hide After, Reachable, WellFormed, Canonical;
    match e {
      case File(_, _, _, _, _, _) => FileAfter(w, e);
      case Directory(_, _, _, _) => DirectoryAfter(w, e);
      case Symlink(_, _, _, _, _) => SymlinkAfter(w, e);
      case HardLink(_, _) => HardLinkAfter(w, e);
    }
  }

  lemma KnownWellFormed(es: seq<Entry>, t: Tree)
    requires Known(es, t)
    ensures WellFormed(t)
  {
  }

  lemma ExtractOne(done: seq<Entry>, w: World, e: Entry)
    requires Extracted(done, w) && Fitting(done, e)
    ensures After(false, w, e).Some? && Extracted(done + [e], After(false, w, e).value)
  {
    hide After, Reachable, Placed, Compatible, Known, WellFormed, Canonical;
    assert WellFormed(w.tree) by { KnownWellFormed(done, w.tree); }
    WayIsFree(done, w.tree, e);
    EntryAfter(w, e);
    var v := After(false, w, e).value;
    PlacedKnown(done, w.tree, v.tree, e);
    ListsSnoc(done, e);
    forall d | d in done
      ensures Entered(d, v.tree)
    {
      assert Compatible(d, e);
      EnteredStays(d, e, w.tree, v.tree);
    }
  }

  /** Entries that fit together are extracted without an error, in whatever order they come. */
  lemma {:induction false} ExtractAll(done: seq<Entry>, w: World, es: seq<Entry>)
    requires Extracted(done, w)
    requires forall i :: 0 <= i < |es| ==> Fitting(done + es[..i], es[i])
    ensures AfterAll(false, w, es).Some? && Extracted(done + es, AfterAll(false, w, es).value)
    decreases |es|
  {
    hide After, Extracted, Fitting;
    if es == [] {
      assert done + es == done;
    } else {
      assert done + es[..0] == done;
      ExtractOne(done, w, es[0]);
      var more := done + [es[0]];
      forall i | 0 <= i < |es[1..]|
        ensures Fitting(more + es[1..][..i], es[1..][i])
      {
        assert more + es[1..][..i] == done + es[..i + 1];
      }
      ExtractAll(more, After(false, w, es[0]).value, es[1..]);
      assert more + es[1..] == done + es;
    }
  }

  // ------------------------------------------------------------------ the deferred work

  /** The first loop of `write_others`; it ends with the first link that cannot be made. */
  function MakeLinks(t: Tree, links: seq<LinkJob>): Made {
    if links == [] then Made(true, t) else
    var n := |links| - 1;
    var m := MakeLinks(t, links[..n]);
    if m.ok then MakeLink(m.tree, links[n]) else m
  }

  /** Directories made for a link that fails stay. */
  function MakeLink(t: Tree, l: LinkJob): Made {
    var m := MakeParent(t, l.path);
    if m.ok then CreateName(m.tree, l.target, l.path) else m
  }

  /** The second loop. */
  function SetTimes(t: Tree, dirTimes: seq<DirTime>): Tree {
    if dirTimes == [] then t else
    var n := |dirTimes| - 1;
    SetStampAt(SetTimes(t, dirTimes[..n]), dirTimes[n].path, dirTimes[n].stamp)
  }

  /** `write_others`. */
  function Finish(w: World): Made {
    var m := MakeLinks(w.tree, w.links);
    if m.ok then Made(true, SetTimes(m.tree, w.dirTimes)) else m
  }

  /** Among the first `k` entries the hard links have been made. */
  ghost predicate Linked(es: seq<Entry>, k: nat, t: Tree) {
    && k <= |es|
    && Known(es, t)
    && forall i :: 0 <= i < |es| ==>
         if es[i].HardLink? && i < k then es[i].path in t && t[es[i].path] == NodeOf(es[i]) else Entered(es[i], t)
  }

  lemma {:induction false} PresentReachable(t: Tree, p: Bytes)
    requires WellFormed(t) && p in t
    ensures Reachable(t, p)
    decreases |p|
  {
    if p == [] {
    } else {
      PresentReachable(t, Parent(p));
    }
  }

  lemma MakeLinkGrows(t: Tree, l: LinkJob)
    requires Free(t, l.path) && Canonical(l.target) && l.target in t && t[l.target].Plain?
    ensures MakeLink(t, l).ok
    ensures var u := MakeLink(t, l).tree;
      Placed(t, u, l.path) && WellFormed(u) && l.path in u && u[l.path] == Also(l.target)
  {
    hide MakeParent, Slot, Steps, Reachable, Canonical, WellFormed, CreateAt, Resolve;
    CreateGrows(t, l.path, Also(l.target));
    var m := MakeParent(t, l.path).tree;
    MakeParentGrows(t, l.path);
    TargetSlot(m, l.target);
    StepsOfCanonical(l.target);
  }

  lemma TargetSlot(t: Tree, p: Bytes)
    requires WellFormed(t) && Canonical(p) && p in t && t[p].Plain?
    ensures Slot(t, Names(p)) == There(p) && FileBehind(t, p) == p
  {
    hide Slot, Names, Reachable, Canonical;
    PresentReachable(t, p);
    SlotCanonical(t, p);
  }

  lemma FittingPairs(es: seq<Entry>, i: nat, j: nat)
    requires TreeOk(es) && i < |es| && j < |es| && i != j
    ensures Compatible(es[i], es[j])
  {
    var k := if i < j then j else i;
    assert Fitting(es[..k], es[k]);
    if i < j {
      assert es[..j][i] in es[..j];
    } else {
      assert es[..i][j] in es[..i];
    }
  }

  /** The way to a hard link is free when its turn comes. */
  lemma LinkWayIsFree(es: seq<Entry>, k: nat, t: Tree)
    requires TreeOk(es) && Linked(es, k, t) && k < |es| && es[k].HardLink?
    ensures Free(t, es[k].path)
  {
    hide Canonical;
    var e := es[k];
    assert Fitting(es[..k], e);
    forall q | q in t && Above(q, e.path)
      ensures t[q].Dir?
    {
      if q != [] {
        assert HasReason(es, q, t[q]);
        var d :| d in es && (d.path == q || (Above(q, d.path) && t[q].Dir?));
        var i :| 0 <= i < |es| && es[i] == d;
        if i == k {
          if d.path == q { AboveShorter(q, q); }
        } else {
          FittingPairs(es, i, k);
        }
      }
    }
  }

  lemma LinkOne(es: seq<Entry>, k: nat, t: Tree)
    requires TreeOk(es) && Linked(es, k, t) && k < |es|
    ensures es[k].HardLink? ==> MakeLink(t, LinkJob(es[k].target, es[k].path)).ok
    ensures Linked(es, k + 1, if es[k].HardLink? then MakeLink(t, LinkJob(es[k].target, es[k].path)).tree else t)
  {
    hide MakeLink, Reachable, Known, TreeOk, WellFormed, Canonical;
    var e := es[k];
    if e.HardLink? {
      LinkTarget(es, k, t);
      LinkWayIsFree(es, k, t);
      MakeLinkGrows(t, LinkJob(e.target, e.path));
      var u := MakeLink(t, LinkJob(e.target, e.path)).tree;
      LinkKnown(es, t, u, e);
      forall i | 0 <= i < |es| && i != k
        ensures if es[i].HardLink? && i < k then es[i].path in u && u[es[i].path] == NodeOf(es[i])
          else Entered(es[i], u)
      {
        FittingPairs(es, i, k);
      }
    }
  }

  lemma LinkTarget(es: seq<Entry>, k: nat, t: Tree)
    requires TreeOk(es) && Linked(es, k, t) && k < |es| && es[k].HardLink?
    ensures es[k].target in t && t[es[k].target].Plain? && Canonical(es[k].target)
  {
    assert es[k] in es;
    assert IsFileEntry(es, es[k].target);
    var f :| f in es && f.File? && f.path == es[k].target;
    assert Entered(f, t);
    var i :| 0 <= i < |es| && es[i] == f;
    assert Fitting(es[..i], f);
  }

  lemma LinkKnown(es: seq<Entry>, t: Tree, u: Tree, e: Entry)
    requires Known(es, t) && Placed(t, u, e.path) && e in es && WellFormed(u)
    ensures Known(es, u)
  {
    forall p | p in u && p != []
      ensures HasReason(es, p, u[p])
    {
      if p in t && p != e.path {
        assert HasReason(es, p, t[p]);
      }
    }
  }

  /** Every hard link can be made: its target is a regular file that is there. */
  lemma {:induction false} LinkAll(es: seq<Entry>, k: nat, t: Tree)
    requires TreeOk(es) && Linked(es, 0, t) && k <= |es|
    ensures MakeLinks(t, LinksOf(es[..k])).ok && Linked(es, k, MakeLinks(t, LinksOf(es[..k])).tree)
    decreases k
  {
    hide TreeOk, Linked, MakeLink;
    if k == 0 {
    } else {
      LinkAll(es, k - 1, t);
      LinkOne(es, k - 1, MakeLinks(t, LinksOf(es[..k - 1])).tree);
      assert es[..k][..k - 1] == es[..k - 1];
      var done := LinksOf(es[..k - 1]);
      if es[k - 1].HardLink? {
        var job := LinkJob(es[k - 1].target, es[k - 1].path);
        assert (done + [job])[..|done|] == done;
      } else {
        assert done + [] == done;
      }
    }
  }

  /** Among the first `k` entries the directories have their times. */
  ghost predicate Timed(es: seq<Entry>, k: nat, t: Tree) {
    && k <= |es|
    && Known(es, t)
    && forall i :: 0 <= i < |es| ==>
         if es[i].Directory? && i >= k then Entered(es[i], t) else es[i].path in t && t[es[i].path] == NodeOf(es[i])
  }

  lemma TimeOne(es: seq<Entry>, k: nat, t: Tree)
    requires TreeOk(es) && Timed(es, k, t) && k < |es|
    ensures Timed(es, k + 1, if es[k].Directory? then SetStampAt(t, es[k].path, At(es[k].atime, es[k].mtime)) else t)
  {
    hide TreeOk, Known, SetStampAt;
    var e := es[k];
    if e.Directory? {
      var u := SetStamp(t, e.path, At(e.atime, e.mtime));
      assert Entered(e, t);
      assert SetStampAt(t, e.path, At(e.atime, e.mtime)) == u by {
        KnownWellFormed(es, t);
        ProperAt(es, k);
        DirStamped(t, e.path, At(e.atime, e.mtime));
      }
      StampKnown(es, t, e.path, At(e.atime, e.mtime));
      forall i | 0 <= i < |es| && i != k
        ensures es[i].path in t && es[i].path in u && u[es[i].path] == t[es[i].path]
      {
        FittingPairs(es, i, k);
      }
    }
  }

  lemma ProperAt(es: seq<Entry>, k: nat)
    requires TreeOk(es) && k < |es|
    ensures ProperPath(es[k])
  {
    assert Fitting(es[..k], es[k]);
  }

  lemma DirStamped(t: Tree, p: Bytes, stamp: Stamp)
    requires WellFormed(t) && Canonical(p) && p in t && t[p].Dir?
    ensures SetStampAt(t, p, stamp) == SetStamp(t, p, stamp)
  {
    hide Find, Canonical, Reachable, WellFormed;
    PresentReachable(t, p);
    DirNoLink(t, p);
    FindCanonical(t, p);
  }

  lemma StampKnown(es: seq<Entry>, t: Tree, p: Bytes, stamp: Stamp)
    requires Known(es, t) && p in t && t[p].Dir?
    ensures Known(es, SetStamp(t, p, stamp))
  {
    hide WellFormed;
    var u := SetStamp(t, p, stamp);
    ReplacedWellFormed(t, p, Stamped(t[p], stamp));
    forall q | q in u && q != []
      ensures HasReason(es, q, u[q])
    {
      assert HasReason(es, q, t[q]);
    }
  }

  lemma {:induction false} TimeAll(es: seq<Entry>, k: nat, t: Tree)
    requires TreeOk(es) && Timed(es, 0, t) && k <= |es|
    ensures Timed(es, k, SetTimes(t, DirTimesOf(es[..k])))
    decreases k
  {
    hide TreeOk, Timed, SetStampAt;
    if k == 0 {
    } else {
      TimeAll(es, k - 1, t);
      TimeOne(es, k - 1, SetTimes(t, DirTimesOf(es[..k - 1])));
      assert es[..k][..k - 1] == es[..k - 1];
      var done := DirTimesOf(es[..k - 1]);
      if es[k - 1].Directory? {
        var job := DirTime(es[k - 1].path, At(es[k - 1].atime, es[k - 1].mtime));
        assert (done + [job])[..|done|] == done;
      } else {
        assert done + [] == done;
      }
    }
  }

  /** Links first, then the times of all directories: everything is as it was archived. */
  lemma DeferredWork(es: seq<Entry>, w: World)
    requires TreeOk(es) && Extracted(es, w)
    ensures Finish(w).ok && Restored(es, Finish(w).tree)
  {
    hide TreeOk, Known, MakeLinks, SetTimes;
    assert es[..|es|] == es;
    LinkAll(es, |es|, w.tree);
    var t := MakeLinks(w.tree, w.links).tree;
    assert Timed(es, 0, t);
    TimeAll(es, |es|, t);
    var u := SetTimes(t, w.dirTimes);
    forall e | e in es && e.HardLink?
      ensures e.target in u && u[e.target].Plain?
    {
      assert IsFileEntry(es, e.target) by { TargetIsFile(es, e); }
      var f :| f in es && f.File? && f.path == e.target;
    }
  }

  lemma TargetIsFile(es: seq<Entry>, e: Entry)
    requires TreeOk(es) && e in es && e.HardLink?
    ensures IsFileEntry(es, e.target)
  {
  }

  // ------------------------------------------------------------------ the whole extraction

  /** An output directory with nothing in it, and no work deferred. */
  ghost predicate Fresh(w: World) {
    w.tree.Keys == {[]} && w.tree[[]].Dir? && w.dirTimes == [] && w.links == []
  }

  /**
    Extracting an archive restores it, whatever the order of the entries in the stream and whatever
    the division of the stream into calls of `write_files`.
   */
  lemma ExtractionRestores(es: seq<Entry>, w: World, calls: seq<Bytes>)
    requires TreeOk(es) && Fresh(w) && forall e :: e in es ==> Archivable(e)
    requires Flatten(calls) == StreamOf(es) && (es == [] || forall c :: c in calls ==> c != [])
    ensures var p := ParseCalls(false, Some(Parsed(w, AtLength, [])), calls);
      && p.Some? && p.value.m == AtLength && p.value.rest == []
      && Finish(p.value.w).ok && Restored(es, Finish(p.value.w).tree)
  {
    hide Archivable, AfterAll, ParseCalls, Restored, Finish, Fitting;
    assert Extracted([], w);
    forall i | 0 <= i < |es|
      ensures Fitting([] + es[..i], es[i])
    {
      assert [] + es[..i] == es[..i];
    }
    ExtractAll([], w, es);
    assert [] + es == es;
    StreamParsesInCalls(false, w, es, calls);
    DeferredWork(es, AfterAll(false, w, es).value);
  }
}

/**
  Laws of path resolution: what stays reachable when something is added, when creating directories
  makes new ones, and that a path as the archiver writes it leads to the place of the same name.
 */
module Paths {
  import opened ByteStrings
  import opened FileTree

  // ------------------------------------------------------------------ names

  predicate IsName(n: Bytes) {
    n != [] && SLASH !in n
  }

  ghost predicate Stepwise(steps: seq<Bytes>) {
    forall s :: s in steps ==> s == ROOT || IsName(s)
  }

  lemma {:induction false} ParentOfName(d: Bytes, n: Bytes)
    requires IsName(n)
    ensures Parent(Join(d, n)) == d
    ensures Join(d, n) != []
    decreases |n|
  {
    if |n| == 1 {
      var p := Join(d, n);
      assert p[|p| - 1] == n[0];
      if d == [] {
        assert p[..|p| - 1] == [];
      } else {
        assert p[..|p| - 1] == d + [SLASH];
        assert (d + [SLASH])[..|d + [SLASH]| - 1] == d;
      }
    } else {
      var m := n[..|n| - 1];
      ParentOfName(d, m);
      assert Join(d, n)[..|Join(d, n)| - 1] == Join(d, m);
    }
  }

  lemma BaseOfName(d: Bytes, n: Bytes)
    requires IsName(n)
    ensures Base(Join(d, n)) == n
  {
    ParentOfName(d, n);
  }

  /** The names on the way to a name in a directory. */
  lemma NamesOfJoin(d: Bytes, n: Bytes)
    requires IsName(n) && n != DOT
    ensures Names(Join(d, n)) == Names(d) + [n]
  {
    ParentOfName(d, n);
    BaseOfName(d, n);
  }

  /** No slash stands behind the last one. */
  lemma {:induction false} NoSlashBehind(p: Bytes)
    requires p != []
    ensures SLASH !in p[|Parent(p)| + 1..]
    ensures p[|Parent(p)|] != SLASH ==> SLASH !in p
    decreases |p|
  {
    var n := |p| - 1;
    if p[n] == SLASH {
    } else if n == 0 {
    } else {
      NoSlashBehind(p[..n]);
      var k := |Parent(p)|;
      assert p[k + 1..] == p[..n][k + 1..] + [p[n]];
      assert p == p[..n] + [p[n]];
    }
  }

  lemma {:induction false} NamesAreNames(p: Bytes)
    ensures forall s :: s in Names(p) ==> IsName(s)
    decreases |p|
  {
    if p == [] {
    } else {
      NamesAreNames(Parent(p));
      NoSlashBehind(p);
    }
  }

  lemma StepsAreStepwise(p: Bytes)
    ensures Stepwise(Steps(p))
  {
    NamesAreNames(p);
  }

  lemma LinkStepwise(t: Tree, k: Bytes)
    requires IsLink(t, k)
    ensures Stepwise(LinkSteps(t, k))
  {
    StepsAreStepwise(t[FileBehind(t, k)].target);
  }

  // ------------------------------------------------------------------ adding a node

  lemma CreateAtKeeps(t: Tree, k: Bytes, node: Node)
    requires k !in t
    ensures AllKept(t, CreateAt(t, k, node))
  {
  }

  lemma CreateAtWellFormed(t: Tree, d: Bytes, n: Bytes, node: Node)
    requires WellFormed(t) && d in t && t[d].Dir? && IsName(n) && Join(d, n) !in t
    requires node.Also? ==> node.target in t && !t[node.target].Dir? && !t[node.target].Also?
    ensures WellFormed(CreateAt(t, Join(d, n), node))
  {
    hide Parent, Join;
    ParentOfName(d, n);
  }

  lemma KeptTwice(t: Tree, u: Tree, v: Tree)
    requires AllKept(t, u) && AllKept(u, v)
    ensures AllKept(t, v)
  {
  }

  lemma SelfKept(t: Tree)
    ensures AllKept(t, t)
  {
  }

  lemma LinksStay(t: Tree, u: Tree, k: Bytes)
    requires WellFormed(t) && AllKept(t, u) && k in t
    ensures FileBehind(t, k) == FileBehind(u, k) && (IsLink(t, k) <==> IsLink(u, k))
    ensures IsLink(t, k) ==> LinkSteps(t, k) == LinkSteps(u, k)
  {
  }

  /** What a path led to it still leads to. */
  lemma {:induction false} ResolveStays(t: Tree, u: Tree, cur: Bytes, steps: seq<Bytes>, links: nat)
    requires WellFormed(t) && AllKept(t, u) && Resolve(t, cur, steps, links, false).There?
    ensures Resolve(u, cur, steps, links, false) == Resolve(t, cur, steps, links, false)
    decreases links, |steps|
  {
    hide WellFormed, IsLink, LinkSteps;
    if steps == [] {
    } else if steps[0] == DOTDOT {
      ResolveStays(t, u, Parent(cur), steps[1..], links);
    } else {
      var k := Join(cur, steps[0]);
      LinksStay(t, u, k);
      if IsLink(t, k) {
        ResolveStays(t, u, cur, LinkSteps(t, k) + steps[1..], links - 1);
      } else {
        ResolveStays(t, u, k, steps[1..], links);
      }
    }
  }

  /** One more name in a directory, if that is not a link. */
  lemma {:induction false} ResolveLast(t: Tree, cur: Bytes, steps: seq<Bytes>, links: nat, n: Bytes, create: bool)
    requires IsName(n) && n != DOTDOT
    requires var r := Resolve(t, cur, steps, links, false);
      r.There? && t[r.key].Dir? && (Join(r.key, n) in t ==> !IsLink(t, Join(r.key, n)))
    ensures var k := Join(Resolve(t, cur, steps, links, false).key, n);
      Resolve(t, cur, steps + [n], links, create) == if k in t || create then There(k) else Absent
    decreases links, |steps|
  {
    hide IsLink, LinkSteps;
    if steps == [] {
      assert (steps + [n])[1..] == [];
    } else {
      assert (steps + [n])[1..] == steps[1..] + [n];
      if steps[0] == DOTDOT {
        ResolveLast(t, Parent(cur), steps[1..], links, n, create);
      } else {
        var k := Join(cur, steps[0]);
        if IsLink(t, k) {
          var way := LinkSteps(t, k);
          assert way + (steps[1..] + [n]) == way + steps[1..] + [n];
          ResolveLast(t, cur, way + steps[1..], links - 1, n, create);
        } else {
          ResolveLast(t, k, steps[1..], links, n, create);
        }
      }
    }
  }

  /** Looking for a file to create and finding one is finding it. */
  lemma {:induction false} CreateFinds(t: Tree, cur: Bytes, steps: seq<Bytes>, links: nat)
    ensures var r := Resolve(t, cur, steps, links, true);
      r.There? && r.key in t <==> Resolve(t, cur, steps, links, false).There?
    ensures var r := Resolve(t, cur, steps, links, false); r.There? ==> Resolve(t, cur, steps, links, true) == r
    decreases links, |steps|
  {
    hide IsLink, LinkSteps;
    if cur !in t || steps == [] || !t[cur].Dir? {
    } else if steps[0] == DOTDOT {
      if cur == [] {
      } else {
        CreateFinds(t, Parent(cur), steps[1..], links);
      }
    } else {
      var k := Join(cur, steps[0]);
      if k !in t || (IsLink(t, k) && links == 0) {
      } else if IsLink(t, k) {
        CreateFinds(t, cur, LinkSteps(t, k) + steps[1..], links - 1);
      } else {
        CreateFinds(t, k, steps[1..], links);
      }
    }
  }

  /** A file that is created is in a directory that is there. */
  lemma {:induction false} CreatePlace(t: Tree, cur: Bytes, steps: seq<Bytes>, links: nat) returns (d: Bytes, n: Bytes)
    requires Stepwise(steps)
    requires var r := Resolve(t, cur, steps, links, true); r.There? && r.key !in t
    ensures d in t && t[d].Dir? && IsName(n) && Resolve(t, cur, steps, links, true).key == Join(d, n)
    decreases links, |steps|
  {
    hide IsLink, LinkSteps;
    if steps[0] == DOTDOT {
      d, n := CreatePlace(t, Parent(cur), steps[1..], links);
    } else {
      var k := Join(cur, steps[0]);
      if k !in t {
        d, n := cur, steps[0];
      } else if IsLink(t, k) {
        LinkStepwise(t, k);
        d, n := CreatePlace(t, cur, LinkSteps(t, k) + steps[1..], links - 1);
      } else {
        d, n := CreatePlace(t, k, steps[1..], links);
      }
    }
  }

  lemma SlotPlace(t: Tree, steps: seq<Bytes>) returns (d: Bytes, n: Bytes)
    requires Stepwise(steps) && Slot(t, steps).There?
    ensures d in t && t[d].Dir? && IsName(n) && n != DOTDOT && Slot(t, steps).key == Join(d, n)
    ensures steps != [] && n == steps[|steps| - 1]
    ensures Resolve(t, [], steps[..|steps| - 1], LINK_LIMIT, false) == There(d)
  {
    n := steps[|steps| - 1];
    d := Resolve(t, [], steps[..|steps| - 1], LINK_LIMIT, false).key;
    assert n in steps;
  }

  // ------------------------------------------------------------------ creating directories

  /** Nothing is in `d`. */
  ghost predicate Empty(t: Tree, d: Bytes) {
    d in t && t[d].Dir? && forall k :: k in t && k != [] ==> Parent(k) != d
  }

  lemma MakeDirKeeps(t: Tree, steps: seq<Bytes>)
    requires WellFormed(t) && Stepwise(steps)
    ensures var m := MakeDir(t, steps); AllKept(t, m.tree) && WellFormed(m.tree)
  {
    hide Resolve, WellFormed, AllKept;
    SelfKept(t);
    var r := Slot(t, steps);
    if r.There? && r.key !in t {
      var d, n := SlotPlace(t, steps);
      CreateAtKeeps(t, r.key, Dir(Now, NEW_PERM));
      CreateAtWellFormed(t, d, n, Dir(Now, NEW_PERM));
    }
  }

  /** Creating directories changes nothing that was there, whether it is possible or not. */
  lemma {:induction false} MakeDirsKeeps(t: Tree, steps: seq<Bytes>)
    requires WellFormed(t) && Stepwise(steps)
    ensures var m := MakeDirs(t, steps); AllKept(t, m.tree) && WellFormed(m.tree)
    decreases |steps|
  {
    hide WellFormed, AllKept, MakeDir, Resolve;
    if Slot(t, steps) != Absent {
      MakeDirKeeps(t, steps);
    } else {
      var m := MakeDirs(t, steps[..|steps| - 1]);
      MakeDirsKeeps(t, steps[..|steps| - 1]);
      if m.ok {
        MakeDirKeeps(m.tree, steps);
        KeptTwice(t, m.tree, MakeDir(m.tree, steps).tree);
      }
    }
  }

  /** Names only: neither `..` nor the root. */
  ghost predicate Forward(steps: seq<Bytes>) {
    forall s :: s in steps ==> IsName(s) && s != DOTDOT
  }

  /** A directory that can be made is empty, and the path leads there. */
  lemma NewDir(t: Tree, steps: seq<Bytes>)
    requires WellFormed(t) && Forward(steps) && Slot(t, steps).There? && Slot(t, steps).key !in t
    ensures var m := MakeDir(t, steps); var r := Resolve(m.tree, [], steps, LINK_LIMIT, false);
      m.ok && r == Slot(t, steps) && Empty(m.tree, r.key)
  {
    hide Resolve, Slot, WellFormed, AllKept, IsLink, FileBehind, CreateAt, Empty;
    var d, n := SlotPlace(t, steps);
    var k, node := Slot(t, steps).key, Dir(Now, NEW_PERM);
    var u := CreateAt(t, k, node);
    CreateAtKeeps(t, k, node);
    CreateAtWellFormed(t, d, n, node);
    ParentOfName(d, n);
    var front := steps[..|steps| - 1];
    ResolveStays(t, u, [], front, LINK_LIMIT);
    assert k in u && u[k] == node by { CreatedAt(t, k, node); }
    DirNoLink(u, k);
    DirStays(t, u, d);
    NewIsEmpty(t, k, node);
    ResolveLast(u, [], front, LINK_LIMIT, n, false);
    assert front + [n] == steps;
  }

  lemma CreatedAt(t: Tree, k: Bytes, node: Node)
    ensures k in CreateAt(t, k, node) && CreateAt(t, k, node)[k] == node
  {
  }

  lemma NewIsEmpty(t: Tree, k: Bytes, node: Node)
    requires WellFormed(t) && k !in t && node.Dir? && k != []
    ensures Empty(CreateAt(t, k, node), k)
  {
  }

  lemma DirNoLink(t: Tree, k: Bytes)
    requires k in t && t[k].Dir?
    ensures !IsLink(t, k) && FileBehind(t, k) == k
  {
  }

  lemma DirStays(t: Tree, u: Tree, d: Bytes)
    requires AllKept(t, u) && d in t && t[d].Dir?
    ensures d in u && u[d].Dir?
  {
  }

  /**
    If a path without `..` leads nowhere, its directories can be made only by making the last one:
    afterwards the path leads to a directory that was not there before, and it is empty.
   */
  lemma {:induction false} NewDirs(t: Tree, steps: seq<Bytes>)
    requires WellFormed(t) && Forward(steps)
    requires !Resolve(t, [], steps, LINK_LIMIT, false).There? && MakeDirs(t, steps).ok
    ensures var u := MakeDirs(t, steps).tree; var r := Resolve(u, [], steps, LINK_LIMIT, false);
      r.There? && r.key !in t && Empty(u, r.key)
    decreases |steps|
  {
    hide Resolve, WellFormed, AllKept, Empty;
    if Slot(t, steps) != Absent {
      NewDir(t, steps);
    } else {
      var front, n := steps[..|steps| - 1], steps[|steps| - 1];
      var u := MakeDirs(t, front).tree;
      NewDirs(t, front);
      MakeDirsKeeps(t, front);
      var d := Resolve(u, [], front, LINK_LIMIT, false).key;
      assert n in steps;
      NothingInside(t, u, d, n);
      NewDir(u, steps);
    }
  }

  lemma NothingInside(t: Tree, u: Tree, d: Bytes, n: Bytes)
    requires Empty(u, d) && IsName(n)
    ensures Join(d, n) !in u && u[d].Dir?
    ensures AllKept(t, u) ==> Join(d, n) !in t
  {
    ParentOfName(d, n);
  }

  // ------------------------------------------------------------------ paths as the archiver writes them

  /** A path that is the name of a place: names between single slashes, none of them `.` or `..`. */
  predicate Canonical(p: Bytes)
    decreases |p|
  {
    p == [] || (
      && Base(p) != [] && Base(p) != DOT && Base(p) != DOTDOT
      && p == Join(Parent(p), Base(p)) && Canonical(Parent(p)))
  }

  lemma BaseIsName(p: Bytes)
    requires p != [] && Base(p) != []
    ensures IsName(Base(p))
  {
    NoSlashBehind(p);
  }

  lemma {:induction false} NotRooted(p: Bytes)
    requires Canonical(p) && p != []
    ensures p[0] != SLASH
    decreases |p|
  {
    if Parent(p) == [] {
      BaseIsName(p);
      assert p[0] in Base(p);
    } else {
      NotRooted(Parent(p));
      assert p[0] == Parent(p)[0];
    }
  }

  /** The steps of such a path are the names on the way. */
  lemma StepsOfCanonical(p: Bytes)
    requires Canonical(p)
    ensures Steps(p) == Names(p)
    ensures p != [] ==> Names(p) == Names(Parent(p)) + [Base(p)] && IsName(Base(p))
    ensures p != [] ==> Names(p)[..|Names(p)| - 1] == Names(Parent(p)) && Names(p)[|Names(p)| - 1] == Base(p)
  {
    if p != [] {
      NotRooted(p);
      BaseIsName(p);
      assert (Names(Parent(p)) + [Base(p)])[..|Names(Parent(p))|] == Names(Parent(p));
    }
    assert [] + Names(p) == Names(p);
  }

  /** Whatever is on the way to `p` is a directory. */
  ghost predicate Reachable(t: Tree, p: Bytes) {
    forall q :: q in t && Above(q, p) ==> t[q].Dir?
  }

  lemma ParentReachable(t: Tree, p: Bytes)
    requires Reachable(t, p) && p != []
    ensures Reachable(t, Parent(p)) && (Parent(p) in t ==> t[Parent(p)].Dir?)
  {
    assert Above(Parent(p), p);
    forall q | q in t && Above(q, Parent(p))
      ensures t[q].Dir?
    {
      assert Above(q, p);
    }
  }

  lemma ResolveName(t: Tree, d: Bytes, n: Bytes, more: seq<Bytes>, links: nat, create: bool)
    requires d in t && t[d].Dir? && n != ROOT && n != DOTDOT && (Join(d, n) in t ==> !IsLink(t, Join(d, n)))
    ensures Resolve(t, d, [n] + more, links, create) ==
      if Join(d, n) in t then Resolve(t, Join(d, n), more, links, create)
      else if create && more == [] then There(Join(d, n)) else Absent
  {
    hide IsLink;
    assert ([n] + more)[1..] == more;
  }

  lemma NoNames(more: seq<Bytes>)
    ensures Names([]) + more == more
  {
  }

  /** The name of a place that is there leads there. */
  lemma {:induction false} CanonicalLeads(t: Tree, p: Bytes, more: seq<Bytes>, links: nat, create: bool)
    requires WellFormed(t) && Canonical(p) && p in t && !IsLink(t, p)
    ensures Resolve(t, [], Names(p) + more, links, create) == Resolve(t, p, more, links, create)
    decreases |p|
  {
    hide Canonical, IsLink, Names, Resolve, WellFormed;
    if p == [] {
      NoNames(more);
    } else {
      StepsOfCanonical(p);
      var up := Parent(p);
      UpIsDir(t, p);
      CanonicalLeads(t, up, [Base(p)] + more, links, create);
      assert Names(p) + more == Names(up) + ([Base(p)] + more);
      ResolveName(t, up, Base(p), more, links, create);
    }
  }

  lemma UpIsDir(t: Tree, p: Bytes)
    requires WellFormed(t) && Canonical(p) && p in t && p != []
    ensures Parent(p) in t && t[Parent(p)].Dir? && !IsLink(t, Parent(p)) && Canonical(Parent(p))
    ensures p == Join(Parent(p), Base(p)) && Base(p) != DOTDOT && Base(p) != ROOT
  {
    BaseIsName(p);
  }

  /** The name of a place that is not there leads nowhere; a file can be created there if its directory is there. */
  lemma {:induction false} MissingLeads(t: Tree, p: Bytes, more: seq<Bytes>, links: nat, create: bool)
    requires WellFormed(t) && Canonical(p) && p !in t && Reachable(t, p)
    ensures Resolve(t, [], Names(p) + more, links, create)
      == if create && more == [] && Parent(p) in t then There(p) else Absent
    decreases |p|
  {
    hide WellFormed, IsLink, Names, Reachable, Resolve;
    assert [] in t by { RootIsDir(t); }
    var up := Parent(p);
    StepsOfCanonical(p);
    ParentReachable(t, p);
    assert Names(p) + more == Names(up) + ([Base(p)] + more);
    if up in t {
      DirNoLink(t, up);
      CanonicalLeads(t, up, [Base(p)] + more, links, create);
      ResolveName(t, up, Base(p), more, links, create);
    } else {
      MissingLeads(t, up, [Base(p)] + more, links, create);
    }
  }

  lemma RootIsDir(t: Tree)
    requires WellFormed(t)
    ensures [] in t && t[[]].Dir?
  {
  }

  /** `p` is free, or there is something that is not a link. */
  ghost predicate Clear(t: Tree, p: Bytes) {
    WellFormed(t) && Canonical(p) && Reachable(t, p) && (p in t ==> !IsLink(t, p))
  }

  lemma FindCanonical(t: Tree, p: Bytes)
    requires Clear(t, p)
    ensures Find(t, p) == if p in t then There(p) else Absent
    ensures Resolve(t, [], Names(p), LINK_LIMIT, false) == Find(t, p)
  {
    hide Resolve, WellFormed, IsLink;
    StepsOfCanonical(p);
    assert Names(p) + [] == Names(p);
    if p in t {
      CanonicalLeads(t, p, [], LINK_LIMIT, false);
      NoSteps(t, p);
    } else {
      MissingLeads(t, p, [], LINK_LIMIT, false);
    }
  }

  lemma NoSteps(t: Tree, p: Bytes)
    requires p in t
    ensures Resolve(t, p, [], LINK_LIMIT, false) == There(p)
  {
  }

  lemma SlotCanonical(t: Tree, p: Bytes)
    requires WellFormed(t) && Canonical(p) && Reachable(t, p) && p != []
    ensures Slot(t, Names(p)) == if Parent(p) in t then There(p) else Absent
  {
    hide Resolve, WellFormed, IsLink, Reachable, Find;
    StepsOfCanonical(p);
    ParentReachable(t, p);
    var up := Parent(p);
    if up in t { DirNoLink(t, up); }
    FindCanonical(t, up);
    assert p == Join(up, Base(p)) && Base(p) != DOTDOT && Canonical(up);
  }

  /** Only directories were added, all of them on the way to `d` or `d` itself, and only their times differ. */
  ghost predicate GrewTo(t: Tree, u: Tree, d: Bytes) {
    && (forall p :: p in t ==> p in u && Same(t[p], u[p]))
    && (forall p :: p in u && p !in t ==> u[p].Dir? && (p == d || Above(p, d)))
  }

  lemma NameOfCanonical(p: Bytes)
    requires Canonical(p) && p != []
    ensures p == Join(Parent(p), Base(p)) && IsName(Base(p))
  {
    BaseIsName(p);
  }

  lemma CreateAtGrows(t: Tree, p: Bytes, node: Node)
    requires WellFormed(t) && Canonical(p) && p != [] && p !in t && Parent(p) in t && t[Parent(p)].Dir?
    requires node.Also? ==> node.target in t && !t[node.target].Dir? && !t[node.target].Also?
    ensures var u := CreateAt(t, p, node);
      && WellFormed(u) && p in u && u[p] == node
      && (forall q :: q in t ==> q in u && Same(t[q], u[q]))
      && (forall q :: q in u && q !in t ==> q == p)
  {
    hide WellFormed, Canonical, Base, Join, IsName, Parent;
    NameOfCanonical(p);
    CreateAtWellFormed(t, Parent(p), Base(p), node);
  }

  lemma MakeDirGrows(t: Tree, d: Bytes)
    requires WellFormed(t) && Canonical(d) && Reachable(t, d) && (d in t ==> t[d].Dir?)
    requires d != [] ==> Parent(d) in t
    ensures var m := MakeDir(t, Names(d));
      m.ok && WellFormed(m.tree) && GrewTo(t, m.tree, d) && d in m.tree && m.tree[d].Dir?
  {
    hide Resolve, WellFormed, IsLink, Canonical, Reachable, CreateAt, Find;
    if d in t {
      DirNoLink(t, d);
      FindCanonical(t, d);
      if d != [] { SlotCanonical(t, d); }
    } else {
      RootIsDir(t);
      SlotCanonical(t, d);
      ParentReachable(t, d);
      CreateAtGrows(t, d, Dir(Now, NEW_PERM));
    }
  }

  /** Directories can be made wherever nothing is in the way. */
  lemma {:induction false} MakeDirsGrows(t: Tree, d: Bytes)
    requires WellFormed(t) && Canonical(d) && Reachable(t, d) && (d in t ==> t[d].Dir?)
    ensures var m := MakeDirs(t, Names(d));
      m.ok && WellFormed(m.tree) && GrewTo(t, m.tree, d) && d in m.tree && m.tree[d].Dir?
    decreases |d|
  {
    hide WellFormed, MakeDir, Reachable, Slot, Names;
    if d == [] {
      RootIsDir(t);
      MakeDirGrows(t, d);
      assert Slot(t, Names(d)) == Barred by { NoSlot(t); }
    } else {
      var up := Parent(d);
      SlotCanonical(t, d);
      if up in t {
        MakeDirGrows(t, d);
      } else {
        ParentReachable(t, d);
        MakeDirsGrows(t, up);
        StepsOfCanonical(d);
        var u := MakeDirs(t, Names(up)).tree;
        StillReachable(t, u, d);
        MakeDirGrows(u, d);
        GrewTwice(t, u, MakeDir(u, Names(d)).tree, d);
      }
    }
  }

  lemma NoSlot(t: Tree)
    ensures Slot(t, Names([])) == Barred
  {
  }

  lemma StillReachable(t: Tree, u: Tree, d: Bytes)
    requires Reachable(t, d) && GrewTo(t, u, Parent(d)) && d != [] && (d in t ==> t[d].Dir?)
    ensures Reachable(u, d) && (d in u <==> d in t) && (d in u ==> u[d].Dir?)
  {
    if d in u && d !in t && Above(d, Parent(d)) { AboveShorter(d, Parent(d)); }
  }

  lemma GrewTwice(t: Tree, u: Tree, v: Tree, d: Bytes)
    requires GrewTo(t, u, Parent(d)) && GrewTo(u, v, d) && d != []
    ensures GrewTo(t, v, d)
  {
  }

  /** The directory of an entry can be made, and the way to the entry is still clear. */
  lemma MakeParentGrows(t: Tree, p: Bytes)
    requires WellFormed(t) && Canonical(p) && Reachable(t, p) && p != [] && p !in t
    ensures var m := MakeParent(t, p);
      && m.ok && WellFormed(m.tree) && GrewTo(t, m.tree, Parent(p))
      && Parent(p) in m.tree && m.tree[Parent(p)].Dir? && p !in m.tree && Reachable(m.tree, p)
  {
    hide WellFormed, MakeDirs, Reachable, Resolve, Names, Find, IsLink;
    StepsOfCanonical(p);
    ParentReachable(t, p);
    var up := Parent(p);
    MakeDirsGrows(t, up);
    if up in t { DirNoLink(t, up); }
    FindCanonical(t, up);
    StillReachable(t, MakeParent(t, p).tree, p);
  }

  /** An entry can be created wherever nothing is in the way, and nothing else changes. */
  lemma CreateGrows(t: Tree, p: Bytes, node: Node)
    requires WellFormed(t) && Canonical(p) && Reachable(t, p) && p != [] && p !in t
    requires node.Also? ==> node.target in t && t[node.target].Plain?
    ensures MakeParent(t, p).ok
    ensures var m := MakeParent(t, p).tree; var u := CreateAt(m, p, node);
      && Slot(m, Steps(p)) == Resolve(m, [], Steps(p), LINK_LIMIT, true) == There(p) && p !in m
      && WellFormed(u) && p in u && u[p] == node
      && (forall q :: q in t ==> q in u && Same(t[q], u[q]))
      && (forall q :: q in u && q !in t && q != p ==> u[q].Dir? && Above(q, p))
  {
    hide WellFormed, MakeParent, Reachable, Resolve, Names, IsLink, CreateAt, Steps, Slot;
    MakeParentGrows(t, p);
    var m := MakeParent(t, p).tree;
    SlotCanonical(m, p);
    StepsOfCanonical(p);
    MissingLeads(m, p, [], LINK_LIMIT, true);
    assert Names(p) + [] == Names(p);
    CreateAtGrows(m, p, node);
    var u := CreateAt(m, p, node);
    forall q | q in u && q !in t && q != p
      ensures u[q].Dir? && Above(q, p)
    {
      assert q in m;
    }
  }
}

/**
  The output directory as extraction sees it: a map from places to files, directories and links. A
  place is named by the names on the way from the output directory, joined by slashes; the output
  directory itself is the empty one. A path is something else: its steps are followed through the
  tree, `..` and symbolic links included, and several paths may lead to one place.
 */
module FileTree {
  import opened ByteStrings

  /** The current time, or the times that were set explicitly. */
  datatype Stamp = Now | At(atime: nat, mtime: nat)

  /** `Also` is a hard link: a further name of the file at `target`. */
  datatype Node =
    | Plain(data: Bytes, stamp: Stamp, perm: nat)
    | Dir(stamp: Stamp, perm: nat)
    | Link(target: Bytes, stamp: Stamp)
    | Also(target: Bytes)

  type Tree = map<Bytes, Node>

  /** Links keep the times they were made with. */
  function Stamped(n: Node, stamp: Stamp): Node {
    match n
    case Plain(data, _, perm) => Plain(data, stamp, perm)
    case Dir(_, perm) => Dir(stamp, perm)
    case _ => n
  }

  function Permitted(n: Node, perm: nat): Node {
    match n
    case Plain(data, stamp, _) => Plain(data, stamp, perm)
    case Dir(stamp, _) => Dir(stamp, perm)
    case _ => n
  }

  const SLASH: Byte := Raw(47)
  const DOT: Bytes := [Raw(46)]
  const DOTDOT: Bytes := [Raw(46), Raw(46)]
  /** The first step of an absolute path. */
  const ROOT: Bytes := [SLASH]
  // what a new file or directory gets before its permissions are restored
  const NEW_PERM: nat := 0x1ED
  // so many symbolic links are followed in one path
  const LINK_LIMIT: nat := 40

  /** The part of a path in front of the last slash. */
  function Parent(p: Bytes): (q: Bytes)
    ensures p != [] ==> |q| < |p|
    decreases |p|
  {
    if p == [] then []
    else if p[|p| - 1] == SLASH then p[..|p| - 1]
    else Parent(p[..|p| - 1])
  }

  /** The part behind the last slash. */
  function Base(p: Bytes): Bytes {
    if p == [] then []
    else if p[|Parent(p)|] == SLASH then p[|Parent(p)| + 1..]
    else p
  }

  function Join(d: Bytes, name: Bytes): Bytes {
    if d == [] then name else d + [SLASH] + name
  }

  /** The names in a path; empty ones and `.` mean nothing. */
  function Names(p: Bytes): seq<Bytes>
    decreases |p|
  {
    if p == [] then [] else
    Names(Parent(p)) + (if Base(p) == [] || Base(p) == DOT then [] else [Base(p)])
  }

  function Steps(p: Bytes): seq<Bytes> {
    (if p != [] && p[0] == SLASH then [ROOT] else []) + Names(p)
  }

  /** `p` is a directory on the way to `q`. */
  ghost predicate Above(p: Bytes, q: Bytes)
    decreases |q|
  {
    q != [] && (p == Parent(q) || Above(p, Parent(q)))
  }

  lemma {:induction false} AboveShorter(p: Bytes, q: Bytes)
    requires Above(p, q)
    ensures |p| < |q|
    decreases |q|
  {
    if p == Parent(q) {
    } else {
      AboveShorter(p, Parent(q));
    }
  }

  /** Every place is in a directory, and a further name belongs to a file. */
  ghost predicate WellFormed(t: Tree) {
    && [] in t && t[[]].Dir?
    && (forall p {:trigger Parent(p)} :: p in t && p != [] ==> Parent(p) in t && t[Parent(p)].Dir?)
    && (forall p :: p in t && t[p].Also? ==> t[p].target in t && !t[t[p].target].Dir? && !t[t[p].target].Also?)
  }

  // ------------------------------------------------------------------ where a path leads

  /** A hard link to a hard link is another name of the same file. */
  function FileBehind(t: Tree, p: Bytes): Bytes {
    if p in t && t[p].Also? then t[p].target else p
  }

  predicate IsLink(t: Tree, p: Bytes) {
    FileBehind(t, p) in t && t[FileBehind(t, p)].Link?
  }

  function LinkSteps(t: Tree, p: Bytes): seq<Bytes>
    requires IsLink(t, p)
  {
    Steps(t[FileBehind(t, p)].target)
  }

  /** There is something, there is nothing, or the way there is barred. */
  datatype Place = There(key: Bytes) | Absent | Barred

  /**
    Follows the steps of a path from the directory `cur`. With `create` the last name need not be
    there. A path that leaves the output directory is barred, and so is one with too many links.
   */
  function Resolve(t: Tree, cur: Bytes, steps: seq<Bytes>, links: nat, create: bool): (r: Place)
    ensures r.There? && !create ==> r.key in t
    decreases links, |steps|
  {
    if cur !in t then Absent
    else if steps == [] then There(cur)
    else if !t[cur].Dir? || steps[0] == ROOT then Barred
    else if steps[0] == DOTDOT then
      if cur == [] then Barred else Resolve(t, Parent(cur), steps[1..], links, create)
    else
      var k := Join(cur, steps[0]);
      if k !in t then
        if create && |steps| == 1 then There(k) else Absent
      else if IsLink(t, k) then
        if links == 0 then Barred
        else Resolve(t, cur, LinkSteps(t, k) + steps[1..], links - 1, create)
      else Resolve(t, k, steps[1..], links, create)
  }

  function Find(t: Tree, p: Bytes): (r: Place)
    ensures r.There? ==> r.key in t
  {
    Resolve(t, [], Steps(p), LINK_LIMIT, false)
  }

  /** `exists`. */
  predicate Exists(t: Tree, p: Bytes) {
    Find(t, p).There?
  }

  predicate IsDir(t: Tree, steps: seq<Bytes>) {
    var r := Resolve(t, [], steps, LINK_LIMIT, false);
    r.There? && t[r.key].Dir?
  }

  /** Where a new name goes: the last step is not followed. */
  function Slot(t: Tree, steps: seq<Bytes>): Place {
    if steps == [] then Barred else
    var n := |steps| - 1;
    match Resolve(t, [], steps[..n], LINK_LIMIT, false)
    case There(d) =>
      if steps[n] == ROOT || steps[n] == DOTDOT || !t[d].Dir? then Barred else There(Join(d, steps[n]))
    case r => r
  }

  // ------------------------------------------------------------------ creating

  /** Whether it was successful, and what the tree is then. */
  datatype Made = Made(ok: bool, tree: Tree)

  /** The same for a file that was opened. */
  datatype Opened = Opened(ok: bool, tree: Tree, key: Bytes)

  /** Adds a node; the times of its directory change. */
  function CreateAt(t: Tree, k: Bytes, node: Node): Tree {
    var d := Parent(k);
    (if d in t then t[d := Stamped(t[d], Now)] else t)[k := node]
  }

  /** One directory; it is no error if there is one already. */
  function MakeDir(t: Tree, steps: seq<Bytes>): Made {
    var r := Slot(t, steps);
    if r.There? && r.key !in t then Made(true, CreateAt(t, r.key, Dir(Now, NEW_PERM))) else Made(IsDir(t, steps), t)
  }

  /** `create_dir_all`: the directory, and if that is not possible, first the one it is in. */
  function MakeDirs(t: Tree, steps: seq<Bytes>): Made
    decreases |steps|
  {
    if Slot(t, steps) != Absent then MakeDir(t, steps) else
    var m := MakeDirs(t, steps[..|steps| - 1]);
    if m.ok then MakeDir(m.tree, steps) else m
  }

  /** `create_parent_directory`. */
  function MakeParent(t: Tree, p: Bytes): Made {
    var steps := Steps(p);
    if steps == [] || Resolve(t, [], steps[..|steps| - 1], LINK_LIMIT, false).There? then Made(true, t)
    else MakeDirs(t, steps[..|steps| - 1])
  }

  /** `File::create`: a new file, or the file the path leads to, emptied. */
  function CreateFile(t: Tree, p: Bytes): Opened {
    match Resolve(t, [], Steps(p), LINK_LIMIT, true)
    case There(k) =>
      var f := FileBehind(t, k);
      if k !in t then Opened(true, CreateAt(t, k, Plain([], Now, NEW_PERM)), k)
      else if f in t && t[f].Plain? then Opened(true, t[f := Plain([], Now, t[f].perm)], f)
      else Opened(false, t, [])
    case _ => Opened(false, t, [])
  }

  /** `symlink`: nothing may be there, not even a link that leads nowhere. */
  function CreateLink(t: Tree, p: Bytes, node: Node): Made {
    var r := Slot(t, Steps(p));
    if r.There? && r.key !in t then Made(true, CreateAt(t, r.key, node)) else Made(false, t)
  }

  /** `hard_link`: a further name for a file or for a symbolic link. */
  function CreateName(t: Tree, target: Bytes, p: Bytes): Made {
    var a, r := Slot(t, Steps(target)), Slot(t, Steps(p));
    if a.There? && a.key in t && !t[a.key].Dir? && r.There? && r.key !in t
    then Made(true, CreateAt(t, r.key, Also(FileBehind(t, a.key))))
    else Made(false, t)
  }

  // ------------------------------------------------------------------ changing what is there

  function Append(t: Tree, k: Bytes, bytes: Bytes): Tree {
    if bytes != [] && k in t && t[k].Plain? then t[k := Plain(t[k].data + bytes, Now, t[k].perm)] else t
  }

  function SetStamp(t: Tree, k: Bytes, stamp: Stamp): Tree {
    if k in t then t[k := Stamped(t[k], stamp)] else t
  }

  function SetPerm(t: Tree, k: Bytes, perm: Option<nat>): Tree {
    if perm.Some? && k in t then t[k := Permitted(t[k], perm.value % 0x1000)] else t
  }

  /** What a path leads to gets the times, if it leads anywhere. */
  function SetStampAt(t: Tree, p: Bytes, stamp: Stamp): Tree {
    match Find(t, p)
    case There(k) => SetStamp(t, FileBehind(t, k), stamp)
    case _ => t
  }

  function SetPermAt(t: Tree, p: Bytes, perm: Option<nat>): Tree {
    match Find(t, p)
    case There(k) => SetPerm(t, FileBehind(t, k), perm)
    case _ => t
  }

  // ------------------------------------------------------------------ what stays

  /** The content of a file and every link stay; times and permissions may change. */
  predicate Kept(a: Node, b: Node) {
    match a
    case Plain(data, _, _) => b.Plain? && b.data == data
    case Dir(_, _) => b.Dir?
    case _ => b == a
  }

  ghost predicate AllKept(t: Tree, u: Tree) {
    forall q :: q in t ==> q in u && Kept(t[q], u[q])
  }

  /** Equal but for the times of a directory. */
  ghost predicate Same(a: Node, b: Node) {
    a == b || (a.Dir? && b.Dir? && a.perm == b.perm)
  }
}

/**
  The archive stream as a language: what a stream of entries means, one step of the parser at a time.
  The state between two steps is the output directory with the deferred work, the place in the
  stream, and the bytes not looked at yet.
 */
module ArchiveStream {
  import opened ByteStrings
  import opened ArchiveHeader
  import opened FileTree

  /** What is left of a segment: bytes to take from the stream, zeros to skip, or an inverted range. */
  datatype Run = Take(n: nat) | Skip(n: nat) | Inverted(hole: bool)

  function RunOf(s: Seg): Run {
    if s.end < s.start then Inverted(s.Hole?)
    else if s.Data? then Take(s.end - s.start)
    else Skip(s.end - s.start)
  }

  function Runs(segs: seq<Seg>): (runs: seq<Run>)
    ensures |runs| == |segs|
  {
    seq(|segs|, i requires 0 <= i < |segs| => RunOf(segs[i]))
  }

  predicate IsHole(r: Run) {
    r.Skip? || (r.Inverted? && r.hole)
  }

  /** A file that is not sparse is one run. */
  function BodyRuns(segs: seq<Seg>, size: nat): seq<Run> {
    if segs == [] then [Take(size)] else Runs(segs)
  }

  datatype DirTime = DirTime(path: Bytes, stamp: Stamp)
  datatype LinkJob = LinkJob(target: Bytes, path: Bytes)

  /** The output directory, the work deferred to the end, and the headers evaluated so far. */
  datatype World = World(tree: Tree, dirTimes: seq<DirTime>, links: seq<LinkJob>, seen: seq<Header>)

  /** The place of the open file and the times it gets in the end; there is none in list mode. */
  datatype Target = Target(key: Bytes, stamp: Stamp)

  datatype Mode =
    | AtLength
    | AtHeader(n: nat)
    | InBody(out: Option<Target>, runs: seq<Run>, size: nat)

  /**
    The outcome of one step: go on, wait for more bytes, or fail (an error or a panic) and leave the
    world as it is then.
   */
  datatype Step = Go(w: World, m: Mode, rest: Bytes) | Halt(w: World, m: Mode, rest: Bytes) | Fail(w: World)

  // ------------------------------------------------------------------ a header

  function TimesOf(h: Header): Stamp {
    match h
    case OfFile(_, atime, mtime, _, _, _) => At(atime, mtime)
    case OfDirectory(_, atime, mtime, _) => At(atime, mtime)
    case OfSymlink(_, atime, mtime, _, _) => At(atime, mtime)
    case _ => Now
  }

  /**
    What a header does to the output directory, whether it is accepted or refused; directories made
    for an entry that is refused stay. `key` is the file that is open then.
   */
  function Enter(t: Tree, h: Header): Opened {
    if !h.OfDirectory? && Exists(t, h.path) then Opened(false, t, []) else
    match h
    case OfFile(path, _, _, _, _, perm) =>
      var m := MakeParent(t, path);
      if !m.ok then Opened(false, m.tree, []) else
      var f := CreateFile(m.tree, path);
      if f.ok then f.(tree := SetPerm(f.tree, f.key, perm)) else f
    case OfDirectory(path, _, _, perm) =>
      var m := if Exists(t, path) then Made(true, t) else MakeDirs(t, Steps(path));
      Opened(m.ok, if m.ok then SetPermAt(m.tree, path, perm) else m.tree, [])
    case OfSymlink(path, _, _, target, _) =>
      var m := MakeParent(t, path);
      var l := if m.ok then CreateLink(m.tree, path, Link(target, TimesOf(h))) else m;
      Opened(l.ok, l.tree, [])
    case OfHardLink(_, _) => Opened(true, t, [])
    case OfUnknown(_) => Opened(false, t, [])
  }

  /** `eval_header`: the new world and what follows in the stream. List mode creates nothing. */
  function Eval(list: bool, w: World, h: Header): Option<(World, Mode)> {
    var noted := w.(seen := w.seen + [h]);
    if list then
      Some((noted, if h.OfFile? && h.size > 0 then InBody(None, BodyRuns(h.segs, h.size), h.size) else AtLength))
    else
      var made := Enter(w.tree, h);
      if !made.ok then None else
      var entered := noted.(tree := made.tree);
      match h
      case OfFile(_, _, _, size, segs, _) =>
        Some((entered, InBody(Some(Target(made.key, TimesOf(h))), BodyRuns(segs, size), size)))
      case OfDirectory(path, _, _, _) =>
        Some((entered.(dirTimes := w.dirTimes + [DirTime(path, TimesOf(h))]), AtLength))
      case OfHardLink(path, target) =>
        Some((entered.(links := w.links + [LinkJob(target, path)]), AtLength))
      case _ => Some((entered, AtLength))
  }

  /** The world when a header is refused. */
  function EvalLeft(w: World, h: Header): World {
    w.(seen := w.seen + [h], tree := Enter(w.tree, h).tree)
  }

  // ------------------------------------------------------------------ a body

  function Write(w: World, out: Option<Target>, bytes: Bytes): World {
    match out
    case None => w
    case Some(o) => w.(tree := Append(w.tree, o.key, bytes))
  }

  function Close(w: World, out: Option<Target>): World {
    match out
    case None => w
    case Some(o) => w.(tree := SetStamp(w.tree, o.key, o.stamp))
  }

  /** After a part of a run: the file is complete, or bytes are needed, or the next run follows. */
  function AfterRun(w: World, out: Option<Target>, left: seq<Run>, size: nat, buf: Bytes): Step {
    if size == 0 then Go(Close(w, out), AtLength, buf)
    else if buf == [] && left != [] && !IsHole(left[0]) then Halt(w, InBody(out, left, size), buf)
    else Go(w, InBody(out, left, size), buf)
  }

  function Min(a: nat, b: nat): nat {
    if a < b then a else b
  }

  function TakeStep(w: World, out: Option<Target>, runs: seq<Run>, size: nat, buf: Bytes): Step
    requires runs != [] && runs[0].Take?
  {
    var n := runs[0].n;
    var k := Min(|buf|, n);
    if k > size then Fail(Write(w, out, buf[..k])) else
    AfterRun(Write(w, out, buf[..k]), out, if k == n then runs[1..] else [Take(n - k)] + runs[1..], size - k, buf[k..])
  }

  function BodyStep(w: World, out: Option<Target>, runs: seq<Run>, size: nat, buf: Bytes): Step {
    if runs == [] then Fail(w) else
    match runs[0]
    case Take(_) => TakeStep(w, out, runs, size, buf)
    case Skip(n) =>
      if n == 0 && out.Some? then Fail(w)
      else if n > size then Fail(Write(w, out, Zeros(n)))
      else AfterRun(Write(w, out, Zeros(n)), out, runs[1..], size - n, buf)
    case Inverted(_) => Fail(w)
  }

  function OneStep(list: bool, w: World, m: Mode, buf: Bytes): Step {
    match m
    case AtLength => if |buf| < 2 then Halt(w, m, buf) else Go(w, AtHeader(FromLE(buf[..2])), buf[2..])
    case AtHeader(n) =>
      if |buf| < n then Halt(w, m, buf) else
      (match Decode(buf[..n])
       case None => Fail(w)
       case Some(h) =>
         match Eval(list, w, h)
         case None => Fail(EvalLeft(w, h))
         case Some(e) => Go(e.0, e.1, buf[n..]))
    case InBody(out, runs, size) => BodyStep(w, out, runs, size, buf)
  }

  // ------------------------------------------------------------------ the whole stream

  datatype Parsed = Parsed(w: World, m: Mode, rest: Bytes)

  function Rank(m: Mode): nat {
    if m.InBody? then |m.runs| + 1 else 0
  }

  lemma StepShrinks(list: bool, w: World, m: Mode, buf: Bytes)
    requires OneStep(list, w, m, buf).Go?
    ensures var s := OneStep(list, w, m, buf);
      |s.rest| < |buf| || (|s.rest| == |buf| && Rank(s.m) < Rank(m))
  {
    hide Eval, Write, Close;
    assert buf[..0] == [];
  }

  /** One call of `write_files` on the bytes `buf`: steps until more bytes are needed. `None` is a failure. */
  function Parse(list: bool, w: World, m: Mode, buf: Bytes): Option<Parsed>
    decreases |buf|, Rank(m)
  {
    match OneStep(list, w, m, buf)
    case Fail(_) => None
    case Halt(w', m', rest) => Some(Parsed(w', m', rest))
    case Go(w', m', rest) =>
      StepShrinks(list, w, m, buf);
      Parse(list, w', m', rest)
  }

  /** The world when the call returns, whether it gets through or fails. */
  function Left(list: bool, w: World, m: Mode, buf: Bytes): World
    decreases |buf|, Rank(m)
  {
    match OneStep(list, w, m, buf)
    case Fail(v) => v
    case Halt(v, _, _) => v
    case Go(v, m', rest) =>
      StepShrinks(list, w, m, buf);
      Left(list, v, m', rest)
  }

  lemma {:induction false} LeftIsParsed(list: bool, w: World, m: Mode, buf: Bytes)
    ensures var p := Parse(list, w, m, buf); p.Some? ==> Left(list, w, m, buf) == p.value.w
    decreases |buf|, Rank(m)
  {
    hide OneStep;
    var s := OneStep(list, w, m, buf);
    if !s.Go? {
    } else {
      StepShrinks(list, w, m, buf);
      LeftIsParsed(list, s.w, s.m, s.rest);
    }
  }

  lemma AtRest(list: bool, w: World)
    ensures Parse(list, w, AtLength, []) == Some(Parsed(w, AtLength, [])) && Left(list, w, AtLength, []) == w
  {
  }

  /** More bytes have arrived. */
  function Resume(list: bool, p: Option<Parsed>, more: Bytes): Option<Parsed> {
    match p
    case None => None
    case Some(q) => Parse(list, q.w, q.m, q.rest + more)
  }

  // ------------------------------------------------------------------ cutting the stream into calls

  function Sum(runs: seq<Run>): nat {
    if runs == [] then 0 else (if runs[0].Inverted? then 0 else runs[0].n) + Sum(runs[1..])
  }

  /**
    No data segment that is reached is longer than what is left of the file. A segment list is
    harmless from where the size is used up, a hole is too long or empty, a range is inverted, or no
    segment is left: there the outcome is settled without looking at the stream.
   */
  predicate CutSafe(file: bool, runs: seq<Run>, size: nat)
    decreases |runs|
  {
    runs == [] ||
    match runs[0]
    case Take(n) => n <= size && (n == size || CutSafe(file, runs[1..], size - n))
    case Skip(n) => (n == 0 && file) || n >= size || CutSafe(file, runs[1..], size - n)
    case Inverted(_) => true
  }

  predicate SafeMode(m: Mode) {
    m.InBody? ==> CutSafe(m.out.Some?, m.runs, m.size)
  }

  /** ... of every body that is reached in the stream. */
  ghost predicate SafeStream(list: bool, w: World, m: Mode, buf: Bytes)
    decreases |buf|, Rank(m)
  {
    && SafeMode(m)
    && match OneStep(list, w, m, buf)
       case Go(w', m', rest) =>
         StepShrinks(list, w, m, buf);
         SafeStream(list, w', m', rest)
       case _ => true
  }

  /** Segments that add up to the size are safe. */
  lemma {:induction false} SumIsSafe(file: bool, runs: seq<Run>)
    requires Proper(runs)
    ensures CutSafe(file, runs, Sum(runs))
    decreases |runs|
  {
    if runs == [] {
    } else {
      assert runs[0] in runs;
      SumIsSafe(file, runs[1..]);
    }
  }

  lemma AppendTwice(t: Tree, p: Bytes, a: Bytes, b: Bytes)
    ensures Append(Append(t, p, a), p, b) == Append(t, p, a + b)
  {
    if a == [] {
      assert a + b == b;
    } else if b == [] {
      assert a + b == a;
    } else if p in t && t[p].Plain? {
      assert (t[p].data + a) + b == t[p].data + (a + b);
    }
  }

  lemma WriteTwice(w: World, out: Option<Target>, a: Bytes, b: Bytes)
    ensures Write(Write(w, out, a), out, b) == Write(w, out, a + b)
  {
    if out.Some? {
      AppendTwice(w.tree, out.value.key, a, b);
    }
  }

  /** A run that needs more bytes than there are stops ... */
  lemma TakeStops(w: World, out: Option<Target>, runs: seq<Run>, size: nat, a: Bytes)
    requires runs != [] && runs[0].Take? && |a| < runs[0].n <= size
    ensures var left := [Take(runs[0].n - |a|)] + runs[1..];
      TakeStep(w, out, runs, size, a) == Halt(Write(w, out, a), InBody(out, left, size - |a|), [])
  {
    hide Write, Close, AfterRun;
    assert a[..|a|] == a && a[|a|..] == [];
    var left := [Take(runs[0].n - |a|)] + runs[1..];
    StopsInTake(Write(w, out, a), out, left, size - |a|);
  }

  lemma StopsInTake(w: World, out: Option<Target>, left: seq<Run>, size: nat)
    requires left != [] && left[0].Take? && size > 0
    ensures AfterRun(w, out, left, size, []) == Halt(w, InBody(out, left, size), [])
  {
  }

  /** ... and continues there when more arrive. */
  lemma TakeResumes(w: World, out: Option<Target>, runs: seq<Run>, size: nat, a: Bytes, b: Bytes)
    requires runs != [] && runs[0].Take? && |a| < runs[0].n && |a| <= size
    ensures var left := [Take(runs[0].n - |a|)] + runs[1..];
      TakeStep(w, out, runs, size, a + b) == TakeStep(Write(w, out, a), out, left, size - |a|, b)
  {
    hide Write, AfterRun;
    var n := runs[0].n;
    var left := [Take(n - |a|)] + runs[1..];
    assert left[1..] == runs[1..];
    var k := Min(|b|, n - |a|);
    assert (a + b)[..|a| + k] == a + b[..k];
    assert (a + b)[|a| + k..] == b[k..];
    WriteTwice(w, out, a, b[..k]);
    if k < n - |a| {
      assert [Take(n - |a| - k)] + left[1..] == [Take(n - (|a| + k))] + runs[1..];
    }
  }

  /** Otherwise bytes behind do not matter, except that the parser need not wait for them. */
  lemma BodyStepExtends(w: World, out: Option<Target>, runs: seq<Run>, size: nat, a: Bytes, b: Bytes)
    requires b != []
    requires runs != [] && runs[0].Take? ==> |a| >= runs[0].n
    ensures match BodyStep(w, out, runs, size, a)
      case Fail(v) => BodyStep(w, out, runs, size, a + b) == Fail(v)
      case Go(w', m', rest) => BodyStep(w, out, runs, size, a + b) == Go(w', m', rest + b)
      case Halt(w', m', rest) => BodyStep(w, out, runs, size, a + b) == Go(w', m', rest + b)
  {
    hide Write, Close;
    if runs != [] && runs[0].Take? {
      var n := runs[0].n;
      assert (a + b)[..n] == a[..n];
      assert (a + b)[n..] == a[n..] + b;
    }
  }

  lemma HeaderStepExtends(list: bool, w: World, m: Mode, a: Bytes, b: Bytes)
    requires !m.InBody? && !OneStep(list, w, m, a).Halt?
    ensures match OneStep(list, w, m, a)
      case Fail(v) => OneStep(list, w, m, a + b) == Fail(v)
      case Go(w', m', rest) => OneStep(list, w, m, a + b) == Go(w', m', rest + b)
      case Halt(_, _, _) => true
  {
    hide Eval, Decode;
    var n := if m.AtLength? then 2 else m.n;
    assert (a + b)[..n] == a[..n];
    assert (a + b)[n..] == a[n..] + b;
  }

  /** What is behind a cut is safe again. */
  ghost predicate SafeBehind(list: bool, p: Option<Parsed>, b: Bytes) {
    p.Some? ==> SafeStream(list, p.value.w, p.value.m, p.value.rest + b)
  }

  /** What is left behind when `b` arrives after `a`. */
  function LeftInTwo(list: bool, w: World, m: Mode, a: Bytes, b: Bytes): World {
    match Parse(list, w, m, a)
    case None => Left(list, w, m, a)
    case Some(q) => Left(list, q.w, q.m, q.rest + b)
  }

  /**
    Where the stream is cut does not matter: parsing the first part and continuing with the second
    is parsing the whole, failures and what they leave behind included.
   */
  lemma {:induction false} CutAnywhere(list: bool, w: World, m: Mode, a: Bytes, b: Bytes)
    requires b != [] && SafeStream(list, w, m, a + b)
    ensures Parse(list, w, m, a + b) == Resume(list, Parse(list, w, m, a), b)
    ensures Left(list, w, m, a + b) == LeftInTwo(list, w, m, a, b)
    ensures SafeBehind(list, Parse(list, w, m, a), b)
    decreases |a|, Rank(m)
  {
    hide BodyStep, Eval;
    if m.InBody? {
      if m.runs != [] && m.runs[0].Take? && |a| < m.runs[0].n {
        CutInRun(list, w, m, a, b);
        return;
      }
      BodyStepExtends(w, m.out, m.runs, m.size, a, b);
    } else if OneStep(list, w, m, a).Halt? {
      return;
    } else {
      HeaderStepExtends(list, w, m, a, b);
    }
    CutBehindStep(list, w, m, a, b);
  }

  lemma {:induction false} CutBehindStep(list: bool, w: World, m: Mode, a: Bytes, b: Bytes)
    requires b != [] && SafeStream(list, w, m, a + b)
    requires match OneStep(list, w, m, a)
      case Fail(v) => OneStep(list, w, m, a + b) == Fail(v)
      case Go(w', m', rest) => OneStep(list, w, m, a + b) == Go(w', m', rest + b)
      case Halt(w', m', rest) => OneStep(list, w, m, a + b) == Go(w', m', rest + b)
    ensures Parse(list, w, m, a + b) == Resume(list, Parse(list, w, m, a), b)
    ensures Left(list, w, m, a + b) == LeftInTwo(list, w, m, a, b)
    ensures SafeBehind(list, Parse(list, w, m, a), b)
    decreases |a|, Rank(m), 0
  {
    hide OneStep, SafeMode;
    var s := OneStep(list, w, m, a);
    if s.Go? {
      StepShrinks(list, w, m, a);
      CutAnywhere(list, s.w, s.m, s.rest, b);
    }
  }

  lemma CutInRun(list: bool, w: World, m: Mode, a: Bytes, b: Bytes)
    requires m.InBody? && SafeStream(list, w, m, a + b) && m.runs != [] && m.runs[0].Take? && |a| < m.runs[0].n
    ensures Parse(list, w, m, a + b) == Resume(list, Parse(list, w, m, a), b)
    ensures Left(list, w, m, a + b) == LeftInTwo(list, w, m, a, b)
    ensures SafeBehind(list, Parse(list, w, m, a), b)
  {
    hide TakeStep, Write;
    TakeStops(w, m.out, m.runs, m.size, a);
    TakeResumes(w, m.out, m.runs, m.size, a, b);
    var left := [Take(m.runs[0].n - |a|)] + m.runs[1..];
    var halted := InBody(m.out, left, m.size - |a|);
    assert [] + b == b;
    assert OneStep(list, w, m, a + b) == OneStep(list, Write(w, m.out, a), halted, b);
  }

  /** One call per part. */
  function ParseCalls(list: bool, p: Option<Parsed>, calls: seq<Bytes>): Option<Parsed>
    decreases |calls|
  {
    if calls == [] then p else ParseCalls(list, Resume(list, p, calls[0]), calls[1..])
  }

  /** The world after the calls, up to the one that fails if one does. */
  function CallsLeft(list: bool, p: Parsed, calls: seq<Bytes>): World
    decreases |calls|
  {
    if calls == [] then p.w else
    match Resume(list, Some(p), calls[0])
    case None => Left(list, p.w, p.m, p.rest + calls[0])
    case Some(q) => CallsLeft(list, q, calls[1..])
  }

  /** Any division of the stream into calls gives the state that one call on the whole stream gives. */
  lemma {:induction false} AnyCalls(list: bool, p: Option<Parsed>, calls: seq<Bytes>)
    requires calls != [] && forall c :: c in calls ==> c != []
    requires SafeBehind(list, p, Flatten(calls))
    ensures ParseCalls(list, p, calls) == Resume(list, p, Flatten(calls))
    ensures p.Some? ==>
      CallsLeft(list, p.value, calls) == Left(list, p.value.w, p.value.m, p.value.rest + Flatten(calls))
    decreases |calls|
  {
    hide Parse, SafeStream, Left;
    var first, rest := calls[0], calls[1..];
    assert first in calls && forall c :: c in rest ==> c in calls;
    assert rest != [] ==> rest[0] in rest;
    if rest == [] {
      assert first + [] == first;
      if p.Some? { LeftIsParsed(list, p.value.w, p.value.m, p.value.rest + first); }
    } else if p.None? {
      AnyCalls(list, None, rest);
    } else {
      NonEmpty(rest);
      var q := p.value;
      assert q.rest + (first + Flatten(rest)) == (q.rest + first) + Flatten(rest);
      CutAnywhere(list, q.w, q.m, q.rest + first, Flatten(rest));
      AnyCalls(list, Resume(list, p, first), rest);
    }
  }

  lemma NonEmpty(calls: seq<Bytes>)
    requires calls != [] && calls[0] != []
    ensures Flatten(calls) != []
  {
    assert Flatten(calls)[0] == calls[0][0];
  }

  // ------------------------------------------------------------------ what a body becomes

  /** How many bytes of a body are in the stream. */
  function Takes(runs: seq<Run>): nat {
    if runs == [] then 0 else (if runs[0].Take? then runs[0].n else 0) + Takes(runs[1..])
  }

  /** The content: the bytes of the stream with zeros in the holes. */
  function Expand(runs: seq<Run>, data: Bytes): (b: Bytes)
    decreases |runs|
  {
    if runs == [] then [] else
    match runs[0]
    case Take(n) => data[..Min(n, |data|)] + Expand(runs[1..], data[Min(n, |data|)..])
    case Skip(n) => Zeros(n) + Expand(runs[1..], data)
    case Inverted(_) => Expand(runs[1..], data)
  }

  function Filled(w: World, out: Option<Target>, content: Bytes): World {
    Close(Write(w, out, content), out)
  }

  /** The header stored no empty hole. */
  ghost predicate Proper(runs: seq<Run>) {
    forall r :: r in runs ==> !r.Inverted? && (r.Skip? ==> r.n > 0)
  }

  /**
    No empty data run stands in front of a hole when all data have been taken: there the parser
    would wait for bytes although it needs none.
   */
  predicate Flowing(runs: seq<Run>) {
    |runs| >= 2 ==>
      && (runs[1] == Take(0) && Takes(runs[1..]) == 0 ==> Sum(runs[1..]) == 0)
      && Flowing(runs[1..])
  }

  /** The first run is complete; the parser goes on unless it is stuck. */
  lemma RunCompletes(w: World, out: Option<Target>, runs: seq<Run>, data: Bytes, t: Bytes)
    requires runs != [] && Proper(runs) && |data| == Takes(runs)
    ensures runs[0].Take? ==> runs[0].n <= |data|
    ensures var k := if runs[0].Take? then runs[0].n else 0;
      var bytes := if runs[0].Take? then data[..k] else Zeros(runs[0].n);
      && BodyStep(w, out, runs, Sum(runs), data + t) ==
           AfterRun(Write(w, out, bytes), out, runs[1..], Sum(runs[1..]), data[k..] + t)
      && |data[k..]| == Takes(runs[1..])
      && Expand(runs, data) == bytes + Expand(runs[1..], data[k..])
  {
    hide Write, AfterRun;
    assert runs[0] in runs;
    if runs[0].Take? {
      var n := runs[0].n;
      assert (data + t)[..n] == data[..n] && (data + t)[n..] == data[n..] + t;
    } else {
      assert data[0..] == data;
    }
  }

  /** Every run of nothing is an empty one. */
  lemma {:induction false} NothingLeft(runs: seq<Run>, data: Bytes)
    requires Proper(runs) && Sum(runs) == 0
    ensures Takes(runs) == 0 && (data == [] ==> Expand(runs, data) == [])
    decreases |runs|
  {
    if runs == [] {
    } else {
      assert runs[0] in runs;
      NothingLeft(runs[1..], data);
    }
  }

  /** A body followed by other bytes is always taken completely. */
  lemma {:induction false} BodyParses(list: bool, w: World, out: Option<Target>, runs: seq<Run>, data: Bytes, t: Bytes)
    requires runs != [] && Proper(runs) && |data| == Takes(runs) && (t != [] || Flowing(runs))
    ensures Parse(list, w, InBody(out, runs, Sum(runs)), data + t)
      == Parse(list, Filled(w, out, Expand(runs, data)), AtLength, t)
    ensures SafeStream(list, Filled(w, out, Expand(runs, data)), AtLength, t) ==>
      SafeStream(list, w, InBody(out, runs, Sum(runs)), data + t)
    decreases |runs|
  {
    hide BodyStep, Write, Close, Expand, Takes, Sum, Flowing, CutSafe;
    SumIsSafe(out.Some?, runs);
    RunCompletes(w, out, runs, data, t);
    var left := runs[1..];
    var k := if runs[0].Take? then runs[0].n else 0;
    var bytes := if runs[0].Take? then data[..k] else Zeros(runs[0].n);
    if Sum(left) == 0 {
      NothingLeft(left, data[k..]);
      assert data[k..] == [] && bytes + [] == bytes && [] + t == t;
    } else {
      BodyGoesOn(w, out, runs, data[k..], t);
      BodyParses(list, Write(w, out, bytes), out, left, data[k..], t);
      WriteTwice(w, out, bytes, Expand(left, data[k..]));
    }
  }

  lemma BodyGoesOn(w: World, out: Option<Target>, runs: seq<Run>, rest: Bytes, t: Bytes)
    requires runs != [] && Proper(runs) && Sum(runs[1..]) != 0 && |rest| == Takes(runs[1..])
    ensures runs[1..] != [] && Proper(runs[1..])
    ensures Flowing(runs) ==> Flowing(runs[1..])
    ensures t != [] || Flowing(runs) ==> forall w ::
      AfterRun(w, out, runs[1..], Sum(runs[1..]), rest + t) == Go(w, InBody(out, runs[1..], Sum(runs[1..])), rest + t)
  {
    hide Close;
    assert runs[1] in runs;
    assert runs[1..][0] == runs[1];
    if rest == [] && runs[1].Take? {
      assert runs[1].n == 0;
    }
  }

  /** At the very end of the stream a body is completed exactly if no empty data run gets in the way. */
  lemma {:induction false} BodyCompletesIff(list: bool, w: World, out: Option<Target>, runs: seq<Run>, data: Bytes)
    requires runs != [] && Proper(runs) && |data| == Takes(runs)
    ensures Parse(list, w, InBody(out, runs, Sum(runs)), data)
      == Some(Parsed(Filled(w, out, Expand(runs, data)), AtLength, []))
      <==> Flowing(runs)
  {
    if Flowing(runs) {
      assert data + [] == data;
      BodyParses(list, w, out, runs, data, []);
    } else {
      BodyStalls(list, w, out, runs, data);
    }
  }

  lemma {:induction false} BodyStalls(list: bool, w: World, out: Option<Target>, runs: seq<Run>, data: Bytes)
    requires runs != [] && Proper(runs) && |data| == Takes(runs) && !Flowing(runs)
    ensures var p := Parse(list, w, InBody(out, runs, Sum(runs)), data); p.Some? && p.value.m.InBody?
    decreases |runs|
  {
    hide BodyStep, Write, Close, Expand;
    assert data + [] == data;
    RunCompletes(w, out, runs, data, []);
    var left := runs[1..];
    var k := if runs[0].Take? then runs[0].n else 0;
    var bytes := if runs[0].Take? then data[..k] else Zeros(runs[0].n);
    assert data[k..] + [] == data[k..];
    assert left[0] == runs[1] && left[0] in runs;
    if Sum(left) == 0 {
      NothingLeftFlows(left);
    } else if left[0].Take? && data[k..] == [] {
    } else {
      BodyStalls(list, Write(w, out, bytes), out, left, data[k..]);
    }
  }

  lemma {:induction false} NothingLeftFlows(runs: seq<Run>)
    requires Sum(runs) == 0
    ensures Flowing(runs)
  {
    if |runs| < 2 {
    } else {
      NothingLeftFlows(runs[1..]);
    }
  }

  /**
    A file that consists of two adjacent holes stalls in front of the second one: it is left without
    its last five bytes, and its times are not restored.
   */
  lemma AdjacentHolesStall(w: World, o: Target)
    ensures var runs := BodyRuns(SegsOf([Hole(0, 5), Hole(5, 10)], 10), 10);
      && runs == [Skip(5), Take(0), Skip(5)] && !Flowing(runs)
      && Parse(false, w, InBody(Some(o), runs, 10), []) ==
         Some(Parsed(Write(w, Some(o), Zeros(5)), InBody(Some(o), [Take(0), Skip(5)], 5), []))
  {
    hide Write, Zeros;
    var holes := [Hole(0, 5), Hole(5, 10)];
    assert holes[1..] == [Hole(5, 10)] && holes[1..][1..] == [];
    assert SegsOf(holes, 10) == [Hole(0, 5), Data(5, 5), Hole(5, 10)];
    var runs := BodyRuns(SegsOf(holes, 10), 10);
    assert runs == [Skip(5), Take(0), Skip(5)];
    assert runs[1..] == [Take(0), Skip(5)] && runs[1..][1..] == [Skip(5)] && runs[1..][1..][1..] == [];
    assert Takes([Skip(5)]) == 0 && Sum([Skip(5)]) == 5;
    assert Takes([Take(0), Skip(5)]) == 0 && Sum([Take(0), Skip(5)]) == 5;
  }

  /** Holes as a header may store them: not empty, in order, within the file. Neighbours may touch. */
  ghost predicate InOrderFrom(holes: seq<Seg>, pos: nat, size: nat) {
    if holes == [] then pos <= size else
    holes[0].Hole? && pos <= holes[0].start < holes[0].end && InOrderFrom(holes[1..], holes[0].end, size)
  }

  /** The last hole reaches the end of the file and touches the hole before it, or position `pos`. */
  predicate TouchAtEnd(holes: seq<Seg>, pos: nat, size: nat) {
    holes != [] && holes[|holes| - 1].end == size
      && holes[|holes| - 1].start == if |holes| >= 2 then holes[|holes| - 2].end else pos
  }

  function RunsBehind(holes: seq<Seg>, pos: nat, size: nat): seq<Run> {
    Runs(SegsFrom(holes, pos, size))
  }

  /** One hole contributes the data in front of it, unless it starts the file, and itself. */
  lemma RunsOfHole(holes: seq<Seg>, pos: nat, size: nat)
    requires holes != [] && InOrderFrom(holes, pos, size)
    ensures var h := holes[0];
      RunsBehind(holes, pos, size) ==
        (if h.start != 0 then [Take(h.start - pos)] else [])
          + [Skip(h.end - h.start)] + RunsBehind(holes[1..], h.end, size)
  {
    var h := holes[0];
    var front := if h.start != 0 then [Data(pos, h.start)] else [];
    assert SegsFrom(holes, pos, size) == front + [h] + SegsFrom(holes[1..], h.end, size);
  }

  /** Behind the last hole. */
  lemma RunsOfRest(pos: nat, size: nat)
    requires pos <= size
    ensures var runs := RunsBehind([], pos, size);
      && runs == (if pos != size then [Take(size - pos)] else [])
      && Takes(runs) == Sum(runs) == size - pos && Flowing(runs)
  {
    var runs := RunsBehind([], pos, size);
    if pos != size { assert runs[1..] == []; }
  }

  lemma {:induction false} RunsAddUp(holes: seq<Seg>, pos: nat, size: nat)
    requires InOrderFrom(holes, pos, size)
    ensures pos <= size && Proper(RunsBehind(holes, pos, size)) && Sum(RunsBehind(holes, pos, size)) == size - pos
    decreases |holes|
  {
    var runs := RunsBehind(holes, pos, size);
    if holes == [] {
      RunsOfRest(pos, size);
    } else {
      var h := holes[0];
      RunsAddUp(holes[1..], h.end, size);
      RunsOfHole(holes, pos, size);
      SumOfHole(h.start - pos, h.start != 0, h.end - h.start, RunsBehind(holes[1..], h.end, size));
    }
  }

  lemma SumOfHole(n: nat, withData: bool, k: nat, rest: seq<Run>)
    ensures var runs := (if withData then [Take(n)] else []) + [Skip(k)] + rest;
      && Sum(runs) == (if withData then n else 0) + k + Sum(rest)
      && Takes(runs) == (if withData then n else 0) + Takes(rest)
      && (k > 0 ==> (Flowing(runs) <==> Starts(rest) && Flowing(rest)))
      && runs != []
  {
    var tail := [Skip(k)] + rest;
    assert tail[1..] == rest;
    var runs := (if withData then [Take(n)] else []) + [Skip(k)] + rest;
    if withData {
      assert runs == [Take(n)] + tail && runs[1..] == tail;
    } else {
      assert runs == tail;
    }
  }

  /** The parser does not get stuck right at the beginning. */
  predicate Starts(runs: seq<Run>) {
    runs != [] && runs[0] == Take(0) && Takes(runs) == 0 ==> Sum(runs) == 0
  }

  /** Behind a hole that ends at `pos` without any data to come, the holes touch up to the end. */
  lemma {:induction false} OnlyHolesTouch(holes: seq<Seg>, pos: nat, size: nat)
    requires InOrderFrom(holes, pos, size) && pos > 0 && Takes(RunsBehind(holes, pos, size)) == 0
    ensures holes == [] ==> pos == size
    ensures holes != [] ==> TouchAtEnd(holes, pos, size) && holes[0].start == pos
    decreases |holes|
  {
    if holes == [] {
      RunsOfRest(pos, size);
    } else {
      var h := holes[0];
      RunsOfHole(holes, pos, size);
      SumOfHole(h.start - pos, true, h.end - h.start, RunsBehind(holes[1..], h.end, size));
      OnlyHolesTouch(holes[1..], h.end, size);
    }
  }

  lemma {:induction false} FlowsBehindHoleIff(holes: seq<Seg>, pos: nat, size: nat)
    requires InOrderFrom(holes, pos, size) && pos > 0
    ensures Starts(RunsBehind(holes, pos, size)) && Flowing(RunsBehind(holes, pos, size))
      <==> !TouchAtEnd(holes, pos, size)
    decreases |holes|
  {
    if holes == [] {
      RunsOfRest(pos, size);
    } else {
      var h, rest := holes[0], RunsBehind(holes[1..], holes[0].end, size);
      RunsOfHole(holes, pos, size);
      SumOfHole(h.start - pos, true, h.end - h.start, rest);
      FlowsBehindHoleIff(holes[1..], h.end, size);
      if Takes(rest) == 0 { OnlyHolesTouch(holes[1..], h.end, size); }
      if |holes| == 1 {
        RunsOfRest(h.end, size);
      }
    }
  }

  /**
    Which sparse files are completed at the very end of the stream: all but those whose last two
    holes touch each other and the end of the file.
   */
  lemma SparseCompletesIff(list: bool, w: World, out: Option<Target>, holes: seq<Seg>, size: nat, data: Bytes)
    requires holes != [] && InOrderFrom(holes, 0, size)
    requires |data| == Takes(BodyRuns(SegsOf(holes, size), size))
    ensures var runs := BodyRuns(SegsOf(holes, size), size);
      Parse(list, w, InBody(out, runs, size), data) == Some(Parsed(Filled(w, out, Expand(runs, data)), AtLength, []))
      <==> !(|holes| >= 2 && TouchAtEnd(holes, 0, size))
  {
    hide Parse, Filled, Expand, Flowing, Takes, Sum;
    var h, rest := holes[0], RunsBehind(holes[1..], holes[0].end, size);
    RunsAddUp(holes, 0, size);
    RunsOfHole(holes, 0, size);
    SumOfHole(h.start, h.start != 0, h.end - h.start, rest);
    FlowsBehindHoleIff(holes[1..], h.end, size);
    assert BodyRuns(SegsOf(holes, size), size) == RunsBehind(holes, 0, size);
    BodyCompletesIff(list, w, out, RunsBehind(holes, 0, size), data);
  }

  // ------------------------------------------------------------------ list mode

  /** The same place in the stream, without a file. */
  function Listed(m: Mode): Mode {
    if !m.InBody? then m else if m.size == 0 then AtLength else InBody(None, m.runs, m.size)
  }

  function AsListed(w: World, p: Parsed): Parsed {
    Parsed(w.(seen := p.w.seen), Listed(p.m), p.rest)
  }

  ghost predicate HasFile(m: Mode) {
    m.InBody? ==> m.out.Some?
  }

  lemma BodyStepListed(w: World, v: World, m: Mode, buf: Bytes)
    requires m.InBody? && m.out.Some? && w.seen == v.seen
    ensures var s := BodyStep(w, m.out, m.runs, m.size, buf);
      && (!s.Fail? ==> s.w.seen == w.seen && HasFile(s.m))
      && (m.size > 0 && s.Go? ==> BodyStep(v, None, m.runs, m.size, buf) == Go(v, Listed(s.m), s.rest))
      && (m.size > 0 && s.Halt? ==> BodyStep(v, None, m.runs, m.size, buf) == Halt(v, Listed(s.m), s.rest))
      && (m.size == 0 && !s.Fail? ==> s.Go? && s.m == AtLength && s.rest == buf)
  {
    hide Append, SetStamp;
    if m.size == 0 && m.runs != [] && m.runs[0].Take? {
      assert buf[0..] == buf;
    }
  }

  lemma HeaderStepListed(w: World, v: World, m: Mode, buf: Bytes)
    requires !m.InBody? && w.seen == v.seen
    ensures var s := OneStep(false, w, m, buf);
      && (s.Go? ==> HasFile(s.m) && OneStep(true, v, m, buf) == Go(v.(seen := s.w.seen), Listed(s.m), s.rest))
      && (s.Halt? ==> s.w == w && s.m == m && OneStep(true, v, m, buf) == Halt(v, m, s.rest))
  {
    hide Enter, Decode, BodyRuns;
  }

  /**
    List mode follows extraction: on every stream that extraction accepts, cut anywhere, it evaluates
    the same headers, skips the same bytes and stands at the same place, and creates nothing.
   */
  lemma {:induction false} ListFollows(w: World, v: World, m: Mode, buf: Bytes)
    requires HasFile(m) && w.seen == v.seen && Parse(false, w, m, buf).Some?
    ensures Parse(true, v, Listed(m), buf) == Some(AsListed(v, Parse(false, w, m, buf).value))
    ensures HasFile(Parse(false, w, m, buf).value.m)
    decreases |buf|, Rank(m)
  {
    hide BodyStep, Eval;
    var s := OneStep(false, w, m, buf);
    if m.InBody? {
      BodyStepListed(w, v, m, buf);
    } else {
      HeaderStepListed(w, v, m, buf);
    }
    if !s.Go? {
    } else {
      StepShrinks(false, w, m, buf);
      ListFollows(s.w, v.(seen := s.w.seen), s.m, s.rest);
    }
  }

  /** ... whatever the calls. */
  lemma {:induction false} ListFollowsCalls(p: Parsed, v: World, calls: seq<Bytes>)
    requires HasFile(p.m) && p.w.seen == v.seen && ParseCalls(false, Some(p), calls).Some?
    ensures ParseCalls(true, Some(AsListed(v, p)), calls) == Some(AsListed(v, ParseCalls(false, Some(p), calls).value))
    decreases |calls|
  {
    hide Parse;
    if calls == [] {
    } else {
      var q := Resume(false, Some(p), calls[0]);
      if q.None? {
        NoneStays(false, calls[1..]);
      }
      ListFollows(p.w, v, p.m, p.rest + calls[0]);
      ListFollowsCalls(q.value, v.(seen := q.value.w.seen), calls[1..]);
    }
  }

  lemma {:induction false} NoneStays(list: bool, calls: seq<Bytes>)
    ensures ParseCalls(list, None, calls) == None
    decreases |calls|
  {
    if calls == [] {
    } else {
      NoneStays(list, calls[1..]);
    }
  }
}

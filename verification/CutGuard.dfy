/**
  Exactly which archive bodies may be cut anywhere. The holes of a header come from the stream and
  need not fit the file size; a data segment that is longer than what is left of the file is the one
  thing that makes the outcome depend on where a call of `write_files` ends.
 */
module CutGuard {
  import opened ByteStrings
  import opened ArchiveHeader
  import opened FileTree
  import opened ArchiveStream

  /** What follows the body is safe. */
  ghost predicate SafeBehindBody(list: bool, w: World, m: Mode, buf: Bytes)
    decreases |buf|, Rank(m)
  {
    match OneStep(list, w, m, buf)
    case Go(w', m', rest) =>
      StepShrinks(list, w, m, buf);
      if m'.InBody? then SafeBehindBody(list, w', m', rest) else SafeStream(list, w', m', rest)
    case _ => true
  }

  lemma SafeStep(w: World, m: Mode, buf: Bytes)
    requires m.InBody? && SafeMode(m)
    ensures var s := BodyStep(w, m.out, m.runs, m.size, buf); !s.Fail? ==> SafeMode(s.m)
  {
    hide Write, Close;
  }

  lemma {:induction false} SafeBody(list: bool, w: World, m: Mode, buf: Bytes)
    requires m.InBody? && SafeMode(m) && SafeBehindBody(list, w, m, buf)
    ensures SafeStream(list, w, m, buf)
    decreases |buf|, Rank(m)
  {
    hide BodyStep, SafeMode;
    SafeStep(w, m, buf);
    var s := OneStep(list, w, m, buf);
    if !s.Go? || !s.m.InBody? {
    } else {
      StepShrinks(list, w, m, buf);
      SafeBody(list, s.w, s.m, s.rest);
    }
  }

  // ------------------------------------------------------------------ an unsafe body

  /** How many bytes close the file in the middle of the segment that is too long. */
  function Enough(file: bool, runs: seq<Run>, size: nat): (n: nat)
    requires !CutSafe(file, runs, size)
    ensures size > 0 ==> n > 0
    decreases |runs|
  {
    match runs[0]
    case Take(n) => if n > size then size else n + Enough(file, runs[1..], size - n)
    case Skip(n) => Enough(file, runs[1..], size - n)
  }

  /** The world after the first run. */
  function AfterFirst(w: World, out: Option<Target>, r: Run, d: Bytes): World
    requires !r.Inverted? && (r.Take? ==> r.n <= |d|)
  {
    Write(w, out, if r.Take? then d[..r.n] else Zeros(r.n))
  }

  /** One step of an unsafe body in front of the segment that is too long. */
  lemma UnsafeStep(w: World, out: Option<Target>, runs: seq<Run>, size: nat, d: Bytes)
    requires !CutSafe(out.Some?, runs, size) && !(runs[0].Take? && runs[0].n > size)
    requires d != [] && |d| >= Enough(out.Some?, runs, size)
    ensures var n := runs[0].n; var k := if runs[0].Take? then n else 0;
      && !runs[0].Inverted? && n < size && k <= |d| && !CutSafe(out.Some?, runs[1..], size - n)
      && Enough(out.Some?, runs, size) == k + Enough(out.Some?, runs[1..], size - n)
      && BodyStep(w, out, runs, size, d) == AfterRun(AfterFirst(w, out, runs[0], d), out, runs[1..], size - n, d[k..])
  {
    hide Write, AfterRun;
    if runs[0].Skip? { assert d[0..] == d; }
  }

  /** A step that goes on leaves the outcome to the rest. */
  lemma Advance(list: bool, w: World, m: Mode, buf: Bytes)
    requires OneStep(list, w, m, buf).Go?
    ensures var s := OneStep(list, w, m, buf);
      && Parse(list, w, m, buf) == Parse(list, s.w, s.m, s.rest)
      && (s.m.InBody? && SafeBehindBody(list, s.w, s.m, s.rest) ==> SafeBehindBody(list, w, m, buf))
  {
    hide OneStep;
    StepShrinks(list, w, m, buf);
  }

  /** The segment that is too long: exactly enough bytes close the file, more are an error. */
  lemma TooLong(list: bool, w: World, out: Option<Target>, runs: seq<Run>, size: nat, d: Bytes)
    requires runs != [] && runs[0].Take? && runs[0].n > size && |d| >= size
    ensures var p := Parse(list, w, InBody(out, runs, size), d);
      if |d| == size then p.Some? && p.value.m == AtLength && p.value.rest == []
      else p == None && SafeBehindBody(list, w, InBody(out, runs, size), d)
  {
    hide Write, Close;
    if |d| == size { assert d[size..] == []; }
  }

  /** Where an unsafe body begins: with the segment that is too long, or with a part of the file in front of it. */
  lemma UnsafeFront(file: bool, runs: seq<Run>, size: nat)
    requires !CutSafe(file, runs, size)
    ensures runs != []
    ensures runs[0].Take? && runs[0].n > size ==> Enough(file, runs, size) == size
    ensures !(runs[0].Take? && runs[0].n > size) ==> size > 0
  {
  }

  /** An unsafe body ends well on exactly that many bytes, and fails on any more. */
  lemma {:induction false} UnsafeParses(list: bool, w: World, out: Option<Target>, runs: seq<Run>, size: nat, d: Bytes)
    requires !CutSafe(out.Some?, runs, size) && |d| >= Enough(out.Some?, runs, size)
    ensures var p := Parse(list, w, InBody(out, runs, size), d);
      if |d| == Enough(out.Some?, runs, size) then p.Some? && p.value.m == AtLength && p.value.rest == []
      else p == None && SafeBehindBody(list, w, InBody(out, runs, size), d)
    decreases |runs|
  {
    hide BodyStep, CutSafe, AfterRun, Enough, AfterFirst, Parse, SafeBehindBody;
    UnsafeFront(out.Some?, runs, size);
    if runs[0].Take? && runs[0].n > size {
      TooLong(list, w, out, runs, size, d);
    } else {
      UnsafeStep(w, out, runs, size, d);
      var n := runs[0].n;
      var k := if runs[0].Take? then n else 0;
      var v := AfterFirst(w, out, runs[0], d);
      GoesOn(v, out, runs[1..], size - n, d[k..]);
      Advance(list, w, InBody(out, runs, size), d);
      UnsafeParses(list, v, out, runs[1..], size - n, d[k..]);
    }
  }

  lemma GoesOn(w: World, out: Option<Target>, left: seq<Run>, size: nat, buf: Bytes)
    requires size > 0 && !CutSafe(out.Some?, left, size) && |buf| >= Enough(out.Some?, left, size)
    ensures AfterRun(w, out, left, size, buf) == Go(w, InBody(out, left, size), buf)
  {
    hide Close;
  }

  /** So its outcome depends on the cut, whatever the bytes are. */
  lemma UnsafeDependsOnCut(list: bool, w: World, out: Option<Target>, runs: seq<Run>, size: nat, a: Bytes, b: Bytes)
    requires !CutSafe(out.Some?, runs, size) && |a| == Enough(out.Some?, runs, size) && |b| == 1
    ensures var m := InBody(out, runs, size);
      && Parse(list, w, m, a + b) == None
      && Resume(list, Parse(list, w, m, a), b).Some?
  {
    hide CutSafe, Enough;
    UnsafeParses(list, w, out, runs, size, a);
    UnsafeParses(list, w, out, runs, size, a + b);
    var p := Parse(list, w, InBody(out, runs, size), a).value;
    assert [] + b == b;
    assert OneStep(list, p.w, AtLength, b).Halt?;
  }

  /** The guard is exact: a body may be cut anywhere, as far as it is up to the body, if and only if it is safe. */
  lemma CutSafeIff(list: bool, w: World, out: Option<Target>, runs: seq<Run>, size: nat)
    ensures var m := InBody(out, runs, size);
      CutSafe(out.Some?, runs, size) <==>
        forall a: Bytes, b: Bytes :: b != [] && SafeBehindBody(list, w, m, a + b) ==>
          Parse(list, w, m, a + b) == Resume(list, Parse(list, w, m, a), b)
  {
    hide CutSafe, Enough, BodyStep;
    var m := InBody(out, runs, size);
    if CutSafe(out.Some?, runs, size) {
      assert SafeMode(m);
      forall a: Bytes, b: Bytes | b != [] && SafeBehindBody(list, w, m, a + b)
        ensures Parse(list, w, m, a + b) == Resume(list, Parse(list, w, m, a), b)
      {
        SafeBody(list, w, m, a + b);
        CutAnywhere(list, w, m, a, b);
      }
    } else {
      var a, b := Zeros(Enough(out.Some?, runs, size)), Zeros(1);
      UnsafeDependsOnCut(list, w, out, runs, size, a, b);
      UnsafeParses(list, w, out, runs, size, a + b);
    }
  }

  // ------------------------------------------------------------------ an empty call

  /** The parser waits for bytes in front of a segment that needs none. */
  predicate Stuck(m: Mode) {
    m.InBody? && m.runs != [] && (m.runs[0] == Take(0) || m.runs[0] == Inverted(false))
  }

  lemma WriteNothing(w: World, out: Option<Target>)
    ensures Write(w, out, []) == w
  {
  }

  /** Where the parser has stopped it stays, unless it is stuck; then it goes on or fails. */
  lemma StopsAgain(list: bool, w: World, m: Mode, buf: Bytes)
    requires OneStep(list, w, m, buf).Halt?
    ensures var s := OneStep(list, w, m, buf); var again := OneStep(list, s.w, s.m, s.rest);
      && (!Stuck(s.m) ==> again == s)
      && (Stuck(s.m) ==> s.rest == [] && (again.Fail? || Rank(again.m) < Rank(s.m)))
  {
    hide Write, Close, Decode, Eval;
    var s := OneStep(list, w, m, buf);
    if m.InBody? {
      WriteNothing(s.w, m.out);
      assert s.rest == [] && s.m.runs != [];
      if s.m.runs[0].Take? {
        assert [Take(s.m.runs[0].n - 0)] + s.m.runs[1..] == s.m.runs;
        assert [][0..] == s.rest && [][..0] == s.rest;
      }
    }
  }

  lemma EmptyStep(list: bool, w: World, m: Mode)
    ensures var s := OneStep(list, w, m, []);
      !s.Fail? ==> s.rest == [] && Rank(s.m) <= Rank(m)
  {
    hide Write, Close, Eval;
    assert m.AtHeader? && m.n == 0 ==> Decode([]) == None;
  }

  /** Without bytes the parser gets no deeper. */
  lemma {:induction false} EmptyParse(list: bool, w: World, m: Mode)
    ensures var p := Parse(list, w, m, []); p.Some? ==> Rank(p.value.m) <= Rank(m)
    decreases Rank(m)
  {
    hide OneStep;
    EmptyStep(list, w, m);
    var s := OneStep(list, w, m, []);
    if !s.Go? {
    } else {
      StepShrinks(list, w, m, []);
      EmptyParse(list, s.w, s.m);
    }
  }

  /** Exactly when an empty call changes nothing. */
  lemma {:induction false} EmptyCallIff(list: bool, w: World, m: Mode, buf: Bytes)
    requires Parse(list, w, m, buf).Some?
    ensures var p := Parse(list, w, m, buf);
      Resume(list, p, []) == p <==> !Stuck(p.value.m)
    decreases |buf|, Rank(m)
  {
    hide OneStep, Stuck;
    var s := OneStep(list, w, m, buf);
    if !s.Go? {
      StopsAgain(list, w, m, buf);
      assert s.rest + [] == s.rest;
      var again := OneStep(list, s.w, s.m, s.rest);
      if Stuck(s.m) && again.Go? {
        EmptyStep(list, s.w, s.m);
        EmptyParse(list, again.w, again.m);
      }
    } else {
      StepShrinks(list, w, m, buf);
      EmptyCallIff(list, s.w, s.m, s.rest);
    }
  }

  // ------------------------------------------------------------------ from the header on

  /** A header with the length in front is evaluated and the body begins. */
  lemma HeaderLeadsTo(list: bool, w: World, h: Bytes, s: Bytes)
    requires |h| < U16_LIMIT && Decode(h).Some? && Eval(list, w, Decode(h).value).Some?
    ensures var x := Eval(list, w, Decode(h).value).value;
      Parse(list, w, AtLength, LE(|h|, 2) + h + s) == Parse(list, x.0, x.1, s)
  {
    hide Eval, Decode, Parse, LE, FromLE, Pow256, SafeBehindBody, BodyStep;
    Widths();
    FromLEOfLE(|h|, 2);
    var all := LE(|h|, 2) + h + s;
    assert all[..2] == LE(|h|, 2) && all[2..] == h + s;
    assert (h + s)[..|h|] == h && (h + s)[|h|..] == s;
    Advance(list, w, AtLength, all);
    Advance(list, w, AtHeader(|h|), h + s);
  }

  /** Any header that is accepted and leads to an unsafe body begins a stream whose outcome depends on the cut. */
  lemma HeaderDependsOnCut(list: bool, w: World, h: Bytes, a: Bytes, b: Bytes)
    requires |h| < U16_LIMIT && Decode(h).Some? && Eval(list, w, Decode(h).value).Some?
    requires var m := Eval(list, w, Decode(h).value).value.1;
      && m.InBody? && !CutSafe(m.out.Some?, m.runs, m.size)
      && |a| == Enough(m.out.Some?, m.runs, m.size) && |b| == 1
    ensures var s := LE(|h|, 2) + h + a;
      && Parse(list, w, AtLength, s + b) == None
      && Resume(list, Parse(list, w, AtLength, s), b).Some?
  {
    hide Eval, Decode, Parse, CutSafe, Enough;
    var x := Eval(list, w, Decode(h).value).value;
    HeaderLeadsTo(list, w, h, a);
    HeaderLeadsTo(list, w, h, a + b);
    assert LE(|h|, 2) + h + (a + b) == LE(|h|, 2) + h + a + b;
    UnsafeDependsOnCut(list, x.0, x.1.out, x.1.runs, x.1.size, a, b);
  }

  /** The header of a file from 1970 with any size and any holes. */
  function StoredHeader(path: Bytes, size: nat, holes: seq<Seg>): Bytes {
    LE(TYPE_FILE, 1) + (PathField(path) + (LE(0, 8) + (LE(0, 8) + SizeFields(size, holes, LE(0, 2)))))
  }

  lemma StoredHeaderDecodes(path: Bytes, size: nat, holes: seq<Seg>)
    requires |path| < U16_LIMIT && size < U64_LIMIT && |holes| < U16_LIMIT
    requires forall h :: h in holes ==> h.Hole? && h.start < U64_LIMIT && h.end < U64_LIMIT
    ensures Decode(StoredHeader(path, size, holes)) == Some(OfFile(path, 0, 0, size, SegsOf(holes, size), Some(0)))
  {
    hide ReadNum, LE, ReadPath, PathField, DecodeSize, SizeFields;
    Widths();
    var fields := SizeFields(size, holes, LE(0, 2));
    FileTypeByte(PathField(path) + (LE(0, 8) + (LE(0, 8) + fields)));
    ReadPathOf(path, LE(0, 8) + (LE(0, 8) + fields));
    ReadNumOf(0, 8, LE(0, 8) + fields);
    ReadNumOf(0, 8, fields);
    DecodeSizeFields(path, 0, 0, size, holes, 0);
  }

  lemma FileTypeByte(t: Bytes)
    ensures var h := LE(TYPE_FILE, 1) + t;
      h != [] && h[1..] == t && Value(h[0]) % 16 == TYPE_FILE && Value(h[0]) / 16 == 0
  {
    assert LE(TYPE_FILE, 1) == [Raw(0)] + [];
  }

  lemma OverlapRuns()
    ensures var holes := [Hole(0, 2), Hole(0, 2)];
      && BodyRuns(SegsOf(holes, 7), 7) == [Skip(2), Skip(2), Take(5)]
      && BodyRuns(SegsOf(holes, 4), 4) == [Skip(2), Skip(2), Take(2)]
  {
    var holes := [Hole(0, 2), Hole(0, 2)];
    assert holes[1..] == [Hole(0, 2)] && holes[1..][1..] == [];
    assert SegsOf(holes, 7) == [Hole(0, 2), Hole(0, 2), Data(2, 7)];
    assert SegsOf(holes, 4) == [Hole(0, 2), Hole(0, 2), Data(2, 4)];
  }

  lemma OverlapGuards()
    ensures var runs := [Skip(2), Skip(2), Take(5)]; !CutSafe(true, runs, 7) && Enough(true, runs, 7) == 3
    ensures CutSafe(true, [Skip(2), Skip(2), Take(2)], 4)
  {
    var a, b := [Skip(2), Skip(2), Take(5)], [Skip(2), Skip(2), Take(2)];
    assert a[1..] == [Skip(2), Take(5)] && a[1..][1..] == [Take(5)];
    assert !CutSafe(true, [Take(5)], 3) && Enough(true, [Take(5)], 3) == 3;
    assert !CutSafe(true, [Skip(2), Take(5)], 5) && Enough(true, [Skip(2), Take(5)], 5) == 3;
    assert b[1..] == [Skip(2), Take(2)];
  }

  /** A file whose name is one letter, in a directory where there is nothing. */
  lemma CreatedAlone(t: Tree, path: Bytes)
    requires t.Keys == {[]} && t[[]].Dir? && path == [Raw(102)]
    ensures !Exists(t, path) && MakeParent(t, path) == Made(true, t)
    ensures var f := CreateFile(t, path);
      f.ok && f.key == path && path in f.tree && f.tree[path] == Plain([], Now, NEW_PERM)
  {
    assert path[..0] == [] && Parent([]) == [] && Parent(path) == [];
    assert Names([]) == [] && Base(path) == path;
    assert Names(path) == [path] && Steps(path) == [path];
    assert [path][..0] == [];
  }

  lemma AloneEvaluated(w: World, path: Bytes, size: nat, holes: seq<Seg>)
    requires w.tree.Keys == {[]} && w.tree[[]].Dir? && path == [Raw(102)]
    ensures var x := Eval(false, w, OfFile(path, 0, 0, size, SegsOf(holes, size), Some(0)));
      && x.Some? && x.value.1 == InBody(Some(Target(path, At(0, 0))), BodyRuns(SegsOf(holes, size), size), size)
      && path in x.value.0.tree && x.value.0.tree[path] == Plain([], Now, 0)
  {
    hide SegsOf, BodyRuns, Exists, MakeParent, CreateFile;
    CreatedAlone(w.tree, path);
  }

  lemma OverlapIsShort()
    ensures |StoredHeader([Raw(102)], 7, [Hole(0, 2), Hole(0, 2)])| < U16_LIMIT
  {
    hide LE;
    var holes := [Hole(0, 2), Hole(0, 2)];
    assert holes[1..] == [Hole(0, 2)] && holes[1..][1..] == [];
  }

  /**
    Two stored holes 0-2 in a file of seven bytes, extracted into an empty directory: four bytes of
    data at once are an error, but after three the file is closed, and the fourth is taken for the
    beginning of the next length. With a file size of four the same holes are harmless.
   */
  lemma OverlapDependsOnCut(w: World, data: Bytes, next: Bytes)
    requires w.tree.Keys == {[]} && w.tree[[]].Dir? && |data| == 3 && |next| == 1
    ensures var holes := [Hole(0, 2), Hole(0, 2)];
      var h := StoredHeader([Raw(102)], 7, holes);
      var s := LE(|h|, 2) + h + data;
      && Parse(false, w, AtLength, s + next) == None
      && Resume(false, Parse(false, w, AtLength, s), next).Some?
      && CutSafe(true, BodyRuns(SegsOf(holes, 4), 4), 4)
  {
    hide Parse, Decode, Eval, StoredHeader, SegsOf, CutSafe, Enough;
    var path, holes := [Raw(102)], [Hole(0, 2), Hole(0, 2)];
    var h := StoredHeader(path, 7, holes);
    StoredHeaderDecodes(path, 7, holes);
    OverlapRuns();
    OverlapGuards();
    OverlapIsShort();
    AloneEvaluated(w, path, 7, holes);
    HeaderDependsOnCut(false, w, h, data, next);
  }

  lemma AdjacentIsShort()
    ensures |StoredHeader([Raw(102)], 10, [Hole(0, 5), Hole(5, 10)])| < U16_LIMIT
  {
    hide LE;
    var holes := [Hole(0, 5), Hole(5, 10)];
    assert holes[1..] == [Hole(5, 10)] && holes[1..][1..] == [];
  }

  /**
    The archive of one file of ten bytes with the stored holes 0-5 and 5-10, extracted into an empty
    directory: at its end the parser still waits, and the file has five bytes and no times.
   */
  lemma AdjacentHolesCutOff(w: World)
    requires w.tree.Keys == {[]} && w.tree[[]].Dir?
    ensures var path := [Raw(102)];
      var h := StoredHeader(path, 10, [Hole(0, 5), Hole(5, 10)]);
      var p := Parse(false, w, AtLength, LE(|h|, 2) + h);
      && p.Some? && p.value.rest == []
      && p.value.m == InBody(Some(Target(path, At(0, 0))), [Take(0), Skip(5)], 5)
      && path in p.value.w.tree && p.value.w.tree[path] == Plain(Zeros(5), Now, 0)
  {
    hide Parse, Decode, Eval, StoredHeader, SegsOf, BodyRuns, Zeros, LE;
    var path, holes := [Raw(102)], [Hole(0, 5), Hole(5, 10)];
    var h := StoredHeader(path, 10, holes);
    StoredHeaderDecodes(path, 10, holes);
    AdjacentIsShort();
    AloneEvaluated(w, path, 10, holes);
    HeaderLeadsTo(false, w, h, []);
    assert LE(|h|, 2) + h + [] == LE(|h|, 2) + h;
    var x := Eval(false, w, Decode(h).value).value;
    AdjacentHolesStall(x.0, Target(path, At(0, 0)));
    assert Zeros(5) != [] && [] + Zeros(5) == Zeros(5) by { FiveZeros(); }
  }

  lemma FiveZeros()
    ensures |Zeros(5)| == 5
  {
  }
}

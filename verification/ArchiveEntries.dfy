/**
  What an archive is: entries in any order. The reader's stream of an entry, and the proof that the
  parser turns it back into the entry.
 */
module ArchiveEntries {
  import opened ByteStrings
  import opened ArchiveHeader
  import opened ArchiveStream

  /** The bytes of the data segments; all of the content if the file was not scanned. */
  function DataBytes(content: Bytes, segs: seq<Seg>): Bytes
    requires forall s :: s in segs ==> s.start <= s.end <= |content|
  {
    if segs == [] then [] else
    (if segs[0].Data? then content[segs[0].start..segs[0].end] else []) + DataBytes(content, segs[1..])
  }

  ghost predicate Inside(content: Bytes, segs: seq<Seg>) {
    forall s :: s in segs ==> s.start <= s.end <= |content|
  }

  /** A hole reads as zeros. */
  ghost predicate HolesAreZero(content: Bytes, segs: seq<Seg>) {
    forall s :: s in segs && s.Hole? ==>
      s.start <= s.end <= |content| && content[s.start..s.end] == Zeros(s.end - s.start)
  }

  /** An entry that was read from disk and whose lengths fit its header. */
  ghost predicate Archivable(e: Entry) {
    ValidEntry(e) && Fits(e) && (e.File? ==> HolesAreZero(e.content, e.segs))
  }

  lemma SegsInside(e: Entry)
    requires e.File? && ValidEntry(e)
    ensures Inside(e.content, e.segs)
  {
    if e.segs != [] {
      AlternatingBounds(e.segs, 0, |e.content|);
    }
  }

  /** What follows the header in the stream. */
  ghost function DataOf(e: Entry): Bytes
    requires ValidEntry(e)
  {
    if !e.File? then [] else
    if e.segs == [] then e.content else
    SegsInside(e);
    DataBytes(e.content, e.segs)
  }

  /** Everything the archive holds of an entry. */
  ghost function Group(e: Entry): Bytes
    requires Archivable(e)
  {
    Encode(e).value + DataOf(e)
  }

  // ------------------------------------------------------------------ segments as runs

  lemma {:induction false} RunsOfSegments(segs: seq<Seg>, start: nat, end: nat)
    requires Alternating(segs, start, end)
    ensures Proper(Runs(segs)) && Sum(Runs(segs)) == end - start
    ensures Flowing(Runs(segs)) && (forall r :: r in Runs(segs) ==> r.Take? ==> r.n > 0)
    decreases segs
  {
    if segs == [] {
    } else {
      AlternatingBounds(segs[1..], segs[0].end, end);
      RunsOfSegments(segs[1..], segs[0].end, end);
      assert Runs(segs)[1..] == Runs(segs[1..]);
      assert Runs(segs) == [RunOf(segs[0])] + Runs(segs[1..]);
      if |segs| >= 2 { assert Runs(segs[1..])[0] == Runs(segs)[1] && Runs(segs)[1] in Runs(segs[1..]); }
    }
  }

  /** For such a file the remaining size is 0 exactly when no segment is left. */
  lemma SizeAndSegmentsEndTogether(segs: seq<Seg>, size: nat, k: nat)
    requires Alternating(segs, 0, size) && k <= |segs|
    ensures Sum(Runs(segs)[k..]) == 0 <==> k == |segs|
  {
    RunsOfSegments(segs, 0, size);
    var runs := Runs(segs);
    if k < |segs| {
      assert runs[k..][0] == runs[k] && runs[k] in runs;
    }
  }

  /** The content is recovered from its data and the zeros of its holes. */
  lemma {:induction false} ExpandOfData(content: Bytes, segs: seq<Seg>, start: nat)
    requires start <= |content| && Alternating(segs, start, |content|)
    requires Inside(content, segs) && HolesAreZero(content, segs)
    ensures |DataBytes(content, segs)| == Takes(Runs(segs))
    ensures Expand(Runs(segs), DataBytes(content, segs)) == content[start..]
    decreases segs
  {
    if segs == [] {
    } else {
      var s, data := segs[0], DataBytes(content, segs[1..]);
      assert s in segs;
      AlternatingBounds(segs[1..], s.end, |content|);
      ExpandOfData(content, segs[1..], s.end);
      ExpandFirst(segs, content[s.start..s.end], data);
      assert content[start..] == content[start..s.end] + content[s.end..];
    }
  }

  lemma ExpandFirst(segs: seq<Seg>, bytes: Bytes, data: Bytes)
    requires segs != [] && segs[0].start <= segs[0].end && |bytes| == segs[0].end - segs[0].start
    requires segs[0].Hole? ==> bytes == Zeros(|bytes|)
    ensures var front := if segs[0].Data? then bytes else [];
      && Expand(Runs(segs), front + data) == bytes + Expand(Runs(segs[1..]), data)
      && Takes(Runs(segs)) == |front| + Takes(Runs(segs[1..]))
  {
    assert Runs(segs)[1..] == Runs(segs[1..]);
    assert Runs(segs)[0] == RunOf(segs[0]);
    if segs[0].Data? {
      assert (bytes + data)[..|bytes|] == bytes && (bytes + data)[|bytes|..] == data;
    } else {
      assert [] + data == data;
    }
  }

  /** What the parser expects after the header of a file is what the reader sends. */
  lemma BodyOfFile(e: Entry)
    requires Archivable(e) && e.File?
    ensures var runs := BodyRuns(ReadBack(e).segs, |e.content|);
      && runs != [] && Proper(runs) && Flowing(runs) && Sum(runs) == |e.content|
      && |DataOf(e)| == Takes(runs) && Expand(runs, DataOf(e)) == e.content
  {
    SegsInside(e);
    if e.segs != [] {
      SparseRoundTrip(e.segs, |e.content|);
      ExpandOfData(e.content, e.segs, 0);
      RunsOfSegments(e.segs, 0, |e.content|);
      assert e.content[0..] == e.content;
    }
    if e.segs == [] || HolesOf(e.segs) == [] {
      if e.segs != [] { NoHoles(e.content, e.segs); }
      OneRun(e.content);
    }
  }

  lemma NoHoles(content: Bytes, segs: seq<Seg>)
    requires segs != [] && Alternating(segs, 0, |content|) && HolesOf(segs) == [] && Inside(content, segs)
    ensures DataBytes(content, segs) == content
  {
    assert segs[0].Data?;
    assert HolesOf(segs) == [] + HolesOf(segs[1..]);
    assert segs[1..] == [];
    assert content[0..|content|] == content;
  }

  lemma OneRun(content: Bytes)
    ensures var runs := [Take(|content|)];
      && Proper(runs) && Flowing(runs) && Sum(runs) == Takes(runs) == |content| && Expand(runs, content) == content
  {
    var runs := [Take(|content|)];
    assert runs[1..] == [];
    assert content[..|content|] == content && content[|content|..] == [];
  }

  // ------------------------------------------------------------------ one entry through the parser

  /** The world after an entry: its header evaluated and its body filled in. */
  function After(list: bool, w: World, e: Entry): Option<World> {
    match Eval(list, w, ReadBack(e))
    case None => None
    case Some(x) =>
      if x.1.InBody? && e.File? then Some(Filled(x.0, x.1.out, e.content)) else Some(x.0)
  }

  /** An entry in front of any other bytes is taken completely and has its effect. */
  lemma GroupParses(list: bool, w: World, e: Entry, t: Bytes)
    requires Archivable(e) && After(list, w, e).Some?
    ensures Parse(list, w, AtLength, Group(e) + t) == Parse(list, After(list, w, e).value, AtLength, t)
    ensures SafeStream(list, After(list, w, e).value, AtLength, t) ==> SafeStream(list, w, AtLength, Group(e) + t)
  {
    hide Eval, Decode, Body, DataOf, Fits, Filled, Parse, SafeStream, ValidEntry, ReadBack;
    var body, data := Body(e), DataOf(e);
    LengthParses(list, w, e, data + t);
    HeaderParses(list, w, e, data + t);
    assert Group(e) + t == LE(|body|, 2) + (body + (data + t));
    DataParses(list, w, e, t);
  }

  /** The part behind the header. */
  lemma DataParses(list: bool, w: World, e: Entry, t: Bytes)
    requires Archivable(e) && After(list, w, e).Some?
    ensures var x := Eval(list, w, ReadBack(e)).value;
      && Parse(list, x.0, x.1, DataOf(e) + t) == Parse(list, After(list, w, e).value, AtLength, t)
      && (SafeStream(list, After(list, w, e).value, AtLength, t) ==> SafeStream(list, x.0, x.1, DataOf(e) + t))
  {
    hide Eval, DataOf, Fits, Filled, Parse, SafeStream, ValidEntry, ReadBack, Proper, Flowing, Takes;
    var x := Eval(list, w, ReadBack(e)).value;
    ModeAfter(list, w, e);
    if x.1.InBody? {
      BodyOfFile(e);
      BodyParses(list, x.0, x.1.out, x.1.runs, DataOf(e), t);
    } else {
      if e.File? { EmptyInList(list, w, e); } else { NoData(e); }
      assert DataOf(e) + t == t;
    }
  }

  lemma NoData(e: Entry)
    requires ValidEntry(e) && !e.File?
    ensures DataOf(e) == []
  {
  }

  lemma LengthParses(list: bool, w: World, e: Entry, t: Bytes)
    requires Fits(e)
    ensures Parse(list, w, AtLength, LE(|Body(e)|, 2) + (Body(e) + t))
      == Parse(list, w, AtHeader(|Body(e)|), Body(e) + t)
    ensures SafeStream(list, w, AtHeader(|Body(e)|), Body(e) + t) ==>
      SafeStream(list, w, AtLength, LE(|Body(e)|, 2) + (Body(e) + t))
  {
    hide Eval, Decode, Body;
    Widths();
    var s := LE(|Body(e)|, 2) + (Body(e) + t);
    FromLEOfLE(|Body(e)|, 2);
    assert s[..2] == LE(|Body(e)|, 2) && s[2..] == Body(e) + t;
  }

  lemma HeaderParses(list: bool, w: World, e: Entry, t: Bytes)
    requires ValidEntry(e) && Fits(e) && Eval(list, w, ReadBack(e)).Some?
    ensures var x := Eval(list, w, ReadBack(e)).value;
      Parse(list, w, AtHeader(|Body(e)|), Body(e) + t) == Parse(list, x.0, x.1, t)
    ensures var x := Eval(list, w, ReadBack(e)).value;
      SafeStream(list, x.0, x.1, t) ==> SafeStream(list, w, AtHeader(|Body(e)|), Body(e) + t)
  {
    hide Eval, Decode, Body;
    HeaderRoundTrip(e);
    var s := Body(e) + t;
    assert s[..|Body(e)|] == Body(e) && s[|Body(e)|..] == t;
  }

  lemma ModeAfter(list: bool, w: World, e: Entry)
    requires Eval(list, w, ReadBack(e)).Some?
    ensures var m := Eval(list, w, ReadBack(e)).value.1;
      && (m.InBody? ==> e.File? && m.runs == BodyRuns(ReadBack(e).segs, |e.content|) && m.size == |e.content|)
      && (!m.InBody? ==> m == AtLength && (e.File? ==> list && |e.content| == 0))
  {
    hide Enter, BodyRuns, SegsOf;
  }

  lemma EmptyInList(list: bool, w: World, e: Entry)
    requires Archivable(e) && e.File? && |e.content| == 0
    ensures DataOf(e) == []
  {
    SegsInside(e);
    assert e.segs == [];
  }

  /** The whole archive. */
  ghost function StreamOf(es: seq<Entry>): Bytes
    requires forall e :: e in es ==> Archivable(e)
  {
    if es == [] then [] else Group(es[0]) + StreamOf(es[1..])
  }

  function AfterAll(list: bool, w: World, es: seq<Entry>): Option<World>
    decreases |es|
  {
    if es == [] then Some(w) else
    match After(list, w, es[0])
    case None => None
    case Some(v) => AfterAll(list, v, es[1..])
  }

  /** The parser takes the stream of any list of entries apart into exactly these entries. */
  lemma {:induction false} StreamParses(list: bool, w: World, es: seq<Entry>)
    requires (forall e :: e in es ==> Archivable(e)) && AfterAll(list, w, es).Some?
    ensures Parse(list, w, AtLength, StreamOf(es)) == Some(Parsed(AfterAll(list, w, es).value, AtLength, []))
    ensures SafeStream(list, w, AtLength, StreamOf(es))
    decreases |es|
  {
    hide After, Group, Archivable;
    if es == [] {
    } else {
      assert es[0] in es;
      GroupParses(list, w, es[0], StreamOf(es[1..]));
      StreamParses(list, After(list, w, es[0]).value, es[1..]);
    }
  }

  /** The same for any division of the stream into calls. */
  lemma StreamParsesInCalls(list: bool, w: World, es: seq<Entry>, calls: seq<Bytes>)
    requires (forall e :: e in es ==> Archivable(e)) && AfterAll(list, w, es).Some?
    requires Flatten(calls) == StreamOf(es)
    requires es == [] || forall c :: c in calls ==> c != []
    ensures ParseCalls(list, Some(Parsed(w, AtLength, [])), calls)
      == Some(Parsed(AfterAll(list, w, es).value, AtLength, []))
  {
    hide Parse, SafeStream, AfterAll, Archivable, Group;
    var p := Some(Parsed(w, AtLength, []));
    if es == [] {
      EmptyCalls(list, w, calls);
      assert AfterAll(list, w, []) == Some(w) by { NoEntries(list, w); }
    } else {
      assert es[0] in es;
      GroupNotEmpty(es[0]);
      StreamParses(list, w, es);
      assert [] + Flatten(calls) == Flatten(calls);
      AnyCalls(list, p, calls);
    }
  }

  lemma NoEntries(list: bool, w: World)
    ensures AfterAll(list, w, []) == Some(w)
  {
  }

  lemma GroupNotEmpty(e: Entry)
    requires Archivable(e)
    ensures Group(e) != []
  {
    assert |LE(|Body(e)|, 2)| == 2;
  }

  lemma {:induction false} EmptyCalls(list: bool, w: World, calls: seq<Bytes>)
    requires Flatten(calls) == []
    ensures ParseCalls(list, Some(Parsed(w, AtLength, [])), calls) == Some(Parsed(w, AtLength, []))
    decreases |calls|
  {
    if calls == [] {
    } else {
      assert calls[0] == [] && Flatten(calls[1..]) == [];
      EmptyCalls(list, w, calls[1..]);
    }
  }

  /** What list mode prints. */
  function HeadersOf(es: seq<Entry>): (hs: seq<Header>)
    ensures |hs| == |es|
  {
    seq(|es|, i requires 0 <= i < |es| => ReadBack(es[i]))
  }

  /** List mode accepts every archive, creates nothing, and evaluates exactly the headers of its entries in order. */
  lemma {:induction false} ListedAll(w: World, es: seq<Entry>)
    ensures AfterAll(true, w, es) == Some(w.(seen := w.seen + HeadersOf(es)))
    decreases |es|
  {
    if es == [] {
      assert w.seen + [] == w.seen;
    } else {
      var v := w.(seen := w.seen + [ReadBack(es[0])]);
      ListedOne(w, es[0]);
      ListedAll(v, es[1..]);
      assert HeadersOf(es) == [ReadBack(es[0])] + HeadersOf(es[1..]);
      assert (w.seen + [ReadBack(es[0])]) + HeadersOf(es[1..]) == w.seen + HeadersOf(es);
    }
  }

  lemma ListedOne(w: World, e: Entry)
    ensures After(true, w, e) == Some(w.(seen := w.seen + [ReadBack(e)]))
  {
    hide Enter, BodyRuns, SegsOf;
  }
}

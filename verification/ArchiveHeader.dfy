/**
  The header in front of every archive entry: its encoding, its parser, and how the segments of a
  sparse file are rebuilt from the stored holes.
 */
module ArchiveHeader {
  import opened ByteStrings

  const TYPE_FILE: nat := 0
  const TYPE_DIRECTORY: nat := 1
  const TYPE_SYMLINK_FILE: nat := 2
  const TYPE_SYMLINK_DIR: nat := 3
  const TYPE_HARDLINK: nat := 4
  const U16_LIMIT: nat := 0x1_0000
  const U64_LIMIT: nat := 0x1_0000_0000_0000_0000

  /** A stretch of a sparse file, from `start` up to but not including `end`. */
  datatype Seg = Data(start: nat, end: nat) | Hole(start: nat, end: nat)

  /**
    One entry as it is archived. `segs` is the result of scanning a file for holes, `[]` if the scan
    failed; times are whole seconds.
   */
  datatype Entry =
    | File(path: Bytes, atime: nat, mtime: nat, mode: nat, content: Bytes, segs: seq<Seg>)
    | Directory(path: Bytes, atime: nat, mtime: nat, mode: nat)
    | Symlink(path: Bytes, atime: nat, mtime: nat, target: Bytes, toDir: bool)
    | HardLink(path: Bytes, target: Bytes)

  /** What the parser learns. Permissions are read only if the archive was made on a Unix system. */
  datatype Header =
    | OfFile(path: Bytes, atime: nat, mtime: nat, size: nat, segs: seq<Seg>, perm: Option<nat>)
    | OfDirectory(path: Bytes, atime: nat, mtime: nat, perm: Option<nat>)
    | OfSymlink(path: Bytes, atime: nat, mtime: nat, target: Bytes, toDir: bool)
    | OfHardLink(path: Bytes, target: Bytes)
    | OfUnknown(path: Bytes)

  ghost predicate ValidEntry(e: Entry) {
    match e
    case File(_, atime, mtime, _, content, segs) =>
      atime < U64_LIMIT && mtime < U64_LIMIT && |content| < U64_LIMIT && (segs == [] || Alternating(segs, 0, |content|))
    case Directory(_, atime, mtime, _) => atime < U64_LIMIT && mtime < U64_LIMIT
    case Symlink(_, atime, mtime, _, _) => atime < U64_LIMIT && mtime < U64_LIMIT
    case HardLink(_, _) => true
  }

  // ------------------------------------------------------------------ segments of a sparse file

  /** Non-empty data segments and holes in turn, from `start` to `end` without a gap. */
  ghost predicate Alternating(segs: seq<Seg>, start: nat, end: nat) {
    if segs == [] then start == end else
    && segs[0].start == start < segs[0].end <= end
    && (|segs| > 1 ==> segs[0].Data? != segs[1].Data?)
    && Alternating(segs[1..], segs[0].end, end)
  }

  function HolesOf(segs: seq<Seg>): (holes: seq<Seg>)
    ensures forall h :: h in holes ==> h.Hole? && h in segs
  {
    if segs == [] then [] else (if segs[0].Hole? then [segs[0]] else []) + HolesOf(segs[1..])
  }

  /** The segments behind position `pos`, from the holes that follow. */
  function SegsFrom(holes: seq<Seg>, pos: nat, size: nat): seq<Seg> {
    if holes == [] then
      if pos != size then [Data(pos, size)] else []
    else
      (if holes[0].start != 0 then [Data(pos, holes[0].start)] else [])
        + [holes[0]] + SegsFrom(holes[1..], holes[0].end, size)
  }

  /** What the parser makes of the stored holes; a file without holes has no segment list. */
  function SegsOf(holes: seq<Seg>, size: nat): seq<Seg> {
    if holes == [] then [] else SegsFrom(holes, 0, size)
  }

  lemma {:induction false} SegsFromHoles(segs: seq<Seg>, pos: nat, size: nat)
    requires Alternating(segs, pos, size)
    requires pos == 0 || segs == [] || segs[0].Data?
    ensures SegsFrom(HolesOf(segs), pos, size) == segs
    decreases segs
  {
    if segs == [] {
    } else if segs[0].Hole? {
      SegsFromHoles(segs[1..], segs[0].end, size);
      HoleFirst(segs, pos, size);
    } else if |segs| == 1 {
      assert segs == [Data(pos, size)] && segs[1..] == [];
    } else {
      assert segs[1..][1..] == segs[2..] && Alternating(segs[1..], segs[0].end, size);
      SegsFromHoles(segs[2..], segs[1].end, size);
      DataFirst(segs, pos, size);
    }
  }

  lemma HoleFirst(segs: seq<Seg>, pos: nat, size: nat)
    requires segs != [] && segs[0].Hole? && segs[0].start == pos == 0
    requires SegsFrom(HolesOf(segs[1..]), segs[0].end, size) == segs[1..]
    ensures SegsFrom(HolesOf(segs), pos, size) == segs
  {
    var rest := HolesOf(segs[1..]);
    assert HolesOf(segs) == [segs[0]] + rest;
    assert ([segs[0]] + rest)[1..] == rest;
    assert segs == [] + [segs[0]] + segs[1..];
  }

  lemma DataFirst(segs: seq<Seg>, pos: nat, size: nat)
    requires |segs| >= 2 && segs[0].Data? && segs[1].Hole?
    requires segs[0].start == pos < segs[0].end == segs[1].start
    requires SegsFrom(HolesOf(segs[2..]), segs[1].end, size) == segs[2..]
    ensures SegsFrom(HolesOf(segs), pos, size) == segs
  {
    var rest := HolesOf(segs[2..]);
    assert segs[1..][1..] == segs[2..];
    assert HolesOf(segs) == [] + HolesOf(segs[1..]) == [segs[1]] + rest;
    assert ([segs[1]] + rest)[1..] == rest;
    assert segs == [segs[0]] + [segs[1]] + segs[2..];
  }

  /** Rebuilding from the stored holes and the size gives back every alternating partition that has a hole. */
  lemma SparseRoundTrip(segs: seq<Seg>, size: nat)
    requires Alternating(segs, 0, size)
    ensures SegsOf(HolesOf(segs), size) == if HolesOf(segs) == [] then [] else segs
  {
    SegsFromHoles(segs, 0, size);
  }

  // ------------------------------------------------------------------ encoding

  function HeaderOf(e: Entry): Header {
    match e
    case File(path, atime, mtime, mode, content, segs) =>
      OfFile(path, atime, mtime, |content|, segs, Some(mode % 0x1000))
    case Directory(path, atime, mtime, mode) => OfDirectory(path, atime, mtime, Some(mode % 0x1000))
    case Symlink(path, atime, mtime, target, toDir) => OfSymlink(path, atime, mtime, target, toDir)
    case HardLink(path, target) => OfHardLink(path, target)
  }

  function TypeOf(e: Entry): (n: nat)
    ensures n < 5
  {
    match e
    case File(_, _, _, _, _, _) => TYPE_FILE
    case Directory(_, _, _, _) => TYPE_DIRECTORY
    case Symlink(_, _, _, _, toDir) => if toDir then TYPE_SYMLINK_DIR else TYPE_SYMLINK_FILE
    case HardLink(_, _) => TYPE_HARDLINK
  }

  function PathField(path: Bytes): Bytes {
    LE(|path|, 2) + path
  }

  function HoleFields(holes: seq<Seg>): Bytes {
    if holes == [] then [] else LE(holes[0].start, 8) + (LE(holes[0].end, 8) + HoleFields(holes[1..]))
  }

  function SizeFields(size: nat, holes: seq<Seg>, t: Bytes): Bytes {
    LE(size, 8) + (LE(|holes|, 2) + (HoleFields(holes) + t))
  }

  /** Everything behind the path. A symbolic link is followed by two bytes nobody reads. */
  function Fields(e: Entry): Bytes {
    match e
    case File(_, atime, mtime, mode, content, segs) =>
      LE(atime, 8) + (LE(mtime, 8) + SizeFields(|content|, HolesOf(segs), LE(mode % 0x1000, 2)))
    case Directory(_, atime, mtime, mode) => LE(atime, 8) + (LE(mtime, 8) + LE(mode % 0x1000, 2))
    case Symlink(_, atime, mtime, target, _) => LE(atime, 8) + (LE(mtime, 8) + (PathField(target) + LE(0, 2)))
    case HardLink(_, target) => PathField(target)
  }

  function Body(e: Entry): Bytes {
    LE(TypeOf(e), 1) + (PathField(e.path) + Fields(e))
  }

  /** The lengths that are stored in 16 bits. */
  predicate Fits(e: Entry) {
    && |e.path| < U16_LIMIT
    && (e.Symlink? || e.HardLink? ==> |e.target| < U16_LIMIT)
    && (e.File? ==> |HolesOf(e.segs)| < U16_LIMIT)
    && |Body(e)| < U16_LIMIT
  }

  /** The header with its length in front; `None` if something does not fit. */
  function Encode(e: Entry): Option<Bytes> {
    if Fits(e) then Some(LE(|Body(e)|, 2) + Body(e)) else None
  }

  // ------------------------------------------------------------------ decoding

  /** A field was read and the bytes behind it remain, or the header is too short. */
  datatype Step<+T> = Short | Got(v: T, rest: Bytes)

  function ReadNum(s: Bytes, k: nat): Step<nat> {
    if |s| < k then Short else Got(FromLE(s[..k]), s[k..])
  }

  function ReadPath(s: Bytes): Step<Bytes> {
    match ReadNum(s, 2)
    case Short => Short
    case Got(n, t) => if |t| < n then Short else Got(t[..n], t[n..])
  }

  function ReadHole(s: Bytes): Step<Seg> {
    match ReadNum(s, 8)
    case Short => Short
    case Got(start, t) =>
      match ReadNum(t, 8)
      case Short => Short
      case Got(end, u) => Got(Hole(start, end), u)
  }

  function ReadHoles(s: Bytes, n: nat): (r: Step<seq<Seg>>)
    ensures r.Got? ==> |r.v| == n
  {
    if n == 0 then Got([], s) else
    match ReadHole(s)
    case Short => Short
    case Got(hole, t) =>
      match ReadHoles(t, n - 1)
      case Short => Short
      case Got(holes, u) => Got([hole] + holes, u)
  }

  function ReadPerm(unix: bool, s: Bytes): Step<Option<nat>> {
    if !unix then Got(None, s) else
    match ReadNum(s, 2)
    case Short => Short
    case Got(perm, t) => Got(Some(perm), t)
  }

  function DecodeSize(unix: bool, path: Bytes, atime: nat, mtime: nat, s: Bytes): Option<Header> {
    match ReadNum(s, 8)
    case Short => None
    case Got(size, t) =>
      match ReadNum(t, 2)
      case Short => None
      case Got(count, u) =>
        match ReadHoles(u, count)
        case Short => None
        case Got(holes, v) =>
          match ReadPerm(unix, v)
          case Short => None
          case Got(perm, _) => Some(OfFile(path, atime, mtime, size, SegsOf(holes, size), perm))
  }

  function DecodeRest(kind: nat, unix: bool, path: Bytes, atime: nat, mtime: nat, s: Bytes): Option<Header> {
    if kind == TYPE_FILE then
      DecodeSize(unix, path, atime, mtime, s)
    else if kind == TYPE_DIRECTORY then
      match ReadPerm(unix, s)
      case Short => None
      case Got(perm, _) => Some(OfDirectory(path, atime, mtime, perm))
    else if kind == TYPE_SYMLINK_FILE || kind == TYPE_SYMLINK_DIR then
      match ReadPath(s)
      case Short => None
      case Got(target, _) => Some(OfSymlink(path, atime, mtime, target, kind == TYPE_SYMLINK_DIR))
    else
      Some(OfUnknown(path))
  }

  function DecodeTimes(kind: nat, unix: bool, path: Bytes, s: Bytes): Option<Header> {
    match ReadNum(s, 8)
    case Short => None
    case Got(atime, t) =>
      match ReadNum(t, 8)
      case Short => None
      case Got(mtime, u) => DecodeRest(kind, unix, path, atime, mtime, u)
  }

  /** The low four bits of the first byte are the entry type, the others the system it came from. */
  function DecodeBehindType(kind: nat, unix: bool, s: Bytes): Option<Header> {
    match ReadPath(s)
    case Short => None
    case Got(path, t) =>
      if kind == TYPE_HARDLINK then
        match ReadPath(t)
        case Short => None
        case Got(target, _) => Some(OfHardLink(path, target))
      else
        DecodeTimes(kind, unix, path, t)
  }

  /** `None` is a slice out of range: the header is too short for what it announces. */
  function Decode(h: Bytes): Option<Header> {
    if h == [] then None else DecodeBehindType(Value(h[0]) % 16, Value(h[0]) / 16 == 0, h[1..])
  }

  // ------------------------------------------------------------------ round trip

  lemma ReadNumOf(n: nat, k: nat, t: Bytes)
    requires n < Pow256(k)
    ensures ReadNum(LE(n, k) + t, k) == Got(n, t)
  {
    FromLEOfLE(n, k);
    assert (LE(n, k) + t)[..k] == LE(n, k) && (LE(n, k) + t)[k..] == t;
  }

  lemma ReadPathOf(p: Bytes, t: Bytes)
    requires |p| < U16_LIMIT
    ensures ReadPath(PathField(p) + t) == Got(p, t)
  {
    Widths();
    assert PathField(p) + t == LE(|p|, 2) + (p + t);
    ReadNumOf(|p|, 2, p + t);
    assert (p + t)[..|p|] == p && (p + t)[|p|..] == t;
  }

  lemma ReadHoleOf(hole: Seg, t: Bytes)
    requires hole.Hole? && hole.start < U64_LIMIT && hole.end < U64_LIMIT
    ensures ReadHole(LE(hole.start, 8) + (LE(hole.end, 8) + t)) == Got(hole, t)
  {
    hide ReadNum, LE;
    Widths();
    ReadNumOf(hole.start, 8, LE(hole.end, 8) + t);
    ReadNumOf(hole.end, 8, t);
  }

  lemma {:induction false} ReadHolesOf(holes: seq<Seg>, t: Bytes)
    requires forall h :: h in holes ==> h.Hole? && h.start < U64_LIMIT && h.end < U64_LIMIT
    ensures ReadHoles(HoleFields(holes) + t, |holes|) == Got(holes, t)
    decreases |holes|
  {
    hide ReadHole, LE;
    if holes == [] {
      assert [] + t == t;
    } else {
      var h, rest := holes[0], HoleFields(holes[1..]);
      assert HoleFields(holes) + t == LE(h.start, 8) + (LE(h.end, 8) + (rest + t));
      ReadHoleOf(h, rest + t);
      ReadHolesOf(holes[1..], t);
      assert [h] + holes[1..] == holes;
    }
  }

  lemma {:induction false} AlternatingBounds(segs: seq<Seg>, start: nat, end: nat)
    requires Alternating(segs, start, end)
    ensures start <= end
    ensures forall h :: h in segs ==> start <= h.start < h.end <= end
    decreases segs
  {
    if segs == [] {
    } else {
      AlternatingBounds(segs[1..], segs[0].end, end);
    }
  }

  /** Size and holes are read back whether or not the holes fit the size. */
  lemma DecodeSizeFields(path: Bytes, atime: nat, mtime: nat, size: nat, holes: seq<Seg>, perm: nat)
    requires size < U64_LIMIT && |holes| < U16_LIMIT && perm < U16_LIMIT
    requires forall h :: h in holes ==> h.Hole? && h.start < U64_LIMIT && h.end < U64_LIMIT
    ensures DecodeSize(true, path, atime, mtime, SizeFields(size, holes, LE(perm, 2)))
      == Some(OfFile(path, atime, mtime, size, SegsOf(holes, size), Some(perm)))
  {
    hide ReadNum, LE, ReadHoles, HoleFields, SegsOf;
    Widths();
    var t := LE(perm, 2);
    ReadNumOf(size, 8, LE(|holes|, 2) + (HoleFields(holes) + t));
    ReadNumOf(|holes|, 2, HoleFields(holes) + t);
    ReadHolesOf(holes, t);
    assert t + [] == t;
    ReadNumOf(perm, 2, []);
  }

  lemma DecodeSizeOf(e: Entry)
    requires e.File? && ValidEntry(e) && |HolesOf(e.segs)| < U16_LIMIT
    ensures var s := SizeFields(|e.content|, HolesOf(e.segs), LE(e.mode % 0x1000, 2));
      DecodeSize(true, e.path, e.atime, e.mtime, s) == Some(ReadBack(e))
  {
    hide LE, SizeFields, DecodeSize, SegsOf;
    if e.segs != [] { AlternatingBounds(e.segs, 0, |e.content|); }
    DecodeSizeFields(e.path, e.atime, e.mtime, |e.content|, HolesOf(e.segs), e.mode % 0x1000);
  }

  /** What reading back gives: all of the header; the segments of a file count only if there is a hole. */
  function ReadBack(e: Entry): Header {
    var h := HeaderOf(e);
    if h.OfFile? then h.(segs := SegsOf(HolesOf(h.segs), h.size)) else h
  }

  lemma DecodeFieldsOf(e: Entry)
    requires ValidEntry(e) && Fits(e)
    ensures !e.HardLink? ==> DecodeTimes(TypeOf(e), true, e.path, Fields(e)) == Some(ReadBack(e))
  {
    hide ReadNum, LE, ReadPath, PathField, DecodeSize, SizeFields, Body;
    Widths();
    match e {
      case File(_, atime, mtime, mode, content, segs) =>
        var t := SizeFields(|content|, HolesOf(segs), LE(mode % 0x1000, 2));
        ReadNumOf(atime, 8, LE(mtime, 8) + t);
        ReadNumOf(mtime, 8, t);
        DecodeSizeOf(e);
      case Directory(_, atime, mtime, mode) =>
        var t := LE(mode % 0x1000, 2);
        ReadNumOf(atime, 8, LE(mtime, 8) + t);
        ReadNumOf(mtime, 8, t);
        ReadNumOf(mode % 0x1000, 2, []);
        assert t + [] == t;
      case Symlink(_, atime, mtime, target, toDir) =>
        var t := PathField(target) + LE(0, 2);
        ReadNumOf(atime, 8, LE(mtime, 8) + t);
        ReadNumOf(mtime, 8, t);
        ReadPathOf(target, LE(0, 2));
      case HardLink(_, _) =>
    }
  }

  /** Every header that could be written is read back, field by field. */
  lemma HeaderRoundTrip(e: Entry)
    requires ValidEntry(e) && Fits(e)
    ensures Decode(Body(e)) == Some(ReadBack(e))
    ensures e.File? && HolesOf(e.segs) != [] ==> ReadBack(e) == HeaderOf(e)
    ensures !e.File? ==> ReadBack(e) == HeaderOf(e)
  {
    hide ReadNum, LE, ReadPath, PathField, DecodeTimes, Fields;
    var h, t := Body(e), PathField(e.path) + Fields(e);
    TypeByte(e, t);
    ReadPathOf(e.path, Fields(e));
    DecodeFieldsOf(e);
    if e.HardLink? {
      LinkFields(e);
    } else if e.File? && HolesOf(e.segs) != [] {
      SparseRoundTrip(e.segs, |e.content|);
    }
  }

  lemma TypeByte(e: Entry, t: Bytes)
    ensures var h := LE(TypeOf(e), 1) + t;
      h != [] && h[1..] == t && Value(h[0]) % 16 == TypeOf(e) && Value(h[0]) / 16 == 0
  {
    assert LE(TypeOf(e), 1) == [Raw((TypeOf(e) % 256) as Octet)] + [];
  }

  lemma LinkFields(e: Entry)
    requires e.HardLink? && |e.target| < U16_LIMIT
    ensures ReadPath(Fields(e)) == Got(e.target, [])
  {
    ReadPathOf(e.target, []);
    assert PathField(e.target) + [] == PathField(e.target);
  }

  // ------------------------------------------------------------------ the code that builds a header

  method AddPathToHeader(path: Bytes, header: Bytes) returns (r: Option<Bytes>)
    ensures r == if |path| < U16_LIMIT then Some(header + PathField(path)) else None
  {
    if |path| >= U16_LIMIT {
      return None;
    }
    r := Some(header + LE(|path|, 2));
    r := Some(r.value + path);
    assert header + LE(|path|, 2) + path == header + PathField(path);
  }

  method AddHoles(holes: seq<Seg>, header: Bytes) returns (r: Bytes)
    ensures r == header + HoleFields(holes)
  {
    hide LE;
    r := header;
    assert holes[0..] == holes;
    for i := 0 to |holes|
      invariant r + HoleFields(holes[i..]) == header + HoleFields(holes)
    {
      ghost var rest := HoleFields(holes[i + 1..]);
      assert holes[i..][1..] == holes[i + 1..];
      assert HoleFields(holes[i..]) == LE(holes[i].start, 8) + (LE(holes[i].end, 8) + rest);
      ghost var before := r;
      r := r + LE(holes[i].start, 8);
      r := r + LE(holes[i].end, 8);
      assert r + rest == before + HoleFields(holes[i..]);
    }
    assert HoleFields(holes[|holes|..]) == [];
  }

  /** The part of `build_header` that a regular file adds before the permissions. */
  method AddSize(size: nat, segs: seq<Seg>, header: Bytes, ghost t: Bytes) returns (r: Option<Bytes>)
    ensures r.Some? <==> |HolesOf(segs)| < U16_LIMIT
    ensures r.Some? ==> r.value + t == header + SizeFields(size, HolesOf(segs), t)
  {
    hide LE, HoleFields;
    var holes := HolesOf(segs);
    var h := header + LE(size, 8);
    if |holes| >= U16_LIMIT {
      return None;
    }
    h := h + LE(|holes|, 2);
    h := AddHoles(holes, h);
    assert h + t == header + SizeFields(size, holes, t);
    return Some(h);
  }

  /** Appends access time, modification time and, depending on the type, the other fields. */
  method AddMetadata(e: Entry, header: Bytes) returns (r: Option<Bytes>)
    requires !e.HardLink?
    ensures r.Some? <==> (e.Symlink? ==> |e.target| < U16_LIMIT) && (e.File? ==> |HolesOf(e.segs)| < U16_LIMIT)
    ensures r.Some? ==> r.value == header + Fields(e)
  {
    hide LE, SizeFields, PathField, HolesOf;
    var h := header + LE(e.atime, 8);
    h := h + LE(e.mtime, 8);
    var permissions := 0;
    if e.File? || e.Directory? {
      permissions := e.mode % 0x1000;
    }
    ghost var perm := LE(permissions, 2);
    ghost var middle := h;
    if e.File? {
      r := AddSize(|e.content|, e.segs, h, perm);
      if r.None? {
        return;
      }
      h := r.value;
    } else if e.Symlink? {
      r := AddPathToHeader(e.target, h);
      if r.None? {
        return;
      }
      h := r.value;
    }
    h := h + LE(permissions, 2);
    assert h == header + Fields(e);
    return Some(h);
  }

  /** `build_header`: fails exactly when a length does not fit 16 bits. */
  method BuildHeader(e: Entry) returns (r: Option<Bytes>)
    ensures r == Encode(e)
  {
    hide LE, Fields, PathField, HolesOf;
    // placeholder for the header size
    var header := [ZERO, ZERO];
    header := header + LE(TypeOf(e), 1);
    r := AddPathToHeader(e.path, header);
    if r.None? {
      return;
    }
    if e.HardLink? {
      r := AddLinkTarget(e, r.value);
    } else {
      r := AddMetadata(e, r.value);
    }
    if r.None? {
      return;
    }
    assert r.value == [ZERO, ZERO] + Body(e);
    r := SetHeaderSize(r.value, Body(e));
  }

  method AddLinkTarget(e: Entry, header: Bytes) returns (r: Option<Bytes>)
    requires e.HardLink?
    ensures r == if |e.target| < U16_LIMIT then Some(header + Fields(e)) else None
  {
    r := AddPathToHeader(e.target, header);
  }

  /** Overwrites the placeholder. */
  method SetHeaderSize(header: Bytes, ghost body: Bytes) returns (r: Option<Bytes>)
    requires header == [ZERO, ZERO] + body
    ensures r == if |body| < U16_LIMIT then Some(LE(|body|, 2) + body) else None
  {
    if |header| - 2 >= U16_LIMIT {
      return None;
    }
    var size := LE(|header| - 2, 2);
    r := Some(header[0 := size[0]][1 := size[1]]);
    assert r.value == size + body;
  }

  // ------------------------------------------------------------------ the code that parses a header

  /** The number in `header[s..e]`; fails when the slice is out of range. */
  method GetNumber(header: Bytes, s: nat, e: nat) returns (r: Option<nat>)
    requires s <= |header| && s <= e
    ensures r.Some? <==> e <= |header|
    ensures ReadNum(header[s..], e - s) == if r.Some? then Got(r.value, header[e..]) else Short
  {
    if e > |header| {
      return None;
    }
    assert header[s..][..e - s] == header[s..e] && header[s..][e - s..] == header[e..];
    return Some(FromLE(header[s..e]));
  }

  /** `get_path_from_header`: the path and the index behind it. */
  method GetPathFromHeader(header: Bytes, currentEndIndex: nat) returns (r: Option<(Bytes, nat)>)
    requires currentEndIndex <= |header|
    ensures r.Some? ==> r.value.1 <= |header|
    ensures ReadPath(header[currentEndIndex..]) ==
      if r.Some? then Got(r.value.0, header[r.value.1..]) else Short
  {
    hide FromLE;
    var s := currentEndIndex;
    var e := currentEndIndex + 2;
    var pathLen := GetNumber(header, s, e);
    if pathLen.None? {
      return None;
    }
    s := e;
    e := e + pathLen.value;
    if e > |header| {
      return None;
    }
    assert header[s..][..pathLen.value] == header[s..e] && header[s..][pathLen.value..] == header[e..];
    return Some((header[s..e], e));
  }

  /** The loop over the holes, from index `start` on. */
  method GetSegments(header: Bytes, start: nat, holesCount: nat, size: nat) returns (r: Option<(seq<Seg>, nat)>)
    requires start <= |header|
    ensures r.Some? ==> r.value.1 <= |header|
    ensures var holes := ReadHoles(header[start..], holesCount);
      if r.None? then holes == Short
      else holes.Got? && r.value.0 == SegsOf(holes.v, size) && header[r.value.1..] == holes.rest
  {
    hide ReadHole, SegsOf, SegsFrom;
    ghost var all := ReadHoles(header[start..], holesCount);
    var e := start;
    var sparseSegments: seq<Seg> := [];
    if holesCount > 0 {
      var dataStart := 0;
      assert all.Got? ==> all.v[0..] == all.v;
      for i := 0 to holesCount
        invariant e <= |header|
        invariant Agree(all, i, ReadHoles(header[e..], holesCount - i))
        invariant all.Got? ==> SegsFrom(all.v, 0, size) == sparseSegments + SegsFrom(all.v[i..], dataStart, size)
      {
        ghost var s := header[e..];
        var hole := GetHole(header, e);
        if hole.None? {
          return None;
        }
        e := e + 16;
        AgreeNext(all, i, s, holesCount - i, hole.value, header[e..]);
        sparseSegments, dataStart := AddSegments(all, i, size, sparseSegments, dataStart, hole.value);
      }
      SegsOfSome(all, size, holesCount, sparseSegments, dataStart);
      if dataStart != size {
        sparseSegments := sparseSegments + [Data(dataStart, size)];
      }
    } else {
      SegsOfNone(size);
    }
    return Some((sparseSegments, e));
  }

  method GetHole(header: Bytes, start: nat) returns (r: Option<Seg>)
    requires start <= |header|
    ensures r.None? ==> ReadHole(header[start..]) == Short
    ensures r.Some? ==> start + 16 <= |header| && ReadHole(header[start..]) == Got(r.value, header[start + 16..])
  {
    hide ReadNum;
    var s := start;
    var e := start + 8;
    var holeStart := GetNumber(header, s, e);
    if holeStart.None? {
      return None;
    }
    s := e;
    e := e + 8;
    var holeEnd := GetNumber(header, s, e);
    if holeEnd.None? {
      return None;
    }
    return Some(Hole(holeStart.value, holeEnd.value));
  }

  /** Adds the data in front of the hole, unless the file starts with the hole, and the hole. */
  method AddSegments(ghost all: Step<seq<Seg>>, ghost i: nat, ghost size: nat, segs: seq<Seg>, from: nat, hole: Seg)
    returns (sparseSegments: seq<Seg>, dataStart: nat)
    requires all.Got? ==> i < |all.v| && all.v[i] == hole && all.v[i..][1..] == all.v[i + 1..]
    requires all.Got? ==> SegsFrom(all.v, 0, size) == segs + SegsFrom(all.v[i..], from, size)
    ensures all.Got? ==> SegsFrom(all.v, 0, size) == sparseSegments + SegsFrom(all.v[i + 1..], dataStart, size)
    ensures dataStart == hole.end
  {
    sparseSegments := segs;
    if hole.start != 0 {
      sparseSegments := sparseSegments + [Data(from, hole.start)];
    }
    sparseSegments := sparseSegments + [hole];
    dataStart := hole.end;
    if all.Got? {
      var front := if hole.start != 0 then [Data(from, hole.start)] else [];
      SegsFromNext(all.v[i..], from, size);
      assert segs + (front + [hole] + SegsFrom(all.v[i + 1..], dataStart, size))
        == (segs + front + [hole]) + SegsFrom(all.v[i + 1..], dataStart, size);
      assert segs + front + [hole] == sparseSegments;
    }
  }

  lemma SegsFromNext(holes: seq<Seg>, pos: nat, size: nat)
    requires holes != []
    ensures SegsFrom(holes, pos, size) ==
      (if holes[0].start != 0 then [Data(pos, holes[0].start)] else [])
        + [holes[0]] + SegsFrom(holes[1..], holes[0].end, size)
  {
  }

  lemma SegsOfSome(all: Step<seq<Seg>>, size: nat, n: nat, segs: seq<Seg>, pos: nat)
    requires n > 0 && all.Got? && |all.v| == n
    requires SegsFrom(all.v, 0, size) == segs + SegsFrom(all.v[n..], pos, size)
    ensures SegsOf(all.v, size) == segs + (if pos != size then [Data(pos, size)] else [])
  {
    assert all.v[n..] == [];
  }

  lemma SegsOfNone(size: nat)
    ensures SegsOf([], size) == []
  {
  }

  /** After `i` holes the rest of the list is still to be read. */
  ghost predicate Agree(all: Step<seq<Seg>>, i: nat, rest: Step<seq<Seg>>) {
    if rest.Short? then all.Short? else all.Got? && i <= |all.v| && all.v[i..] == rest.v && all.rest == rest.rest
  }

  lemma AgreeNext(all: Step<seq<Seg>>, i: nat, s: Bytes, n: nat, hole: Seg, t: Bytes)
    requires n > 0 && ReadHole(s) == Got(hole, t) && Agree(all, i, ReadHoles(s, n))
    ensures Agree(all, i + 1, ReadHoles(t, n - 1))
    ensures all.Got? ==> i < |all.v| && all.v[i] == hole && all.v[i..][1..] == all.v[i + 1..]
  {
    hide ReadHole;
    var rest := ReadHoles(t, n - 1);
    if rest.Got? {
      assert all.v[i..] == [hole] + rest.v;
      assert all.v[i..][0] == hole && all.v[i..][1..] == rest.v;
    }
  }

  method ParseTimes(header: Bytes, kind: nat, unix: bool, path: Bytes, start: nat) returns (r: Option<Header>)
    requires start <= |header|
    ensures r == DecodeTimes(kind, unix, path, header[start..])
  {
    hide ReadNum, DecodeRest;
    var s := start;
    var e := start + 8;
    var atime := GetNumber(header, s, e);
    if atime.None? {
      return None;
    }
    s := e;
    e := e + 8;
    var mtime := GetNumber(header, s, e);
    if mtime.None? {
      return None;
    }
    r := ParseRest(header, kind, unix, path, atime.value, mtime.value, e);
  }

  method ParseFile(header: Bytes, unix: bool, path: Bytes, atime: nat, mtime: nat, start: nat)
    returns (r: Option<Header>)
    requires start <= |header|
    ensures r == DecodeSize(unix, path, atime, mtime, header[start..])
  {
    hide ReadNum, ReadHoles, SegsOf, ReadPerm;
    var s := start;
    var e := start + 8;
    var fileSize := GetNumber(header, s, e);
    if fileSize.None? {
      return None;
    }
    s := e;
    e := e + 2;
    var holesCount := GetNumber(header, s, e);
    if holesCount.None? {
      return None;
    }
    var segs := GetSegments(header, e, holesCount.value, fileSize.value);
    if segs.None? {
      return None;
    }
    var perm := ParsePermissions(header, unix, segs.value.1);
    if perm.None? {
      return None;
    }
    return Some(OfFile(path, atime, mtime, fileSize.value, segs.value.0, perm.value));
  }

  method ParsePermissions(header: Bytes, unix: bool, start: nat) returns (r: Option<Option<nat>>)
    requires start <= |header|
    ensures r.None? <==> ReadPerm(unix, header[start..]).Short?
    ensures r.Some? ==> r.value == ReadPerm(unix, header[start..]).v
  {
    if !unix {
      return Some(None);
    }
    var perm := GetNumber(header, start, start + 2);
    r := if perm.Some? then Some(perm) else None;
  }

  method ParseRest(header: Bytes, kind: nat, unix: bool, path: Bytes, atime: nat, mtime: nat, e: nat)
    returns (r: Option<Header>)
    requires e <= |header|
    ensures r == DecodeRest(kind, unix, path, atime, mtime, header[e..])
  {
    hide ReadNum, ReadPath, DecodeSize, ReadPerm;
    if kind == TYPE_FILE {
      r := ParseFile(header, unix, path, atime, mtime, e);
    } else if kind == TYPE_SYMLINK_FILE || kind == TYPE_SYMLINK_DIR {
      var target := GetPathFromHeader(header, e);
      r := if target.Some? then Some(OfSymlink(path, atime, mtime, target.value.0, kind == TYPE_SYMLINK_DIR)) else None;
    } else if kind == TYPE_DIRECTORY {
      var perm := ParsePermissions(header, unix, e);
      r := if perm.Some? then Some(OfDirectory(path, atime, mtime, perm.value)) else None;
    } else {
      r := Some(OfUnknown(path));
    }
  }

  /** `parse_header`, with a start and an end index walking through the header. */
  method ParseHeader(header: Bytes) returns (r: Option<Header>)
    ensures r == Decode(header)
  {
    hide ReadPath, DecodeTimes;
    if header == [] {
      return None;
    }
    var fileType := Value(header[0]) % 16;
    var unix := Value(header[0]) / 16 == 0;
    var path := GetPathFromHeader(header, 1);
    if path.None? {
      return None;
    }
    if fileType == TYPE_HARDLINK {
      var target := GetPathFromHeader(header, path.value.1);
      return if target.Some? then Some(OfHardLink(path.value.0, target.value.0)) else None;
    }
    r := ParseTimes(header, fileType, unix, path.value.0, path.value.1);
  }
}

/**
  Plain input and output files, possibly split into a series `.c00`, `.c01`, ...
  `WriteOutput` fills one file after the other and creates the next one only when a byte needs it;
  `ReadInput` reads a series back in requests of any size and cuts it into chunks.
 */
module SplitFiles {
  import opened ByteStrings
  import opened Cutting

  const U64_MAX: nat := 0xFFFF_FFFF_FFFF_FFFF

  /** SHA-256 seen as an ideal hash: a digest stands for exactly the bytes it was made of. */
  datatype Digest = Digest(of: Bytes)

  /**
    The files that hold `data` under the list `split`: a file is left only when it is full and a
    byte remains; after the last size one more file takes everything.
   */
  function Layout(split: seq<nat>, data: Bytes): (files: seq<Bytes>)
    ensures |files| >= 1
    decreases split
  {
    if split == [] || |data| <= split[0] then
      [data]
    else
      [data[..split[0]]] + Layout(split[1..], data[split[0]..])
  }

  function PrefixSum(split: seq<nat>, k: nat): nat
    requires k <= |split|
  {
    if k == 0 then 0 else split[0] + PrefixSum(split[1..], k - 1)
  }

  /** The index of the file the next byte belongs to, if it fits there, after `total` bytes. */
  ghost predicate IsCurrent(split: seq<nat>, total: nat, k: nat) {
    && k <= |split|
    && (forall j :: 1 <= j <= k ==> PrefixSum(split, j) < total)
    && (k < |split| ==> total <= PrefixSum(split, k + 1))
  }

  /** The layout in closed form: which file is current, how long each file is, and that no byte is lost. */
  lemma {:induction false} LayoutShape(split: seq<nat>, data: Bytes)
    ensures Flatten(Layout(split, data)) == data
    ensures IsCurrent(split, |data|, |Layout(split, data)| - 1)
    ensures forall i :: 0 <= i < |Layout(split, data)| - 1 ==> |Layout(split, data)[i]| == split[i]
    decreases split
  {
    var files := Layout(split, data);
    if split == [] || |data| <= split[0] {
      assert files == [data] && files[1..] == [];
    } else {
      var rest := Layout(split[1..], data[split[0]..]);
      LayoutShape(split[1..], data[split[0]..]);
      assert files[1..] == rest;
      forall j | 1 <= j <= |files| - 1
        ensures PrefixSum(split, j) < |data|
      {
        assert PrefixSum(split, j) == split[0] + PrefixSum(split[1..], j - 1);
      }
      forall i | 1 <= i < |files| - 1
        ensures |files[i]| == split[i]
      {
        assert files[i] == rest[i - 1];
      }
    }
  }

  /** Only one file can be the current one. */
  lemma CurrentIsUnique(split: seq<nat>, total: nat, j: nat, k: nat)
    requires IsCurrent(split, total, j) && IsCurrent(split, total, k)
    ensures j == k
  {
  }

  /** The files as they will be once `rest` has been written after what is in the open file. */
  function Outlook(split: seq<nat>, closed: seq<Bytes>, open: Bytes, rest: Bytes): seq<Bytes>
    requires |closed| <= |split|
  {
    closed + Layout(split[|closed|..], open + rest)
  }

  /** More data goes into the open file first and from there on into the sizes not used up yet. */
  lemma {:induction false} LayoutResume(split: seq<nat>, s: Bytes, t: Bytes)
    ensures |Layout(split, s)| <= |split| + 1
    ensures var fs := Layout(split, s); var k := |fs| - 1;
      Layout(split, s + t) == Outlook(split, fs[..k], fs[k], t)
    decreases split
  {
    var fs := Layout(split, s);
    if split == [] || |s| <= split[0] {
      assert fs[..0] == [] && split[0..] == split;
    } else {
      LayoutResume(split[1..], s[split[0]..], t);
      var rest := Layout(split[1..], s[split[0]..]);
      var k := |fs| - 1;
      assert (s + t)[..split[0]] == s[..split[0]];
      assert (s + t)[split[0]..] == s[split[0]..] + t;
      assert fs[..k] == [fs[0]] + rest[..k - 1];
      assert split[1..][k - 1..] == split[k..];
    }
  }

  /** A full file is closed and the rest of the layout starts with the next size. */
  lemma OutlookNextFile(split: seq<nat>, closed: seq<Bytes>, open: Bytes, rest: Bytes)
    requires |closed| < |split| && |open| == split[|closed|] && rest != []
    ensures Outlook(split, closed + [open], [], rest) == Outlook(split, closed, open, rest)
  {
    var k := |closed|;
    assert split[k..][1..] == split[k + 1..];
    assert (open + rest)[..split[k]] == open;
    assert (open + rest)[split[k]..] == rest == [] + rest;
  }

  /** Writing the first bytes of the rest to the open file changes nothing in the outlook. */
  lemma OutlookWrite(split: seq<nat>, closed: seq<Bytes>, open: Bytes, piece: Bytes, rest: Bytes)
    requires |closed| <= |split|
    ensures Outlook(split, closed, open + piece, rest) == Outlook(split, closed, open, piece + rest)
  {
    assert (open + piece) + rest == open + (piece + rest);
  }

  /** With nothing left the outlook is what is there. */
  lemma OutlookDone(split: seq<nat>, closed: seq<Bytes>, open: Bytes)
    requires |closed| <= |split|
    requires |closed| < |split| ==> |open| <= split[|closed|]
    ensures Outlook(split, closed, open, []) == closed + [open]
  {
    assert open + [] == open;
  }

  function SaturatingAdd(a: nat, b: nat): nat {
    if a + b > U64_MAX then U64_MAX else a + b
  }

  function SaturatingSub(a: nat, b: nat): nat {
    if b > a then 0 else a - b
  }

  class WriteOutput {
    // the files that are complete, and the content of the open one
    var closed: seq<Bytes>
    var fOut: Bytes
    var fOutSplit: seq<nat>
    var splitIndex: nat
    var fOutWriteCount: nat
    // the bytes hashed since the last reset
    var hasher: Bytes
    var checksums: seq<Digest>
    // the list the user gave, and every byte handed over so far
    ghost const split: seq<nat>
    ghost var written: Bytes

    /** The series on disk. */
    ghost function Files(): seq<Bytes>
      reads this
    {
      closed + [fOut]
    }

    ghost predicate Valid()
      reads this
    {
      && (forall i :: 0 <= i < |split| ==> split[i] <= U64_MAX)
      && Files() == Layout(split, written)
      && Bookkeeping()
    }

    /** The counters and hashes agree with the files, whether or not a write is under way. */
    ghost predicate Bookkeeping()
      reads this
    {
      && Hashed()
      && if fOutSplit == [] then
           |closed| == |split|
         else
           && fOutSplit == split
           && |closed| == splitIndex < |split|
           && fOutWriteCount == |fOut| <= split[splitIndex]
    }

    constructor (split: seq<nat>)
      requires forall i :: 0 <= i < |split| ==> split[i] <= U64_MAX
      ensures Valid() && this.split == split && written == []
    {
      closed, fOut, fOutSplit, splitIndex, fOutWriteCount := [], [], split, 0, 0;
      hasher, checksums := [], [];
      this.split, written := split, [];
    }

    /** Every byte is hashed with the file it went to. */
    ghost predicate Hashed()
      reads this
    {
      hasher == fOut && checksums == DigestsOf(closed)
    }

    method Append(piece: Bytes)
      requires Hashed()
      modifies this`fOut, this`hasher
      ensures Hashed() && fOut == old(fOut) + piece
    {
      fOut := fOut + piece;
      hasher := hasher + piece;
    }

    /** Closes the full file, takes its checksum and creates the next one. */
    method CreateNext()
      requires Hashed()
      modifies this`splitIndex, this`fOutWriteCount, this`closed, this`fOut, this`hasher, this`checksums
      ensures Hashed() && closed == old(closed) + [old(fOut)] && fOut == []
      ensures splitIndex == old(splitIndex) + 1 && fOutWriteCount == 0
    {
      splitIndex := splitIndex + 1;
      checksums := checksums + [Digest(hasher)];
      hasher := [];
      closed, fOut := closed + [fOut], [];
      fOutWriteCount := 0;
    }

    /** Whatever the division into calls, the files are the layout of all bytes handed over. */
    method WriteFiles(buf: Bytes)
      requires Valid() && |buf| <= U64_MAX
      modifies this
      ensures Valid()
      ensures written == old(written) + buf
    {
      LayoutResume(split, written, buf);
      assert closed == Files()[..|Files()| - 1];
      if fOutSplit == [] {
        assert split[|closed|..] == [];
        Append(buf);
      } else {
        WriteSplit(buf);
      }
      written := written + buf;
    }

    /** The branch of `WriteFiles` with sizes left: the files become what the outlook was. */
    method WriteSplit(buf: Bytes)
      requires Bookkeeping() && fOutSplit != [] && |buf| <= U64_MAX
      requires forall i :: 0 <= i < |split| ==> split[i] <= U64_MAX
      modifies this`splitIndex, this`fOutWriteCount, this`closed, this`fOut, this`hasher, this`checksums, this`fOutSplit
      ensures Bookkeeping()
      ensures Files() == old(Outlook(split, closed, fOut, buf))
    {
      hide Outlook, DigestsOf;
      ghost var target := Outlook(split, closed, fOut, buf);
      var bufStart, bufEnd := 0, 0;
      var bufLen := |buf|;
      assert buf[0..] == buf;
      while bufEnd < bufLen
        invariant bufStart <= bufEnd <= bufLen
        invariant Bookkeeping()
        invariant bufEnd < bufLen ==>
          fOutSplit != [] && (fOutWriteCount == split[splitIndex] || bufStart == bufEnd == 0)
        invariant target == Outlook(split, closed, fOut, buf[bufEnd..])
        decreases |split| - splitIndex, bufLen - bufEnd
      {
        ghost var rest := buf[bufEnd..];
        if fOutWriteCount == fOutSplit[splitIndex] {
          // next split
          OutlookNextFile(split, closed, fOut, rest);
          bufStart := bufEnd;
          CreateNext();
        }
        if splitIndex < |fOutSplit| {
          var splitSize := fOutSplit[splitIndex];
          var limit := SaturatingSub(SaturatingAdd(bufStart, splitSize), fOutWriteCount);
          bufEnd := if bufLen < limit then bufLen else limit;
        } else {
          // the list is used up: everything else goes to the file just created
          bufEnd := bufLen;
          fOutSplit := [];
        }
        var piece := buf[bufStart..bufEnd];
        assert rest == piece + buf[bufEnd..];
        OutlookWrite(split, closed, fOut, piece, buf[bufEnd..]);
        Append(piece);
        fOutWriteCount := fOutWriteCount + (bufEnd - bufStart);
      }
      assert buf[bufEnd..] == [];
      OutlookDone(split, closed, fOut);
    }

    /** After the last write there is one checksum per file, and it is that file's. */
    method WriteOthers() returns (sums: seq<Digest>)
      requires Valid()
      modifies this`checksums
      ensures sums == checksums == DigestsOf(Files())
    {
      checksums := checksums + [Digest(hasher)];
      return checksums;
    }
  }

  function DigestsOf(files: seq<Bytes>): (sums: seq<Digest>)
    ensures |sums| == |files|
  {
    seq(|files|, i requires 0 <= i < |files| => Digest(files[i]))
  }

  /** The bytes from a position in file `open` to the end of the series. */
  function Tail(disk: seq<Bytes>, open: nat, cursor: nat): Bytes
    requires open < |disk| && cursor <= |disk[open]|
  {
    disk[open][cursor..] + Flatten(disk[open + 1..])
  }

  lemma TailNext(disk: seq<Bytes>, open: nat)
    requires open < |disk|
    ensures Tail(disk, open, |disk[open]|) == if open + 1 < |disk| then Tail(disk, open + 1, 0) else []
  {
    if open + 1 < |disk| {
      assert disk[open + 1..][1..] == disk[open + 2..];
    }
  }

  lemma TailRead(disk: seq<Bytes>, open: nat, cursor: nat, n: nat)
    requires open < |disk| && cursor + n <= |disk[open]|
    ensures Tail(disk, open, cursor) == disk[open][cursor..cursor + n] + Tail(disk, open, cursor + n)
  {
    assert disk[open][cursor..] == disk[open][cursor..cursor + n] + disk[open][cursor + n..];
  }

  class ReadInput {
    // the consecutive files of the series on disk; a single file is a series of one
    const disk: seq<Bytes>
    const chunkSize: nat
    const fInSplit: seq<nat>
    var fInTotalSizeRemaining: nat
    var splitIndex: nat
    var fInReadCount: nat
    // the open file and its read position
    var open: nat
    var cursor: nat

    ghost predicate Valid()
      reads this
    {
      && chunkSize > 0
      && open < |disk| && cursor <= |disk[open]|
      && if fInSplit == [] then
           |disk| == 1
         else
           fInSplit == Sizes(disk) && splitIndex == open && fInReadCount == cursor
    }

    /** What has not been read yet. */
    ghost function Unread(): Bytes
      requires Valid()
      reads this
    {
      Tail(disk, open, cursor)
    }

    constructor (disk: seq<Bytes>, chunkSize: nat, fInSplit: seq<nat>, total: nat)
      requires chunkSize > 0 && |disk| >= 1
      requires fInSplit == Sizes(disk) || (fInSplit == [] && |disk| == 1)
      ensures Valid() && Unread() == Flatten(disk)
      ensures this.disk == disk && this.chunkSize == chunkSize && fInTotalSizeRemaining == total
      ensures open == 0 && cursor == 0 && this.fInSplit == fInSplit
    {
      this.disk, this.chunkSize, this.fInSplit := disk, chunkSize, fInSplit;
      fInTotalSizeRemaining := total;
      splitIndex, fInReadCount, open, cursor := 0, 0, 0, 0;
    }

    /**
      Opens a single file, or, when decrypting `.c00`, the whole series. `headerSize` is 0 when
      encrypting. Refuses an encrypted input too short to hold a header and one sealed chunk.
     */
    static method Open(disk: seq<Bytes>, isSeries: bool, chunkSize: nat, headerSize: nat, overhead: nat)
      returns (r: ReadInput?)
      requires chunkSize > 0 && |disk| >= 1
      requires (isSeries && headerSize != 0) || |disk| == 1
      ensures r == null <==> headerSize != 0 && |Flatten(disk)| < headerSize + overhead
      ensures r != null ==> fresh(r) && r.Valid() && r.chunkSize == chunkSize && r.Unread() == Flatten(disk)
      ensures r != null ==> r.fInTotalSizeRemaining == |Flatten(disk)| - headerSize
    {
      var total := 0;
      var sizes := [];
      if headerSize != 0 && isSeries {
        var i := 0;
        while i < |disk|
          invariant i <= |disk| && sizes == Sizes(disk[..i]) && total == |Flatten(disk[..i])|
        {
          total := total + |disk[i]|;
          sizes := sizes + [|disk[i]|];
          FlattenSnoc(disk[..i], disk[i]);
          assert disk[..i + 1] == disk[..i] + [disk[i]];
          i := i + 1;
        }
        assert disk[..i] == disk;
      } else {
        total := |disk[0]|;
        assert disk == [disk[0]] && disk[1..] == [];
      }
      if headerSize != 0 && total < headerSize + overhead {
        return null;
      }
      r := new ReadInput(disk, chunkSize, sizes, total - headerSize);
    }

    method ReadExact(buf: array<Byte>, s: nat, e: nat)
      requires open < |disk| && s <= e <= buf.Length && cursor + (e - s) <= |disk[open]|
      modifies this`cursor, buf
      ensures cursor == old(cursor) + (e - s)
      ensures buf[..e] == old(buf[..s]) + disk[open][old(cursor)..cursor]
      ensures buf[e..] == old(buf[e..])
    {
      forall i | s <= i < e {
        buf[i] := disk[open][cursor + (i - s)];
      }
      cursor := cursor + (e - s);
    }

    /**
      Fills `buf` with the next bytes of the series, across runs of empty files too. Fails exactly
      when fewer bytes are left.
     */
    method ReadFiles(buf: array<Byte>) returns (ok: bool)
      requires Valid()
      modifies this`splitIndex, this`fInReadCount, this`open, this`cursor, buf
      ensures ok <==> buf.Length <= |old(Unread())|
      ensures ok ==> Valid() && buf[..] == old(Unread())[..buf.Length]
      ensures ok ==> Unread() == old(Unread())[buf.Length..]
    {
      if fInSplit == [] {
        assert disk[1..] == [];
        if |disk[open]| - cursor < buf.Length {
          return false;
        }
        TailRead(disk, open, cursor, buf.Length);
        ReadExact(buf, 0, buf.Length);
        ok := true;
      } else {
        ok := ReadSeries(buf);
      }
      assert buf[..] == buf[..buf.Length];
    }

    /** Moves on to the next file of the series; fails when it does not exist. */
    method OpenNext() returns (ok: bool)
      requires Valid() && fInSplit != [] && cursor == |disk[open]|
      modifies this`splitIndex, this`fInReadCount, this`open, this`cursor
      ensures ok ==> Valid() && Unread() == old(Unread()) && cursor == 0
      ensures ok ==> splitIndex == old(splitIndex) + 1
      ensures !ok ==> old(Unread()) == []
    {
      TailNext(disk, open);
      splitIndex := splitIndex + 1;
      if splitIndex == |disk| {
        return false;
      }
      open, cursor := splitIndex, 0;
      fInReadCount := 0;
      return true;
    }

    /** Reads a slice of the buffer from the open file and counts it. */
    method ReadPiece(buf: array<Byte>, s: nat, e: nat, ghost got: Bytes) returns (ghost more: Bytes)
      requires Valid() && fInSplit != []
      requires s <= e <= buf.Length && cursor + (e - s) <= |disk[open]| && got == buf[..s]
      modifies this`fInReadCount, this`cursor, buf
      ensures Valid() && cursor == old(cursor) + (e - s)
      ensures more == buf[..e] && more + Unread() == got + old(Unread())
    {
      TailRead(disk, open, cursor, e - s);
      more := got + disk[open][cursor..cursor + (e - s)];
      ReadExact(buf, s, e);
      fInReadCount := fInReadCount + (e - s);
    }

    /** The branch of `ReadFiles` for a split series. */
    method ReadSeries(buf: array<Byte>) returns (ok: bool)
      requires Valid() && fInSplit != []
      modifies this`splitIndex, this`fInReadCount, this`open, this`cursor, buf
      ensures ok ==> Valid() && old(Unread()) == buf[..buf.Length] + Unread()
      ensures !ok ==> |old(Unread())| < buf.Length
    {
      ghost var all := Unread();
      ghost var got: Bytes := [];
      var fileSize := fInSplit[splitIndex] - fInReadCount;
      var bufLen := buf.Length;
      var bufEnd: nat := 0;
      while bufEnd < bufLen
        invariant Valid() && bufEnd <= bufLen == buf.Length
        invariant bufEnd < bufLen && fInReadCount != fInSplit[splitIndex] ==>
          fileSize == fInSplit[splitIndex] - fInReadCount
        invariant got == buf[..bufEnd]
        invariant all == got + Tail(disk, open, cursor)
        decreases |disk| - splitIndex, bufLen - bufEnd
      {
        if fInReadCount == fInSplit[splitIndex] {
          var hasNext := OpenNext();
          if !hasNext {
            return false;
          }
          fileSize := fInSplit[splitIndex];
        }
        var bufStart := bufEnd;
        if bufLen - bufStart <= fileSize {
          bufEnd := bufLen;
        } else {
          bufEnd := bufStart + fileSize;
        }
        got := ReadPiece(buf, bufStart, bufEnd, got);
      }
      return true;
    }

    /** How many bytes the current chunk has and whether it is the final one. */
    method InputSizes() returns (readSize: nat, finalChunk: bool)
      requires chunkSize > 0
      modifies this`fInTotalSizeRemaining
      ensures finalChunk <==> old(fInTotalSizeRemaining) <= chunkSize
      ensures readSize == if finalChunk then old(fInTotalSizeRemaining) else chunkSize
      ensures fInTotalSizeRemaining == old(fInTotalSizeRemaining) - readSize
    {
      if fInTotalSizeRemaining <= chunkSize {
        readSize, finalChunk := fInTotalSizeRemaining, true;
      } else {
        readSize, finalChunk := chunkSize, false;
      }
      fInTotalSizeRemaining := fInTotalSizeRemaining - readSize;
    }

    /** Reads the next chunk: always the first piece of what is left, flagged when it is the only one. */
    method ReadChunk() returns (buf: Bytes, finalChunk: bool)
      requires Valid() && fInTotalSizeRemaining == |Unread()|
      modifies this
      ensures Valid() && fInTotalSizeRemaining == |Unread()|
      ensures Pieces(chunkSize, old(Unread())) == [buf] + (if finalChunk then [] else Pieces(chunkSize, Unread()))
      ensures finalChunk ==> Unread() == []
      ensures !finalChunk ==> |Unread()| < |old(Unread())|
    {
      ghost var all := Unread();
      var readSize;
      readSize, finalChunk := InputSizes();
      var bufIn := new Byte[readSize](_ => ZERO);
      var ok := ReadFiles(bufIn);
      buf := bufIn[..];
      assert buf == all[..readSize];
      assert finalChunk ==> buf == all;
    }

    /** The reading loop of `io_chunks`: the numbered chunks of everything that is left. */
    method ReadAll() returns (sent: seq<Item>)
      requires Valid() && fInTotalSizeRemaining == |Unread()|
      modifies this
      ensures sent == Numbered(Pieces(chunkSize, old(Unread())))
    {
      hide Tail, Sizes, Pieces;
      ghost var ps := Pieces(chunkSize, Unread());
      var chunkCount := 0;
      var finalChunk := false;
      sent := [];
      while !finalChunk
        invariant Valid() && fInTotalSizeRemaining == |Unread()|
        invariant chunkCount == |sent| <= |ps|
        invariant ps[chunkCount..] == if finalChunk then [] else Pieces(chunkSize, Unread())
        invariant sent == Numbered(ps)[..chunkCount]
        decreases !finalChunk, |Unread()|
      {
        var buf;
        buf, finalChunk := ReadChunk();
        NextOf(ps, chunkCount, buf, if finalChunk then [] else Pieces(chunkSize, Unread()));
        sent := sent + [Item(buf, chunkCount, finalChunk)];
        chunkCount := chunkCount + 1;
      }
    }
  }

  lemma NextOf(ps: seq<Bytes>, k: nat, buf: Bytes, rest: seq<Bytes>)
    requires k <= |ps| && ps[k..] == [buf] + rest
    ensures k < |ps| && ps[k] == buf && ps[k + 1..] == rest
    ensures Numbered(ps)[..k + 1] == Numbered(ps)[..k] + [Item(buf, k, k == |ps| - 1)]
  {
    assert ps[k..][0] == buf && ps[k..][1..] == ps[k + 1..];
  }

  function Sizes(files: seq<Bytes>): (sizes: seq<nat>)
    ensures |sizes| == |files|
  {
    seq(|files|, i requires 0 <= i < |files| => |files[i]|)
  }

  function Total(sizes: seq<nat>): nat {
    if sizes == [] then 0 else sizes[0] + Total(sizes[1..])
  }

  /** All parts written, one call each: the files are the layout of their concatenation, each with its hash. */
  method WriteAll(split: seq<nat>, parts: seq<Bytes>) returns (files: seq<Bytes>, sums: seq<Digest>)
    requires forall i :: 0 <= i < |split| ==> split[i] <= U64_MAX
    requires forall p :: p in parts ==> |p| <= U64_MAX
    ensures files == Layout(split, Flatten(parts)) && sums == DigestsOf(files)
  {
    hide Layout;
    var writer := new WriteOutput(split);
    assert parts[0..] == parts;
    for i := 0 to |parts|
      invariant writer.Valid() && writer.split == split
      invariant writer.written == Flatten(parts[..i])
    {
      assert parts[..i + 1] == parts[..i] + [parts[i]];
      FlattenSnoc(parts[..i], parts[i]);
      assert parts[i] in parts;
      writer.WriteFiles(parts[i]);
    }
    assert parts[..|parts|] == parts;
    files := writer.closed + [writer.fOut];
    sums := writer.WriteOthers();
  }

  /** Requests of any size, one after the other, give the unread bytes in order. */
  method ReadRequests(reader: ReadInput, requests: seq<nat>) returns (got: Bytes)
    requires reader.Valid() && Total(requests) <= |reader.Unread()|
    modifies reader
    ensures got == old(reader.Unread())[..Total(requests)]
  {
    hide Tail, Flatten, Sizes;
    ghost var all := reader.Unread();
    got := [];
    assert requests[0..] == requests;
    for i := 0 to |requests|
      invariant reader.Valid()
      invariant |got| + Total(requests[i..]) == Total(requests)
      invariant all == got + reader.Unread()
    {
      assert requests[i..][1..] == requests[i + 1..];
      ghost var rest := reader.Unread();
      var more := ReadRequest(reader, requests[i]);
      assert all == (got + more) + rest[requests[i]..];
      got := got + more;
    }
    assert requests[|requests|..] == [];
    assert got == all[..|got|];
  }

  method ReadRequest(reader: ReadInput, size: nat) returns (bytes: Bytes)
    requires reader.Valid() && size <= |reader.Unread()|
    modifies reader
    ensures reader.Valid() && bytes == old(reader.Unread())[..size] && reader.Unread() == old(reader.Unread())[size..]
  {
    hide Tail, Flatten, Sizes;
    var buf := new Byte[size](_ => ZERO);
    var ok := reader.ReadFiles(buf);
    bytes := buf[..];
  }

  /**
    Written in parts of any size and read back in requests of any size, a split series gives the
    bytes that were written, as far as they are asked for.
   */
  method SplitRoundTrip(split: seq<nat>, parts: seq<Bytes>, requests: seq<nat>) returns (got: Bytes)
    requires forall i :: 0 <= i < |split| ==> split[i] <= U64_MAX
    requires forall p :: p in parts ==> |p| <= U64_MAX
    requires Total(requests) <= |Flatten(parts)|
    ensures got == Flatten(parts)[..Total(requests)]
  {
    hide Layout, Flatten, Total, Sizes;
    var files, _ := WriteAll(split, parts);
    LayoutShape(split, Flatten(parts));
    var reader := new ReadInput(files, 1, Sizes(files), 0);
    got := ReadRequests(reader, requests);
  }
}

/**
  How a byte stream is cut into chunks. A chunk is final exactly when no byte follows it, so a
  stream whose length is a multiple of the chunk size ends in a full chunk and the empty stream is
  one empty chunk.
 */
module Cutting {
  import opened ByteStrings

  const CHUNK_SIZE: nat := 1_048_576

  /** The chunks of `s`: all but the last have exactly `c` bytes. */
  function Pieces(c: nat, s: Bytes): (ps: seq<Bytes>)
    requires c > 0
    ensures |ps| >= 1
    decreases |s|
  {
    if |s| <= c then [s] else [s[..c]] + Pieces(c, s[c..])
  }

  /** A chunk on its way through the pipeline: its bytes, its number and the final flag. */
  datatype Item = Item(data: Bytes, idx: nat, final: bool)

  /** The numbered chunks of one stream; the last one carries the final flag. */
  function Numbered(ps: seq<Bytes>): (items: seq<Item>)
    ensures |items| == |ps|
  {
    seq(|ps|, i requires 0 <= i < |ps| => Item(ps[i], i, i == |ps| - 1))
  }

  function Payloads(items: seq<Item>): (ps: seq<Bytes>)
    ensures |ps| == |items|
  {
    seq(|items|, i requires 0 <= i < |items| => items[i].data)
  }

  /** What every reader of the program promises of a list of chunks. */
  ghost predicate WellCut(c: nat, ps: seq<Bytes>) {
    && |ps| >= 1
    && (forall i :: 0 <= i < |ps| - 1 ==> |ps[i]| == c)
    && |ps[|ps| - 1]| <= c
    && (|ps| > 1 ==> ps[|ps| - 1] != [])
  }

  lemma {:induction false} PiecesWellCut(c: nat, s: Bytes)
    requires c > 0
    ensures WellCut(c, Pieces(c, s))
    ensures Flatten(Pieces(c, s)) == s
    decreases |s|
  {
    if |s| <= c {
      FlattenSnoc([], s);
      assert [] + [s] == [s];
    } else {
      PiecesWellCut(c, s[c..]);
      FullPieceFirst(c, s[..c], s[c..], Pieces(c, s[c..]));
      assert s[..c] + s[c..] == s;
    }
  }

  lemma FullPieceFirst(c: nat, p: Bytes, s: Bytes, rest: seq<Bytes>)
    requires |p| == c && s != [] && WellCut(c, rest) && Flatten(rest) == s
    ensures WellCut(c, [p] + rest) && Flatten([p] + rest) == p + s
  {
    var ps := [p] + rest;
    assert ps[1..] == rest;
    assert forall i :: 1 <= i < |ps| ==> ps[i] == rest[i - 1];
    if |rest| == 1 { assert rest[1..] == [] && Flatten(rest) == rest[0] + []; }
  }

  /** Cutting is the only way to do so: a well-cut list is recovered from its concatenation. */
  lemma {:induction false} WellCutUnique(c: nat, ps: seq<Bytes>)
    requires c > 0 && WellCut(c, ps)
    ensures Pieces(c, Flatten(ps)) == ps
    decreases |ps|
  {
    if |ps| == 1 {
      assert ps == [ps[0]] && ps[1..] == [];
      assert Flatten(ps) == ps[0] + [] == ps[0];
    } else {
      var rest := ps[1..];
      assert forall i :: 0 <= i < |rest| ==> rest[i] == ps[i + 1];
      WellCutUnique(c, rest);
      NonEmptyFlatten(rest);
      assert Flatten(ps) == ps[0] + Flatten(rest);
      assert Flatten(ps)[..c] == ps[0];
      assert Flatten(ps)[c..] == Flatten(rest);
    }
  }

  lemma {:induction false} NonEmptyFlatten(ps: seq<Bytes>)
    requires |ps| >= 1 && ps[|ps| - 1] != []
    ensures Flatten(ps) != []
    decreases |ps|
  {
    if |ps| <= 1 {
    } else {
      NonEmptyFlatten(ps[1..]);
    }
  }

  /** The full chunks that can be given out of `s` while more may follow, and what stays behind. */
  function FullPieces(c: nat, s: Bytes): (ps: seq<Bytes>)
    requires c > 0
    ensures forall i :: 0 <= i < |ps| ==> |ps[i]| == c
    decreases |s|
  {
    if |s| < c then [] else [s[..c]] + FullPieces(c, s[c..])
  }

  function Remainder(c: nat, s: Bytes): (r: Bytes)
    requires c > 0
    ensures |r| < c
    decreases |s|
  {
    if |s| < c then s else Remainder(c, s[c..])
  }

  /** Cutting eagerly and continuing with the remainder is cutting the longer stream. */
  lemma {:induction false} FullPiecesAppend(c: nat, s: Bytes, t: Bytes)
    requires c > 0
    ensures FullPieces(c, s + t) == FullPieces(c, s) + FullPieces(c, Remainder(c, s) + t)
    ensures Remainder(c, s + t) == Remainder(c, Remainder(c, s) + t)
    decreases |s|
  {
    if |s| < c {
    } else {
      FullPiecesAppend(c, s[c..], t);
      assert (s + t)[..c] == s[..c];
      assert (s + t)[c..] == s[c..] + t;
    }
  }

  /** Once the stream is complete and not empty, the pieces are the full ones plus the remainder, if any. */
  lemma {:induction false} PiecesOfFull(c: nat, s: Bytes)
    requires c > 0 && s != []
    ensures Pieces(c, s) == FullPieces(c, s) + (if Remainder(c, s) == [] then [] else [Remainder(c, s)])
    decreases |s|
  {
    if |s| < c {
    } else if |s| == c {
      assert s[c..] == [];
      assert s[..c] == s;
    } else {
      PiecesOfFull(c, s[c..]);
    }
  }
}

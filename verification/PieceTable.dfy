/**
 The piece table of the legacy binary Word format ([MS-DOC] sections 2.4.1, 2.8.35,
 2.9.38 and 2.9.73): the walk over the CLX and the parsing of the PlcPcd, with the
 encoder they undo.
 */
module PieceTable {
  import opened Wrappers
  import opened LittleEndian

  const OFFSET_FC_CLX: nat := 0x1A2
  const OFFSET_LCB_CLX: nat := 0x1A6
  const COMPRESSED: nat := 0x4000_0000

  /** One run of characters stored at a byte offset of the document stream. */
  datatype Piece = Piece(cpStart: nat, cpEnd: nat, offset: nat, compressed: bool)

  /** `buf[from:to]`, clamped as Python clamps it. */
  function Slice(buf: Bytes, from: nat, upto: nat): Bytes {
    if from <= upto && from <= |buf| then buf[from..Min(upto, |buf|)] else []
  }

  // ---- the parser ------------------------------------------------------------------------

  /** Bit 30 of a file position marks a compressed run, whose offset is halved. */
  predicate IsCompressed(fc: nat) {
    fc % (2 * COMPRESSED) >= COMPRESSED
  }

  function OffsetOf(fc: nat): nat {
    if IsCompressed(fc) then fc % COMPRESSED / 2 else fc
  }

  lemma CompressedBit(fc: nat)
    ensures IsCompressed(fc) <==> fc / 0x4000_0000 % 2 == 1
    ensures OffsetOf(fc) == if fc / 0x4000_0000 % 2 == 1 then fc % 0x4000_0000 / 2 else fc
  {
  }

  /** The piece that descriptor `i` of a PlcPcd with `count` pieces stands for. */
  function PieceAt(plc: Bytes, count: nat, i: nat): Piece {
    var fc := U32(plc, 4 * (count + 1) + 8 * i + 2);
    Piece(U32(plc, 4 * i), U32(plc, 4 * (i + 1)), OffsetOf(fc), IsCompressed(fc))
  }

  function PlcCount(plc: Bytes): nat {
    if |plc| < 16 || (|plc| - 4) % 12 != 0 then 0 else (|plc| - 4) / 12
  }

  function Plc(plc: Bytes): seq<Piece> {
    seq(PlcCount(plc), i requires i >= 0 => PieceAt(plc, PlcCount(plc), i))
  }

  /** A PlcPcd that is too short or of an odd length holds no piece; any other holds one for every 12 bytes. */
  lemma PieceCount(plc: Bytes)
    ensures |plc| < 16 || (|plc| - 4) % 12 != 0 ==> Plc(plc) == []
    ensures |plc| >= 16 && (|plc| - 4) % 12 == 0 ==> 12 * |Plc(plc)| + 4 == |plc|
  {
  }

  method ParsePlc(plc: Bytes) returns (pieces: seq<Piece>)
    ensures pieces == Plc(plc)
  {
    if |plc| < 16 || (|plc| - 4) % 12 != 0 {
      return [];
    }
    var count := (|plc| - 4) / 12;
    var positions := seq(count + 1, i requires i >= 0 => U32(plc, i * 4));
    var descriptors := 4 * (count + 1);
    pieces := [];
    for index := 0 to count
      invariant pieces == Plc(plc)[..index]
    {
      var fcRaw := U32(plc, descriptors + index * 8 + 2);
      pieces := pieces + [Piece(positions[index], positions[index + 1], OffsetOf(fcRaw), IsCompressed(fcRaw))];
    }
  }

  /** Where the Pcdt of a CLX stands, looking from a position on; only Prc records may precede it. */
  function FindPcdt(clx: Bytes, position: nat): (r: Option<nat>)
    ensures r.Some? ==> position <= r.value < |clx|
    decreases |clx| - position
  {
    if position >= |clx| then None
    else if clx[position] == 1 then FindPcdt(clx, position + 3 + U16(clx, position + 1))
    else if clx[position] == 2 then Some(position) else None
  }

  function Clx(clx: Bytes): seq<Piece> {
    var pcdt := FindPcdt(clx, 0);
    if pcdt.None? then [] else Plc(PcdtBody(clx, pcdt.value))
  }

  /** The PlcPcd that the Pcdt at `position` announces. */
  function PcdtBody(clx: Bytes, position: nat): Bytes {
    Slice(clx, position + 5, position + 5 + U32(clx, position + 1))
  }

  /** The CLX inside the table stream; empty when the file has none. */
  function ClxBytes(word: Bytes, table: Bytes): Bytes {
    var fc, lcb := U32(word, OFFSET_FC_CLX), U32(word, OFFSET_LCB_CLX);
    if table == [] || lcb == 0 || fc + lcb > |table| then [] else table[fc..fc + lcb]
  }

  method ReadPieces(word: Bytes, table: Bytes) returns (pieces: seq<Piece>)
    ensures pieces == Clx(ClxBytes(word, table))
  {
    var clx := ClxBytes(word, table);
    if clx == [] {
      return [];
    }
    pieces := WalkClx(clx);
  }

  /** The walk ends on every byte string: each record moves the position forward. */
  method WalkClx(clx: Bytes) returns (pieces: seq<Piece>)
    ensures pieces == Clx(clx)
  {
    var position: nat := 0;
    while position < |clx|
      invariant FindPcdt(clx, 0) == FindPcdt(clx, position)
      decreases |clx| - position
    {
      var kind := clx[position];
      if kind == 1 {
        var size := U16(clx, position + 1);
        position := position + 3 + size;
        continue;
      }
      if kind != 2 {
        return [];
      }
      pieces := ParsePlc(PcdtBody(clx, position));
      return;
    }
    return [];
  }

  // ---- the encoder -------------------------------------------------------------------------

  /** Values the format has room for: 32-bit positions, and offsets that leave bit 30 free. */
  predicate Storable(p: Piece) {
    p.cpStart < 0x1_0000_0000 && p.cpEnd < 0x1_0000_0000 && p.offset < (if p.compressed then COMPRESSED / 2 else COMPRESSED)
  }

  /** Each piece starts where the one before it ends; offsets may come in any order. */
  ghost predicate Chained(pieces: seq<Piece>) {
    forall i, j | 0 <= i < j < |pieces| && j == i + 1 :: pieces[i].cpEnd == pieces[j].cpStart
  }

  predicate AllStorable(pieces: seq<Piece>) {
    forall i | 0 <= i < |pieces| :: Storable(pieces[i])
  }

  function FileOffset(p: Piece): (fc: nat)
    requires Storable(p)
    ensures fc < 2 * COMPRESSED
  {
    if p.compressed then COMPRESSED + 2 * p.offset else p.offset
  }

  /** An 8-byte piece descriptor; the flags before and the modifier after the offset are free. */
  function Descriptor(p: Piece, flags: (Byte, Byte), prm: (Byte, Byte)): Bytes
    requires Storable(p)
  {
    [flags.0, flags.1] + Put32(FileOffset(p)) + [prm.0, prm.1]
  }

  function Ends(pieces: seq<Piece>): Bytes
    requires AllStorable(pieces)
  {
    if pieces == [] then [] else Put32(pieces[0].cpEnd) + Ends(pieces[1..])
  }

  function Descriptors(pieces: seq<Piece>, flags: (Byte, Byte), prm: (Byte, Byte)): Bytes
    requires AllStorable(pieces)
  {
    if pieces == [] then [] else Descriptor(pieces[0], flags, prm) + Descriptors(pieces[1..], flags, prm)
  }

  function PlcOf(pieces: seq<Piece>, flags: (Byte, Byte), prm: (Byte, Byte)): Bytes
    requires pieces != [] && AllStorable(pieces)
  {
    Put32(pieces[0].cpStart) + (Ends(pieces) + Descriptors(pieces, flags, prm))
  }

  /** Prc records with arbitrary contents, then one Pcdt with the PlcPcd. */
  function ClxOf(prcs: seq<Bytes>, plc: Bytes): Bytes
    requires |plc| < 0x1_0000_0000 && forall i | 0 <= i < |prcs| :: |prcs[i]| < 0x1_0000
  {
    if prcs == [] then Pcdt(plc) else Prc(prcs[0]) + ClxOf(prcs[1..], plc)
  }

  function Prc(contents: Bytes): Bytes
    requires |contents| < 0x1_0000
  {
    [1 as Byte] + Put16(|contents|) + contents
  }

  function Pcdt(plc: Bytes): Bytes
    requires |plc| < 0x1_0000_0000
  {
    [2 as Byte] + (Put32(|plc|) + plc)
  }

  // ---- reading back what was written -----------------------------------------------------------

  lemma OffsetBack(p: Piece)
    requires Storable(p)
    ensures IsCompressed(FileOffset(p)) == p.compressed && OffsetOf(FileOffset(p)) == p.offset
  {
  }

  lemma {:induction false} EndsAt(pieces: seq<Piece>, i: nat)
    requires i < |pieces| && AllStorable(pieces)
    ensures |Ends(pieces)| == 4 * |pieces|
    ensures Ends(pieces)[4 * i..4 * i + 4] == Put32(pieces[i].cpEnd)
  {
    EndsLength(pieces);
    if i > 0 {
      EndsAt(pieces[1..], i - 1);
      assert Ends(pieces)[4 * i..4 * i + 4] == Ends(pieces[1..])[4 * (i - 1)..4 * (i - 1) + 4];
    }
  }

  lemma {:induction false} EndsLength(pieces: seq<Piece>)
    requires AllStorable(pieces)
    ensures |Ends(pieces)| == 4 * |pieces|
  {
    if pieces != [] {
      EndsLength(pieces[1..]);
    }
  }

  lemma {:induction false} DescriptorsLength(pieces: seq<Piece>, flags: (Byte, Byte), prm: (Byte, Byte))
    requires AllStorable(pieces)
    ensures |Descriptors(pieces, flags, prm)| == 8 * |pieces|
  {
    if pieces != [] {
      DescriptorsLength(pieces[1..], flags, prm);
    }
  }

  lemma {:induction false} DescriptorAt(pieces: seq<Piece>, flags: (Byte, Byte), prm: (Byte, Byte), i: nat)
    requires i < |pieces| && AllStorable(pieces)
    ensures |Descriptors(pieces, flags, prm)| == 8 * |pieces|
    ensures Descriptors(pieces, flags, prm)[8 * i + 2..8 * i + 6] == Put32(FileOffset(pieces[i]))
  {
    DescriptorsLength(pieces, flags, prm);
    if i > 0 {
      DescriptorAt(pieces[1..], flags, prm, i - 1);
      assert Descriptors(pieces, flags, prm)[8 * i + 2..8 * i + 6]
          == Descriptors(pieces[1..], flags, prm)[8 * (i - 1) + 2..8 * (i - 1) + 6];
    } else {
      assert Descriptor(pieces[0], flags, prm)[2..6] == Put32(FileOffset(pieces[0]));
    }
  }

  lemma PlcLength(pieces: seq<Piece>, flags: (Byte, Byte), prm: (Byte, Byte))
    requires pieces != [] && AllStorable(pieces)
    ensures |PlcOf(pieces, flags, prm)| == 12 * |pieces| + 4 && PlcCount(PlcOf(pieces, flags, prm)) == |pieces|
  {
    EndsLength(pieces);
    DescriptorsLength(pieces, flags, prm);
  }

  /** Position `i` of an encoded PlcPcd: the start of the first piece, then the ends. */
  lemma PositionBack(pieces: seq<Piece>, flags: (Byte, Byte), prm: (Byte, Byte), i: nat)
    requires pieces != [] && AllStorable(pieces) && i <= |pieces|
    ensures U32(PlcOf(pieces, flags, prm), 4 * i) == if i == 0 then pieces[0].cpStart else pieces[i - 1].cpEnd
  {
    var plc := PlcOf(pieces, flags, prm);
    PlcLength(pieces, flags, prm);
    EndsLength(pieces);
    if i == 0 {
      assert plc[0..4] == Put32(pieces[0].cpStart);
      Get32(plc, 0, pieces[0].cpStart);
    } else {
      EndsAt(pieces, i - 1);
      InMiddle(Put32(pieces[0].cpStart), Ends(pieces), Descriptors(pieces, flags, prm), 4 * (i - 1), 4 * i);
      Get32(plc, 4 * i, pieces[i - 1].cpEnd);
    }
  }

  lemma DescriptorBack(pieces: seq<Piece>, flags: (Byte, Byte), prm: (Byte, Byte), i: nat)
    requires pieces != [] && AllStorable(pieces) && i < |pieces|
    ensures U32(PlcOf(pieces, flags, prm), 4 * (|pieces| + 1) + 8 * i + 2) == FileOffset(pieces[i])
  {
    var plc := PlcOf(pieces, flags, prm);
    var first, ends, tail := Put32(pieces[0].cpStart), Ends(pieces), Descriptors(pieces, flags, prm);
    PlcLength(pieces, flags, prm);
    EndsLength(pieces);
    DescriptorAt(pieces, flags, prm, i);
    AtEnd(first, ends, tail, 8 * i + 2, 8 * i + 6);
    Get32(plc, 4 * (|pieces| + 1) + 8 * i + 2, FileOffset(pieces[i]));
  }

  /** Parsing an encoded PlcPcd gives the pieces back. */
  lemma PlcRoundTrip(pieces: seq<Piece>, flags: (Byte, Byte), prm: (Byte, Byte))
    requires pieces != [] && AllStorable(pieces) && Chained(pieces)
    ensures Plc(PlcOf(pieces, flags, prm)) == pieces
  {
    var plc := PlcOf(pieces, flags, prm);
    PlcLength(pieces, flags, prm);
    forall i | 0 <= i < |pieces| ensures PieceAt(plc, |pieces|, i) == pieces[i] {
      PieceBack(pieces, flags, prm, i);
    }
  }

  lemma PieceBack(pieces: seq<Piece>, flags: (Byte, Byte), prm: (Byte, Byte), i: nat)
    requires pieces != [] && AllStorable(pieces) && Chained(pieces) && i < |pieces|
    ensures PieceAt(PlcOf(pieces, flags, prm), |pieces|, i) == pieces[i]
  {
    PositionBack(pieces, flags, prm, i);
    PositionBack(pieces, flags, prm, i + 1);
    DescriptorBack(pieces, flags, prm, i);
    OffsetBack(pieces[i]);
  }

  /** Prc records of these sizes, then the Pcdt, stand in `clx` from `position` on. */
  ghost predicate Records(clx: Bytes, position: nat, prcs: seq<Bytes>, plc: Bytes)
    decreases prcs
  {
    && position < |clx|
    && if prcs == [] then clx[position] == 2 && PcdtBody(clx, position) == plc
       else clx[position] == 1 && U16(clx, position + 1) == |prcs[0]|
            && Records(clx, position + 3 + |prcs[0]|, prcs[1..], plc)
  }

  /** The walk skips every Prc record and finds the Pcdt. */
  lemma {:induction false} PcdtFound(clx: Bytes, position: nat, prcs: seq<Bytes>, plc: Bytes)
    requires Records(clx, position, prcs, plc)
    ensures FindPcdt(clx, position).Some? && PcdtBody(clx, FindPcdt(clx, position).value) == plc
    decreases prcs
  {
    if prcs != [] {
      PcdtFound(clx, position + 3 + |prcs[0]|, prcs[1..], plc);
    }
  }

  /** The walk stops at a Pcdt only behind such records. */
  lemma {:induction false} PcdtReached(clx: Bytes, position: nat) returns (prcs: seq<Bytes>)
    requires FindPcdt(clx, position).Some?
    ensures Records(clx, position, prcs, PcdtBody(clx, FindPcdt(clx, position).value))
    decreases |clx| - position
  {
    prcs := [];
    if clx[position] == 1 {
      var next := position + 3 + U16(clx, position + 1);
      var later := PcdtReached(clx, next);
      prcs := [clx[position + 3..next]] + later;
    }
  }

  lemma Regroup(front: Bytes, a: Bytes, b: Bytes, rear: Bytes)
    ensures front + ((a + b) + rear) == front + (a + (b + rear)) == (front + a) + (b + rear)
  {
    assert (a + b) + rear == a + (b + rear);
  }

  lemma RecordsBehind(front: Bytes, prcs: seq<Bytes>, rest: Bytes, plc: Bytes)
    requires prcs != [] && |prcs[0]| < 0x1_0000
    requires Records((front + Prc(prcs[0])) + rest, |front + Prc(prcs[0])|, prcs[1..], plc)
    ensures Records(front + (Prc(prcs[0]) + rest), |front|, prcs, plc)
  {
    PrcWritten(front, prcs[0], rest);
    assert (front + Prc(prcs[0])) + rest == front + (Prc(prcs[0]) + rest);
  }

  /** The encoder writes those records, whatever follows them. */
  lemma {:induction false} RecordsWritten(front: Bytes, prcs: seq<Bytes>, plc: Bytes, rear: Bytes)
    requires |plc| < 0x1_0000_0000 && forall i | 0 <= i < |prcs| :: |prcs[i]| < 0x1_0000
    ensures Records(front + (ClxOf(prcs, plc) + rear), |front|, prcs, plc)
    decreases prcs
  {
    if prcs == [] {
      PcdtWritten(front, plc, rear);
    } else {
      RecordsWritten(front + Prc(prcs[0]), prcs[1..], plc, rear);
      Regroup(front, Prc(prcs[0]), ClxOf(prcs[1..], plc), rear);
      RecordsBehind(front, prcs, ClxOf(prcs[1..], plc) + rear, plc);
    }
  }

  lemma PrcWritten(front: Bytes, prc: Bytes, rest: Bytes)
    requires |prc| < 0x1_0000
    ensures var clx := front + (Prc(prc) + rest);
      clx[|front|] == 1 && U16(clx, |front| + 1) == |prc| && |Prc(prc)| == 3 + |prc|
  {
    var clx := front + (Prc(prc) + rest);
    InMiddle(front, Prc(prc), rest, 1, 3);
    assert Prc(prc)[1..3] == Put16(|prc|);
    Get16(clx, |front| + 1, |prc|);
  }

  lemma PcdtWritten(front: Bytes, plc: Bytes, rear: Bytes)
    requires |plc| < 0x1_0000_0000
    ensures var clx := front + (Pcdt(plc) + rear);
      clx[|front|] == 2 && PcdtBody(clx, |front|) == plc
  {
    var clx := front + (Pcdt(plc) + rear);
    InMiddle(front, Pcdt(plc), rear, 1, 5);
    InMiddle(front, Pcdt(plc), rear, 5, 5 + |plc|);
    assert Pcdt(plc)[1..5] == Put32(|plc|) && Pcdt(plc)[5..] == plc;
    Get32(clx, |front| + 1, |plc|);
  }

  /**
   A document whose table stream holds an encoded CLX at the place the header
   names yields exactly the encoded pieces, whatever Prc records precede them,
   whatever follows them in the CLX and whatever else the table stream holds.
   */
  lemma PieceTableRoundTrip(word: Bytes, before: Bytes, rear: Bytes, after: Bytes, prcs: seq<Bytes>,
                            pieces: seq<Piece>, flags: (Byte, Byte), prm: (Byte, Byte))
    requires pieces != [] && AllStorable(pieces) && Chained(pieces)
    requires |PlcOf(pieces, flags, prm)| < 0x1_0000_0000
    requires forall i | 0 <= i < |prcs| :: |prcs[i]| < 0x1_0000
    requires U32(word, 0x1A2) == |before|
    requires U32(word, 0x1A6) == |ClxOf(prcs, PlcOf(pieces, flags, prm)) + rear|
    ensures Clx(ClxBytes(word, before + ((ClxOf(prcs, PlcOf(pieces, flags, prm)) + rear) + after))) == pieces
  {
    ClxRead(prcs, PlcOf(pieces, flags, prm), rear);
    ClxFound(word, before, ClxOf(prcs, PlcOf(pieces, flags, prm)) + rear, after);
    PlcRoundTrip(pieces, flags, prm);
  }

  lemma ClxFound(word: Bytes, before: Bytes, clx: Bytes, after: Bytes)
    requires U32(word, OFFSET_FC_CLX) == |before| && U32(word, OFFSET_LCB_CLX) == |clx| > 0
    ensures ClxBytes(word, before + (clx + after)) == clx
  {
    InMiddle(before, clx, after, 0, |clx|);
    assert clx[0..|clx|] == clx;
  }

  lemma ClxRead(prcs: seq<Bytes>, plc: Bytes, rear: Bytes)
    requires |plc| < 0x1_0000_0000 && forall i | 0 <= i < |prcs| :: |prcs[i]| < 0x1_0000
    ensures |ClxOf(prcs, plc)| > 0 && Clx(ClxOf(prcs, plc) + rear) == Plc(plc)
  {
    var clx := ClxOf(prcs, plc) + rear;
    RecordsWritten([], prcs, plc, rear);
    assert [] + clx == clx;
    PcdtFound(clx, 0, prcs, plc);
  }

  /** A CLX that the walk leaves without a Pcdt, and a missing or cut-off CLX, yield no pieces. */
  lemma NoPieces(word: Bytes, table: Bytes)
    ensures table == [] || U32(word, 0x1A6) == 0 || U32(word, 0x1A2) + U32(word, 0x1A6) > |table| ==>
              Clx(ClxBytes(word, table)) == []
    ensures forall clx: Bytes :: FindPcdt(clx, 0).None? ==> Clx(clx) == []
  {
  }
}

/** The FLI player behind the intro videos: the chunk decoders that turn one
    frame of an Autodesk .FLI file into palette writes and pixel writes, the
    walk over a frame's chunks, the header check on opening, and the order
    in which the playback loop shows and numbers the frames. */
module Video2 {
  import opened Words
  import opened Wrappers
  import opened Arith
  import opened Lists
  import Rle

  // ---------------------------------------------------------------------
  // Screen memory
  // ---------------------------------------------------------------------

  /** The 64K video segment the screen's far pixel pointer addresses. Its
      16-bit offset wraps, so a write that runs past the end continues at
      the start of the segment. */
  const SEGMENT_SIZE: nat := 0x1_0000

  type Segment = s: seq<byte> | |s| == SEGMENT_SIZE witness seq(SEGMENT_SIZE, i => 0)

  /** One store of a pixel byte at a segment offset. */
  datatype PixelWrite = PixelWrite(offset: word, value: byte)

  /** The stores `*pt++ = b` makes for each byte in turn, starting at
      offset a. */
  function ByteWrites(a: int, bytes: seq<byte>): List<PixelWrite>
    decreases |bytes|
  {
    if bytes == [] then Nil else Cons(PixelWrite(Wrap16(a), bytes[0]), ByteWrites(a + 1, bytes[1..]))
  }

  /** The segment after the stores, in order. */
  function ApplyWrites(seg: Segment, ws: List<PixelWrite>): Segment
    decreases ws
  {
    if ws.Nil? then seg else ApplyWrites(seg[ws.head.offset := ws.head.value], ws.tail)
  }

  /** Stepping an offset back by one in 16-bit arithmetic. */
  lemma Wrap16Pred(t: int)
    ensures Wrap16(t - 1) == if Wrap16(t) == 0 then 0xFFFF else Wrap16(t) - 1
  {
  }

  lemma Wrap16Zero(j: int, a: int)
    requires 0 <= j < SEGMENT_SIZE
    ensures Wrap16(j - a) == 0 <==> j == Wrap16(a)
  {
  }

  /** A store of at most 64K bytes from offset a leaves the byte at offset
      j alone unless j lies within |bytes| steps of a, counting forwards
      with wrap-around, and then holds the byte stored there. */
  lemma {:induction false} ByteWritesAt(seg: Segment, a: int, bytes: seq<byte>, j: nat)
    requires |bytes| <= SEGMENT_SIZE && j < SEGMENT_SIZE
    ensures ApplyWrites(seg, ByteWrites(a, bytes))[j] ==
      if Wrap16(j - a) < |bytes| then bytes[Wrap16(j - a)] else seg[j]
    decreases |bytes|
  {
    if bytes != [] {
      ByteWritesAt(seg[Wrap16(a) := bytes[0]], a + 1, bytes[1..], j);
      assert j - (a + 1) == (j - a) - 1;
      Wrap16Pred(j - a);
      Wrap16Zero(j, a);
    }
  }

  /** Storing two byte strings one after the other is storing their
      concatenation. */
  lemma {:induction false} ByteWritesConcat(a: int, b1: seq<byte>, b2: seq<byte>)
    ensures ByteWrites(a, b1 + b2) == Concat(ByteWrites(a, b1), ByteWrites(a + |b1|, b2))
    decreases |b1|
  {
    if b1 == [] {
      assert b1 + b2 == b2;
    } else {
      assert (b1 + b2)[0] == b1[0];
      assert (b1 + b2)[1..] == b1[1..] + b2;
      ByteWritesConcat(a + 1, b1[1..], b2);
    }
  }

  lemma {:induction false} ConcatAssoc<T>(a: List<T>, b: List<T>, c: List<T>)
    ensures Concat(Concat(a, b), c) == Concat(a, Concat(b, c))
    decreases a
  {
    if a.Cons? {
      ConcatAssoc(a.tail, b, c);
    }
  }

  /** The two pixel primitives the decoders call. */
  datatype ScreenOp =
    | RepeatOne(x: int, y: int, color: byte, count: nat)  // screen_repeat_one
    | CopySeg(x: int, y: int, pixels: seq<byte>)          // screen_copy_seg

  /** The bytes an operation stores, in order. */
  function OpBytes(op: ScreenOp): seq<byte>
  {
    match op
    case RepeatOne(_, _, color, count) => Rle.Repeat(color, count)
    case CopySeg(_, _, pixels) => pixels
  }

  /** Both primitives start at y * width + x, computed in unsigned 16-bit
      arithmetic; ByteWrites applies that wrap to the offset. */
  function OpWrites(width: word, op: ScreenOp): List<PixelWrite>
  {
    ByteWrites(op.y * width + op.x, OpBytes(op))
  }

  /** The stores of the operations, in order. */
  function OpsWrites(width: word, ops: List<ScreenOp>): List<PixelWrite>
    decreases ops
  {
    if ops.Nil? then Nil else Concat(OpWrites(width, ops.head), OpsWrites(width, ops.tail))
  }

  lemma {:induction false} OpsWritesConcat(width: word, o1: List<ScreenOp>, o2: List<ScreenOp>)
    ensures OpsWrites(width, Concat(o1, o2)) == Concat(OpsWrites(width, o1), OpsWrites(width, o2))
    decreases o1
  {
    if o1.Cons? {
      OpsWritesConcat(width, o1.tail, o2);
      ConcatAssoc(OpWrites(width, o1.head), OpsWrites(width, o1.tail), OpsWrites(width, o2));
    }
  }

  /** screen_repeat_one and screen_copy_seg write exactly `count` pixels from
      y * width + x on (wrapping within the segment) and nothing else. */
  lemma PrimitivesWriteExactly(seg: Segment, width: word, op: ScreenOp, j: nat)
    requires |OpBytes(op)| <= SEGMENT_SIZE && j < SEGMENT_SIZE
    ensures op.RepeatOne? ==> |OpBytes(op)| == op.count
    ensures var d := Wrap16(j - (op.y * width + op.x));
      ApplyWrites(seg, OpWrites(width, op))[j] ==
        if d < |OpBytes(op)| then (if op.RepeatOne? then op.color else op.pixels[d]) else seg[j]
  {
    ByteWritesAt(seg, op.y * width + op.x, OpBytes(op), j);
  }

  /** The number of times `while (--n >= 0)` runs for a 16-bit n: none for
      a negative n, except that -32768 decrements to 32767. */
  function CountDown(n: sword): (k: nat)
    ensures n >= 0 ==> k == n
    ensures n < 0 ==> (k == 0 <==> n != -0x8000)
  {
    if n == -0x8000 then 0x8000 else if n < 0 then 0 else n
  }

  // ---------------------------------------------------------------------
  // The flic being played
  // ---------------------------------------------------------------------

  const FLI_TYPE: word := 0xAF11
  /** sizeof(FlicHead). */
  const FLIC_HEAD_SIZE: nat := 128
  /** sizeof(ChunkHead): a 32-bit size and a 16-bit type. */
  const CHUNK_HEAD_SIZE: nat := 6

  /** A signed 32-bit `Long`. */
  type slong = x: int | -0x8000_0000 <= x < 0x8000_0000

  /** The header fields the player uses. */
  datatype FlicHead = FlicHead(
    typ: word, frames: word, width: word, height: word,
    speed: slong, oframe1: slong, oframe2: slong)

  /** An open flic and where it is drawn. */
  datatype Flic = Flic(head: FlicHead, xoff: int, yoff: int)

  /** The header's width and height read into a 16-bit `int`. */
  function FlicWidth(flic: Flic): sword
  {
    AsSigned(flic.head.width)
  }

  function FlicHeight(flic: Flic): sword
  {
    AsSigned(flic.head.height)
  }

  // ---------------------------------------------------------------------
  // BYTE_RUN chunks
  // ---------------------------------------------------------------------

  /** A decoder's output and the offset just past the bytes it read. */
  datatype Decoded = Decoded(ops: List<ScreenOp>, next: nat)

  /** One packet read at (x, y): the operation it calls for, the bytes it
      takes up and the pixels it advances x by. */
  datatype Parsed = Parsed(op: ScreenOp, size: nat, width: nat)

  /** One packet of decode_byte_run at offset pos. Its signed size byte
      calls for a run of the next byte when it is not negative and for a
      copy of the -size bytes that follow otherwise. A size of -128 negates
      to itself in a signed char, so the C code copies nothing and steps
      its pointer back 128 bytes; the model gives up on it with None, as it
      does when a packet runs past the data. */
  function ReadRunPacket(data: seq<byte>, pos: nat, x: int, y: int): (r: Option<Parsed>)
    ensures r.Some? ==> 1 <= r.value.size && pos + r.value.size <= |data|
    ensures r.Some? ==> r.value.op.x == x && r.value.op.y == y
  {
    if pos >= |data| then None
    else
      var size := Rle.Signed8(data[pos]);
      if size >= 0 then
        if pos + 2 > |data| then None
        else Some(Parsed(RepeatOne(x, y, data[pos + 1], size), 2, size))
      else if size == -128 then None
      else
        var n := -size;
        if pos + 1 + n > |data| then None
        else Some(Parsed(CopySeg(x, y, data[pos + 1..pos + 1 + n]), 1 + n, n))
  }

  /** The packets of one row of decode_byte_run from offset pos, after the
      skipped count byte: packets are read while x is short of end. */
  function DecodeRunRow(data: seq<byte>, pos: nat, x: int, end: int, y: int): Option<Decoded>
    decreases |data| - pos
  {
    if x >= end then Some(Decoded(Nil, pos))
    else match ReadRunPacket(data, pos, x, y)
      case None => None
      case Some(p) =>
        match DecodeRunRow(data, pos + p.size, x + p.width, end, y)
        case None => None
        case Some(d) => Some(Decoded(Cons(p.op, d.ops), d.next))
  }

  /** `rows` rows of decode_byte_run from offset pos, each led by a count
      byte that is skipped, the first one at screen row y. */
  function DecodeRunRows(data: seq<byte>, pos: nat, x: int, end: int, y: int, rows: nat): Option<List<ScreenOp>>
    decreases rows
  {
    if rows == 0 then Some(Nil)
    else match DecodeRunRow(data, pos + 1, x, end, y)
      case None => None
      case Some(d) =>
        match DecodeRunRows(data, d.next, x, end, y + 1, rows - 1)
        case None => None
        case Some(rest) => Some(Concat(d.ops, rest))
  }

  /** decode_byte_run on chunk data at offset pos: one row per line of the
      header's height, each from xoff to xoff + width. */
  function DecodeByteRun(data: seq<byte>, pos: nat, flic: Flic): Option<List<ScreenOp>>
  {
    DecodeRunRows(data, pos, flic.xoff, flic.xoff + FlicWidth(flic), flic.yoff, CountDown(FlicHeight(flic)))
  }

  /** A packet of a compressed row: a run of one colour or a literal
      string of pixels. Packets of 1 to 127 pixels can be encoded. */
  datatype RowPacket = Run(count: nat, color: byte) | Literal(pixels: seq<byte>)

  predicate ValidPacket(p: RowPacket)
  {
    match p
    case Run(count, _) => 1 <= count <= 127
    case Literal(pixels) => 1 <= |pixels| <= 127
  }

  predicate ValidPackets(ps: List<RowPacket>)
  {
    ps.Nil? || (ValidPacket(ps.head) && ValidPackets(ps.tail))
  }

  /** The pixels a packet stands for. */
  function PacketPixels(p: RowPacket): seq<byte>
  {
    match p
    case Run(count, color) => Rle.Repeat(color, count)
    case Literal(pixels) => pixels
  }

  function PacketWidth(p: RowPacket): nat
  {
    match p
    case Run(count, _) => count
    case Literal(pixels) => |pixels|
  }

  /** The number of bytes a packet's encoding takes. */
  function PacketSize(p: RowPacket): nat
  {
    match p
    case Run(_, _) => 2
    case Literal(pixels) => 1 + |pixels|
  }

  function RowWidth(ps: List<RowPacket>): nat
  {
    if ps.Nil? then 0 else PacketWidth(ps.head) + RowWidth(ps.tail)
  }

  function RowSize(ps: List<RowPacket>): nat
  {
    if ps.Nil? then 0 else PacketSize(ps.head) + RowSize(ps.tail)
  }

  /** The pixels a row of packets stands for. */
  function Expand(ps: List<RowPacket>): seq<byte>
  {
    if ps.Nil? then [] else PacketPixels(ps.head) + Expand(ps.tail)
  }

  /** A packet's encoding: its size byte, then its colour or its pixels. */
  function EncodePacket(p: RowPacket): (e: seq<byte>)
    ensures |e| == PacketSize(p)
  {
    match p
    case Run(count, color) => [Wrap8(count), color]
    case Literal(pixels) => [Wrap8(0x100 - |pixels|)] + pixels
  }

  function EncodePackets(ps: List<RowPacket>): (e: seq<byte>)
    ensures |e| == RowSize(ps)
  {
    if ps.Nil? then [] else EncodePacket(ps.head) + EncodePackets(ps.tail)
  }

  /** Rows, each behind a count byte holding its number of packets. */
  function EncodeRows(rows: List<List<RowPacket>>): seq<byte>
  {
    if rows.Nil? then []
    else [Wrap8(Length(rows.head))] + (EncodePackets(rows.head) + EncodeRows(rows.tail))
  }

  /** The operation a packet calls for at (x, y). */
  function PacketOp(p: RowPacket, x: int, y: int): ScreenOp
  {
    match p
    case Run(count, color) => RepeatOne(x, y, color, count)
    case Literal(pixels) => CopySeg(x, y, pixels)
  }

  /** The operations a row of packets calls for from (x, y) on. */
  function PacketOps(ps: List<RowPacket>, x: int, y: int): List<ScreenOp>
  {
    if ps.Nil? then Nil
    else Cons(PacketOp(ps.head, x, y), PacketOps(ps.tail, x + PacketWidth(ps.head), y))
  }

  /** The operations rows of packets call for, the first row at (x, y). */
  function RowsOps(rows: List<List<RowPacket>>, x: int, y: int): List<ScreenOp>
  {
    if rows.Nil? then Nil else Concat(PacketOps(rows.head, x, y), RowsOps(rows.tail, x, y + 1))
  }

  function ExpandRows(rows: List<List<RowPacket>>): seq<byte>
  {
    if rows.Nil? then [] else Expand(rows.head) + ExpandRows(rows.tail)
  }

  /** Rows of valid packets, each exactly w pixels wide. */
  predicate WellFormedRows(rows: List<List<RowPacket>>, w: int)
  {
    rows.Nil? || (ValidPackets(rows.head) && RowWidth(rows.head) == w && WellFormedRows(rows.tail, w))
  }

  /** The bytes e lie in data from offset pos on. */
  predicate At(data: seq<byte>, pos: nat, e: seq<byte>)
    decreases |e|
  {
    e == [] || (pos < |data| && data[pos] == e[0] && At(data, pos + 1, e[1..]))
  }

  lemma {:induction false} AtSplit(data: seq<byte>, pos: nat, a: seq<byte>, b: seq<byte>)
    requires At(data, pos, a + b)
    ensures At(data, pos, a) && At(data, pos + |a|, b)
    decreases |a|
  {
    if a == [] {
      assert a + b == b;
    } else {
      assert (a + b)[0] == a[0];
      assert (a + b)[1..] == a[1..] + b;
      AtSplit(data, pos + 1, a[1..], b);
    }
  }

  /** The i-th byte of e lies at offset pos + i. */
  lemma {:induction false} AtIndex(data: seq<byte>, pos: nat, e: seq<byte>, i: nat)
    requires At(data, pos, e) && i < |e|
    ensures pos + i < |data| && data[pos + i] == e[i]
    decreases i
  {
    if i > 0 {
      AtIndex(data, pos + 1, e[1..], i - 1);
    }
  }

  /** Bytes found in data are the slice of data they cover. */
  lemma {:induction false} AtSlice(data: seq<byte>, pos: nat, e: seq<byte>)
    requires pos <= |data| && At(data, pos, e)
    ensures pos + |e| <= |data| && data[pos..pos + |e|] == e
    decreases |e|
  {
    if e != [] {
      AtSlice(data, pos + 1, e[1..]);
      assert data[pos..pos + |e|] == [data[pos]] + data[pos + 1..pos + |e|];
      assert e == [e[0]] + e[1..];
    }
  }

  /** Packet p's encoding lies in data at offset pos, byte by byte. */
  predicate PacketAt(data: seq<byte>, pos: nat, p: RowPacket)
  {
    match p
    case Run(count, color) =>
      pos + 2 <= |data| && data[pos] == Wrap8(count) && data[pos + 1] == color
    case Literal(pixels) =>
      pos + 1 + |pixels| <= |data| && data[pos] == Wrap8(0x100 - |pixels|)
      && data[pos + 1..pos + 1 + |pixels|] == pixels
  }

  predicate PacketsAt(data: seq<byte>, pos: nat, ps: List<RowPacket>)
    decreases ps
  {
    ps.Nil? || (PacketAt(data, pos, ps.head) && PacketsAt(data, pos + PacketSize(ps.head), ps.tail))
  }

  /** Rows lie in data one after the other, each behind a count byte. */
  predicate RowsAt(data: seq<byte>, pos: nat, rows: List<List<RowPacket>>)
    decreases rows
  {
    rows.Nil? ||
    (pos < |data| && PacketsAt(data, pos + 1, rows.head)
     && RowsAt(data, pos + 1 + RowSize(rows.head), rows.tail))
  }

  lemma PacketAtFromBytes(data: seq<byte>, pos: nat, p: RowPacket)
    requires At(data, pos, EncodePacket(p))
    ensures PacketAt(data, pos, p)
  {
    match p {
      case Run(count, color) =>
        assert EncodePacket(p)[1..][1..] == [];
      case Literal(pixels) =>
        AtSplit(data, pos, [Wrap8(0x100 - |pixels|)], pixels);
        AtSlice(data, pos + 1, pixels);
    }
  }

  lemma {:induction false} PacketsAtFromBytes(data: seq<byte>, pos: nat, ps: List<RowPacket>)
    requires At(data, pos, EncodePackets(ps))
    ensures PacketsAt(data, pos, ps)
    decreases ps
  {
    if ps.Cons? {
      var e := EncodePacket(ps.head);
      var rest := EncodePackets(ps.tail);
      assert At(data, pos, e) && At(data, pos + |e|, rest) by {
        AtSplit(data, pos, e, rest);
      }
      assert PacketAt(data, pos, ps.head) by {
        PacketAtFromBytes(data, pos, ps.head);
      }
      assert PacketsAt(data, pos + PacketSize(ps.head), ps.tail) by {
        PacketsAtFromBytes(data, pos + PacketSize(ps.head), ps.tail);
      }
    }
  }

  /** A byte followed by more bytes: the byte is in data, the rest follows it. */
  lemma AtCons(data: seq<byte>, pos: nat, b: byte, t: seq<byte>)
    requires At(data, pos, [b] + t)
    ensures pos < |data| && data[pos] == b && At(data, pos + 1, t)
  {
    assert ([b] + t)[1..] == t;
  }

  /** The first of several encoded rows placed in data. */
  lemma {:induction false} RowAtFromBytes(data: seq<byte>, pos: nat, row: List<RowPacket>, rest: seq<byte>)
    requires At(data, pos, [Wrap8(Length(row))] + (EncodePackets(row) + rest))
    ensures pos < |data| && PacketsAt(data, pos + 1, row) && At(data, pos + 1 + RowSize(row), rest)
  {
    var e := EncodePackets(row);
    AtCons(data, pos, Wrap8(Length(row)), e + rest);
    AtSplit(data, pos + 1, e, rest);
    PacketsAtFromBytes(data, pos + 1, row);
  }

  /** Encoded rows placed in data can be found there row by row. */
  lemma {:induction false} RowsAtFromBytes(data: seq<byte>, pos: nat, rows: List<List<RowPacket>>)
    requires At(data, pos, EncodeRows(rows))
    ensures RowsAt(data, pos, rows)
    decreases rows
  {
    if rows.Cons? {
      RowAtFromBytes(data, pos, rows.head, EncodeRows(rows.tail));
      RowsAtFromBytes(data, pos + 1 + RowSize(rows.head), rows.tail);
    }
  }

  /** A valid packet decodes to its operation and reads its encoding. */
  lemma ReadEncodedPacket(p: RowPacket, data: seq<byte>, pos: nat, x: int, y: int)
    requires ValidPacket(p) && PacketAt(data, pos, p)
    ensures ReadRunPacket(data, pos, x, y) == Some(Parsed(PacketOp(p, x, y), PacketSize(p), PacketWidth(p)))
    ensures 1 <= PacketWidth(p)
  {
    match p {
      case Run(count, color) =>
      case Literal(pixels) =>
        assert Rle.Signed8(data[pos]) == -|pixels|;
    }
  }

  /** Reading packets from offset pos at (x, y) gives back ps one by one,
      each at least one pixel wide. */
  predicate PacketsRead(data: seq<byte>, pos: nat, x: int, y: int, ps: List<RowPacket>)
    decreases ps
  {
    ps.Nil? ||
    (ReadRunPacket(data, pos, x, y) == Some(Parsed(PacketOp(ps.head, x, y), PacketSize(ps.head), PacketWidth(ps.head)))
     && 1 <= PacketWidth(ps.head)
     && PacketsRead(data, pos + PacketSize(ps.head), x + PacketWidth(ps.head), y, ps.tail))
  }

  /** Valid packets placed in data read back one by one. */
  lemma {:induction false} PacketsReadFromAt(ps: List<RowPacket>, data: seq<byte>, pos: nat, x: int, y: int)
    requires ValidPackets(ps) && PacketsAt(data, pos, ps)
    ensures PacketsRead(data, pos, x, y, ps)
    decreases ps
  {
    if ps.Cons? {
      ReadEncodedPacket(ps.head, data, pos, x, y);
      PacketsReadFromAt(ps.tail, data, pos + PacketSize(ps.head), x + PacketWidth(ps.head), y);
    }
  }

  /** Decoding packets that read back one by one, up to the end of their
      row, gives back their operations and stops right after their bytes. */
  lemma {:induction false} RunRowDecodes(ps: List<RowPacket>, data: seq<byte>, pos: nat, x: int, end: int, y: int)
    requires PacketsRead(data, pos, x, y, ps) && end == x + RowWidth(ps)
    ensures DecodeRunRow(data, pos, x, end, y) == Some(Decoded(PacketOps(ps, x, y), pos + RowSize(ps)))
    decreases ps
  {
    if ps.Cons? {
      var size, width := PacketSize(ps.head), PacketWidth(ps.head);
      assert RowWidth(ps) == width + RowWidth(ps.tail);
      RunRowDecodes(ps.tail, data, pos + size, x + width, end, y);
      RunRowDecodesStep(ps, data, pos, x, end, y);
    }
  }

  /** The step of RunRowDecodes: the first packet read and the rest of the
      row decoded make the row. */
  lemma RunRowDecodesStep(ps: List<RowPacket>, data: seq<byte>, pos: nat, x: int, end: int, y: int)
    requires ps.Cons? && PacketsRead(data, pos, x, y, ps) && end == x + RowWidth(ps)
    requires var size, width := PacketSize(ps.head), PacketWidth(ps.head);
      DecodeRunRow(data, pos + size, x + width, end, y) == Some(Decoded(PacketOps(ps.tail, x + width, y), pos + size + RowSize(ps.tail)))
    ensures DecodeRunRow(data, pos, x, end, y) == Some(Decoded(PacketOps(ps, x, y), pos + RowSize(ps)))
  {
    var size, width := PacketSize(ps.head), PacketWidth(ps.head);
    var p := Parsed(PacketOp(ps.head, x, y), size, width);
    assert ReadRunPacket(data, pos, x, y) == Some(p) && 1 <= width;
    var d := Decoded(PacketOps(ps.tail, x + width, y), pos + size + RowSize(ps.tail));
    assert x < end;
    RowStep(data, pos, x, end, y, p, d);
    assert PacketOps(ps, x, y) == Cons(p.op, d.ops);
    assert pos + RowSize(ps) == d.next;
  }

  /** Decoding a row of valid packets gives back their operations and
      stops right after the row's bytes. */
  lemma RunRowRoundTrip(ps: List<RowPacket>, data: seq<byte>, pos: nat, x: int, end: int, y: int)
    requires ValidPackets(ps) && PacketsAt(data, pos, ps) && end == x + RowWidth(ps)
    ensures DecodeRunRow(data, pos, x, end, y) == Some(Decoded(PacketOps(ps, x, y), pos + RowSize(ps)))
  {
    PacketsReadFromAt(ps, data, pos, x, y);
    RunRowDecodes(ps, data, pos, x, end, y);
  }

  /** One packet read and the rest of the row decoded make the row. */
  lemma RowStep(data: seq<byte>, pos: nat, x: int, end: int, y: int, p: Parsed, d: Decoded)
    requires x < end && ReadRunPacket(data, pos, x, y) == Some(p)
    requires DecodeRunRow(data, pos + p.size, x + p.width, end, y) == Some(d)
    ensures DecodeRunRow(data, pos, x, end, y) == Some(Decoded(Cons(p.op, d.ops), d.next))
  {
  }

  /** Each row decodes from behind its count byte, one screen row further
      down than the one before, and the next starts right after it. */
  predicate RowsDecoded(data: seq<byte>, pos: nat, x: int, w: int, y: int, rows: List<List<RowPacket>>)
    decreases rows
  {
    rows.Nil? ||
    (DecodeRunRow(data, pos + 1, x, x + w, y) == Some(Decoded(PacketOps(rows.head, x, y), pos + 1 + RowSize(rows.head)))
     && RowsDecoded(data, pos + 1 + RowSize(rows.head), x, w, y + 1, rows.tail))
  }

  /** Well-formed rows placed in data decode one by one. */
  lemma {:induction false} RowsDecodedFromAt(rows: List<List<RowPacket>>, data: seq<byte>, pos: nat, x: int, w: int, y: int)
    requires WellFormedRows(rows, w) && RowsAt(data, pos, rows)
    ensures RowsDecoded(data, pos, x, w, y, rows)
    decreases rows
  {
    if rows.Cons? {
      RunRowRoundTrip(rows.head, data, pos + 1, x, x + w, y);
      RowsDecodedFromAt(rows.tail, data, pos + 1 + RowSize(rows.head), x, w, y + 1);
    }
  }

  /** Rows that decode one by one decode together to all their operations,
      in order. */
  lemma {:induction false} RunRowsDecode(rows: List<List<RowPacket>>, data: seq<byte>, pos: nat, x: int, w: int, y: int)
    requires RowsDecoded(data, pos, x, w, y, rows)
    ensures DecodeRunRows(data, pos, x, x + w, y, Length(rows)) == Some(RowsOps(rows, x, y))
    decreases rows
  {
    if rows.Cons? {
      var next := pos + 1 + RowSize(rows.head);
      RunRowsDecode(rows.tail, data, next, x, w, y + 1);
      RowsStep(data, pos, x, x + w, y, Length(rows), Decoded(PacketOps(rows.head, x, y), next), RowsOps(rows.tail, x, y + 1));
    }
  }

  /** Decoding rows of valid packets, w pixels wide, gives back the
      operations of every row in turn, one screen row further down each. */
  lemma RunRowsRoundTrip(rows: List<List<RowPacket>>, data: seq<byte>, pos: nat, x: int, w: int, y: int)
    requires WellFormedRows(rows, w) && RowsAt(data, pos, rows)
    ensures DecodeRunRows(data, pos, x, x + w, y, Length(rows)) == Some(RowsOps(rows, x, y))
  {
    RowsDecodedFromAt(rows, data, pos, x, w, y);
    RunRowsDecode(rows, data, pos, x, w, y);
  }

  /** One row decoded and the remaining rows decoded make the rows. */
  lemma RowsStep(data: seq<byte>, pos: nat, x: int, end: int, y: int, rows: nat, d: Decoded, rest: List<ScreenOp>)
    requires 0 < rows && DecodeRunRow(data, pos + 1, x, end, y) == Some(d)
    requires DecodeRunRows(data, d.next, x, end, y + 1, rows - 1) == Some(rest)
    ensures DecodeRunRows(data, pos, x, end, y, rows) == Some(Concat(d.ops, rest))
  {
  }

  /** decode_byte_run inverts the row encoding: a chunk holding the header's
      height in encoded rows of the header's width decodes to the rows'
      operations from (xoff, yoff) on. */
  lemma ByteRunRoundTrip(rows: List<List<RowPacket>>, data: seq<byte>, pos: nat, flic: Flic)
    requires WellFormedRows(rows, FlicWidth(flic)) && Length(rows) == CountDown(FlicHeight(flic))
    requires At(data, pos, EncodeRows(rows))
    ensures DecodeByteRun(data, pos, flic) == Some(RowsOps(rows, flic.xoff, flic.yoff))
  {
    RowsAtFromBytes(data, pos, rows);
    RunRowsRoundTrip(rows, data, pos, flic.xoff, FlicWidth(flic), flic.yoff);
  }

  /** A row's pixels number its width. */
  lemma {:induction false} ExpandWidth(ps: List<RowPacket>)
    ensures |Expand(ps)| == RowWidth(ps)
    decreases ps
  {
    if ps.Cons? {
      ExpandWidth(ps.tail);
    }
  }

  /** A row's operations store the row's pixels one after the other from
      y * width + x on. */
  lemma {:induction false} PacketOpsPaint(width: word, ps: List<RowPacket>, x: int, y: int)
    ensures OpsWrites(width, PacketOps(ps, x, y)) == ByteWrites(y * width + x, Expand(ps))
    decreases ps
  {
    if ps.Cons? {
      var p := ps.head;
      PacketOpsPaint(width, ps.tail, x + PacketWidth(p), y);
      ByteWritesConcat(y * width + x, PacketPixels(p), Expand(ps.tail));
    }
  }

  lemma MulSucc(y: int, w: int)
    ensures (y + 1) * w == y * w + w
  {
  }

  /** Rows as wide as the screen store their pixels one after the other,
      as one image from y * width + x on. */
  lemma {:induction false} RowsOpsPaint(width: word, rows: List<List<RowPacket>>, x: int, y: int)
    requires WellFormedRows(rows, width)
    ensures OpsWrites(width, RowsOps(rows, x, y)) == ByteWrites(y * width + x, ExpandRows(rows))
    decreases rows
  {
    if rows.Cons? {
      var ps := rows.head;
      OpsWritesConcat(width, PacketOps(ps, x, y), RowsOps(rows.tail, x, y + 1));
      PacketOpsPaint(width, ps, x, y);
      RowsOpsPaint(width, rows.tail, x, y + 1);
      ExpandWidth(ps);
      MulSucc(y, width);
      ByteWritesConcat(y * width + x, Expand(ps), ExpandRows(rows.tail));
    }
  }

  /** A full-width byte-run chunk paints its image: the operations decoded
      from the encoded rows store exactly the rows' pixels, in order, as
      one block from yoff * width + xoff on. */
  lemma ByteRunPaintsImage(flic: Flic, rows: List<List<RowPacket>>, data: seq<byte>, pos: nat)
    requires 0 <= FlicWidth(flic) && WellFormedRows(rows, FlicWidth(flic))
    requires Length(rows) == CountDown(FlicHeight(flic)) && At(data, pos, EncodeRows(rows))
    ensures DecodeByteRun(data, pos, flic).Some?
    ensures OpsWrites(flic.head.width, DecodeByteRun(data, pos, flic).value)
      == ByteWrites(flic.yoff * flic.head.width + flic.xoff, ExpandRows(rows))
  {
    ByteRunRoundTrip(rows, data, pos, flic);
    RowsOpsPaint(flic.head.width, rows, flic.xoff, flic.yoff);
  }

  // ---------------------------------------------------------------------
  // COLOR_256 and COLOR_64 chunks
  // ---------------------------------------------------------------------

  /** One entry set in the VGA palette: the index sent to port 0x3C8 (the
      port takes the low byte of the `int`) and the three components sent
      to port 0x3C9. */
  datatype PaletteWrite = PaletteWrite(index: byte, r: byte, g: byte, b: byte)

  /** A colour component as submitted: shifted right by 2 for 256-level
      chunks (screen_put_colors), unchanged for 64-level chunks
      (screen_put_colors_64). */
  function Component(v: byte, shift: bool): (c: byte)
    ensures shift ==> c < 64 && 4 * c <= v < 4 * c + 4
    ensures !shift ==> c == v
  {
    if shift then v / 4 else v
  }

  /** The palette writes of screen_put_colors(_64) for `count` colours of
      three bytes each at offset pos, the first for palette entry start. */
  function PutColors(data: seq<byte>, pos: nat, start: int, count: nat, shift: bool): (r: List<PaletteWrite>)
    requires pos + 3 * count <= |data|
    ensures Length(r) == count
    decreases count
  {
    if count == 0 then Nil
    else
      Cons(PaletteWrite(Wrap8(start), Component(data[pos], shift), Component(data[pos + 1], shift), Component(data[pos + 2], shift)),
           PutColors(data, pos + 3, start + 1, count - 1, shift))
  }

  /** The i-th write sets entry start + i (modulo 256) to the i-th colour
      of the data. */
  lemma {:induction false} PutColorsNth(data: seq<byte>, pos: nat, start: int, count: nat, shift: bool, i: nat)
    requires pos + 3 * count <= |data| && i < count
    ensures Nth(PutColors(data, pos, start, count, shift), i) ==
      PaletteWrite(Wrap8(start + i), Component(data[pos + 3 * i], shift),
                   Component(data[pos + 3 * i + 1], shift), Component(data[pos + 3 * i + 2], shift))
    decreases i
  {
    if i > 0 {
      PutColorsNth(data, pos + 3, start + 1, count - 1, shift, i - 1);
    }
  }

  /** `ops` packets of decode_color from offset pos, with the palette
      index at start: each packet adds its skip byte to the index, takes a
      count byte (0 standing for 256) and that many colours, and leaves the
      index just past the entries it set. */
  function DecodeColorOps(data: seq<byte>, pos: nat, start: int, ops: nat, shift: bool): Option<List<PaletteWrite>>
    decreases ops
  {
    if ops == 0 then Some(Nil)
    else if pos + 2 > |data| then None
    else
      var first := start + data[pos];
      var count: nat := if data[pos + 1] == 0 then 256 else data[pos + 1];
      if pos + 2 + 3 * count > |data| then None
      else match DecodeColorOps(data, pos + 2 + 3 * count, first + count, ops - 1, shift)
        case None => None
        case Some(rest) => Some(Concat(PutColors(data, pos + 2, first, count, shift), rest))
  }

  /** decode_color on chunk data at offset pos: a signed 16-bit packet
      count, then the packets, starting at palette entry 0. Shifted
      components stand for COLOR_256 chunks, unshifted ones for COLOR_64. */
  function DecodeColor(data: seq<byte>, pos: nat, shift: bool): Option<List<PaletteWrite>>
  {
    if pos + 2 > |data| then None
    else DecodeColorOps(data, pos + 2, 0, CountDown(AsSigned(MakeWord(data[pos], data[pos + 1]))), shift)
  }

  datatype Color = Color(r: byte, g: byte, b: byte)

  /** A palette packet: entries to skip, then 1 to 256 colours to set. */
  datatype ColorPacket = ColorPacket(skip: byte, colors: List<Color>)

  predicate ValidColorPackets(cps: List<ColorPacket>)
  {
    cps.Nil? || (1 <= Length(cps.head.colors) <= 256 && ValidColorPackets(cps.tail))
  }

  function EncodeColors(cs: List<Color>): (e: seq<byte>)
    ensures |e| == 3 * Length(cs)
  {
    if cs.Nil? then [] else [cs.head.r, cs.head.g, cs.head.b] + EncodeColors(cs.tail)
  }

  /** Packets as skip byte, count byte (256 written as 0) and colours. */
  function EncodeColorPackets(cps: List<ColorPacket>): seq<byte>
  {
    if cps.Nil? then []
    else [cps.head.skip, Wrap8(Length(cps.head.colors))] + (EncodeColors(cps.head.colors) + EncodeColorPackets(cps.tail))
  }

  /** A whole colour chunk: the packet count as a little-endian word, then
      the packets. */
  function EncodeColorChunk(cps: List<ColorPacket>): seq<byte>
    requires Length(cps) < 0x1_0000
  {
    [LowByte(Length(cps)), HighByte(Length(cps))] + EncodeColorPackets(cps)
  }

  /** The palette writes packets stand for, from entry start on. */
  function ColorWrites(cs: List<Color>, start: int, shift: bool): List<PaletteWrite>
  {
    if cs.Nil? then Nil
    else Cons(PaletteWrite(Wrap8(start), Component(cs.head.r, shift), Component(cs.head.g, shift), Component(cs.head.b, shift)),
              ColorWrites(cs.tail, start + 1, shift))
  }

  function PacketsWrites(cps: List<ColorPacket>, start: int, shift: bool): List<PaletteWrite>
  {
    if cps.Nil? then Nil
    else
      var first := start + cps.head.skip;
      Concat(ColorWrites(cps.head.colors, first, shift),
             PacketsWrites(cps.tail, first + Length(cps.head.colors), shift))
  }

  /** The colours cs lie in data from offset pos on, three bytes each. */
  predicate ColorsAt(data: seq<byte>, pos: nat, cs: List<Color>)
    decreases cs
  {
    cs.Nil? ||
    (pos + 3 <= |data| && data[pos] == cs.head.r && data[pos + 1] == cs.head.g && data[pos + 2] == cs.head.b
     && ColorsAt(data, pos + 3, cs.tail))
  }

  /** The packets cps lie in data from offset pos on, byte by byte. */
  predicate ColorPacketsAt(data: seq<byte>, pos: nat, cps: List<ColorPacket>)
    decreases cps
  {
    cps.Nil? ||
    (pos + 2 <= |data| && data[pos] == cps.head.skip
     && (if data[pos + 1] == 0 then 256 else data[pos + 1]) == Length(cps.head.colors)
     && ColorsAt(data, pos + 2, cps.head.colors)
     && ColorPacketsAt(data, pos + 2 + 3 * Length(cps.head.colors), cps.tail))
  }

  lemma {:induction false} ColorsAtFromBytes(data: seq<byte>, pos: nat, cs: List<Color>)
    requires At(data, pos, EncodeColors(cs))
    ensures ColorsAt(data, pos, cs)
    decreases cs
  {
    if cs.Cons? {
      var c := [cs.head.r, cs.head.g, cs.head.b];
      AtSplit(data, pos, c, EncodeColors(cs.tail));
      AtIndex(data, pos, c, 0);
      AtIndex(data, pos, c, 1);
      AtIndex(data, pos, c, 2);
      ColorsAtFromBytes(data, pos + 3, cs.tail);
    }
  }

  /** The first packet of several placed in data. */
  lemma ColorPacketFromBytes(data: seq<byte>, pos: nat, cp: ColorPacket, rest: seq<byte>)
    requires 1 <= Length(cp.colors) <= 256
    requires At(data, pos, [cp.skip, Wrap8(Length(cp.colors))] + (EncodeColors(cp.colors) + rest))
    ensures pos + 2 <= |data| && data[pos] == cp.skip
    ensures (if data[pos + 1] == 0 then 256 else data[pos + 1]) == Length(cp.colors)
    ensures ColorsAt(data, pos + 2, cp.colors)
    ensures At(data, pos + 2 + 3 * Length(cp.colors), rest)
  {
    var e := EncodeColors(cp.colors);
    var h := [cp.skip, Wrap8(Length(cp.colors))];
    AtSplit(data, pos, h, e + rest);
    AtIndex(data, pos, h, 0);
    AtIndex(data, pos, h, 1);
    AtSplit(data, pos + 2, e, rest);
    ColorsAtFromBytes(data, pos + 2, cp.colors);
  }

  /** Encoded colour packets placed in data can be found there packet by
      packet. */
  lemma {:induction false} ColorPacketsAtFromBytes(data: seq<byte>, pos: nat, cps: List<ColorPacket>)
    requires ValidColorPackets(cps) && At(data, pos, EncodeColorPackets(cps))
    ensures ColorPacketsAt(data, pos, cps)
    decreases cps
  {
    if cps.Cons? {
      ColorPacketFromBytes(data, pos, cps.head, EncodeColorPackets(cps.tail));
      ColorPacketsAtFromBytes(data, pos + 2 + 3 * Length(cps.head.colors), cps.tail);
    }
  }

  /** screen_put_colors reads the colours placed in data. */
  lemma {:induction false} PutColorsReadsColors(data: seq<byte>, pos: nat, cs: List<Color>, start: int, shift: bool)
    requires pos <= |data| && ColorsAt(data, pos, cs)
    ensures pos + 3 * Length(cs) <= |data|
    ensures PutColors(data, pos, start, Length(cs), shift) == ColorWrites(cs, start, shift)
    decreases cs
  {
    if cs.Cons? {
      PutColorsReadsColors(data, pos + 3, cs.tail, start + 1, shift);
    }
  }

  /** Decoding colour packets placed in data gives back the palette writes
      they stand for. */
  lemma {:induction false} ColorOpsRoundTrip(cps: List<ColorPacket>, data: seq<byte>, pos: nat, start: int, shift: bool)
    requires ColorPacketsAt(data, pos, cps)
    ensures DecodeColorOps(data, pos, start, Length(cps), shift) == Some(PacketsWrites(cps, start, shift))
    decreases cps
  {
    if cps.Cons? {
      var cp := cps.head;
      var n := Length(cp.colors);
      ColorOpsRoundTrip(cps.tail, data, pos + 2 + 3 * n, start + cp.skip + n, shift);
      ColorOpsStep(cps, data, pos, start, shift);
    }
  }

  /** The step of ColorOpsRoundTrip: the first packet's colours and the
      rest's writes make the packets' writes. */
  lemma ColorOpsStep(cps: List<ColorPacket>, data: seq<byte>, pos: nat, start: int, shift: bool)
    requires cps.Cons? && ColorPacketsAt(data, pos, cps)
    requires var n := Length(cps.head.colors); var next := start + cps.head.skip + n;
      DecodeColorOps(data, pos + 2 + 3 * n, next, Length(cps.tail), shift) == Some(PacketsWrites(cps.tail, next, shift))
    ensures DecodeColorOps(data, pos, start, Length(cps), shift) == Some(PacketsWrites(cps, start, shift))
  {
    var cp := cps.head;
    var n := Length(cp.colors);
    assert data[pos] == cp.skip && n == (if data[pos + 1] == 0 then 256 else data[pos + 1]);
    assert ColorsAt(data, pos + 2, cp.colors);
    PutColorsReadsColors(data, pos + 2, cp.colors, start + cp.skip, shift);
    var rest := PacketsWrites(cps.tail, start + cp.skip + n, shift);
    ColorStep(data, pos, start, Length(cps), shift, cp.skip, n, rest);
    PacketsWritesFirst(cps, start, shift);
  }

  lemma PacketsWritesFirst(cps: List<ColorPacket>, start: int, shift: bool)
    requires cps.Cons?
    ensures var first := start + cps.head.skip;
      PacketsWrites(cps, start, shift) ==
      Concat(ColorWrites(cps.head.colors, first, shift), PacketsWrites(cps.tail, first + Length(cps.head.colors), shift))
  {
  }

  /** One packet read and the rest decoded make the packets' writes. */
  lemma ColorStep(data: seq<byte>, pos: nat, start: int, ops: nat, shift: bool, skip: byte, count: nat, rest: List<PaletteWrite>)
    requires ops > 0 && pos + 2 + 3 * count <= |data| && data[pos] == skip
    requires count == if data[pos + 1] == 0 then 256 else data[pos + 1]
    requires DecodeColorOps(data, pos + 2 + 3 * count, start + skip + count, ops - 1, shift) == Some(rest)
    ensures DecodeColorOps(data, pos, start, ops, shift) ==
      Some(Concat(PutColors(data, pos + 2, start + skip, count, shift), rest))
  {
  }

  /** The packet count at the head of an encoded colour chunk. */
  lemma ColorChunkHeader(cps: List<ColorPacket>, data: seq<byte>, pos: nat)
    requires Length(cps) < 0x8000 && At(data, pos, EncodeColorChunk(cps))
    ensures pos + 2 <= |data| && MakeWord(data[pos], data[pos + 1]) == Length(cps)
    ensures At(data, pos + 2, EncodeColorPackets(cps))
  {
    var n := Length(cps);
    var h := [LowByte(n), HighByte(n)];
    AtSplit(data, pos, h, EncodeColorPackets(cps));
    AtIndex(data, pos, h, 0);
    AtIndex(data, pos, h, 1);
    WordBytesRoundTrip(data[pos], data[pos + 1], n);
  }

  /** decode_color inverts the chunk encoding: up to 32767 packets decode
      to their palette writes from entry 0 on. */
  lemma ColorRoundTrip(cps: List<ColorPacket>, data: seq<byte>, pos: nat, shift: bool)
    requires ValidColorPackets(cps) && Length(cps) < 0x8000
    requires At(data, pos, EncodeColorChunk(cps))
    ensures DecodeColor(data, pos, shift) == Some(PacketsWrites(cps, 0, shift))
  {
    ColorChunkHeader(cps, data, pos);
    ColorPacketsAtFromBytes(data, pos + 2, cps);
    ColorOpsRoundTrip(cps, data, pos + 2, 0, shift);
  }

  /** Every component a 256-level chunk submits fits the DAC's 6 bits. */
  predicate SixBit(ws: List<PaletteWrite>)
  {
    ws.Nil? || (ws.head.r < 64 && ws.head.g < 64 && ws.head.b < 64 && SixBit(ws.tail))
  }

  lemma {:induction false} SixBitConcat(a: List<PaletteWrite>, b: List<PaletteWrite>)
    requires SixBit(a) && SixBit(b)
    ensures SixBit(Concat(a, b))
    decreases a
  {
    if a.Cons? {
      SixBitConcat(a.tail, b);
    }
  }

  lemma {:induction false} PutColorsSixBit(data: seq<byte>, pos: nat, start: int, count: nat)
    requires pos + 3 * count <= |data|
    ensures SixBit(PutColors(data, pos, start, count, true))
    decreases count
  {
    if count > 0 {
      PutColorsSixBit(data, pos + 3, start + 1, count - 1);
    }
  }

  /** A COLOR_256 chunk, whatever its bytes, sets only 6-bit components. */
  lemma {:induction false} ShiftedColorsSixBit(data: seq<byte>, pos: nat, start: int, ops: nat)
    ensures DecodeColorOps(data, pos, start, ops, true).Some? ==>
      SixBit(DecodeColorOps(data, pos, start, ops, true).value)
    decreases ops
  {
    if ops > 0 && pos + 2 <= |data| {
      var first := start + data[pos];
      var count: nat := if data[pos + 1] == 0 then 256 else data[pos + 1];
      if pos + 2 + 3 * count <= |data| {
        ShiftedColorsSixBit(data, pos + 2 + 3 * count, first + count, ops - 1);
        var r := DecodeColorOps(data, pos + 2 + 3 * count, first + count, ops - 1, true);
        if r.Some? {
          PutColorsSixBit(data, pos + 2, first, count);
          SixBitConcat(PutColors(data, pos + 2, first, count, true), r.value);
        }
      }
    }
  }

  // ---------------------------------------------------------------------
  // LITERAL chunks
  // ---------------------------------------------------------------------

  /** `rows` rows of decode_literal from offset pos: each row copies
      CountDown(w) bytes to screen row y, as screen_copy_seg's
      `while (--count >= 0)` does, and then moves the data on by w, which
      for a negative w is backwards. Reading outside the data gives None. */
  function LiteralRows(data: seq<byte>, pos: int, x: int, y: int, w: sword, rows: nat): Option<List<ScreenOp>>
    decreases rows
  {
    if rows == 0 then Some(Nil)
    else
      var n := CountDown(w);
      if pos < 0 || pos + n > |data| then None
      else match LiteralRows(data, pos + w, x, y + 1, w, rows - 1)
        case None => None
        case Some(rest) => Some(Cons(CopySeg(x, y, data[pos..pos + n]), rest))
  }

  /** decode_literal on chunk data at offset pos: `for (i = 0; i < height;
      ++i)` runs no rows for a negative height. */
  function DecodeLiteral(data: seq<byte>, pos: nat, flic: Flic): Option<List<ScreenOp>>
  {
    var h := FlicHeight(flic);
    LiteralRows(data, pos, flic.xoff, flic.yoff, FlicWidth(flic), if h > 0 then h else 0)
  }

  /** For a width w >= 0, the rows are decoded exactly when the data holds
      rows * w bytes from pos on. */
  lemma {:induction false} LiteralSucceeds(data: seq<byte>, pos: nat, x: int, y: int, w: sword, rows: nat)
    requires 0 <= w
    ensures LiteralRows(data, pos, x, y, w, rows).Some? <==> (rows == 0 || pos + rows * w <= |data|)
    decreases rows
  {
    if rows > 0 {
      LiteralSucceeds(data, pos + w, x, y + 1, w, rows - 1);
      MulSucc(rows - 1, w);
    }
  }

  /** Row i of a decoded literal copies the i-th w bytes of the data to
      screen row y + i. */
  lemma {:induction false} LiteralRowNth(data: seq<byte>, pos: int, x: int, y: int, w: sword, rows: nat, i: nat)
    requires 0 <= w && LiteralRows(data, pos, x, y, w, rows).Some? && i < rows
    ensures Length(LiteralRows(data, pos, x, y, w, rows).value) == rows
    ensures 0 <= pos + i * w && pos + i * w + w <= |data|
    ensures Nth(LiteralRows(data, pos, x, y, w, rows).value, i) == CopySeg(x, y + i, data[pos + i * w..pos + i * w + w])
    decreases i
  {
    LiteralLength(data, pos, x, y, w, rows);
    if i > 0 {
      LiteralRowNth(data, pos + w, x, y + 1, w, rows - 1, i - 1);
      MulSucc(i - 1, w);
    }
  }

  lemma {:induction false} LiteralLength(data: seq<byte>, pos: int, x: int, y: int, w: sword, rows: nat)
    requires LiteralRows(data, pos, x, y, w, rows).Some?
    ensures Length(LiteralRows(data, pos, x, y, w, rows).value) == rows
    decreases rows
  {
    if rows > 0 {
      LiteralLength(data, pos + w, x, y + 1, w, rows - 1);
    }
  }

  /** ops copy whole rows of `width` pixels to consecutive screen rows
      from row y on, each starting at column x. */
  predicate RowCopies(ops: List<ScreenOp>, x: int, y: int, width: nat)
    decreases ops
  {
    ops.Nil? ||
    (ops.head.CopySeg? && ops.head.x == x && ops.head.y == y && |ops.head.pixels| == width &&
     RowCopies(ops.tail, x, y + 1, width))
  }

  /** The pixels the operations store, in order. */
  function OpsPixels(ops: List<ScreenOp>): seq<byte>
    decreases ops
  {
    if ops.Nil? then [] else OpBytes(ops.head) + OpsPixels(ops.tail)
  }

  /** Full-width row copies to consecutive rows store their pixels one after
      the other, as one block from y * width + x on. */
  lemma {:induction false} RowCopiesPaint(width: word, ops: List<ScreenOp>, x: int, y: int)
    requires RowCopies(ops, x, y, width)
    ensures OpsWrites(width, ops) == ByteWrites(y * width + x, OpsPixels(ops))
    decreases ops
  {
    if ops.Cons? {
      RowCopiesPaint(width, ops.tail, x, y + 1);
      CopyRowStep(width, x, y, ops.head.pixels, OpsPixels(ops.tail), ops.tail);
    }
  }

  /** One full-width row copy followed by rows that paint `rest` paints
      the row followed by `rest`. */
  lemma CopyRowStep(width: word, x: int, y: int, first: seq<byte>, rest: seq<byte>, restOps: List<ScreenOp>)
    requires |first| == width
    requires OpsWrites(width, restOps) == ByteWrites((y + 1) * width + x, rest)
    ensures OpsWrites(width, Cons(CopySeg(x, y, first), restOps)) == ByteWrites(y * width + x, first + rest)
  {
    MulSucc(y, width);
    ByteWritesConcat(y * width + x, first, rest);
  }

  /** The bytes `rows` rows of w bytes take, counted row by row. */
  function Span(rows: nat, w: nat): nat
  {
    if rows == 0 then 0 else w + Span(rows - 1, w)
  }

  lemma {:induction false} SpanIsProduct(rows: nat, w: nat)
    ensures Span(rows, w) == rows * w
  {
    if rows > 0 {
      SpanIsProduct(rows - 1, w);
      MulSucc(rows - 1, w);
    }
  }

  /** For a width w >= 0 the decoded rows are full-width copies to
      consecutive screen rows, and together they copy the Span(rows, w)
      bytes from pos on, in order. */
  lemma {:induction false} LiteralRowsAreCopies(data: seq<byte>, pos: nat, x: int, y: int, w: sword, rows: nat)
    requires 0 <= w && pos <= |data| && LiteralRows(data, pos, x, y, w, rows).Some?
    ensures pos + Span(rows, w) <= |data|
    ensures RowCopies(LiteralRows(data, pos, x, y, w, rows).value, x, y, w)
    ensures OpsPixels(LiteralRows(data, pos, x, y, w, rows).value) == data[pos..pos + Span(rows, w)]
    decreases rows
  {
    if rows > 0 {
      var rest := LiteralRows(data, pos + w, x, y + 1, w, rows - 1).value;
      LiteralRowsAreCopies(data, pos + w, x, y + 1, w, rows - 1);
      var end := pos + Span(rows, w);
      var first := data[pos..pos + w];
      assert CountDown(w) == w;
      assert LiteralRows(data, pos, x, y, w, rows).value == Cons(CopySeg(x, y, first), rest);
      assert OpsPixels(Cons(CopySeg(x, y, first), rest)) == first + OpsPixels(rest);
      assert first + data[pos + w..end] == data[pos..end];
    }
  }

  /** A literal chunk whose rows are as wide as the screen stores the
      data's rows * width bytes one after the other from y * width + x on:
      the chunk is the image, row by row. */
  lemma LiteralRowsPaint(width: word, data: seq<byte>, pos: nat, x: int, y: int, rows: nat)
    requires width < 0x8000 && pos <= |data| && LiteralRows(data, pos, x, y, width as sword, rows).Some?
    ensures pos + rows * width <= |data|
    ensures OpsWrites(width, LiteralRows(data, pos, x, y, width as sword, rows).value)
      == ByteWrites(y * width + x, data[pos..pos + rows * width])
  {
    LiteralRowsAreCopies(data, pos, x, y, width as sword, rows);
    SpanIsProduct(rows, width);
    RowCopiesPaint(width, LiteralRows(data, pos, x, y, width as sword, rows).value, x, y);
  }

  /** decode_literal copies the header's height in rows of the header's
      width, the i-th w bytes of the chunk to screen row yoff + i. */
  lemma LiteralCopiesRows(data: seq<byte>, pos: nat, flic: Flic, i: nat)
    requires 0 <= FlicWidth(flic) && 0 <= FlicHeight(flic)
    requires pos + FlicHeight(flic) * FlicWidth(flic) <= |data| && i < FlicHeight(flic)
    ensures DecodeLiteral(data, pos, flic).Some?
    ensures var ops := DecodeLiteral(data, pos, flic).value; var w := FlicWidth(flic);
      Length(ops) == FlicHeight(flic) && pos + i * w + w <= |data| &&
      Nth(ops, i) == CopySeg(flic.xoff, flic.yoff + i, data[pos + i * w..pos + i * w + w])
  {
    var w := FlicWidth(flic);
    LiteralSucceeds(data, pos, flic.xoff, flic.yoff, w, FlicHeight(flic));
    LiteralLength(data, pos, flic.xoff, flic.yoff, w, FlicHeight(flic));
    LiteralRowNth(data, pos, flic.xoff, flic.yoff, w, FlicHeight(flic), i);
  }

  // ---------------------------------------------------------------------
  // Frames: the walk over the chunks
  // ---------------------------------------------------------------------

  /** The chunk types decode_frame handles. */
  const COLOR_256: word := 4
  const COLOR_64: word := 11
  const DELTA_FLI: word := 12
  const BYTE_RUN: word := 15
  const LITERAL: word := 16

  /** A signed 32-bit little-endian value (a `Long`) at offset p. */
  function ReadLong(data: seq<byte>, p: nat): (v: int)
    requires p + 4 <= |data|
    ensures -0x8000_0000 <= v < 0x8000_0000
  {
    var u: int := data[p] as int + 0x100 * (data[p + 1] as int) + 0x1_0000 * (data[p + 2] as int) + 0x100_0000 * (data[p + 3] as int);
    if u < 0x8000_0000 then u else u - 0x1_0000_0000
  }

  /** The little-endian bytes of a non-negative `Long`. */
  function LongBytes(n: nat): (e: seq<byte>)
    requires n < 0x8000_0000
    ensures |e| == 4
  {
    var q1 := n / 0x100;
    var q2 := q1 / 0x100;
    [n % 0x100, q1 % 0x100, q2 % 0x100, q2 / 0x100]
  }

  lemma LongRoundTrip(n: nat, data: seq<byte>, p: nat)
    requires n < 0x8000_0000 && At(data, p, LongBytes(n))
    ensures p + 4 <= |data| && ReadLong(data, p) == n
  {
    var e := LongBytes(n);
    AtIndex(data, p, e, 0);
    AtIndex(data, p, e, 1);
    AtIndex(data, p, e, 2);
    AtIndex(data, p, e, 3);
    var q1 := n / 0x100;
    var q2 := q1 / 0x100;
    assert n == n % 0x100 + 0x100 * q1;
    assert q1 == q1 % 0x100 + 0x100 * q2;
    assert q2 == q2 % 0x100 + 0x100 * (q2 / 0x100);
  }

  /** The header decode_frame reads for a chunk: its type, and the offset
      of its body right after the six header bytes. */
  datatype ChunkHeader = ChunkHeader(typ: word, body: nat)

  /** The headers of the next n chunks from offset off: each chunk's
      32-bit size field, read as signed, moves the walk on, whatever the
      chunk's type. A header outside the data gives None. */
  function ChunkWalk(data: seq<byte>, off: int, n: nat): Option<List<ChunkHeader>>
    decreases n
  {
    if n == 0 then Some(Nil)
    else if off < 0 || off + CHUNK_HEAD_SIZE > |data| then None
    else match ChunkWalk(data, off + ReadLong(data, off), n - 1)
      case None => None
      case Some(rest) =>
        Some(Cons(ChunkHeader(MakeWord(data[off + 4], data[off + 5]), off + CHUNK_HEAD_SIZE), rest))
  }

  /** What one chunk does to the screen and the palette. A DELTA_FLI chunk
      is decoded by assembly code that is not part of this model; only its
      body's offset is recorded. */
  datatype ChunkEffect =
    | SetPalette(writes: List<PaletteWrite>)
    | DrawPixels(ops: List<ScreenOp>)
    | DeltaFli(body: nat)
    | Ignored

  /** The switch in decode_frame. */
  function ChunkEffectOf(flic: Flic, data: seq<byte>, h: ChunkHeader): Option<ChunkEffect>
  {
    if h.typ == COLOR_256 || h.typ == COLOR_64 then
      match DecodeColor(data, h.body, h.typ == COLOR_256)
      case None => None
      case Some(ws) => Some(SetPalette(ws))
    else if h.typ == DELTA_FLI then Some(DeltaFli(h.body))
    else if h.typ == BYTE_RUN || h.typ == LITERAL then
      match (if h.typ == BYTE_RUN then DecodeByteRun(data, h.body, flic) else DecodeLiteral(data, h.body, flic))
      case None => None
      case Some(ops) => Some(DrawPixels(ops))
    else Some(Ignored)
  }

  function ChunkEffects(flic: Flic, data: seq<byte>, hs: List<ChunkHeader>): Option<List<ChunkEffect>>
    decreases hs
  {
    if hs.Nil? then Some(Nil)
    else match ChunkEffectOf(flic, data, hs.head)
      case None => None
      case Some(e) =>
        match ChunkEffects(flic, data, hs.tail)
        case None => None
        case Some(rest) => Some(Cons(e, rest))
  }

  /** decode_frame on the frame's data (its header already read): `for (i
      = 0; i < frame->chunks; ++i)` visits no chunk for a negative count. */
  function DecodeFrame(flic: Flic, data: seq<byte>, chunks: sword): Option<List<ChunkEffect>>
  {
    match ChunkWalk(data, 0, if chunks > 0 then chunks else 0)
    case None => None
    case Some(hs) => ChunkEffects(flic, data, hs)
  }

  /** A chunk of a frame: its type and its body. */
  datatype Chunk = Chunk(typ: word, payload: seq<byte>)

  /** Chunks whose size, header included, fits a `Long`. */
  predicate ValidChunks(cs: List<Chunk>)
  {
    cs.Nil? || (CHUNK_HEAD_SIZE + |cs.head.payload| < 0x8000_0000 && ValidChunks(cs.tail))
  }

  /** A chunk's bytes: its size, its type, its body. */
  function EncodeChunk(c: Chunk): (e: seq<byte>)
    requires CHUNK_HEAD_SIZE + |c.payload| < 0x8000_0000
    ensures |e| == CHUNK_HEAD_SIZE + |c.payload|
  {
    LongBytes(CHUNK_HEAD_SIZE + |c.payload|) + ([LowByte(c.typ), HighByte(c.typ)] + c.payload)
  }

  function EncodeChunks(cs: List<Chunk>): seq<byte>
    requires ValidChunks(cs)
  {
    if cs.Nil? then [] else EncodeChunk(cs.head) + EncodeChunks(cs.tail)
  }

  /** The headers the chunks have when laid out from offset off on. */
  function ChunkHeaders(cs: List<Chunk>, off: int): List<ChunkHeader>
    requires off >= 0
  {
    if cs.Nil? then Nil
    else Cons(ChunkHeader(cs.head.typ, off + CHUNK_HEAD_SIZE),
              ChunkHeaders(cs.tail, off + CHUNK_HEAD_SIZE + |cs.head.payload|))
  }

  /** The chunks' headers lie in data from offset off on, each chunk's size
      field leading to the next. */
  predicate ChunksAt(data: seq<byte>, off: nat, cs: List<Chunk>)
    decreases cs
  {
    cs.Nil? ||
    (off + CHUNK_HEAD_SIZE <= |data| && ReadLong(data, off) == CHUNK_HEAD_SIZE + |cs.head.payload|
     && MakeWord(data[off + 4], data[off + 5]) == cs.head.typ
     && ChunksAt(data, off + CHUNK_HEAD_SIZE + |cs.head.payload|, cs.tail))
  }

  lemma ChunkAtFromBytes(data: seq<byte>, off: nat, c: Chunk, rest: seq<byte>)
    requires CHUNK_HEAD_SIZE + |c.payload| < 0x8000_0000
    requires At(data, off, EncodeChunk(c) + rest)
    ensures off + CHUNK_HEAD_SIZE <= |data| && ReadLong(data, off) == CHUNK_HEAD_SIZE + |c.payload|
    ensures MakeWord(data[off + 4], data[off + 5]) == c.typ
    ensures At(data, off + CHUNK_HEAD_SIZE + |c.payload|, rest)
  {
    var size := LongBytes(CHUNK_HEAD_SIZE + |c.payload|);
    var t := [LowByte(c.typ), HighByte(c.typ)];
    AtSplit(data, off, EncodeChunk(c), rest);
    AtSplit(data, off, size, t + c.payload);
    AtSplit(data, off + 4, t, c.payload);
    LongRoundTrip(CHUNK_HEAD_SIZE + |c.payload|, data, off);
    AtIndex(data, off + 4, t, 0);
    AtIndex(data, off + 4, t, 1);
    WordBytesRoundTrip(data[off + 4], data[off + 5], c.typ);
  }

  /** Encoded chunks placed in data can be found there chunk by chunk. */
  lemma {:induction false} ChunksAtFromBytes(data: seq<byte>, off: nat, cs: List<Chunk>)
    requires ValidChunks(cs) && At(data, off, EncodeChunks(cs))
    ensures ChunksAt(data, off, cs)
    decreases cs
  {
    if cs.Cons? {
      ChunkAtFromBytes(data, off, cs.head, EncodeChunks(cs.tail));
      ChunksAtFromBytes(data, off + CHUNK_HEAD_SIZE + |cs.head.payload|, cs.tail);
    }
  }

  /** The walk finds every chunk's header: each size field leads to the
      next chunk, so the bodies are found right where they were laid out. */
  lemma {:induction false} ChunkWalkFindsChunks(data: seq<byte>, off: nat, cs: List<Chunk>)
    requires ChunksAt(data, off, cs)
    ensures ChunkWalk(data, off, Length(cs)) == Some(ChunkHeaders(cs, off))
    decreases cs
  {
    if cs.Cons? {
      ChunkWalkFindsChunks(data, off + CHUNK_HEAD_SIZE + |cs.head.payload|, cs.tail);
    }
  }

  /** A frame made of encoded chunks is decoded chunk by chunk, each from
      the body it was laid out with. */
  lemma FrameRoundTrip(flic: Flic, data: seq<byte>, cs: List<Chunk>)
    requires ValidChunks(cs) && 0 < Length(cs) < 0x8000 && At(data, 0, EncodeChunks(cs))
    ensures DecodeFrame(flic, data, Length(cs)) == ChunkEffects(flic, data, ChunkHeaders(cs, 0))
  {
    ChunksAtFromBytes(data, 0, cs);
    ChunkWalkFindsChunks(data, 0, cs);
  }

  /** decode_frame ignores exactly the chunk types it has no case for. */
  lemma IgnoresUnknownChunks(flic: Flic, data: seq<byte>, h: ChunkHeader)
    ensures ChunkEffectOf(flic, data, h) == Some(Ignored) <==>
      h.typ !in {COLOR_256, COLOR_64, DELTA_FLI, BYTE_RUN, LITERAL}
  {
  }

  // ---------------------------------------------------------------------
  // Opening a flic
  // ---------------------------------------------------------------------

  const ERR_BAD_FLIC: int := -3

  datatype OpenResult = Opened(head: FlicHead) | OpenFailed(err: int)

  /** C's `/` on a non-negative divisor: the quotient truncated toward
      zero. */
  function TruncDiv(a: int, d: int): (q: int)
    requires d > 0
    ensures a >= 0 ==> d * q <= a < d * (q + 1)
    ensures a < 0 ==> d * q >= a > d * (q - 1)
  {
    if a >= 0 then a / d else -((-a) / d)
  }

  /** `speed * 1000L / 70L` in 32-bit `Long` arithmetic. */
  function ScaleSpeed(speed: slong): slong
  {
    TruncDiv(WrapLong(speed * 1000), 70)
  }

  /** flic_open on the header it read: only the FLI type is accepted; then
      the first frame is taken to follow the 128-byte header and the speed
      is converted from 1/70 s units to milliseconds. */
  function FlicOpen(head: FlicHead): (r: OpenResult)
    ensures r.Opened? <==> head.typ == FLI_TYPE
    ensures r.OpenFailed? ==> r.err == ERR_BAD_FLIC
    ensures r.Opened? ==> r.head.oframe1 == FLIC_HEAD_SIZE
    ensures r.Opened? ==> r.head.(oframe1 := head.oframe1, speed := head.speed) == head
  {
    if head.typ == FLI_TYPE then Opened(head.(oframe1 := FLIC_HEAD_SIZE as slong, speed := ScaleSpeed(head.speed)))
    else OpenFailed(ERR_BAD_FLIC)
  }

  /** Within the range where speed * 1000 fits a `Long`, the converted
      speed is the header's delay of `speed` 70ths of a second in whole
      milliseconds, rounded down. */
  lemma SpeedInMilliseconds(head: FlicHead)
    requires head.typ == FLI_TYPE && 0 <= head.speed && head.speed * 1000 < 0x8000_0000
    ensures var ms := FlicOpen(head).head.speed;
      70 * ms <= head.speed * 1000 < 70 * (ms + 1)
  {
  }

  /** Beyond that range the product wraps: a header speed of 2147484 ticks
      comes out as a negative number of milliseconds. */
  lemma SpeedOverflows()
    ensures FlicOpen(FlicHead(FLI_TYPE, 1, 320, 200, 2147484, 0, 0)).head.speed < 0
  {
  }

  // ---------------------------------------------------------------------
  // Playback: the frame numbers flic_play_loop reports
  // ---------------------------------------------------------------------

  /** The k-th report of a playback (the first frame is report 0): the
      frame number passed to OnNewVideoFrame is k modulo the frame count,
      and the frame shown is the k-th in file order with the ring frame
      `frames` standing in for frame 0 after the first pass. A count of 0
      behaves as 0x10000. */
  predicate Reported(k: nat, frames: word, v: sword, sh: nat)
  {
    var m := if frames == 0 then 0x1_0000 else frames;
    v == AsSigned(k % m) && sh == (if k == 0 then 0 else (k - 1) % m + 1)
  }

  /** The first frame is reported as frame 0. */
  lemma FirstReport(frames: word)
    ensures Reported(0, frames, 0, 0)
  {
    var m := if frames == 0 then 0x1_0000 else frames;
    assert 0 % m == 0;
  }

  /** The reports made once `rep` repetitions have run, the first frame
      included; the last repetition skips the ring frame. */
  function Played(frames: word, reps: int, rep: int): int
  {
    if 0 < rep && rep == reps then (rep - 1) * frames + Wrap16(frames - 1) + 1 else 1 + rep * frames
  }

  /** Pass i of repetition rep reports the frame number the k-th report
      should carry. */
  lemma ReportedStep(frames: word, rep: nat, i: nat)
    requires if frames == 0 then i < 0xFFFF else i < frames
    ensures Reported(1 + rep * frames + i, frames, if i + 1 == frames then 0 else AsSigned(Wrap16(i + 1)), i + 1)
  {
    var k := 1 + rep * frames + i;
    if frames == 0 {
      assert k == 1 + i;
    } else if i + 1 < frames {
      Arith.ModUnique(k, frames, rep, i + 1);
      Arith.ModUnique(k - 1, frames, rep, i);
    } else {
      Arith.ModUnique(k, frames, rep + 1, 0);
      Arith.ModUnique(k - 1, frames, rep, i);
    }
  }

  /** Every report so far is the one the playback should make. */
  predicate AllReported(frames: word, shown: seq<nat>, reported: seq<sword>)
  {
    |shown| == |reported| && forall k :: 0 <= k < |reported| ==> Reported(k, frames, reported[k], shown[k])
  }

  lemma ReportsExtend(frames: word, shown: seq<nat>, reported: seq<sword>, sh: nat, v: sword)
    requires AllReported(frames, shown, reported) && Reported(|reported|, frames, v, sh)
    ensures AllReported(frames, shown + [sh], reported + [v])
  {
  }

  /** What the reports of a whole playback are: one per frame for each
      repetition, numbered modulo the frame count. */
  lemma PlaybackReports(frames: word, reps: sword, shown: seq<nat>, reported: seq<sword>)
    requires AllReported(frames, shown, reported) && |reported| == Played(frames, reps, if reps > 0 then reps else 0)
    ensures |shown| == |reported| >= 1 && shown[0] == 0 && reported[0] == 0
    ensures reps <= 0 ==> reported == [0]
    ensures 1 <= frames && 1 <= reps ==> |reported| == reps * frames
    ensures 1 <= frames && 1 <= reps ==> forall k :: 0 <= k < |reported| ==>
      reported[k] == AsSigned(k % frames) && shown[k] == (if k == 0 then 0 else (k - 1) % frames + 1)
    ensures frames == 0 && 1 <= reps ==> |reported| == 0x1_0000
    ensures frames == 0 && 1 <= reps ==> forall k :: 0 <= k < |reported| ==>
      reported[k] == AsSigned(k) && shown[k] == k
  {
    assert Reported(0, frames, reported[0], shown[0]);
    if reps <= 0 {
      assert reported == [reported[0]];
    } else {
      MulSucc(reps - 1, frames);
    }
  }

  /** flic_play_loop with every frame read and every wait completing: the
      frames it shows, counted from 0 in file order (the ring frame at the
      end of the file is `frames`), and the frame numbers it passes to
      OnNewVideoFrame. The bound `frames + (last ? -1 : 0)` mixes a 16-bit
      `int` with a `Ushort`, so it is computed and compared unsigned. */
  method PlayLoop(frames: word, reps: sword) returns (shown: seq<nat>, reported: seq<sword>)
    ensures |shown| == |reported| >= 1 && shown[0] == 0 && reported[0] == 0
    ensures reps <= 0 ==> reported == [0]
    ensures 1 <= frames && 1 <= reps ==> |reported| == reps * frames
    ensures 1 <= frames && 1 <= reps ==> forall k :: 0 <= k < |reported| ==>
      reported[k] == AsSigned(k % frames) && shown[k] == (if k == 0 then 0 else (k - 1) % frames + 1)
    ensures frames == 0 && 1 <= reps ==> |reported| == 0x1_0000
    ensures frames == 0 && 1 <= reps ==> forall k :: 0 <= k < |reported| ==>
      reported[k] == AsSigned(k) && shown[k] == k
  {
    shown, reported := [0], [0];
    FirstReport(frames);
    var rep: int := 0;
    while rep < reps
      invariant 0 <= rep <= (if reps > 0 then reps else 0)
      invariant |reported| == Played(frames, reps, rep)
      invariant AllReported(frames, shown, reported)
    {
      var bound := Wrap16(frames + (if rep + 1 == reps then -1 else 0));
      var i := 0;
      while i < bound
        invariant 0 <= i <= bound
        invariant |reported| == 1 + rep * frames + i
        invariant AllReported(frames, shown, reported)
      {
        var v := if i + 1 == frames then 0 else AsSigned(Wrap16(i + 1));
        ReportedStep(frames, rep, i);
        ReportsExtend(frames, shown, reported, i + 1, v);
        shown := shown + [i + 1];
        reported := reported + [v];
        i := i + 1;
      }
      MulSucc(rep, frames);
      rep := rep + 1;
    }
    PlaybackReports(frames, reps, shown, reported);
  }
}

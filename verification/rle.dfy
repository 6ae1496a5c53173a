/** The run-length codec of the level files' extra map data: DecompressRLE
    and the size estimate CalcCompressedSize. */
module Rle {
  import opened Words
  import opened Wrappers

  /** A byte read as a signed 8-bit marker. */
  function Signed8(b: byte): int
  {
    if b < 0x80 then b else b - 0x100
  }

  function Repeat(b: byte, n: nat): (s: seq<byte>)
    ensures |s| == n && forall i :: 0 <= i < n ==> s[i] == b
  {
    if n == 0 then [] else Repeat(b, n - 1) + [b]
  }

  /** How a decompression run ends. */
  datatype Outcome =
    | Complete(output: seq<byte>, consumed: nat)  // the 0 marker was reached
    | SourceExhausted                             // the loop would read past the source
    | EndlessLiteral                              // marker -128: the signed counter never reaches 128

  /** DecompressRLE(src, dest): markers are read as signed bytes; 0 ends the
      data, n > 0 repeats the next byte n times, -n copies the next n bytes.
      For -128 the copy loop's signed 8-bit counter wraps from 127 to -128
      and the loop never ends. */
  function DecompressRLE(src: seq<byte>): (r: Outcome)
    ensures r.Complete? ==> 1 <= r.consumed <= |src| && src[r.consumed - 1] == 0
    decreases |src|
  {
    if |src| == 0 then SourceExhausted
    else
      var marker := Signed8(src[0]);
      if marker == 0 then Complete([], 1)
      else if marker > 0 then
        if |src| < 2 then SourceExhausted
        else Prefixed(Repeat(src[1], marker), 2, DecompressRLE(src[2..]))
      else if marker == -128 then EndlessLiteral
      else
        var n := -marker;
        if |src| < 1 + n then SourceExhausted
        else Prefixed(src[1..1 + n], 1 + n, DecompressRLE(src[1 + n..]))
  }

  /** The outcome of the rest of the source after a block that produced
      `block` from `size` source bytes. */
  function Prefixed(block: seq<byte>, size: nat, rest: Outcome): (r: Outcome)
    ensures r.Complete? <==> rest.Complete?
  {
    match rest
    case Complete(out, c) => Complete(block + out, c + size)
    case other => other
  }

  /** The first step of decompression, for a run marker and for a literal
      marker other than -128. */
  lemma DecompressRunStep(s: seq<byte>)
    requires |s| >= 2 && Signed8(s[0]) > 0
    ensures DecompressRLE(s) == Prefixed(Repeat(s[1], Signed8(s[0])), 2, DecompressRLE(s[2..]))
  {
  }

  lemma DecompressLiteralStep(s: seq<byte>)
    requires |s| >= 1 && -128 < Signed8(s[0]) < 0 && |s| >= 1 - Signed8(s[0])
    ensures var n := -Signed8(s[0]);
            DecompressRLE(s) == Prefixed(s[1..1 + n], 1 + n, DecompressRLE(s[1 + n..]))
  {
  }

  /** Two sources with the same first block decompress alike when what
      follows the block does. */
  lemma {:induction false} SameRunStep(src: seq<byte>, t: seq<byte>)
    requires |src| >= 2 && |t| >= 2 && Signed8(src[0]) > 0
    requires src[0] == t[0] && src[1] == t[1]
    requires DecompressRLE(src[2..]) == DecompressRLE(t[2..])
    ensures DecompressRLE(src) == DecompressRLE(t)
  {
    DecompressRunStep(src);
    DecompressRunStep(t);
  }

  lemma {:induction false} SameLiteralStep(src: seq<byte>, t: seq<byte>, n: nat)
    requires |src| >= 1 && |t| >= 1
    requires -128 < Signed8(src[0]) < 0 && n == -Signed8(src[0])
    requires |src| >= 1 + n && |t| >= 1 + n
    requires src[0] == t[0] && src[1..1 + n] == t[1..1 + n]
    requires DecompressRLE(src[1 + n..]) == DecompressRLE(t[1 + n..])
    ensures DecompressRLE(src) == DecompressRLE(t)
  {
    LiteralStepOf(src, n, DecompressRLE(src[1 + n..]));
    LiteralStepOf(t, n, DecompressRLE(src[1 + n..]));
  }

  lemma {:induction false} LiteralStepOf(s: seq<byte>, n: nat, rest: Outcome)
    requires |s| >= 1 + n && -128 < Signed8(s[0]) < 0 && n == -Signed8(s[0])
    requires rest == DecompressRLE(s[1 + n..])
    ensures DecompressRLE(s) == Prefixed(s[1..1 + n], 1 + n, rest)
  {
  }

  /** t agrees with src on the first c bytes. */
  predicate AgreeOn(t: seq<byte>, src: seq<byte>, c: nat)
  {
    c <= |t| && c <= |src| && forall i :: 0 <= i < c ==> t[i] == src[i]
  }

  lemma AgreeOnTail(t: seq<byte>, src: seq<byte>, c: nat, k: nat)
    requires AgreeOn(t, src, c) && k <= c
    ensures AgreeOn(t[k..], src[k..], c - k)
  {
    assert forall i :: 0 <= i < c - k ==> t[k..][i] == t[k + i] && src[k..][i] == src[k + i];
  }

  lemma AgreeOnSlice(t: seq<byte>, src: seq<byte>, c: nat, a: nat, b: nat)
    requires AgreeOn(t, src, c) && a <= b <= c
    ensures src[a..b] == t[a..b]
  {
    assert forall i :: 0 <= i < b - a ==> t[a..b][i] == t[a + i] && src[a..b][i] == src[a + i];
  }

  /** A completed decompression's first block is a valid run or literal,
      and the rest of the source completes on its own. */
  lemma CompleteRunStep(s: seq<byte>)
    requires DecompressRLE(s).Complete? && Signed8(s[0]) > 0
    ensures |s| >= 2 && DecompressRLE(s[2..]).Complete?
    ensures DecompressRLE(s).consumed == DecompressRLE(s[2..]).consumed + 2
  {
  }

  lemma CompleteLiteralStep(s: seq<byte>)
    requires DecompressRLE(s).Complete? && Signed8(s[0]) < 0
    ensures var n := -Signed8(s[0]);
      n < 128 && |s| >= 1 + n && DecompressRLE(s[1 + n..]).Complete? &&
      DecompressRLE(s).consumed == DecompressRLE(s[1 + n..]).consumed + 1 + n
  {
  }

  /** The induction behind DecompressReadsOnlyConsumed, on pointwise
      agreement. */
  lemma {:induction false} DecompressAgreeing(src: seq<byte>, t: seq<byte>, c: nat)
    requires DecompressRLE(src).Complete? && c == DecompressRLE(src).consumed
    requires AgreeOn(t, src, c)
    ensures DecompressRLE(t) == DecompressRLE(src)
    decreases |src|
  {
    var marker := Signed8(src[0]);
    assert t[0] == src[0];
    if marker > 0 {
      CompleteRunStep(src);
      assert t[1] == src[1];
      AgreeOnTail(t, src, c, 2);
      DecompressAgreeing(src[2..], t[2..], c - 2);
      SameRunStep(src, t);
    } else if marker < 0 {
      var n := -marker;
      CompleteLiteralStep(src);
      AgreeOnSlice(t, src, c, 1, 1 + n);
      AgreeOnTail(t, src, c, 1 + n);
      DecompressAgreeing(src[1 + n..], t[1 + n..], c - (1 + n));
      SameLiteralStep(src, t, n);
    }
  }

  /** Decompression reads nothing beyond the bytes it consumes: any source
      that agrees on those bytes decompresses the same way. */
  lemma DecompressReadsOnlyConsumed(src: seq<byte>, t: seq<byte>)
    requires DecompressRLE(src).Complete?
    requires |t| >= DecompressRLE(src).consumed
    requires t[..DecompressRLE(src).consumed] == src[..DecompressRLE(src).consumed]
    ensures DecompressRLE(t) == DecompressRLE(src)
  {
    var c := DecompressRLE(src).consumed;
    assert forall i :: 0 <= i < c ==> t[i] == t[..c][i] && src[i] == src[..c][i];
    DecompressAgreeing(src, t, c);
  }

  /** Decompression stops at the first 0 marker: whatever follows the
      consumed bytes is never read. */
  lemma DecompressStopsAtTerminator(src: seq<byte>, rest: seq<byte>)
    requires DecompressRLE(src).Complete?
    ensures DecompressRLE(src[..DecompressRLE(src).consumed] + rest) == DecompressRLE(src)
  {
    var c := DecompressRLE(src).consumed;
    assert (src[..c] + rest)[..c] == src[..c];
    DecompressReadsOnlyConsumed(src, src[..c] + rest);
  }

  // ---------------------------------------------------------------------
  // The compressed format, block by block
  // ---------------------------------------------------------------------

  /** One block of compressed data. */
  datatype Block = Run(count: nat, value: byte) | Literal(bytes: seq<byte>)

  predicate ValidBlock(b: Block)
  {
    match b
    case Run(count, _) => 1 <= count <= 127
    case Literal(bytes) => 1 <= |bytes| <= 127
  }

  /** The marker and payload of a block. */
  function EncodeBlock(b: Block): (s: seq<byte>)
    requires ValidBlock(b)
  {
    match b
    case Run(count, value) => [count, value]
    case Literal(bytes) => [0x100 - |bytes|] + bytes
  }

  function EncodeBlocks(blocks: seq<Block>): seq<byte>
    requires forall i :: 0 <= i < |blocks| ==> ValidBlock(blocks[i])
  {
    if blocks == [] then [] else EncodeBlock(blocks[0]) + EncodeBlocks(blocks[1..])
  }

  /** The bytes a block stands for. */
  function Expand(b: Block): (s: seq<byte>)
  {
    match b
    case Run(count, value) => Repeat(value, count)
    case Literal(bytes) => bytes
  }

  function ExpandBlocks(blocks: seq<Block>): seq<byte>
  {
    if blocks == [] then [] else Expand(blocks[0]) + ExpandBlocks(blocks[1..])
  }

  /** The marker magnitude of a block: its run length or literal length. */
  function MarkerSize(b: Block): nat
  {
    match b
    case Run(count, _) => count
    case Literal(bytes) => |bytes|
  }

  function MarkerSum(blocks: seq<Block>): nat
  {
    if blocks == [] then 0 else MarkerSize(blocks[0]) + MarkerSum(blocks[1..])
  }

  /** One encoded block in front of the rest decompresses to the block's
      bytes in front of whatever the rest decompresses to. */
  lemma DecompressBlock(b: Block, tail: seq<byte>)
    requires ValidBlock(b)
    ensures DecompressRLE(EncodeBlock(b) + tail) == Prefixed(Expand(b), |EncodeBlock(b)|, DecompressRLE(tail))
  {
    var s := EncodeBlock(b) + tail;
    match b
    case Run(count, value) =>
      assert s[0] == count && s[1] == value && s[2..] == tail;
    case Literal(bytes) =>
      var n := |bytes|;
      assert s[0] == 0x100 - n && Signed8(s[0]) == -n;
      assert s[1..1 + n] == bytes && s[1 + n..] == tail;
  }

  /** Decompressing the encoded blocks followed by a 0 marker yields exactly
      the bytes the blocks stand for, consumes exactly the encoding and its
      terminator, and produces as many bytes as the markers add up to. */
  lemma {:induction false} DecompressEncoded(blocks: seq<Block>, rest: seq<byte>)
    requires forall i :: 0 <= i < |blocks| ==> ValidBlock(blocks[i])
    ensures DecompressRLE(EncodeBlocks(blocks) + [0] + rest) ==
            Complete(ExpandBlocks(blocks), |EncodeBlocks(blocks)| + 1)
    ensures |ExpandBlocks(blocks)| == MarkerSum(blocks)
    decreases |blocks|
  {
    if blocks == [] {
      assert EncodeBlocks(blocks) + [0] + rest == [0] + rest;
    } else {
      var tail := EncodeBlocks(blocks[1..]) + [0] + rest;
      assert EncodeBlocks(blocks) + [0] + rest == EncodeBlock(blocks[0]) + tail;
      DecompressEncoded(blocks[1..], rest);
      DecompressBlock(blocks[0], tail);
      assert |Expand(blocks[0])| == MarkerSize(blocks[0]);
    }
  }

  // ---------------------------------------------------------------------
  // CalcCompressedSize
  // ---------------------------------------------------------------------

  /** Where the size estimate's control flow is: at the `nextBlock` label,
      inside the run loop, or inside the literal loop. */
  datatype Phase = NextBlock | InRun | InLiteral

  function PhaseRank(p: Phase): nat
  {
    if p == NextBlock then 1 else 0
  }

  /** CalcCompressedSize(data, size) as its loops and gotos run. `start` is
      blockStartIndex and `sum` the running total; None stands for a read of
      data[i + 1] past the end of the data. */
  function CalcFrom(data: seq<byte>, i: nat, start: nat, sum: int, phase: Phase): (r: Option<int>)
    requires phase != NextBlock ==> i + 1 < |data|
    decreases |data| - i, PhaseRank(phase)
  {
    match phase
    case NextBlock =>
      if i + 1 >= |data| then None
      else if data[i] == data[i + 1] then CalcFrom(data, i, i, sum, InRun)
      else CalcFrom(data, i, i, sum, InLiteral)
    case InRun =>
      var i' := i + 1;
      if i' == |data| - 1 then Some(sum + 2)
      else if i' - start == 127 then CalcFrom(data, i', i', sum + 2, NextBlock)
      else if data[i'] != data[i' + 1] then CalcFrom(data, i' + 1, i' + 1, sum + 2, NextBlock)
      else CalcFrom(data, i', start, sum, InRun)
    case InLiteral =>
      var i' := i + 1;
      if i' == |data| - 1 then Some(sum + 2)
      else if i' - start == 127 then CalcFrom(data, i', i', sum + 2, NextBlock)
      else if data[i'] == data[i' + 1] then CalcFrom(data, i', i', sum + 2, NextBlock)
      else CalcFrom(data, i', start, sum + 1, InLiteral)
  }

  function CalcCompressedSize(data: seq<byte>): Option<int>
  {
    CalcFrom(data, 0, 0, 0, NextBlock)
  }

  /** Every step adds at most two to the total per element passed, and the
      final block adds two. */
  lemma {:induction false} CalcFromBounds(data: seq<byte>, i: nat, start: nat, sum: int, phase: Phase)
    requires phase != NextBlock ==> i + 1 < |data|
    ensures var r := CalcFrom(data, i, start, sum, phase);
      r.Some? ==> sum + 2 <= r.value <= sum + 2 * (|data| - 1 - i)
    decreases |data| - i, PhaseRank(phase)
  {
    match phase
    case NextBlock =>
      if i + 1 < |data| {
        if data[i] == data[i + 1] {
          CalcFromBounds(data, i, i, sum, InRun);
        } else {
          CalcFromBounds(data, i, i, sum, InLiteral);
        }
      }
    case InRun =>
      var i' := i + 1;
      if i' == |data| - 1 {
      } else if i' - start == 127 {
        CalcFromBounds(data, i', i', sum + 2, NextBlock);
      } else if data[i'] != data[i' + 1] {
        CalcFromBounds(data, i' + 1, i' + 1, sum + 2, NextBlock);
      } else {
        CalcFromBounds(data, i', start, sum, InRun);
      }
    case InLiteral =>
      var i' := i + 1;
      if i' == |data| - 1 {
      } else if i' - start == 127 {
        CalcFromBounds(data, i', i', sum + 2, NextBlock);
      } else if data[i'] == data[i' + 1] {
        CalcFromBounds(data, i', i', sum + 2, NextBlock);
      } else {
        CalcFromBounds(data, i', start, sum + 1, InLiteral);
      }
  }

  /** For any data the estimate, when the scan stays inside the data, is
      at least 2 and at most two bytes per element after the first. */
  lemma CalcSizeBounds(data: seq<byte>)
    ensures var r := CalcCompressedSize(data);
      r.Some? ==> |data| >= 2 && 2 <= r.value <= 2 * (|data| - 1)
  {
    CalcFromBounds(data, 0, 0, 0, NextBlock);
  }

  /** A run of n >= 2 equal bytes is charged 2 per block of at most 127
      repetitions (the block boundary falls after 127 elements). */
  lemma {:induction false} CalcRunFrom(data: seq<byte>, i: nat, start: nat, sum: int)
    requires start <= i < |data| - 1 && i - start < 127
    requires forall k :: start <= k < |data| ==> data[k] == data[start]
    ensures CalcFrom(data, i, start, sum, InRun) ==
            Some(sum + 2 * ((|data| - start - 2) / 127 + 1))
    decreases |data| - i
  {
    var i' := i + 1;
    if i' == |data| - 1 {
    } else if i' - start == 127 {
      CalcRunFrom(data, i', i', sum + 2);
      assert (|data| - start - 2) / 127 == (|data| - i' - 2) / 127 + 1;
    } else {
      assert data[i'] == data[i' + 1];
      CalcRunFrom(data, i', start, sum);
    }
  }

  lemma CalcConstantData(data: seq<byte>)
    requires |data| >= 2
    requires forall k :: 0 <= k < |data| ==> data[k] == data[0]
    ensures CalcCompressedSize(data) == Some(2 * ((|data| - 2) / 127 + 1))
  {
    CalcRunFrom(data, 0, 0, 0);
  }

  /** Data whose neighbours all differ is charged one per byte plus one per
      127-byte literal block boundary; the final block's marker is not
      counted. */
  lemma {:induction false} CalcLiteralFrom(data: seq<byte>, i: nat, start: nat, sum: int)
    requires start <= i < |data| - 1 && i - start < 127
    requires forall k :: start <= k < |data| - 1 ==> data[k] != data[k + 1]
    ensures CalcFrom(data, i, start, sum, InLiteral) ==
            Some(sum + (|data| - i) + (|data| - start - 2) / 127)
    decreases |data| - i
  {
    var i' := i + 1;
    if i' == |data| - 1 {
    } else if i' - start == 127 {
      CalcLiteralFrom(data, i', i', sum + 2);
      assert (|data| - start - 2) / 127 == (|data| - i' - 2) / 127 + 1;
    } else {
      CalcLiteralFrom(data, i', start, sum + 1);
    }
  }

  lemma CalcAlternatingData(data: seq<byte>)
    requires |data| >= 2
    requires forall k :: 0 <= k < |data| - 1 ==> data[k] != data[k + 1]
    ensures CalcCompressedSize(data) == Some(|data| + (|data| - 2) / 127)
  {
    CalcLiteralFrom(data, 0, 0, 0);
  }

  /** A run that ends one element before the data does leaves the next block
      starting on the last element, whose successor is read past the end. */
  lemma CalcReadsPastEnd()
    ensures CalcCompressedSize([1, 1, 2]) == None
  {
  }
}

/**
  The incremental hex dumper (lib/hexdump.cpp, include/smartmon/hexdump.h): bytes
  arrive in chunks of any size, identical blocks collapse into one `*`, and the
  lines written are those of a single dump of all bytes.
 */
module Hexdump {
  import opened Bytes
  import opened Words

  const BLOCK_SIZE := 16

  datatype Options = Options(
    prefix: string, offsetMin: u64, offsetMax: u64, hex2Columns: bool, addAscii: bool,
    skipIdentical: nat, appendOffset: bool, noTrailingNl: bool)

  /** The offset column: absent, or a value and its minimal width. */
  datatype Offset = NoOffset | Offset(width: nat, value: u64)

  /** One call of `output`. `lead` says that the text starts with a newline. */
  datatype Event =
    | Line(lead: bool, offset: Offset, bytes: seq<byte>)
    | Star(lead: bool)
    | End(lead: bool, offset: Offset)

  // ---------------------------------------------------------------------
  // The dump of a whole byte string

  predicate IsZero(b: seq<byte>) { forall x <- b :: x == 0 }

  /** 64-bit arithmetic. */
  function Wrap(x: int): u64 {
    if 0 <= x < U64 then x else if -U64 <= x < 0 then x + U64 else if U64 <= x < 2 * U64 then x - U64 else x % U64
  }

  function HexLength(x: nat): nat {
    if x < 16 then 1 else 1 + HexLength(x / 16)
  }

  /** The width of the offset column, fixed when the first `size` bytes arrive. */
  function Width(o: Options, size: nat): nat {
    if o.offsetMax == 0 then 0
    else
      var last := Wrap(o.offsetMin + size);
      var width := HexLength(if o.offsetMax >= last then o.offsetMax else last);
      if o.offsetMax == 1 && width < 2 then 2 else if width > 16 then 16 else width
  }

  predicate Appends(o: Options) { o.offsetMax != 0 && o.appendOffset }

  function OffsetAt(o: Options, width: nat, pos: nat): Offset {
    if width == 0 then NoOffset else Offset(width, Wrap(o.offsetMin + pos))
  }

  function LineAt(o: Options, width: nat, pos: nat, bytes: seq<byte>): Event {
    Line(o.noTrailingNl && pos > 0, OffsetAt(o, width, pos), bytes)
  }

  /** A full block. */
  type Block = b: seq<byte> | |b| == BLOCK_SIZE
    witness [0, 0, 0, 0, 0, 0, 0, 0, 0, 0, 0, 0, 0, 0, 0, 0]

  function Flatten(bs: seq<seq<byte>>): seq<byte> {
    if bs == [] then [] else Flatten(bs[..|bs| - 1]) + bs[|bs| - 1]
  }

  /** The full blocks of `d`, and the bytes after them. */
  function Split(d: seq<byte>): (r: (seq<Block>, seq<byte>))
    ensures |r.1| < BLOCK_SIZE
  {
    if |d| < BLOCK_SIZE then ([], d)
    else
      var (bs, rest) := Split(d[BLOCK_SIZE..]);
      ([d[..BLOCK_SIZE]] + bs, rest)
  }

  /** The last block repeats the one before it, in a way to be skipped. */
  predicate Repeats(o: Options, bs: seq<Block>) {
    && |bs| >= 2 && o.skipIdentical > 0
    && bs[|bs| - 1] == bs[|bs| - 2]
    && (o.skipIdentical > 1 || IsZero(bs[|bs| - 1]))
  }

  function Before(bs: seq<Block>): seq<Block>
    requires bs != []
  {
    bs[..|bs| - 1]
  }

  /** The lines for the blocks if more output follows: the first of a sequence
      of repeated blocks becomes `*`, the others vanish. */
  function Stream(o: Options, width: nat, bs: seq<Block>): seq<Event> {
    if bs == [] then []
    else
      Stream(o, width, Before(bs)) +
      if !Repeats(o, bs) then [LineAt(o, width, BLOCK_SIZE * (|bs| - 1), bs[|bs| - 1])]
      else if Repeats(o, Before(bs)) then []
      else [Star(o.noTrailingNl)]
  }

  function EndAt(o: Options, width: nat, size: nat): seq<Event> {
    if Appends(o) then [End(o.noTrailingNl && size > 0, OffsetAt(o, width, size))] else []
  }

  /** The lines for the blocks and the bytes after them. Without a final offset,
      a repeated last block is printed again to show the total size. */
  function Lines(o: Options, width: nat, bs: seq<Block>, rest: seq<byte>): seq<Event> {
    if rest != [] then Stream(o, width, bs) + [LineAt(o, width, BLOCK_SIZE * |bs|, rest)]
    else if !Appends(o) && Repeats(o, bs) then
      Stream(o, width, Before(bs)) + [LineAt(o, width, BLOCK_SIZE * (|bs| - 1), bs[|bs| - 1])]
    else Stream(o, width, bs)
  }

  /** The whole dump of `d`. */
  function Dump(o: Options, width: nat, d: seq<byte>): seq<Event> {
    Lines(o, width, Split(d).0, Split(d).1) + EndAt(o, width, |d|)
  }

  lemma {:induction false} SplitUnique(d: seq<byte>, bs: seq<Block>, rest: seq<byte>)
    requires d == Flatten(bs) + rest && |rest| < BLOCK_SIZE
    ensures Split(d) == (bs, rest)
    decreases |bs|
  {
    if bs != [] {
      FlattenFront(bs);
      assert d[..BLOCK_SIZE] == bs[0] && d[BLOCK_SIZE..] == Flatten(bs[1..]) + rest;
      SplitUnique(d[BLOCK_SIZE..], bs[1..], rest);
      assert bs == [bs[0]] + bs[1..];
    } else {
      assert d == rest;
    }
  }

  lemma {:induction false} FlattenFront(bs: seq<seq<byte>>)
    requires bs != []
    ensures Flatten(bs) == bs[0] + Flatten(bs[1..])
    decreases |bs|
  {
    if |bs| > 1 {
      FlattenFront(bs[..|bs| - 1]);
      assert bs[..|bs| - 1][1..] == bs[1..][..|bs| - 2];
    } else {
      assert bs[..0] == [] && bs[1..] == [];
    }
  }

  lemma FlattenSnoc(bs: seq<seq<byte>>, b: seq<byte>)
    ensures Flatten(bs + [b]) == Flatten(bs) + b
  {
    assert (bs + [b])[..|bs|] == bs;
  }

  // ---------------------------------------------------------------------
  // The skip state

  /** The skip state and the saved block after the blocks `bs`; `more` says that
      bytes follow. State 2 delays a `*`, 3 and 4 have printed it. */
  ghost predicate StateAfter(o: Options, bs: seq<Block>, skipState: nat, prev: seq<byte>, more: bool) {
    && skipState <= 4 && (skipState == 0 <==> o.skipIdentical == 0)
    && (skipState != 0 && bs != [] ==> prev == bs[|bs| - 1])
    && (skipState != 0 ==> (skipState == 1 <==> !Repeats(o, bs)))
    && (skipState > 1 ==> (skipState == 4 <==> Appends(o)))
    && (skipState == 2 ==> !Repeats(o, Before(bs)))
    && (skipState == 3 && !Repeats(o, Before(bs)) ==> more)
  }

  ghost function Printed(o: Options, width: nat, bs: seq<Block>, skipState: nat): seq<Event>
    requires skipState == 2 ==> bs != []
  {
    Stream(o, width, if skipState == 2 then Before(bs) else bs)
  }

  lemma SnocBlock(bs: seq<Block>, b: seq<byte>)
    requires |b| == BLOCK_SIZE
    ensures Before(bs + [b]) == bs
  {
  }

  /** A printed block. */
  lemma PrintStep(o: Options, width: nat, bs: seq<Block>, skipState: nat, prev: seq<byte>, b: seq<byte>, more: bool)
    requires |b| == BLOCK_SIZE && StateAfter(o, bs, skipState, prev, true) && !Repeats(o, bs + [b])
    ensures StateAfter(o, bs + [b], if skipState == 0 then 0 else 1, b, more)
    ensures Stream(o, width, bs + [b]) == Stream(o, width, bs) + [LineAt(o, width, BLOCK_SIZE * |bs|, b)]
  {
    SnocBlock(bs, b);
  }

  /** A pending `*` is all that state 2 owes. */
  lemma FlushStep(o: Options, width: nat, bs: seq<Block>, skipState: nat, prev: seq<byte>, more: bool)
    requires StateAfter(o, bs, skipState, prev, more)
    ensures skipState == 2 ==> bs != []
    ensures Stream(o, width, bs)
         == Printed(o, width, bs, skipState) + if skipState == 2 then [Star(o.noTrailingNl)] else []
  {
  }

  /** The skip state after a repeated block. */
  function Skipped(o: Options, skipState: nat, more: bool): nat {
    if skipState != 1 then (if skipState == 2 then 3 else skipState)
    else if Appends(o) then 4 else if more then 3 else 2
  }

  lemma SkipStep(o: Options, width: nat, bs: seq<Block>, skipState: nat, prev: seq<byte>, b: seq<byte>, more: bool)
    requires |b| == BLOCK_SIZE && skipState != 0 && StateAfter(o, bs, skipState, prev, true) && Repeats(o, bs + [b])
    ensures prev == b && bs != []
    ensures StateAfter(o, bs + [b], Skipped(o, skipState, more), b, more)
    ensures Printed(o, width, bs + [b], Skipped(o, skipState, more))
         == Printed(o, width, bs, skipState)
            + if skipState == 2 || (skipState == 1 && (Appends(o) || more)) then [Star(o.noTrailingNl)] else []
  {
    SnocBlock(bs, b);
    FlushStep(o, width, bs, skipState, prev, true);
    assert Stream(o, width, bs + [b])
        == Stream(o, width, bs) + if skipState == 1 then [Star(o.noTrailingNl)] else [];
  }

  // ---------------------------------------------------------------------
  // The dumper

  class Hexdumper {
    const o: Options
    var started: bool
    var offsetLen: nat
    var offset: nat
    const prevBlock: array<byte>
    var skipState: nat
    const nextBytes: array<byte>
    var nextSize: nat
    var appendOffset: bool
    var out: seq<Event>

    /** The full blocks of the current dump, and what was written before it. */
    ghost var blocks: seq<Block>
    ghost var written: seq<Event>

    /** The full blocks `bs` are done; `more` says that bytes follow. */
    ghost predicate After(bs: seq<Block>, more: bool)
      reads `offsetLen, `appendOffset, `offset, `skipState, `out, `written, prevBlock
    {
      && prevBlock.Length == BLOCK_SIZE
      && (offsetLen == 0 <==> o.offsetMax == 0) && appendOffset == Appends(o)
      && offset == BLOCK_SIZE * |bs|
      && StateAfter(o, bs, skipState, prevBlock[..], more)
      && out == written + Printed(o, offsetLen, bs, skipState)
    }

    ghost predicate Buffers()
      reads `nextSize
    {
      && prevBlock.Length == BLOCK_SIZE && nextBytes.Length == BLOCK_SIZE - 1 && prevBlock != nextBytes
      && nextSize < BLOCK_SIZE
    }

    ghost predicate Valid()
      reads this, prevBlock
    {
      && Buffers()
      && if started then After(blocks, nextSize > 0)
         else
           && offsetLen == 0 && offset == 0 && skipState == 0 && nextSize == 0 && !appendOffset
           && blocks == [] && out == written
    }

    /** All bytes of the current dump. */
    ghost function Bytes(): seq<byte>
      requires Buffers()
      reads `blocks, `nextSize, nextBytes
    {
      Flatten(blocks) + nextBytes[..nextSize]
    }

    constructor (o: Options)
      ensures Valid() && this.o == o && !started && out == []
      ensures fresh(prevBlock) && fresh(nextBytes)
    {
      this.o := o;
      started, offsetLen, offset, skipState, nextSize, appendOffset := false, 0, 0, 0, 0, false;
      prevBlock := new byte[BLOCK_SIZE](_ => 0);
      nextBytes := new byte[BLOCK_SIZE - 1](_ => 0);
      out, blocks, written := [], [], [];
    }

    method Output(e: Event)
      modifies `out
      ensures out == old(out) + [e]
    {
      out := out + [e];
    }

    /** The first call sets the offset width and enables skipping. */
    method Start(size: nat)
      requires Valid()
      modifies `started, `offsetLen, `appendOffset, `skipState
      ensures Valid() && started
      ensures offsetLen == if old(started) then old(offsetLen) else Width(o, size)
    {
      if !started {
        started := true;
        if o.offsetMax != 0 {
          offsetLen := Width(o, size);
          appendOffset := o.appendOffset;
        }
        if o.skipIdentical != 0 {
          skipState := 1;
        }
      }
    }

    /** The next block: kept bytes first, then new bytes from `data[pi..]`. */
    method TakeBlock(data: seq<byte>, pi: nat) returns (block: array<byte>, sz: nat, pi': nat)
      requires Buffers() && pi <= |data|
      modifies `nextSize
      ensures fresh(block) && block.Length == BLOCK_SIZE && nextSize == 0
      ensures pi <= pi' <= |data| && sz == old(nextSize) + pi' - pi && sz <= BLOCK_SIZE
      ensures sz == BLOCK_SIZE || pi' == |data|
      ensures block[..sz] == nextBytes[..old(nextSize)] + data[pi..pi']
    {
      block := new byte[BLOCK_SIZE](_ => 0);
      sz, pi' := nextSize, pi;
      if sz > 0 {
        forall i | 0 <= i < sz {
          block[i] := nextBytes[i];
        }
        nextSize := 0;
      }
      while sz < BLOCK_SIZE && pi' < |data|
        invariant pi <= pi' <= |data| && sz == old(nextSize) + pi' - pi && sz <= BLOCK_SIZE
        invariant block[..sz] == nextBytes[..old(nextSize)] + data[pi..pi']
        modifies block
      {
        block[sz] := data[pi'];
        sz, pi' := sz + 1, pi' + 1;
      }
    }

    /** Skips a repeated block. The `*` is delayed while the block may be the last. */
    method SkipBlock(ghost bs: seq<Block>, ghost b: seq<byte>, lead: bool, more: bool)
      requires |b| == BLOCK_SIZE && Repeats(o, bs + [b])
      requires skipState != 0 && After(bs, true) && lead == (o.noTrailingNl && offset > 0)
      modifies `offset, `skipState, `out
      ensures After(bs + [b], more)
    {
      SkipStep(o, offsetLen, bs, skipState, prevBlock[..], b, more);
      offset := offset + BLOCK_SIZE;
      var marker := false;
      if skipState == 1 {
        if appendOffset {
          skipState, marker := 4, true;
        } else if more {
          skipState, marker := 3, true;
        } else {
          skipState := 2;
        }
      } else if skipState == 2 {
        skipState, marker := 3, true;
      }
      if marker {
        Output(Star(lead));
      }
    }

    /** Prepares for printing a block that is not skipped. */
    method KeepBlock(ghost bs: seq<Block>, block: array<byte>, lead: bool)
      requires block.Length == BLOCK_SIZE && block != prevBlock
      requires skipState != 0 && After(bs, true) && lead == (o.noTrailingNl && offset > 0)
      modifies `skipState, `out, prevBlock
      ensures prevBlock[..] == block[..] && skipState == 1
      ensures out == written + Stream(o, offsetLen, bs)
    {
      FlushStep(o, offsetLen, bs, skipState, prevBlock[..], true);
      if skipState == 2 {
        Output(Star(lead));
      }
      skipState := 1;
      forall i | 0 <= i < BLOCK_SIZE {
        prevBlock[i] := block[i];
      }
      assert prevBlock[..] == block[..];
    }

    /** Prints the next full block. */
    method PrintBlock(ghost bs: seq<Block>, block: array<byte>, lead: bool, ghost state: nat, ghost prev: seq<byte>,
                      more: bool)
      requires block.Length == prevBlock.Length == BLOCK_SIZE && !Repeats(o, bs + [block[..]])
      requires StateAfter(o, bs, state, prev, true) && skipState == (if state == 0 then 0 else 1)
      requires (offsetLen == 0 <==> o.offsetMax == 0) && appendOffset == Appends(o)
      requires state != 0 ==> prevBlock[..] == block[..]
      requires offset == BLOCK_SIZE * |bs| && lead == (o.noTrailingNl && offset > 0)
      requires out == written + Stream(o, offsetLen, bs)
      modifies `offset, `out
      ensures After(bs + [block[..]], more)
    {
      PrintStep(o, offsetLen, bs, state, prev, block[..], more);
      Output(Line(lead, OffsetAt(o, offsetLen, offset), block[..]));
      offset := offset + BLOCK_SIZE;
    }

    /** One full block that follows `bs`: skip it or print it. */
    method FullBlock(ghost bs: seq<Block>, block: array<byte>, more: bool)
      requires block.Length == BLOCK_SIZE && block != prevBlock && After(bs, true)
      modifies `skipState, `offset, `out, prevBlock
      ensures After(bs + [block[..]], more)
    {
      ghost var state, prev, b := skipState, prevBlock[..], block[..];
      var lead := o.noTrailingNl && offset != 0;
      if skipState != 0 {
        if offset >= BLOCK_SIZE && prevBlock[..] == block[..] && (o.skipIdentical > 1 || IsZero(block[..])) {
          assert Repeats(o, bs + [b]);
          SkipBlock(bs, b, lead, more);
          return;
        }
        assert !Repeats(o, bs + [b]);
        KeepBlock(bs, block, lead);
      }
      PrintBlock(bs, block, lead, state, prev, more);
    }

    /** Keeps the bytes of an incomplete block for the next call. */
    method KeepRest(block: array<byte>, sz: nat)
      requires nextBytes.Length == BLOCK_SIZE - 1 && block.Length == BLOCK_SIZE && sz < BLOCK_SIZE
      requires block != nextBytes
      modifies `nextSize, nextBytes
      ensures nextSize == sz && nextBytes[..nextSize] == block[..sz]
    {
      forall i | 0 <= i < sz {
        nextBytes[i] := block[i];
      }
      nextSize := sz;
      assert nextBytes[..sz] == block[..sz];
    }

    /** Adds a full block to the blocks that are done. */
    method AddBlock(block: array<byte>, more: bool)
      requires block.Length == BLOCK_SIZE && block != prevBlock && block != nextBytes && After(blocks, true)
      requires Buffers() && nextSize == 0
      modifies `blocks, `skipState, `offset, `out, prevBlock
      ensures After(blocks, more) && Bytes() == Flatten(old(blocks)) + block[..]
    {
      FullBlock(blocks, block, more);
      FlattenSnoc(blocks, block[..]);
      blocks := blocks + [block[..]];
      assert nextBytes[..nextSize] == [];
    }

    /** One pass of the loop over `data`. */
    method Pass(data: seq<byte>, pi: nat) returns (pi': nat, done: bool)
      requires started && Buffers() && pi <= |data| && After(blocks, nextSize > 0 || pi < |data|)
      requires nextSize > 0 ==> pi < |data|
      modifies `blocks, `nextSize, `skipState, `offset, `out, prevBlock, nextBytes
      ensures pi <= pi' <= |data| && Buffers()
      ensures Bytes() == old(Bytes()) + data[pi..pi']
      ensures if done then pi' == |data| && After(blocks, nextSize > 0)
              else pi < pi' && nextSize == 0 && After(blocks, pi' < |data|)
    {
      var block, sz;
      block, sz, pi' := TakeBlock(data, pi);
      Associates(Flatten(blocks), nextBytes[..old(nextSize)], data[pi..pi']);
      done := sz < BLOCK_SIZE;
      if sz == 0 {
        assert block[..sz] == nextBytes[..nextSize];
      } else if sz < BLOCK_SIZE {
        KeepRest(block, sz);
      } else {
        assert block[..sz] == block[..];
        AddBlock(block, pi' < |data|);
      }
    }

    lemma MoreFollows(bs: seq<Block>, more: bool)
      requires After(bs, more)
      ensures After(bs, true)
    {
    }

    method Loop(data: seq<byte>)
      requires started && Buffers() && After(blocks, true) && data != []
      modifies `blocks, `nextSize, `skipState, `offset, `out, prevBlock, nextBytes
      ensures Buffers() && After(blocks, nextSize > 0) && Bytes() == old(Bytes()) + data
    {
      ghost var was := Bytes();
      var pi, done := 0, false;
      while !done
        invariant 0 <= pi <= |data| && Buffers()
        invariant if done then pi == |data| && After(blocks, nextSize > 0)
                  else After(blocks, nextSize > 0 || pi < |data|) && (nextSize > 0 ==> pi < |data|)
        invariant Bytes() == was + data[..pi]
        decreases |data| - pi, !done
      {
        ghost var before := pi;
        pi, done := Pass(data, pi);
        Glue(was, data, before, pi);
      }
      assert data[..pi] == data;
    }

    /** Adds `data` to the dump. */
    method Write(data: seq<byte>)
      requires Valid() && data != []
      modifies this, prevBlock, nextBytes
      ensures Valid() && started && Bytes() == old(Bytes()) + data && written == old(written)
      ensures offsetLen == if old(started) then old(offsetLen) else Width(o, |data|)
    {
      Start(|data|);
      MoreFollows(blocks, nextSize > 0);
      Loop(data);
    }

    /** At the end of the data: fetches a skipped last block again. */
    method RepeatLast(block: array<byte>) returns (sz: nat)
      requires block.Length == prevBlock.Length == BLOCK_SIZE && block != prevBlock
      requires skipState in {2, 3} ==> offset >= BLOCK_SIZE
      modifies `skipState, `offset, block
      ensures skipState == 0
      ensures if old(skipState) in {2, 3}
        then sz == BLOCK_SIZE && block[..] == prevBlock[..] && offset == old(offset) - BLOCK_SIZE
        else sz == 0 && offset == old(offset)
    {
      sz := 0;
      if skipState == 2 || skipState == 3 {
        forall i | 0 <= i < BLOCK_SIZE {
          block[i] := prevBlock[i];
        }
        sz, offset := BLOCK_SIZE, offset - BLOCK_SIZE;
        assert block[..] == prevBlock[..];
      }
      skipState := 0;
    }

    /** Everything but the final offset was written. */
    ghost predicate Ending(lines: seq<Event>, size: nat)
      reads `nextSize, `skipState, `offset, `appendOffset, `out, `written, `offsetLen
    {
      && nextSize == 0 && skipState !in {2, 3} && offset == size
      && (offsetLen == 0 <==> o.offsetMax == 0) && appendOffset == Appends(o)
      && out == written + lines
    }

    /** Prints the bytes kept at the end of the data. */
    method EndRest(block: array<byte>, sz: nat, ghost rest: seq<byte>)
      requires 0 < sz < BLOCK_SIZE && block.Length == BLOCK_SIZE && block != prevBlock
      requires nextSize == 0 && block[..sz] == rest && After(blocks, true)
      modifies `skipState, `offset, `out, prevBlock
      ensures Ending(Lines(o, offsetLen, blocks, rest), BLOCK_SIZE * |blocks| + |rest|)
    {
      var lead := o.noTrailingNl && offset != 0;
      if skipState != 0 {
        KeepBlock(blocks, block, lead);
      }
      Output(Line(lead, OffsetAt(o, offsetLen, offset), block[..sz]));
      offset := offset + sz;
    }

    /** Prints a last block that was skipped. */
    method EndSkipped(block: array<byte>)
      requires block.Length == BLOCK_SIZE && block != prevBlock && nextSize == 0
      requires skipState in {2, 3} && After(blocks, false)
      modifies `skipState, `offset, `out, block
      ensures Ending(Lines(o, offsetLen, blocks, []), BLOCK_SIZE * |blocks|)
    {
      ghost var state := skipState;
      EndStep(o, offsetLen, blocks, skipState, prevBlock[..]);
      var lead := o.noTrailingNl && offset != 0;
      var sz := RepeatLast(block);
      assert block[..sz] == block[..];
      Output(Line(lead, OffsetAt(o, offsetLen, offset), block[..sz]));
      offset := offset + sz;
    }

    /** Prints the offset after the data. */
    method EndOffset()
      requires appendOffset && Appends(o)
      modifies `skipState, `out, `appendOffset
      ensures out == old(out) + EndAt(o, offsetLen, offset)
    {
      var lead := o.noTrailingNl && offset != 0;
      skipState := 0;
      Output(End(lead, OffsetAt(o, offsetLen, offset)));
      appendOffset := false;
    }

    /** One pass of the loop without data. */
    method EndPass(ghost first: bool, ghost rest: seq<byte>, ghost lines: seq<Event>, ghost size: nat)
      returns (done: bool)
      requires Buffers()
      requires lines == Lines(o, offsetLen, blocks, rest) && size == BLOCK_SIZE * |blocks| + |rest|
      requires if first then After(blocks, nextSize > 0) && nextBytes[..nextSize] == rest else Ending(lines, size)
      modifies `nextSize, `skipState, `offset, `out, `appendOffset, prevBlock
      ensures Buffers()
      ensures if done then out == written + lines + EndAt(o, offsetLen, size) else Ending(lines, size) && first
    {
      var block, sz, _ := TakeBlock([], 0);
      if sz == 0 && !(appendOffset || skipState == 2 || skipState == 3) {
        return true;
      }
      done := false;
      if sz > 0 {
        EndRest(block, sz, rest);
      } else if skipState == 2 || skipState == 3 {
        EndSkipped(block);
      } else {
        EndOffset();
        done := true;
      }
    }

    method EndLoop(ghost size: nat)
      requires started && Buffers() && After(blocks, nextSize > 0) && size == BLOCK_SIZE * |blocks| + nextSize
      modifies `nextSize, `skipState, `offset, `out, `appendOffset, prevBlock
      ensures Buffers()
      ensures out == written + Lines(o, offsetLen, blocks, old(nextBytes[..nextSize])) + EndAt(o, offsetLen, size)
    {
      ghost var rest := nextBytes[..nextSize];
      ghost var lines := Lines(o, offsetLen, blocks, rest);
      ghost var first := true;
      var done := false;
      while !done
        invariant Buffers()
        invariant if done then out == written + lines + EndAt(o, offsetLen, size)
                  else if first then After(blocks, nextSize > 0) && nextBytes[..nextSize] == rest
                  else Ending(lines, size)
        decreases !done, first
      {
        done := EndPass(first, rest, lines, size);
        first := false;
      }
    }

    /** Flushes pending output and prepares for the next dump. */
    method Finish()
      requires Valid()
      modifies this, prevBlock
      ensures Valid() && !started && written == out
      ensures out == old(written) + Dump(o, if old(started) then old(offsetLen) else Width(o, 0), old(Bytes()))
    {
      ghost var d, rest := Bytes(), nextBytes[..nextSize];
      SplitUnique(d, blocks, rest);
      FlattenSize(blocks);
      Start(0);
      EndLoop(|d|);
      Associates(written, Lines(o, offsetLen, blocks, rest), EndAt(o, offsetLen, |d|));
      assert out == written + Dump(o, offsetLen, d);
      started, offsetLen, offset, skipState, nextSize, appendOffset := false, 0, 0, 0, 0, false;
      blocks, written := [], out;
    }

    /** The call operator: without data it finishes the dump. */
    method Call(data: seq<byte>)
      requires Valid()
      modifies this, prevBlock, nextBytes
      ensures Valid()
      ensures data == [] ==> (
        && !started && written == out
        && out == old(written) + Dump(o, if old(started) then old(offsetLen) else Width(o, 0), old(Bytes())))
      ensures data != [] ==> (
        && started && Bytes() == old(Bytes()) + data && written == old(written)
        && offsetLen == if old(started) then old(offsetLen) else Width(o, |data|))
    {
      if data == [] {
        Finish();
      } else {
        Write(data);
      }
    }
  }

  /** What the skip states 2 and 3 have printed when the data ends. */
  lemma EndStep(o: Options, width: nat, bs: seq<Block>, skipState: nat, prev: seq<byte>)
    requires StateAfter(o, bs, skipState, prev, false) && skipState in {2, 3}
    ensures bs != [] && prev == bs[|bs| - 1]
    ensures Lines(o, width, bs, [])
         == Printed(o, width, bs, skipState) + [LineAt(o, width, BLOCK_SIZE * (|bs| - 1), bs[|bs| - 1])]
    ensures skipState == 3 ==> |bs| > 2
  {
  }

  lemma Associates<T>(a: seq<T>, b: seq<T>, c: seq<T>)
    ensures a + (b + c) == a + b + c
  {
  }

  lemma Glue(was: seq<byte>, data: seq<byte>, i: nat, j: nat)
    requires i <= j <= |data|
    ensures was + data[..i] + data[i..j] == was + data[..j]
  {
  }

  // ---------------------------------------------------------------------
  // Chunks

  function Size(chunks: seq<seq<byte>>): nat { |Flatten(chunks)| }

  function FirstSize(chunks: seq<seq<byte>>): nat { if chunks == [] then 0 else |chunks[0]| }

  /** Main result: non-empty chunks, then the end: the lines are those of one dump
      of all bytes, and the dumper is back in its start state. Only the width of
      the offset column knows about the first chunk. */
  method DumpChunks(h: Hexdumper, chunks: seq<seq<byte>>)
    requires h.Valid() && !h.started && forall c <- chunks :: c != []
    modifies h, h.prevBlock, h.nextBytes
    ensures h.Valid() && !h.started
    ensures h.out == old(h.out) + Dump(h.o, Width(h.o, FirstSize(chunks)), Flatten(chunks))
  {
    var i := 0;
    while i < |chunks|
      invariant 0 <= i <= |chunks| && h.Valid() && h.started == (i > 0)
      invariant h.Bytes() == Flatten(chunks[..i]) && h.written == old(h.out)
      invariant i > 0 ==> h.offsetLen == Width(h.o, FirstSize(chunks))
    {
      assert chunks[..i + 1] == chunks[..i] + [chunks[i]];
      FlattenSnoc(chunks[..i], chunks[i]);
      assert chunks[i] in chunks;
      h.Call(chunks[i]);
      i := i + 1;
    }
    assert chunks[..i] == chunks;
    h.Call([]);
  }

  /** `hexdump()`: one call with all data, and the end. For empty data both calls
      finish a dump, so that a final offset appears twice. */
  method HexdumpAll(o: Options, data: seq<byte>) returns (out: seq<Event>)
    ensures var dump := Dump(o, Width(o, |data|), data); out == if data == [] then dump + dump else dump
  {
    var h := new Hexdumper(o);
    assert h.Bytes() == [];
    h.Call(data);
    assert h.Bytes() == data;
    h.Call([]);
    out := h.out;
  }

  lemma {:induction false} HexLengthMonotone(x: nat, y: nat)
    requires x <= y
    ensures HexLength(x) <= HexLength(y)
  {
    if x >= 16 {
      HexLengthMonotone(x / 16, y / 16);
    }
  }

  /** With no offsets, or with a maximal offset that holds for all the data, the
      first chunk does not matter either. */
  lemma ChunksDoNotMatter(o: Options, chunks: seq<seq<byte>>)
    requires o.offsetMax == 0 || o.offsetMin + Size(chunks) <= o.offsetMax
    ensures FirstSize(chunks) <= Size(chunks)
    ensures Width(o, FirstSize(chunks)) == Width(o, Size(chunks))
  {
    if chunks != [] {
      FlattenFront(chunks);
    }
  }

  /** In general the width grows with the first chunk. */
  lemma WidthMonotone(o: Options, first: nat, total: nat)
    requires 1 <= first <= total && o.offsetMin + total < U64
    ensures Width(o, 1) <= Width(o, first) <= Width(o, total)
  {
    HexLengthMonotone(if o.offsetMax >= o.offsetMin + 1 then o.offsetMax else o.offsetMin + 1,
                      if o.offsetMax >= o.offsetMin + first then o.offsetMax else o.offsetMin + first);
    HexLengthMonotone(if o.offsetMax >= o.offsetMin + first then o.offsetMax else o.offsetMin + first,
                      if o.offsetMax >= o.offsetMin + total then o.offsetMax else o.offsetMin + total);
  }

  predicate Cut(chunks: seq<seq<byte>>, d: seq<byte>) {
    (forall c <- chunks :: c != []) && Flatten(chunks) == d
  }

  /** All ways to cut the data give the same lines as one call. */
  ghost predicate CutsAgree(o: Options, d: seq<byte>) {
    forall chunks :: Cut(chunks, d) ==> Width(o, FirstSize(chunks)) == Width(o, |d|)
  }

  /** The data with a first chunk of `n` bytes */
  function CutAt(d: seq<byte>, n: nat): (chunks: seq<seq<byte>>)
    requires 1 <= n <= |d|
    ensures Cut(chunks, d) && FirstSize(chunks) == n
  {
    if n == |d| then
      var chunks := [d];
      FlattenSnoc([], d);
      assert [] + chunks == chunks && [] + d == d;
      chunks
    else
      var chunks := [d[..n], d[n..]];
      FlattenSnoc([], d[..n]);
      FlattenSnoc([d[..n]], d[n..]);
      assert [] + [d[..n]] == [d[..n]] && [d[..n]] + [d[n..]] == chunks && [] + d[..n] == d[..n];
      chunks
  }

  /** They do exactly if every first chunk gives the final width, which, unless offsets
      overflow, a first chunk of one byte decides. */
  lemma CutsCondition(o: Options, d: seq<byte>)
    requires d != []
    ensures CutsAgree(o, d) <==> forall n :: 1 <= n <= |d| ==> Width(o, n) == Width(o, |d|)
    ensures o.offsetMin + |d| < U64 ==> (CutsAgree(o, d) <==> Width(o, 1) == Width(o, |d|))
  {
    hide Width, Flatten;
    if CutsAgree(o, d) {
      forall n | 1 <= n <= |d|
        ensures Width(o, n) == Width(o, |d|)
      {
        assert Cut(CutAt(d, n), d);
      }
    }
    if forall n :: 1 <= n <= |d| ==> Width(o, n) == Width(o, |d|) {
      forall chunks | Cut(chunks, d)
        ensures Width(o, FirstSize(chunks)) == Width(o, |d|)
      {
        FirstOfCut(chunks, d);
      }
    }
    if o.offsetMin + |d| < U64 {
      forall n | 1 <= n <= |d|
        ensures Width(o, 1) <= Width(o, n) <= Width(o, |d|)
      {
        WidthMonotone(o, n, |d|);
      }
    }
  }

  /** For 300 bytes and a maximal offset of 1, the width depends on the first chunk. */
  lemma CutsExample(o: Options, d: seq<byte>)
    requires o.offsetMin == 0 && o.offsetMax == 1 && |d| == 300
    ensures !CutsAgree(o, d)
  {
    hide Flatten;
    CutsCondition(o, d);
    assert HexLength(300) == 3;
  }

  lemma FirstOfCut(chunks: seq<seq<byte>>, d: seq<byte>)
    requires Cut(chunks, d) && d != []
    ensures 1 <= FirstSize(chunks) <= |d|
  {
    assert chunks != [];
    assert chunks[0] in chunks;
    FlattenFront(chunks);
  }

  // ---------------------------------------------------------------------
  // Nothing is lost

  /** Repeats the last block of `d` until it has `size` bytes. */
  function Refill(d: seq<byte>, size: nat): seq<byte>
    decreases size - |d|
  {
    if |d| < BLOCK_SIZE || size < |d| + BLOCK_SIZE then d
    else Refill(d + d[|d| - BLOCK_SIZE..], size)
  }

  function Position(o: Options, offset: Offset): nat
    requires offset.Offset?
  {
    Wrap(offset.value - o.offsetMin)
  }

  function RefillTo(o: Options, d: seq<byte>, offset: Offset): seq<byte> {
    if offset.Offset? then Refill(d, Position(o, offset)) else d
  }

  /** What one line adds to the bytes `d` read so far. */
  function Read(o: Options, d: seq<byte>, e: Event): seq<byte> {
    match e
    case Line(_, offset, bytes) => RefillTo(o, d, offset) + bytes
    case Star(_) => d
    case End(_, offset) => RefillTo(o, d, offset)
  }

  /** Reads the lines back: a gap before an offset is filled with copies of the
      block before it. */
  function Undump(o: Options, es: seq<Event>): seq<byte> {
    if es == [] then [] else Read(o, Undump(o, es[..|es| - 1]), es[|es| - 1])
  }

  lemma UndumpSnoc(o: Options, es: seq<Event>, e: Event)
    ensures Undump(o, es + [e]) == Read(o, Undump(o, es), e)
  {
    assert (es + [e])[..|es|] == es;
  }

  lemma {:induction false} RefillMore(d: seq<byte>, size: nat)
    requires |Refill(d, size)| == size >= BLOCK_SIZE
    ensures var r := Refill(d, size); Refill(d, size + BLOCK_SIZE) == r + r[size - BLOCK_SIZE..]
    decreases size - |d|
  {
    if |d| < BLOCK_SIZE || size < |d| + BLOCK_SIZE {
      var e := d + d[|d| - BLOCK_SIZE..];
      assert Refill(e, size + BLOCK_SIZE) == e;
    } else {
      RefillMore(d + d[|d| - BLOCK_SIZE..], size);
    }
  }

  lemma {:induction false} FlattenSize(bs: seq<Block>)
    ensures |Flatten(bs)| == BLOCK_SIZE * |bs|
  {
    if bs != [] {
      FlattenSize(Before(bs));
    }
  }

  /** A printed block brings back what was skipped before it. */
  lemma ReadLine(o: Options, width: nat, d: seq<byte>, pos: nat, bytes: seq<byte>)
    requires pos < U64
    ensures Read(o, d, LineAt(o, width, pos, bytes)) == (if width > 0 then Refill(d, pos) else d) + bytes
  {
  }

  /** Repeating the last block of `front` once more gives the blocks `bs`. */
  lemma RefillRepeated(d: seq<byte>, front: seq<Block>, b: Block)
    requires |front| > 0 && b == front[|front| - 1]
    requires Refill(d, BLOCK_SIZE * |front|) == Flatten(front)
    ensures Refill(d, BLOCK_SIZE * |front| + BLOCK_SIZE) == Flatten(front) + b
  {
    FlattenSize(front);
    RefillMore(d, BLOCK_SIZE * |front|);
    assert Flatten(front)[BLOCK_SIZE * (|front| - 1)..] == b by {
      FlattenSize(Before(front));
    }
  }

  lemma RefillDone(d: seq<byte>)
    ensures Refill(d, |d|) == d
  {
  }

  lemma UndumpSkipped(o: Options, width: nat, bs: seq<Block>)
    requires Repeats(o, bs)
    requires Refill(Undump(o, Stream(o, width, Before(bs))), BLOCK_SIZE * |Before(bs)|) == Flatten(Before(bs))
    ensures Refill(Undump(o, Stream(o, width, bs)), BLOCK_SIZE * |bs|) == Flatten(bs)
  {
    hide Refill, Stream, Undump, Repeats;
    RepeatsLast(o, bs);
    StreamSkips(o, width, bs);
    var es := Stream(o, width, Before(bs));
    UndumpSnoc(o, es, Star(o.noTrailingNl));
    RefillRepeated(Undump(o, es), Before(bs), bs[|bs| - 1]);
  }

  lemma StreamSkips(o: Options, width: nat, bs: seq<Block>)
    requires Repeats(o, bs)
    ensures bs != []
    ensures var es := Stream(o, width, Before(bs));
      Stream(o, width, bs) == es || Stream(o, width, bs) == es + [Star(o.noTrailingNl)]
  {
    hide Repeats;
    RepeatsLast(o, bs);
    var es := Stream(o, width, Before(bs));
    assert es + [] == es;
  }

  lemma RepeatsLast(o: Options, bs: seq<Block>)
    requires Repeats(o, bs)
    ensures |bs| >= 2 && |Before(bs)| == |bs| - 1 && bs[|bs| - 1] == Before(bs)[|bs| - 2]
  {
  }

  lemma UndumpPrinted(o: Options, width: nat, bs: seq<Block>)
    requires bs != [] && !Repeats(o, bs) && BLOCK_SIZE * |bs| < U64
    requires var d := Undump(o, Stream(o, width, Before(bs)));
             (if width > 0 then Refill(d, BLOCK_SIZE * |Before(bs)|) else d) == Flatten(Before(bs))
    ensures Undump(o, Stream(o, width, bs)) == Flatten(bs)
  {
    var es, pos, b := Stream(o, width, Before(bs)), BLOCK_SIZE * |Before(bs)|, bs[|bs| - 1];
    UndumpSnoc(o, es, LineAt(o, width, pos, b));
    ReadLine(o, width, Undump(o, es), pos, b);
  }

  /** What a stream of lines has skipped at its end is refilled. */
  lemma {:induction false} UndumpStream(o: Options, width: nat, bs: seq<Block>)
    requires width > 0 || o.skipIdentical == 0
    requires BLOCK_SIZE * |bs| < U64
    ensures Refill(Undump(o, Stream(o, width, bs)), BLOCK_SIZE * |bs|) == Flatten(bs)
    ensures !Repeats(o, bs) ==> Undump(o, Stream(o, width, bs)) == Flatten(bs)
  {
    if bs != [] {
      UndumpStream(o, width, Before(bs));
      if Repeats(o, bs) {
        UndumpSkipped(o, width, bs);
      } else {
        UndumpPrinted(o, width, bs);
        FlattenSize(bs);
        RefillDone(Flatten(bs));
      }
    }
  }

  /** What the lines read so far stand for, once the position `pos` is known. */
  function ReadUpTo(o: Options, width: nat, es: seq<Event>, pos: nat): seq<byte> {
    if width > 0 then Refill(Undump(o, es), pos) else Undump(o, es)
  }

  lemma StreamRead(o: Options, width: nat, bs: seq<Block>)
    requires BLOCK_SIZE * |bs| < U64 && (width > 0 || o.skipIdentical == 0)
    ensures ReadUpTo(o, width, Stream(o, width, bs), BLOCK_SIZE * |bs|) == Flatten(bs)
  {
    UndumpStream(o, width, bs);
  }

  lemma LineRead(o: Options, width: nat, es: seq<Event>, pos: nat, bytes: seq<byte>)
    requires pos < U64
    ensures Undump(o, es + [LineAt(o, width, pos, bytes)]) == ReadUpTo(o, width, es, pos) + bytes
  {
    UndumpSnoc(o, es, LineAt(o, width, pos, bytes));
    ReadLine(o, width, Undump(o, es), pos, bytes);
  }

  /** The lines before the final offset bring back everything but a gap at the
      end, which only a final offset can leave. */
  ghost predicate Complete(o: Options, width: nat, es: seq<Event>, d: seq<byte>) {
    ReadUpTo(o, width, es, |d|) == d && (!Appends(o) ==> Undump(o, es) == d)
  }

  lemma LastLineComplete(o: Options, width: nat, bs: seq<Block>, rest: seq<byte>, d: seq<byte>)
    requires d == Flatten(bs) + rest && |d| < U64 && (width > 0 || o.skipIdentical == 0)
    ensures Complete(o, width, Stream(o, width, bs) + [LineAt(o, width, BLOCK_SIZE * |bs|, rest)], d)
  {
    FlattenSize(bs);
    StreamRead(o, width, bs);
    LineRead(o, width, Stream(o, width, bs), BLOCK_SIZE * |bs|, rest);
    RefillDone(d);
  }

  lemma StreamComplete(o: Options, width: nat, bs: seq<Block>)
    requires |Flatten(bs)| < U64 && (width > 0 || o.skipIdentical == 0) && (Appends(o) || !Repeats(o, bs))
    ensures Complete(o, width, Stream(o, width, bs), Flatten(bs))
  {
    FlattenSize(bs);
    UndumpStream(o, width, bs);
  }

  lemma LinesComplete(o: Options, width: nat, bs: seq<Block>, rest: seq<byte>, d: seq<byte>)
    requires d == Flatten(bs) + rest && |d| < U64 && (width > 0 || o.skipIdentical == 0)
    ensures Complete(o, width, Lines(o, width, bs, rest), d)
  {
    if rest != [] {
      LastLineComplete(o, width, bs, rest, d);
    } else {
      assert d == Flatten(bs);
      if !Appends(o) && Repeats(o, bs) {
        LastLineComplete(o, width, Before(bs), bs[|bs| - 1], d);
      } else {
        StreamComplete(o, width, bs);
      }
    }
  }

  lemma EndRead(o: Options, width: nat, es: seq<Event>, d: seq<byte>)
    requires |d| < U64 && (width == 0 <==> o.offsetMax == 0) && Complete(o, width, es, d)
    ensures Undump(o, es + EndAt(o, width, |d|)) == d
  {
    if Appends(o) {
      UndumpSnoc(o, es, EndAt(o, width, |d|)[0]);
    } else {
      assert es + [] == es;
    }
  }

  /** Main result: no byte of the data is lost if the lines show offsets or no
      block is skipped. */
  lemma NothingLost(o: Options, width: nat, d: seq<byte>)
    requires |d| < U64 && (width == 0 <==> o.offsetMax == 0)
    requires o.offsetMax != 0 || o.skipIdentical == 0
    ensures Undump(o, Dump(o, width, d)) == d
  {
    FlattenSplit(d);
    LinesComplete(o, width, Split(d).0, Split(d).1, d);
    EndRead(o, width, Lines(o, width, Split(d).0, Split(d).1), d);
  }

  lemma {:induction false} FlattenSplit(d: seq<byte>)
    ensures d == Flatten(Split(d).0) + Split(d).1
  {
    if |d| >= BLOCK_SIZE {
      FlattenSplit(d[BLOCK_SIZE..]);
      FlattenFront(Split(d).0);
    }
  }

  /** Different data give different lines. */
  ghost predicate Faithful(o: Options, width: nat) {
    forall d: seq<byte>, e: seq<byte> ::
      |d| < U64 && |e| < U64 && Dump(o, width, d) == Dump(o, width, e) ==> d == e
  }

  /** Without offsets the length of a skipped run cannot be seen: a dump is
      faithful exactly if offsets are shown or nothing is skipped. */
  lemma FaithfulCondition(o: Options, width: nat)
    requires width == 0 <==> o.offsetMax == 0
    ensures Faithful(o, width) <==> o.offsetMax != 0 || o.skipIdentical == 0
  {
    if o.offsetMax != 0 || o.skipIdentical == 0 {
      forall d: seq<byte>, e: seq<byte>
        | |d| < U64 && |e| < U64 && Dump(o, width, d) == Dump(o, width, e)
        ensures d == e
      {
        NothingLost(o, width, d);
        NothingLost(o, width, e);
      }
    } else {
      ThreeOrFour(o, width);
    }
  }

  /** Three and four blocks of zeros look the same without offsets. */
  lemma ThreeOrFour(o: Options, width: nat)
    requires width == 0 && o.offsetMax == 0 && o.skipIdentical > 0
    ensures !Faithful(o, width)
  {
    var z: seq<byte> := seq(BLOCK_SIZE, _ => 0);
    var bs: seq<Block>, cs: seq<Block> := [z, z, z], [z, z, z, z];
    var d, e := Flatten(bs), Flatten(cs);
    FlattenSize(bs);
    FlattenSize(cs);
    assert d == d + [] && e == e + [];
    SplitUnique(d, bs, []);
    SplitUnique(e, cs, []);
    assert Before(cs) == bs && Before(bs) == [z, z];
    assert Repeats(o, cs) && Repeats(o, bs) && Repeats(o, Before(bs));
    assert Stream(o, width, bs) == Stream(o, width, Before(bs)) + [];
    assert Dump(o, width, d) == Dump(o, width, e);
    assert |d| != |e|;
  }
}

/**
  Which blocks of the data a hex dump shows (lib/hexdump.cpp, include/smartmon/hexdump.h),
  for each level of skipping.
 */
module HexdumpSkip {
  import opened Bytes
  import opened Words
  import opened Hexdump

  /** The number of full blocks */
  function Full(d: seq<byte>): nat { |d| / BLOCK_SIZE }

  function BlockAt(d: seq<byte>, i: nat): (b: Block)
    requires i < Full(d)
  {
    d[BLOCK_SIZE * i..BLOCK_SIZE * i + BLOCK_SIZE]
  }

  predicate NonZero(b: seq<byte>) { exists k :: 0 <= k < |b| && b[k] != 0 }

  /** The last block shows the total size, if nothing else does. */
  predicate ShowsSize(o: Options, d: seq<byte>, i: nat) {
    BLOCK_SIZE * (i + 1) == |d| && !(o.offsetMax != 0 && o.appendOffset)
  }

  /** Block `i` has a line of its own. */
  predicate Shown(o: Options, d: seq<byte>, i: nat)
    requires i < Full(d)
  {
    || i == 0 || BlockAt(d, i) != BlockAt(d, i - 1) || ShowsSize(o, d, i)
    || o.skipIdentical == 0 || (o.skipIdentical == 1 && NonZero(BlockAt(d, i)))
  }

  /** What the dump has for block `i`: its line, a `*` for the first of some skipped ones, or
      nothing. */
  function Part(o: Options, width: nat, d: seq<byte>, i: nat): seq<Event>
    requires i < Full(d)
  {
    if Shown(o, d, i) then [LineAt(o, width, BLOCK_SIZE * i, BlockAt(d, i))]
    else if Shown(o, d, i - 1) then [Star(o.noTrailingNl)]
    else []
  }

  function Parts(o: Options, width: nat, d: seq<byte>, n: nat): seq<Event>
    requires n <= Full(d)
  {
    if n == 0 then [] else Parts(o, width, d, n - 1) + Part(o, width, d, n - 1)
  }

  /** The line for the bytes behind the last full block */
  function RestLine(o: Options, width: nat, d: seq<byte>): seq<Event> {
    if |d| % BLOCK_SIZE == 0 then []
    else [LineAt(o, width, BLOCK_SIZE * Full(d), d[BLOCK_SIZE * Full(d)..])]
  }

  lemma {:induction false} SplitIs(d: seq<byte>)
    ensures |Split(d).0| == Full(d) && Split(d).1 == d[BLOCK_SIZE * Full(d)..]
    ensures forall i :: 0 <= i < Full(d) ==> Split(d).0[i] == BlockAt(d, i)
  {
    if |d| >= BLOCK_SIZE {
      var more := d[BLOCK_SIZE..];
      SplitIs(more);
      assert Full(d) == Full(more) + 1;
      forall i | 0 <= i < Full(d)
        ensures Split(d).0[i] == BlockAt(d, i)
      {
        if i > 0 {
          assert Split(d).0[i] == Split(more).0[i - 1];
          assert more[BLOCK_SIZE * (i - 1)..BLOCK_SIZE * (i - 1) + BLOCK_SIZE] == BlockAt(d, i);
        }
      }
    }
  }

  lemma RepeatsIs(o: Options, d: seq<byte>, bs: seq<Block>, i: nat)
    requires i < Full(d) && |bs| == i + 1 && bs[i] == BlockAt(d, i) && (i > 0 ==> bs[i - 1] == BlockAt(d, i - 1))
    ensures Repeats(o, bs) <==>
            !(i == 0 || BlockAt(d, i) != BlockAt(d, i - 1)
              || o.skipIdentical == 0 || (o.skipIdentical == 1 && NonZero(BlockAt(d, i))))
  {
    hide BlockAt, NonZero, IsZero;
    ZeroIs(bs[i]);
  }

  lemma ZeroIs(b: seq<byte>)
    ensures IsZero(b) <==> !NonZero(b)
  {
    if NonZero(b) {
      var k :| 0 <= k < |b| && b[k] != 0;
      assert b[k] in b;
    }
  }

  lemma NoRepeat(o: Options)
    ensures !Repeats(o, [])
  {
  }

  lemma {:induction false} StreamIs(o: Options, width: nat, d: seq<byte>, bs: seq<Block>, n: nat)
    requires n <= Full(d) == |bs| && forall i :: 0 <= i < Full(d) ==> bs[i] == BlockAt(d, i)
    requires n == Full(d) > 0 ==> !ShowsSize(o, d, n - 1)
    ensures Stream(o, width, bs[..n]) == Parts(o, width, d, n)
  {
    hide BlockAt, Repeats, NonZero;
    if n > 0 {
      StreamIs(o, width, d, bs, n - 1);
      assert Before(bs[..n]) == bs[..n - 1];
      RepeatsIs(o, d, bs[..n], n - 1);
      if n > 1 {
        RepeatsIs(o, d, bs[..n - 1], n - 2);
      }
      StreamNext(o, width, bs[..n]);
    }
  }

  lemma StreamNext(o: Options, width: nat, bs: seq<Block>)
    requires bs != []
    ensures Stream(o, width, bs) == Stream(o, width, Before(bs)) +
            if !Repeats(o, bs) then [LineAt(o, width, BLOCK_SIZE * (|bs| - 1), bs[|bs| - 1])]
            else if Repeats(o, Before(bs)) then [] else [Star(o.noTrailingNl)]
  {
    hide Repeats;
  }

  /** Main result: the dump, block by block */
  lemma DumpIs(o: Options, width: nat, d: seq<byte>)
    ensures Dump(o, width, d) == Parts(o, width, d, Full(d)) + RestLine(o, width, d) + EndAt(o, width, |d|)
  {
    hide BlockAt, Repeats, NonZero, Stream;
    var (bs, rest) := Split(d);
    SplitIs(d);
    var n := Full(d);
    assert bs[..n] == bs;
    NoRepeat(o);
    assert |d| % BLOCK_SIZE == 0 <==> rest == [];
    if rest == [] && n > 0 {
      RepeatsIs(o, d, bs, n - 1);
      if ShowsSize(o, d, n - 1) {
        StreamIs(o, width, d, bs, n - 1);
        assert Before(bs) == bs[..n - 1];
        StreamNext(o, width, bs);
      } else {
        StreamIs(o, width, d, bs, n);
      }
      assert Lines(o, width, bs, rest) + [] == Lines(o, width, bs, rest);
    } else {
      StreamIs(o, width, d, bs, n);
    }
  }

  // ---------------------------------------------------------------------
  // The levels

  lemma {:induction false} PartIn(o: Options, width: nat, d: seq<byte>, n: nat, i: nat)
    requires i < n <= Full(d)
    ensures forall e :: e in Part(o, width, d, i) ==> e in Parts(o, width, d, n)
  {
    hide Part;
    if i < n - 1 {
      PartIn(o, width, d, n - 1, i);
    }
  }

  lemma {:induction false} PartOf(o: Options, width: nat, d: seq<byte>, n: nat, e: Event)
    requires n <= Full(d) && e in Parts(o, width, d, n)
    ensures exists i: nat :: i < n && e in Part(o, width, d, i)
  {
    hide Part;
    if e !in Part(o, width, d, n - 1) {
      PartOf(o, width, d, n - 1, e);
    }
  }

  lemma DifferentOffsets(o: Options, p: nat, q: nat)
    requires p < U64 && q < U64 && Hexdump.Wrap(o.offsetMin + p) == Hexdump.Wrap(o.offsetMin + q)
    ensures p == q
  {
  }

  /** A block has a line at its offset exactly if it is shown. */
  lemma LineCondition(o: Options, width: nat, d: seq<byte>, i: nat)
    requires i < Full(d) && width > 0 && |d| < U64
    ensures LineAt(o, width, BLOCK_SIZE * i, BlockAt(d, i)) in Dump(o, width, d) <==> Shown(o, d, i)
  {
    hide BlockAt, Shown, Dump, Hexdump.Wrap;
    DumpIs(o, width, d);
    var e := LineAt(o, width, BLOCK_SIZE * i, BlockAt(d, i));
    if Shown(o, d, i) {
      assert e in Part(o, width, d, i);
      PartIn(o, width, d, Full(d), i);
    } else if e in Dump(o, width, d) {
      NotRest(o, width, d, i);
      PartOf(o, width, d, Full(d), e);
      var j: nat :| j < Full(d) && e in Part(o, width, d, j);
      DifferentOffsets(o, BLOCK_SIZE * i, BLOCK_SIZE * j);
    }
  }

  lemma NotRest(o: Options, width: nat, d: seq<byte>, i: nat)
    requires i < Full(d) && width > 0 && |d| < U64
    ensures LineAt(o, width, BLOCK_SIZE * i, BlockAt(d, i)) !in RestLine(o, width, d) + EndAt(o, width, |d|)
  {
    hide BlockAt;
  }

  /** Level 0: no block is skipped. */
  lemma NoStar(o: Options, width: nat, d: seq<byte>)
    requires o.skipIdentical == 0
    ensures forall e :: e in Dump(o, width, d) ==> !e.Star?
    ensures forall i :: 0 <= i < Full(d) ==> LineAt(o, width, BLOCK_SIZE * i, BlockAt(d, i)) in Dump(o, width, d)
  {
    hide BlockAt, Dump;
    DumpIs(o, width, d);
    forall e | e in Parts(o, width, d, Full(d))
      ensures !e.Star?
    {
      PartOf(o, width, d, Full(d), e);
    }
    forall i | 0 <= i < Full(d)
      ensures LineAt(o, width, BLOCK_SIZE * i, BlockAt(d, i)) in Dump(o, width, d)
    {
      PartIn(o, width, d, Full(d), i);
    }
  }

  /** Level 1: a block that is not all zero is shown, a zero block behind another is not,
      unless it shows the total size. */
  lemma OnlyZerosSkipped(o: Options, width: nat, d: seq<byte>, i: nat)
    requires o.skipIdentical == 1 && i < Full(d) && width > 0 && |d| < U64
    ensures LineAt(o, width, BLOCK_SIZE * i, BlockAt(d, i)) in Dump(o, width, d) <==>
            NonZero(BlockAt(d, i)) || i == 0 || NonZero(BlockAt(d, i - 1)) || ShowsSize(o, d, i)
  {
    hide BlockAt, Dump;
    LineCondition(o, width, d, i);
    if !NonZero(BlockAt(d, i)) && i > 0 {
      ZeroBlocks(BlockAt(d, i), BlockAt(d, i - 1));
    }
  }

  lemma ZeroBlocks(a: Block, b: Block)
    requires !NonZero(a)
    ensures a == b <==> !NonZero(b)
  {
    if !NonZero(b) {
      assert forall k :: 0 <= k < BLOCK_SIZE ==> a[k] == b[k];
    }
  }

  /** Level 2: a block is shown exactly if it is the first, differs from the one before it,
      or shows the total size. */
  lemma IdenticalSkipped(o: Options, width: nat, d: seq<byte>, i: nat)
    requires o.skipIdentical >= 2 && i < Full(d) && width > 0 && |d| < U64
    ensures LineAt(o, width, BLOCK_SIZE * i, BlockAt(d, i)) in Dump(o, width, d) <==>
            i == 0 || BlockAt(d, i) != BlockAt(d, i - 1) || ShowsSize(o, d, i)
  {
    hide BlockAt, Dump, NonZero;
    LineCondition(o, width, d, i);
  }
}

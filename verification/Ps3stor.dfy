/**
  Scatter and gather of SCSI data for ps3stor controllers
  (`ps3stor_channel::pd_scsi_passthrough` of lib/dev_ps3stor.cpp).
 */
module Ps3stor {

  import opened Bytes
  import opened Wrappers

  const SGL_SIZE := 4096
  const MAX_BLOCKS := 14
  const ALIGN := 512
  const BYTE_PER_CMD := 4096
  const SGE_INDEX_BASE := 2

  datatype Direction = NoData | ToHost | FromHost

  /** `ps3stor_scsi_req_t`, as far as it concerns the data */
  class Request {
    var dir: Direction
    var dataLen: nat
    var sgeCount: nat
    var sgeIndex: nat

    constructor (dir: Direction)
      ensures this.dir == dir && dataLen == 0 && sgeCount == 0 && sgeIndex == 0
    {
      this.dir, dataLen, sgeCount, sgeIndex := dir, 0, 0, 0;
    }
  }

  // ---------------------------------------------------------------------
  // The blocks of a transfer

  /** The aligned units that hold `n` bytes */
  function Units(n: nat): (u: nat)
    ensures n <= ALIGN * u < n + ALIGN
  {
    if n % ALIGN == 0 then n / ALIGN else n / ALIGN + 1
  }

  function RoundUp(n: nat): (r: nat)
    ensures r == ALIGN * Units(n)
  {
    if n % ALIGN == 0 then n else (n / ALIGN + 1) * ALIGN
  }

  /** `scsicount` */
  function Count(n: nat): (c: nat)
    ensures n <= c * SGL_SIZE && (c > 0 ==> (c - 1) * SGL_SIZE < n)
  {
    if n % SGL_SIZE == 0 then n / SGL_SIZE else n / SGL_SIZE + 1
  }

  /** The size of block `i`: all but the last are full. */
  function Size(n: nat, i: nat): (s: nat)
    requires i < Count(n)
  {
    RoundUp(if i == Count(n) - 1 then n - i * SGL_SIZE else SGL_SIZE)
  }

  function Join(blocks: seq<seq<byte>>): seq<byte> {
    if blocks == [] then [] else Join(blocks[..|blocks| - 1]) + blocks[|blocks| - 1]
  }

  /** Blocks of the right sizes for `n` bytes, from the front */
  predicate Sized(blocks: seq<seq<byte>>, n: nat) {
    |blocks| <= Count(n) && forall i :: 0 <= i < |blocks| ==> |blocks[i]| == Size(n, i)
  }

  lemma SizeIs(n: nat, i: nat)
    requires i < Count(n)
    ensures i < Count(n) - 1 ==> Size(n, i) == SGL_SIZE
    ensures i == Count(n) - 1 ==> i * SGL_SIZE + Size(n, i) == RoundUp(n) && 0 < n - i * SGL_SIZE <= SGL_SIZE
  {
    hide Count, RoundUp, Units;
  }

  lemma {:induction false} JoinSize(blocks: seq<seq<byte>>, n: nat)
    requires Sized(blocks, n)
    ensures |Join(blocks)| == if |blocks| == Count(n) then RoundUp(n) else |blocks| * SGL_SIZE
  {
    hide Size, Count, RoundUp, Units;
    if blocks != [] {
      JoinSize(blocks[..|blocks| - 1], n);
      SizeIs(n, |blocks| - 1);
    } else {
      CountZero(n);
    }
  }

  lemma CountZero(n: nat)
    ensures Count(n) == 0 <==> n == 0
    ensures n == 0 ==> RoundUp(n) == 0
  {
    hide Count, RoundUp, Units;
  }

  /** `size` bytes from `from` on, with zeros behind the end of the data */
  function Part(data: seq<byte>, from: nat, size: nat): (b: seq<byte>)
    requires from <= |data|
    ensures |b| == size
  {
    var n := if |data| - from < size then |data| - from else size;
    data[from..from + n] + Zeros(size - n)
  }

  lemma PartIs(data: seq<byte>, from: nat, size: nat)
    requires from <= |data|
    ensures from + size <= |data| ==> Part(data, from, size) == data[from..from + size]
    ensures from + size >= |data| ==> Part(data, from, size) == data[from..] + Zeros(from + size - |data|)
  {
    hide Zeros;
    NoZeros();
  }

  lemma NoZeros()
    ensures Zeros(0) == []
  {
  }

  /** The data of block `i` */
  function Block(data: seq<byte>, i: nat): (b: seq<byte>)
    requires i < Count(|data|)
    ensures |b| == Size(|data|, i)
  {
    SizeIs(|data|, i);
    Part(data, i * SGL_SIZE, Size(|data|, i))
  }

  function Blocks(data: seq<byte>, k: nat): (r: seq<seq<byte>>)
    requires k <= Count(|data|)
    ensures |r| == k && Sized(r, |data|)
    ensures forall i :: 0 <= i < k ==> r[i] == Block(data, i)
  {
    if k == 0 then [] else Blocks(data, k - 1) + [Block(data, k - 1)]
  }

  lemma BlockIs(data: seq<byte>, i: nat)
    requires i < Count(|data|)
    ensures i * SGL_SIZE <= |data|
    ensures i < Count(|data|) - 1 ==>
              (i + 1) * SGL_SIZE <= |data| && Block(data, i) == data[i * SGL_SIZE..(i + 1) * SGL_SIZE]
    ensures i == Count(|data|) - 1 ==> Block(data, i) == data[i * SGL_SIZE..] + Zeros(RoundUp(|data|) - |data|)
  {
    hide Size, Count, RoundUp, Units, Zeros, Part;
    SizeIs(|data|, i);
    RoundUpGrows(|data|);
    PartIs(data, i * SGL_SIZE, Size(|data|, i));
  }

  lemma JoinNext(data: seq<byte>, k: nat)
    requires 0 < k <= Count(|data|)
    ensures Join(Blocks(data, k)) == Join(Blocks(data, k - 1)) + Block(data, k - 1)
  {
    hide Block, Count;
    assert Blocks(data, k)[..k - 1] == Blocks(data, k - 1);
  }

  lemma NothingJoined(data: seq<byte>)
    ensures Join(Blocks(data, 0)) == []
  {
  }

  lemma JoinTwo(data: seq<byte>, a: nat, b: nat)
    requires a <= b <= |data|
    ensures data[..a] + data[a..b] == data[..b]
  {
  }

  lemma {:induction false} JoinBlocks(data: seq<byte>, k: nat)
    requires k <= Count(|data|)
    ensures k < Count(|data|) ==> k * SGL_SIZE <= |data| && Join(Blocks(data, k)) == data[..k * SGL_SIZE]
    ensures k == Count(|data|) ==> Join(Blocks(data, k)) == data + Zeros(RoundUp(|data|) - |data|)
  {
    hide Size, Count, RoundUp, Units, Zeros, Block, Blocks, Join;
    CountZero(|data|);
    if k == 0 {
      NothingJoined(data);
      NoZeros();
      assert k == Count(|data|) ==> data + [] == [];
    } else {
      JoinBlocks(data, k - 1);
      BlockIs(data, k - 1);
      JoinNext(data, k);
      var from := (k - 1) * SGL_SIZE;
      if k < Count(|data|) {
        JoinTwo(data, from, k * SGL_SIZE);
      } else {
        var zeros := Zeros(RoundUp(|data|) - |data|);
        JoinTwo(data, from, |data|);
        assert data[..from] + (data[from..] + zeros) == data[..from] + data[from..] + zeros;
        assert data[..from] + data[from..] == data;
      }
    }
  }

  /** The blocks joined are the data with zero padding, up to the next multiple of 512. */
  lemma SplitConserves(data: seq<byte>)
    ensures Join(Blocks(data, Count(|data|))) == data + Zeros(RoundUp(|data|) - |data|)
  {
    JoinBlocks(data, Count(|data|));
  }

  /** One scatter/gather element for each block */
  lemma SgeCountIs(n: nat)
    ensures (RoundUp(n) + BYTE_PER_CMD - 1) / BYTE_PER_CMD == Count(n)
  {
    hide Count, RoundUp, Units;
    var q := (RoundUp(n) + BYTE_PER_CMD - 1) / BYTE_PER_CMD;
    assert q * BYTE_PER_CMD <= RoundUp(n) + BYTE_PER_CMD - 1 < (q + 1) * BYTE_PER_CMD;
  }

  // ---------------------------------------------------------------------
  // The buffers

  function Contents(buffers: seq<array<byte>>): (c: seq<seq<byte>>)
    ensures |c| == |buffers| && forall i :: 0 <= i < |c| ==> c[i] == buffers[i][..]
    reads buffers
  {
    if buffers == [] then [] else Contents(buffers[..|buffers| - 1]) + [buffers[|buffers| - 1][..]]
  }

  /** What is sent in block `i`: the data of a command that writes, else zeros. */
  function Outgoing(data: seq<byte>, i: nat, dir: Direction): (b: seq<byte>)
    requires i < Count(|data|)
    ensures |b| == Size(|data|, i)
  {
    if dir.FromHost? then Block(data, i) else Zeros(Size(|data|, i))
  }

  /** One buffer: allocated with zeros, and filled if the command writes. */
  method FillBlock(data: array<byte>, scsiLen: nat, i: nat, scsiCount: nat, dir: Direction)
      returns (buffer: array<byte>)
    requires scsiLen <= data.Length && scsiCount == Count(scsiLen) && i < scsiCount
    ensures fresh(buffer) && buffer[..] == Outgoing(data[..scsiLen], i, dir)
  {
    hide Count, RoundUp, Units, Block, Zeros;
    SizeIs(scsiLen, i);
    var size := SGL_SIZE;
    if i == scsiCount - 1 {
      size := scsiLen - i * SGL_SIZE;
    }
    size := RoundUp(size);
    buffer := new byte[size](_ => 0);
    assert buffer[..] == Zeros(size);
    if dir.FromHost? {
      var from := i * SGL_SIZE;
      var n := if scsiLen - from < size then scsiLen - from else size;
      BlockHas(data[..scsiLen], i);
      CopyInto(buffer, data, from, n);
      assert data[from..from + n] == data[..scsiLen][from..from + n];
    }
  }

  lemma BlockHas(data: seq<byte>, i: nat)
    requires i < Count(|data|)
    ensures var from, size := i * SGL_SIZE, Size(|data|, i);
      var n := if |data| - from < size then |data| - from else size;
      0 <= n && from + n <= |data| && Block(data, i) == data[from..from + n] + Zeros(size - n)
  {
    hide Size, Count, RoundUp, Units, Zeros;
    SizeIs(|data|, i);
  }

  method CopyInto(buffer: array<byte>, data: array<byte>, from: nat, n: nat)
    requires buffer != data && n <= buffer.Length && from + n <= data.Length && buffer[..] == Zeros(buffer.Length)
    modifies buffer
    ensures buffer[..] == data[from..from + n] + Zeros(buffer.Length - n)
  {
    hide Zeros;
    for j := 0 to n
      invariant forall k :: 0 <= k < j ==> buffer[k] == data[from + k]
      invariant forall k :: j <= k < buffer.Length ==> buffer[k] == 0
    {
      buffer[j] := data[from + j];
    }
  }

  /** Splits the data into buffers and adds up their sizes. */
  method Scatter(data: array<byte>, scsiLen: nat, req: Request) returns (buffers: seq<array<byte>>)
    requires scsiLen <= data.Length && Count(scsiLen) <= MAX_BLOCKS && req.dataLen == 0
    modifies req`dataLen
    ensures |buffers| == Count(scsiLen) && forall i :: 0 <= i < |buffers| ==> fresh(buffers[i])
    ensures forall i, j :: 0 <= i < j < |buffers| ==> buffers[i] != buffers[j]
    ensures forall i :: 0 <= i < |buffers| ==> buffers[i][..] == Outgoing(data[..scsiLen], i, req.dir)
    ensures req.dataLen == RoundUp(scsiLen)
  {
    hide Count, RoundUp, Units, Size, Outgoing;
    var scsiCount := Count(scsiLen);
    buffers := [];
    CountZero(scsiLen);
    var was := data[..scsiLen];
    for i := 0 to scsiCount
      invariant |buffers| == i && forall k :: 0 <= k < i ==> fresh(buffers[k])
      invariant forall k, j :: 0 <= k < j < i ==> buffers[k] != buffers[j]
      invariant forall k :: 0 <= k < i ==> buffers[k][..] == Outgoing(was, k, req.dir)
      invariant data[..scsiLen] == was
      invariant req.dataLen == if i == scsiCount then RoundUp(scsiLen) else i * SGL_SIZE
    {
      SizeIs(scsiLen, i);
      var buffer := FillBlock(data, scsiLen, i, scsiCount, req.dir);
      buffers := buffers + [buffer];
      req.dataLen := req.dataLen + buffer.Length;
    }
  }

  /** `memcpy` */
  method CopyBlock(data: array<byte>, at: nat, buffer: array<byte>, size: nat)
    requires buffer != data && at + size <= data.Length && size <= buffer.Length
    modifies data
    ensures data[..] == old(data[..at]) + buffer[..size] + old(data[at + size..])
  {
    for j := 0 to size
      invariant forall k :: 0 <= k < j ==> data[at + k] == buffer[k]
      invariant forall k :: 0 <= k < at || at + j <= k < data.Length ==> data[k] == old(data[k])
    {
      data[at + j] := buffer[j];
    }
    assert data[at..at + size] == buffer[..size];
  }

  /** Block `i` stands where its data belong. */
  lemma {:induction false} JoinAt(blocks: seq<seq<byte>>, n: nat, i: nat)
    requires Sized(blocks, n) && i < |blocks|
    ensures i * SGL_SIZE + |blocks[i]| <= |Join(blocks)|
    ensures Join(blocks)[i * SGL_SIZE..i * SGL_SIZE + |blocks[i]|] == blocks[i]
  {
    hide Count, RoundUp, Units, Size;
    var before := blocks[..|blocks| - 1];
    JoinSize(before, n);
    if i < |before| {
      JoinAt(before, n, i);
    }
  }

  /** Copies the buffers back into the data, without the padding. */
  method Gather(data: array<byte>, scsiLen: nat, buffers: seq<array<byte>>)
    requires scsiLen <= data.Length && |buffers| == Count(scsiLen)
    requires forall i :: 0 <= i < |buffers| ==> buffers[i] != data && buffers[i].Length == Size(scsiLen, i)
    modifies data
    ensures scsiLen <= |Join(Contents(buffers))|
    ensures data[..] == Join(Contents(buffers))[..scsiLen] + old(data[scsiLen..])
  {
    hide Count, RoundUp, Units, Size, Join, Contents;
    var scsiCount := |buffers|;
    ghost var contents := Contents(buffers);
    JoinSize(contents, scsiLen);
    CountZero(scsiLen);
    RoundUpGrows(scsiLen);
    for i := 0 to scsiCount
      invariant Contents(buffers) == contents
      invariant i * SGL_SIZE <= scsiLen || i == scsiCount
      invariant var n := if i == scsiCount then scsiLen else i * SGL_SIZE;
        data[..n] == Join(contents)[..n] && data[n..] == old(data[n..])
    {
      SizeIs(scsiLen, i);
      var size := SGL_SIZE;
      if i == scsiCount - 1 {
        size := scsiLen - i * SGL_SIZE;
      }
      var from := i * SGL_SIZE;
      ghost var joined := Join(contents);
      JoinAt(contents, scsiLen, i);
      assert contents[i] == buffers[i][..];
      ghost var was := data[..];
      CopyBlock(data, from, buffers[i], size);
      JoinFront(joined, contents[i], from, size);
      assert data[..from] == was[..from];
      assert data[..from + size] == joined[..from + size];
    }
    assert data[..] == data[..scsiLen] + data[scsiLen..];
  }

  lemma JoinFront(joined: seq<byte>, block: seq<byte>, from: nat, size: nat)
    requires size <= |block| && from + |block| <= |joined| && block == joined[from..from + |block|]
    ensures joined[..from] + block[..size] == joined[..from + size]
  {
  }

  lemma RoundUpGrows(n: nat)
    ensures n <= RoundUp(n)
  {
    hide RoundUp, Units;
  }

  // ---------------------------------------------------------------------
  // The command

  /** The error returns, in their order */
  datatype Result = Success | NoBuffer | TooLarge | NotPacked | Failed

  /** `firecmd_scsi`: the controller may leave anything in the buffers. */
  method Fire(buffers: seq<array<byte>>, left: seq<seq<byte>>, scsiLen: nat)
    requires |left| == |buffers| == Count(scsiLen) && Sized(left, scsiLen)
    requires forall i :: 0 <= i < |buffers| ==> buffers[i].Length == Size(scsiLen, i)
    requires forall i, j :: 0 <= i < j < |buffers| ==> buffers[i] != buffers[j]
    modifies buffers
    ensures Contents(buffers) == left
  {
    hide Count, Size, Contents;
    for i := 0 to |buffers|
      invariant forall k :: 0 <= k < i ==> buffers[k][..] == left[k]
    {
      var buffer := buffers[i];
      for j := 0 to buffer.Length
        invariant forall k :: 0 <= k < i ==> buffers[k][..] == left[k]
        invariant forall k :: 0 <= k < j ==> buffer[k] == left[i][k]
      {
        buffer[j] := left[i][j];
      }
      assert buffer[..] == left[i];
    }
  }

  const U32 := 0x1_0000_0000

  /** `scsicount`, which is kept in 32 bits */
  function Count32(n: nat): nat { Count(n) % U32 }

  /** The bytes that so many blocks hold: all, unless the count has wrapped around. */
  function Effective(n: nat): nat { if Count32(n) == 0 then 0 else n % (U32 * SGL_SIZE) }

  lemma {:induction false} EffectiveIs(n: nat)
    ensures Effective(n) <= n && Count(Effective(n)) == Count32(n)
    ensures n <= (U32 - 1) * SGL_SIZE ==> Effective(n) == n
  {
    var q, e := n / (U32 * SGL_SIZE), n % (U32 * SGL_SIZE);
    assert n == q * (U32 * SGL_SIZE) + e;
    CountShifted(e, q * U32);
    WrapAdd(Count(e), q);
    CountZeroOnly();
  }

  lemma CountZeroOnly()
    ensures Count(0) == 0
  {
  }

  /** Whole blocks in front only add to the count. */
  lemma CountShifted(e: nat, k: nat)
    ensures Count(k * SGL_SIZE + e) == k + Count(e)
  {
    hide Count;
    CountUnique(k * SGL_SIZE + e, k + Count(e));
  }

  lemma CountUnique(n: nat, c: nat)
    requires n <= c * SGL_SIZE && (c > 0 ==> (c - 1) * SGL_SIZE < n)
    ensures c == Count(n)
  {
    hide Count;
  }

  lemma WrapAdd(c: nat, q: nat)
    requires c <= U32
    ensures (q * U32 + c) % U32 == if c == U32 then 0 else c
  {
  }

  /** The check of the size lets a transfer pass that is then carried out in part exactly if
      it needs a multiple of 2^32 blocks, or up to 14 more. */
  lemma EffectiveCondition(n: nat)
    ensures Count32(n) <= MAX_BLOCKS ==> (Effective(n) == n <==> n <= MAX_BLOCKS * SGL_SIZE)
    ensures n <= MAX_BLOCKS * SGL_SIZE ==> Count32(n) <= MAX_BLOCKS
  {
    hide Count;
    EffectiveIs(n);
    CountAtMost(n);
    CountAtMost(Effective(n));
  }

  /** Of 16 TiB and one block only the block is transferred. */
  lemma EffectiveExample()
    ensures Count32(U32 * SGL_SIZE + SGL_SIZE) == 1 && Effective(U32 * SGL_SIZE + SGL_SIZE) == SGL_SIZE
  {
  }

  /** The command; `packed`: the request could be packed into records, `left`: what the
      controller leaves in the buffers, or nothing if it fails.  `sent` is what the buffers
      hold when the command is issued.  The loops of the source stop at `scsicount`, so they
      see no more than the effective length. */
  method PdScsiPassthrough(data: array?<byte>, scsiLen: nat, req: Request, packed: bool, left: Option<seq<seq<byte>>>)
    returns (r: Result, ghost sent: seq<seq<byte>>)
    requires data != null ==> scsiLen <= data.Length
    requires req.dataLen == 0
    requires left.Some? ==> |left.value| == Count(Effective(scsiLen)) && Sized(left.value, Effective(scsiLen))
    modifies req, data
    ensures Effective(scsiLen) <= scsiLen && req.dir == old(req.dir)
    ensures r == NoBuffer <==> scsiLen > 0 && data == null
    ensures r == TooLarge <==> !(scsiLen > 0 && data == null) && Count32(scsiLen) > MAX_BLOCKS
    ensures r != NoBuffer && r != TooLarge ==>
              r == if !packed then NotPacked else if left.None? then Failed else Success
    ensures r != NoBuffer && r != TooLarge ==>
              req.dataLen == RoundUp(Effective(scsiLen)) && req.sgeCount == |sent| && req.sgeIndex == SGE_INDEX_BASE
    ensures r != NoBuffer && r != TooLarge && data != null && req.dir.FromHost? ==>
              var n := Effective(scsiLen);
              RoundUp(n) >= n && Join(sent) == old(data[..n]) + Zeros(RoundUp(n) - n)
    ensures r == Success && data != null && req.dir.ToHost? ==>
              var n := Effective(scsiLen);
              |Join(left.value)| >= n && data[..] == Join(left.value)[..n] + old(data[n..])
    ensures data != null && !(r == Success && req.dir.ToHost?) ==> data[..] == old(data[..])
  {
    hide Count, Size, RoundUp, Units, Zeros, Join, Contents, Sized, Effective;
    sent := [];
    EffectiveIs(scsiLen);
    if scsiLen > 0 && data == null {
      return NoBuffer, sent;
    }
    var scsiCount := Count32(scsiLen);
    if scsiCount > MAX_BLOCKS {
      return TooLarge, sent;
    }
    var n := Effective(scsiLen);
    CountZero(n);
    RoundUpGrows(n);
    if data == null {
      EmptySent();
      SgeCountIs(n);
      req.sgeCount := (req.dataLen + BYTE_PER_CMD - 1) / BYTE_PER_CMD;
      req.sgeIndex := SGE_INDEX_BASE;
      return if !packed then NotPacked else if left.None? then Failed else Success, sent;
    }
    var buffers := Scatter(data, n, req);
    sent := Contents(buffers);
    if req.dir.FromHost? {
      SentIs(data[..n], sent);
    }
    SgeCountIs(n);
    req.sgeCount := (req.dataLen + BYTE_PER_CMD - 1) / BYTE_PER_CMD;
    req.sgeIndex := SGE_INDEX_BASE;
    if !packed {
      return NotPacked, sent;
    }
    if left.None? {
      return Failed, sent;
    }
    BufferSizes(data[..n], buffers, req.dir);
    Fire(buffers, left.value, n);
    if req.dir.ToHost? {
      Gather(data, n, buffers);
    }
    r := Success;
  }

  lemma CountAtMost(n: nat)
    ensures Count(n) > MAX_BLOCKS <==> n > MAX_BLOCKS * SGL_SIZE
  {
    hide Count;
  }

  lemma EmptySent()
    ensures Join([]) == []
  {
  }

  lemma BufferSizes(data: seq<byte>, buffers: seq<array<byte>>, dir: Direction)
    requires |buffers| == Count(|data|) && forall i :: 0 <= i < |buffers| ==> buffers[i][..] == Outgoing(data, i, dir)
    ensures forall i :: 0 <= i < |buffers| ==> buffers[i].Length == Size(|data|, i)
  {
    hide Count, Size;
    forall i | 0 <= i < |buffers|
      ensures buffers[i].Length == Size(|data|, i)
    {
      assert |buffers[i][..]| == |Outgoing(data, i, dir)|;
    }
  }

  lemma SentIs(data: seq<byte>, sent: seq<seq<byte>>)
    requires |sent| == Count(|data|) && forall i :: 0 <= i < |sent| ==> sent[i] == Outgoing(data, i, FromHost)
    ensures Join(sent) == data + Zeros(RoundUp(|data|) - |data|)
  {
    hide Count, Size, RoundUp, Units, Zeros, Join, Block;
    assert sent == Blocks(data, Count(|data|));
    SplitConserves(data);
  }

  /** What was sent, gathered again, is the data. */
  lemma GatherInvertsScatter(data: seq<byte>)
    ensures var joined := Join(Blocks(data, Count(|data|))); |joined| >= |data| && joined[..|data|] == data
  {
    hide Join, Blocks, Count, RoundUp, Zeros;
    SplitConserves(data);
  }
}

/**
 The double-buffered trace protocol: two memory blocks swapped with the host, a "pending" ring for
 packets that do not fit the current block, and a "down" ring for data from the host.

 The host is the environment.  Every `swap_start` sees one `Answer`; a bounded wait sees a sequence of
 them and times out when they are used up.
 */
module TraceChannel {
  import opened Bytes
  import opened TraceRing

  /** What one `swap_start` meets; a ready host may have left data in the block it gives back. */
  datatype Answer = Busy | Ready(hostData: seq<byte>)

  /** What one turn of the down-buffer wait meets. */
  datatype Poll = Quiet | Offer(answers: seq<Answer>)

  /** Where a packet was allocated. */
  datatype Loc = InBlock(at: nat) | Pended(at: nat)

  /** How many swaps the host lets through. */
  function ReadyCount(answers: seq<Answer>): (n: nat) {
    if answers == [] then 0 else (if answers[0].Ready? then 1 else 0) + ReadyCount(answers[1..])
  }

  const HEADER: nat := 4
  const MAX_BLOCK: nat := 0x7FFF

  function Le16(v: nat): (b: seq<byte>)
    ensures |b| == 2
  {
    [v % 256, v / 256 % 256]
  }

  /** The packet as the host must see it: allocated size, equal written size, payload. */
  function Packet(core: nat, payload: seq<byte>): (p: seq<byte>) {
    Le16(core * 0x8000 + |payload|) + Le16(core * 0x8000 + |payload|) + payload
  }

  /** The size check of a packet request; the C subtraction is unsigned. */
  predicate GuardPasses(size: nat, blockSize: nat) {
    size <= (blockSize - HEADER) % U32
  }

  /** The size check keeps every packet within the block if and only if a block holds a header. */
  lemma GuardIsExactIff(blockSize: nat)
    requires blockSize < U32
    ensures (forall size: nat :: size < U32 && GuardPasses(size, blockSize) ==> size + HEADER <= blockSize)
            <==> blockSize >= HEADER
  {
    if blockSize < HEADER {
      assert GuardPasses((blockSize - HEADER) % U32, blockSize);
    }
  }

  function Min(a: nat, b: nat): (m: nat)
    ensures m <= a && m <= b && (m == a || m == b)
  {
    if a < b then a else b
  }

  /** Number of blocks of size `b` that `p` bytes occupy. */
  function Blocks(p: nat, b: nat): (k: nat)
    requires b > 0
  {
    if p == 0 then 0 else 1 + Blocks(p - Min(p, b), b)
  }

  /** `Blocks` is the ceiling of the quotient. */
  lemma {:induction false} BlocksIsCeiling(p: nat, b: nat)
    requires b > 0
    ensures Blocks(p, b) * b >= p
    ensures p > 0 ==> (Blocks(p, b) - 1) * b < p
  {
    if p > 0 {
      BlocksIsCeiling(p - Min(p, b), b);
    }
  }

  /** Swaps until a block of size `b` holds at most `min` bytes, when `f` are in the block and `p` are pending. */
  function SwapsFor(f: nat, p: nat, b: nat, min: nat): (k: nat)
    decreases f + p
  {
    if f <= min then 0 else 1 + SwapsFor(Min(p, b), p - Min(p, b), b, min)
  }

  /** With a minimum of 0: one swap for the block and one for each block the pending bytes fill. */
  lemma {:induction false} SwapsToEmpty(f: nat, p: nat, b: nat)
    requires b > 0
    ensures SwapsFor(f, p, b, 0) == if f == 0 then 0 else 1 + Blocks(p, b)
    decreases f + p
  {
    if f > 0 {
      SwapsToEmpty(Min(p, b), p - Min(p, b), b);
    }
  }

  /** In general: one swap for the block, one for each full block of pending bytes, and one for the rest if
      it is more than the minimum. */
  lemma {:induction false} SwapsClosedForm(f: nat, p: nat, b: nat, min: nat)
    requires min < b && min < f
    ensures SwapsFor(f, p, b, min) == 1 + p / b + (if p % b > min then 1 else 0)
    decreases p
  {
    if p < b {
      RemainderUnique(p, b, 0, p);
      assert SwapsFor(0, 0, b, min) == 0;
    } else {
      SwapsClosedForm(b, p - b, b, min);
      OneTimeMore(p - b, b);
    }
  }

  /** A ring that never wraps early refuses only when it is full. */
  lemma ProduceKeepsFullSize(c: Cursor, n: nat)
    requires Wf(c) && c.cur == c.size && 0 < n <= WriteSize(c)
    ensures ProduceStep(c, n).1.cur == c.size
  {
  }

  lemma ConsumeKeepsSize(c: Cursor, n: nat)
    ensures var c' := ConsumeStep(c, n).1; c'.cur == c.cur || c'.cur == c.size
  {
  }

  lemma NoRoomMeansFull(c: Cursor, mem: seq<byte>)
    requires Wf(c) && c.cur == c.size && |mem| == c.size && WriteSize(c) == 0
    ensures c.size == 0 || |Contents(c, mem)| == c.size - 1
  {
  }

  lemma Regroup(published: seq<byte>, front: seq<byte>, q: seq<byte>, k: nat)
    requires k <= |q|
    ensures published + front + q == (published + front) + q[..k] + q[k..]
  {
  }

  lemma SplitTail(pre: seq<byte>, a: seq<byte>, tail: seq<byte>, tail': seq<byte>)
    requires |tail| == |tail'|
    ensures (pre + (a + tail))[..|pre| + |a|] + tail' == pre + (a + tail')
  {
  }

  /** The 16-bit length in front of the host's data reads back. */
  lemma HostHeader(mem: seq<byte>, hostData: seq<byte>)
    requires |hostData| + 2 <= |mem| && |hostData| < 0x1_0000
    requires mem[..2 + |hostData|] == Le16(|hostData|) + hostData
    ensures mem[0] as int + 256 * (mem[1] as int) == |hostData|
    ensures mem[2..2 + |hostData|] == hostData
  {
  }

  /** What the driver finds in a block that the host has filled. */
  method ReadHostData(block: array<byte>, hostData: seq<byte>) returns (data: seq<byte>)
    requires 2 + |hostData| <= block.Length <= MAX_BLOCK
    modifies block
    ensures data == hostData
  {
    hide Le16;
    CopyInto(block, 0, Le16(|hostData|) + hostData);  // done by the host, before the swap
    var mem := block[..];
    HostHeader(mem, hostData);
    var size: int := mem[0] as int + 256 * (mem[1] as int);
    data := mem[2..2 + size];
  }

  /** The oldest `n` bytes of a ring that lie in one piece. */
  method Oldest(ring: RingBuffer, n: nat) returns (bytes: seq<byte>)
    requires ring.Valid() && n <= ReadSize(ring.Cur())
    modifies ring
    ensures ring.Valid() && n <= |old(ring.Queue())|
    ensures bytes == old(ring.Queue())[..n] && ring.Queue() == old(ring.Queue())[n..]
    ensures ring.curSize == old(ring.curSize) || ring.curSize == ring.data.Length
    ensures n == old(ReadSize(ring.Cur())) ==> ring.Queue() == [] || ring.rd == 0
  {
    ReadBound(ring.Cur());
    ConsumeKeepsSize(ring.Cur(), n);
    hide Contents, Wf, ReadSize, ConsumeStep;
    var p := ring.Consume(n);
    bytes := ring.data[..][p.value..p.value + n];
  }

  /** The host data of the first ready answer. */
  function Offered(answers: seq<Answer>): (data: seq<byte>) {
    if answers == [] then [] else if answers[0].Ready? then answers[0].hostData else Offered(answers[1..])
  }

  lemma {:induction false} NothingOffered(answers: seq<Answer>)
    requires forall i :: 0 <= i < |answers| ==> !answers[i].Ready?
    ensures Offered(answers) == []
    decreases |answers|
  {
    if answers != [] {
      NothingOffered(answers[1..]);
    }
  }

  /** The first host data that waiting comes by. */
  function FirstOffer(polls: seq<Poll>): (data: seq<byte>) {
    if polls == [] then []
    else if polls[0].Offer? && Offered(polls[0].answers) != [] then Offered(polls[0].answers)
    else FirstOffer(polls[1..])
  }

  /** Data of which as much arrived as an empty ring holds. */
  lemma TakenIn(before: seq<byte>, data: seq<byte>, after: seq<byte>, q: nat, capacity: nat)
    requires before <= after <= before + data && |after| == |before| + q && q <= capacity
    requires after != before + data ==> q == capacity
    ensures q == Min(|data|, capacity) && after == before + data[..q]
  {
    assert after == (before + data)[..|before| + q];
  }

  /** Bytes that a ring of this size holds. */
  function Capacity(size: nat): (n: nat) {
    if size == 0 then 0 else size - 1
  }

  class Channel {
    const blockSize: nat
    const blocks: seq<array<byte>>
    const pend: RingBuffer
    const down: RingBuffer
    var inBlock: nat
    var markers: seq<nat>

    ghost var published: seq<byte>  // bytes handed to the host by completed swaps
    ghost var granted: seq<byte>    // all allocated packets, in allocation order
    ghost var accepted: seq<byte>   // host bytes that entered the down ring
    ghost var taken: seq<byte>      // host bytes handed to the application

    ghost predicate Shape() {
      && HEADER <= blockSize <= MAX_BLOCK
      && |blocks| == 2 && blocks[0].Length == blockSize && blocks[1].Length == blockSize
      && blocks[0] != blocks[1] && pend != down && pend.data != down.data
      && blocks[0] != pend.data && blocks[1] != pend.data
      && blocks[0] != down.data && blocks[1] != down.data
      && pend.data.Length + 0x1_0000 < U32
    }

    ghost function Footprint(): (s: set<object>)
      requires Shape()
    {
      {this, pend, pend.data, down, down.data, blocks[0], blocks[1]}
    }

    /** The filled part of the current block. */
    ghost function Front(): (s: seq<byte>)
      requires Shape() && |markers| == 2 && markers[inBlock % 2] <= blockSize
      reads this`inBlock, this`markers, blocks[0], blocks[1]
    {
      blocks[inBlock % 2][..markers[inBlock % 2]]
    }

    /** What has been published, then the current block, then what is pending. */
    ghost function Stream(): (s: seq<byte>)
      requires Shape() && Fields() && pend.Valid()
      reads this`inBlock, this`markers, this`published, pend, pend.data, blocks[0], blocks[1]
    {
      published + Front() + pend.Queue()
    }

    ghost predicate Fields()
      reads this`inBlock, this`markers
    {
      && inBlock < U32
      && |markers| == 2 && markers[0] <= blockSize && markers[1] <= blockSize
    }

    /** The protocol invariant: nothing granted is lost, duplicated or reordered; pending bytes exist
        only behind a non-empty block; the host's bytes are taken in the order they came. */
    ghost predicate Valid()
      reads this, pend, pend.data, down, down.data
      reads if Shape() then {blocks[0], blocks[1]} else {}
    {
      && Shape() && Fields() && pend.Valid() && down.Valid()
      && down.curSize == down.data.Length
      && Stream() == granted
      && (pend.Queue() != [] ==> Front() != [])
      && accepted == taken + down.Queue()
    }

    constructor (block0: array<byte>, block1: array<byte>, pendData: array<byte>, downData: array<byte>)
      requires HEADER <= block0.Length == block1.Length <= MAX_BLOCK
      requires block0 != block1 && pendData != downData
      requires pendData !in {block0, block1} && downData !in {block0, block1}
      requires 1 < pendData.Length && pendData.Length + 0x1_0000 < U32 && downData.Length < U32
      ensures Valid() && granted == [] && published == [] && accepted == [] && taken == []
      ensures inBlock == 0 && markers == [0, 0]
      ensures blockSize == block0.Length && blocks == [block0, block1]
      ensures pend.data == pendData && down.data == downData && fresh(pend) && fresh(down)
    {
      blockSize := block0.Length;
      blocks := [block0, block1];
      pend := new RingBuffer(pendData);
      down := new RingBuffer(downData);
      inBlock := 0;
      markers := [0, 0];
      published, granted, accepted, taken := [], [], [], [];
    }

    /** One contiguous copy into the down ring. */
    method DownAppend(bytes: seq<byte>)
      requires down.Valid() && down.curSize == down.data.Length
      requires 0 < |bytes| <= WriteSize(down.Cur())
      modifies down, down.data
      ensures down.Valid() && down.curSize == down.data.Length
      ensures down.Queue() == old(down.Queue()) + bytes
    {
      hide Contents, TailAt;
      ProduceKeepsFullSize(down.Cur(), |bytes|);
      var p := down.Produce(|bytes|);
      down.Fill(p.value, bytes);
    }

    /** Stores host bytes in the down ring; only a full ring makes it stop short. */
    method DownWrite(data: seq<byte>) returns (total: nat)
      requires down.Valid() && down.curSize == down.data.Length
      modifies down, down.data
      ensures down.Valid() && down.curSize == down.data.Length
      ensures total <= |data| && down.Queue() == old(down.Queue()) + data[..total]
      ensures total < |data| ==> down.data.Length == 0 || |down.Queue()| == down.data.Length - 1
    {
      hide Contents, Wf, WriteSize;
      total := 0;
      while total < |data|
        invariant total <= |data|
        invariant down.Valid() && down.curSize == down.data.Length
        invariant down.Queue() == old(down.Queue()) + data[..total]
      {
        var n := down.WriteSizeGet();
        if n == 0 {
          NoRoomMeansFull(down.Cur(), down.data[..]);
          return;
        }
        if n > |data| - total {
          n := |data| - total;
        }
        DownAppend(data[total..total + n]);
        assert data[..total] + data[total..total + n] == data[..total + n];
        total := total + n;
      }
    }

    /** Moves pending bytes into the fresh block `next` until it is full or nothing is pending. */
    method Pump(next: nat)
      requires Shape() && Fields() && pend.Valid() && next < 2 && markers[next] == 0
      modifies this`markers, pend, blocks[next]
      ensures Fields() && pend.Valid() && markers[1 - next] == old(markers[1 - next])
      ensures var q, k := old(pend.Queue()), Min(|old(pend.Queue())|, blockSize);
              markers[next] == k && blocks[next][..k] == q[..k] && pend.Queue() == q[k..]
    {
      hide Contents, ReadSize, ConsumeStep;
      var block := blocks[next];
      ghost var q := pend.Queue();
      while markers[next] < blockSize
        invariant Fields() && pend.Valid() && markers[1 - next] == old(markers[1 - next])
        invariant markers[next] <= |q|
        invariant block[..markers[next]] == q[..markers[next]]
        invariant pend.Queue() == q[markers[next]..]
        decreases blockSize - markers[next]
      {
        var n := pend.ReadSizeGet();
        if n == 0 {
          break;
        }
        if n > blockSize - markers[next] {
          n := blockSize - markers[next];
        }
        PumpPiece(next, n);
        ghost var m := markers[next] - n;
        SplitSlice(q, m, |q|, n);
        assert q[..m] + q[m..m + n] == q[..m + n];
      }
    }

    /** One contiguous copy from the pending ring to the block. */
    method PumpPiece(next: nat, n: nat)
      requires Shape() && Fields() && pend.Valid() && next < 2
      requires n <= ReadSize(pend.Cur()) && markers[next] + n <= blockSize
      modifies this`markers, pend, blocks[next]
      ensures Fields() && pend.Valid() && markers == old(markers)[next := old(markers[next]) + n]
      ensures n <= |old(pend.Queue())| && pend.Queue() == old(pend.Queue())[n..]
      ensures blocks[next][..markers[next]] == old(blocks[next][..markers[next]]) + old(pend.Queue())[..n]
    {
      hide Contents, Wf, ReadSize, ConsumeStep;
      var m := markers[next];
      var piece := Oldest(pend, n);
      CopyInto(blocks[next], m, piece);
      markers := markers[next := m + n];
    }

    /** These host bytes entered the down ring, in order; only a full ring cuts them short. */
    twostate predicate Entered(data: seq<byte>)
      requires down.Valid()
      reads this`accepted, down, down.data
    {
      && old(accepted) <= accepted <= old(accepted) + data
      && (accepted != old(accepted) + data ==> Full())
    }

    ghost predicate Full()
      requires down.Valid()
      reads down, down.data
    {
      down.data.Length == 0 || |down.Queue()| == down.data.Length - 1
    }

    /** Takes in what the host left in the block it gives back: a 16-bit length, then the bytes. */
    method Receive(next: nat, hostData: seq<byte>)
      requires Shape() && next < 2 && |hostData| <= blockSize - 2
      requires down.Valid() && down.curSize == down.data.Length && accepted == taken + down.Queue()
      modifies this`accepted, down, down.data, blocks[next]
      ensures down.Valid() && down.curSize == down.data.Length && accepted == taken + down.Queue()
      ensures Entered(hostData)
      ensures hostData != [] ==> blocks[next][0] == 0 && blocks[next][1] == 0
    {
      hide Contents, Wf, Le16;
      ghost var q := down.Queue();
      var data := ReadHostData(blocks[next], hostData);
      if |data| > 0 {
        var n := DownWrite(data);
        assert (taken + q) + hostData[..n] == taken + (q + hostData[..n]);
        accepted := accepted + hostData[..n];
        blocks[next][0], blocks[next][1] := 0, 0;
      }
    }

    /** Nothing that the stream or the host path consists of has changed. */
    twostate predicate Kept()
      requires old(Valid()) && Valid()
      reads this, pend, pend.data, down, down.data, blocks[0], blocks[1]
    {
      && published == old(published) && granted == old(granted) && inBlock == old(inBlock)
      && accepted == old(accepted) && taken == old(taken)
      && Front() == old(Front()) && pend.Queue() == old(pend.Queue()) && pend.Cur() == old(pend.Cur())
    }

    /** One completed swap: the current block is published whole, and the oldest pending bytes, as many
        as fit, are the new block. */
    twostate predicate Swapped()
      requires old(Valid()) && Valid()
      reads this, pend, pend.data, down, down.data, blocks[0], blocks[1]
    {
      var q := old(pend.Queue());
      var k := Min(|q|, blockSize);
      && published == old(published) + old(Front())
      && Front() == q[..k] && pend.Queue() == q[k..]
      && granted == old(granted) && taken == old(taken)
      && old(accepted) <= accepted && inBlock == (old(inBlock) + 1) % U32
    }

    /** The part of a swap after a successful `swap_start`. */
    method SwapReady(hostData: seq<byte>)
      requires Valid() && |hostData| <= blockSize - 2
      modifies Footprint()
      ensures Valid() && Swapped()
      ensures Entered(hostData)
    {
      hide Contents, Wf;
      var prev := inBlock % 2;
      var next := if prev != 0 then 0 else 1;
      ghost var front, q := Front(), pend.Queue();
      ghost var k := Min(|q|, blockSize);
      markers := markers[next := 0];
      inBlock := (inBlock + 1) % U32;
      assert inBlock % 2 == next;
      Receive(next, hostData);
      assert pend.Queue() == q;
      Pump(next);
      assert Front() == q[..k];
      assert blocks[prev][..markers[prev]] == front;
      Regroup(published, front, q, k);
      published := published + blocks[prev][..markers[prev]];
    }

    method Swap(a: Answer) returns (ok: bool)
      requires Valid() && (a.Ready? ==> |a.hostData| <= blockSize - 2)
      modifies Footprint()
      ensures Valid() && ok == a.Ready?
      ensures !ok ==> Kept()
      ensures ok ==> Swapped()
      ensures ok ==> Entered(a.hostData)
    {
      hide Stream, Contents, Wf;
      ok := a.Ready?;
      if ok {
        SwapReady(a.hostData);
      }
    }

    ghost predicate Answers(answers: seq<Answer>) {
      forall i :: 0 <= i < |answers| && answers[i].Ready? ==> |answers[i].hostData| <= blockSize - 2
    }

    /** Retries the swap until the host is ready or the time is over. */
    method SwapWait(answers: seq<Answer>) returns (ok: bool, rest: seq<Answer>)
      requires Valid() && Answers(answers)
      modifies Footprint()
      ensures Valid() && Answers(rest) && |rest| <= |answers|
      ensures ok <==> exists i :: 0 <= i < |answers| && answers[i].Ready?
      ensures ReadyCount(answers) == if ok then 1 + ReadyCount(rest) else 0
      ensures ok ==> Swapped() && Entered(Offered(answers))
      ensures !ok ==> Kept()
    {
      hide Stream, Contents, Wf, Full;
      var i := 0;
      while true
        invariant 0 <= i <= |answers|
        invariant Valid() && Kept()
        invariant forall j :: 0 <= j < i ==> answers[j].Busy?
        invariant ReadyCount(answers) == ReadyCount(answers[i..]) && Offered(answers) == Offered(answers[i..])
        decreases |answers| - i
      {
        if i == |answers| {
          return false, [];
        }
        ok := Swap(answers[i]);
        assert answers[i..][1..] == answers[i + 1..];
        i := i + 1;
        if ok {
          return true, answers[i..];
        }
      }
    }

    /** `loc` is the region of the packet granted last, `raw` bytes long with its header. */
    ghost predicate LastGrant(loc: Loc, raw: nat)
      requires Valid()
      reads this, pend, pend.data, down, down.data, blocks[0], blocks[1]
    {
      0 < raw <= |granted| &&
      match loc
      case InBlock(at) => pend.Queue() == [] && at + raw == markers[inBlock % 2]
      case Pended(at) => TailAt(pend.Cur(), at, raw) && at + raw <= pend.data.Length
    }

    /** Neither the current block nor the pending ring can take `raw` bytes. */
    ghost predicate NoRoom(raw: nat)
      requires Valid()
      reads this, pend, pend.data, down, down.data, blocks[0], blocks[1]
    {
      (pend.Queue() != [] || |Front()| + raw > blockSize) && !HasRoom(pend.Cur(), raw)
    }

    /** Allocates behind everything pending. */
    method GrantPended(raw: nat) returns (loc: Option<Loc>)
      requires Valid() && Front() != [] && 0 < raw <= blockSize
      modifies pend, this`granted
      ensures Valid()
      ensures loc.None? ==> Kept() && !HasRoom(pend.Cur(), raw)
      ensures loc.Some? ==>
                && LastGrant(loc.value, raw)
                && old(granted) <= granted && |granted| == |old(granted)| + raw
    {
      hide Contents, ProduceStep, TailAt;
      ghost var q := pend.Queue();
      var p := pend.Produce(raw);
      if p.Some? {
        ghost var region := pend.data[..][p.value..p.value + raw];
        assert published + Front() + (q + region) == (published + Front() + q) + region;
        granted := granted + region;
        loc := Some(Pended(p.value));
      } else {
        loc := None;
      }
    }

    /** Allocates in the current block, when nothing is pending and the packet fits. */
    method GrantInBlock(raw: nat) returns (loc: Loc)
      requires Valid() && pend.Queue() == [] && 0 < raw && |Front()| + raw <= blockSize
      modifies this`markers, this`granted
      ensures Valid() && LastGrant(loc, raw) && loc == InBlock(|old(Front())|)
      ensures old(granted) <= granted && |granted| == |old(granted)| + raw
    {
      hide Contents, Wf;
      var b := inBlock % 2;
      var at := markers[b];
      ghost var region := blocks[b][at..at + raw];
      assert blocks[b][..at + raw] == blocks[b][..at] + region;
      assert published + (Front() + region) + [] == (published + Front() + []) + region;
      markers := markers[b := at + raw];
      granted := granted + region;
      loc := InBlock(at);
    }

    method OverwriteInBlock(at: nat, bytes: seq<byte>)
      requires Valid() && LastGrant(InBlock(at), |bytes|)
      modifies this`granted, blocks[0], blocks[1]
      ensures Valid() && LastGrant(InBlock(at), |bytes|)
      ensures granted == old(granted)[..|old(granted)| - |bytes|] + bytes
    {
      hide Contents, Wf;
      ghost var f := Front();
      CopyInto(blocks[inBlock % 2], at, bytes);
      assert f[..at] == old(blocks[inBlock % 2][..at]);
      SplitTail(published, f[..at], f[at..], bytes);
      assert f == f[..at] + f[at..];
      assert published + f + [] == published + f;
      assert published + Front() + [] == published + Front();
      granted := granted[..|granted| - |bytes|] + bytes;
    }

    method OverwritePended(at: nat, bytes: seq<byte>)
      requires Valid() && LastGrant(Pended(at), |bytes|)
      modifies this`granted, pend.data
      ensures Valid() && LastGrant(Pended(at), |bytes|)
      ensures granted == old(granted)[..|old(granted)| - |bytes|] + bytes
    {
      hide Contents, Wf, TailAt, Front;
      ghost var q, f := pend.Queue(), Front();
      pend.Fill(at, bytes);
      assert q != [] && Front() == f;
      ghost var j := |q| - |bytes|;
      assert q == q[..j] + q[j..];
      SplitTail(published + f, q[..j], q[j..], bytes);
      granted := granted[..|granted| - |bytes|] + bytes;
    }

    /** Writes the whole region of the last grant: its bytes, and no others, change in the stream. */
    method Overwrite(loc: Loc, bytes: seq<byte>)
      requires Valid() && LastGrant(loc, |bytes|)
      modifies this`granted, pend.data, blocks[0], blocks[1]
      ensures Valid() && LastGrant(loc, |bytes|)
      ensures granted == old(granted)[..|old(granted)| - |bytes|] + bytes
    {
      hide Stream, Contents, Wf;
      match loc {
        case InBlock(at) => OverwriteInBlock(at, bytes);
        case Pended(at) => OverwritePended(at, bytes);
      }
    }

    /** Reads the region of the last grant back from memory. */
    method ReadRegion(loc: Loc, raw: nat) returns (bytes: seq<byte>)
      requires Valid() && LastGrant(loc, raw)
      ensures bytes == granted[|granted| - raw..]
    {
      hide Contents, Wf;
      match loc {
        case InBlock(at) =>
          bytes := blocks[inBlock % 2][at..at + raw];
          assert bytes == Front()[at..];
          assert published + Front() + [] == published + Front();
        case Pended(at) =>
          bytes := pend.data[..][at..at + raw];
          TailIsRegion(pend.Cur(), at, raw, pend.data[..]);
      }
    }

    /** Allocates behind what is pending, or else in the current block. */
    method Place(size: nat) returns (loc: Option<Loc>)
      requires Valid() && 0 < size <= blockSize
      modifies pend, this`markers, this`granted
      ensures Valid()
      ensures loc.None? ==> granted == old(granted) && NoRoom(size)
      ensures loc.Some? ==>
                && LastGrant(loc.value, size)
                && old(granted) <= granted && |granted| == |old(granted)| + size
      ensures old(pend.Queue()) == [] && |old(Front())| + size <= blockSize ==> loc.Some?
    {
      hide Stream, Contents, Wf, TailAt, ProduceStep;
      var left := pend.ReadSizeGet();
      if left > 0 || markers[inBlock % 2] + size > blockSize {
        loc := GrantPended(size);
      } else {
        var l := GrantInBlock(size);
        loc := Some(l);
      }
    }

    /** Swaps blocks to make room, then allocates in the new block or behind what is still pending. */
    method WaitForBuffer(raw: nat, answers: seq<Answer>) returns (loc: Option<Loc>)
      requires Valid() && Answers(answers) && 0 < raw <= blockSize
      modifies Footprint()
      ensures Valid() && taken == old(taken)
      ensures old(published) <= published
      ensures loc.None? ==> granted == old(granted) && (old(NoRoom(raw)) ==> NoRoom(raw))
      ensures loc.Some? ==>
                && LastGrant(loc.value, raw)
                && old(granted) <= granted && |granted| == |old(granted)| + raw
      ensures old(pend.Queue()) == [] && (exists i :: 0 <= i < |answers| && answers[i].Ready?) ==> loc.Some?
    {
      hide Stream, Contents, Wf, TailAt, ProduceStep;
      var ok, _ := SwapWait(answers);
      if !ok {
        return None;
      }
      loc := Place(raw % 0x1_0000);
    }

    /** With data pending, one attempt to switch blocks. */
    method TrySwap(answers: seq<Answer>) returns (later: seq<Answer>)
      requires Valid() && Answers(answers)
      modifies Footprint()
      ensures Valid() && Answers(later) && granted == old(granted) && taken == old(taken)
      ensures old(pend.Queue()) == [] ==> Kept() && later == answers
      ensures old(pend.Queue()) != [] && answers != [] ==> later == answers[1..]
      ensures old(pend.Queue()) != [] && answers != [] && answers[0].Ready? ==>
                Swapped() && Entered(answers[0].hostData)
      ensures old(pend.Queue()) != [] && answers != [] && answers[0].Busy? ==> Kept()
      ensures old(published) <= published
    {
      hide Stream, Contents, Wf;
      later := answers;
      var n := pend.ReadSizeGet();
      if n > 0 && answers != [] {
        var _ := Swap(answers[0]);
        later := answers[1..];
      }
    }

    /** Allocates a packet without its header. */
    method Allocate(raw: nat, answers: seq<Answer>) returns (loc: Option<Loc>)
      requires Valid() && Answers(answers) && 0 < raw <= blockSize
      modifies Footprint()
      ensures Valid() && taken == old(taken)
      ensures loc.None? ==> granted == old(granted) && NoRoom(raw)
      ensures old(pend.Queue()) != [] && answers != [] && answers[0].Ready? ==> old(published + Front()) <= published
      ensures loc.Some? ==>
                && LastGrant(loc.value, raw)
                && old(granted) <= granted && |granted| == |old(granted)| + raw
      ensures old(pend.Queue()) == [] && |old(Front())| + raw <= blockSize ==>
                loc == Some(InBlock(|old(Front())|))
      ensures old(pend.Queue()) == [] && (exists i :: 0 <= i < |answers| && answers[i].Ready?) ==> loc.Some?
    {
      hide Stream, Contents, Wf, TailAt, ProduceStep, HasRoom;
      var later := TrySwap(answers);
      var n := pend.ReadSizeGet();
      if n == 0 && markers[inBlock % 2] + raw <= blockSize {
        var l := GrantInBlock(raw);
        return Some(l);
      }
      loc := GrantPended(raw);
      if loc.None? {
        loc := WaitForBuffer(raw, later);
      }
    }

    method UpBufferGet(core: nat, size: nat, answers: seq<Answer>) returns (loc: Option<Loc>)
      requires Valid() && Answers(answers) && core < 2
      modifies Footprint()
      ensures Valid() && taken == old(taken)
      ensures loc.None? ==> granted == old(granted) && (size + HEADER > blockSize || NoRoom(size + HEADER))
      ensures loc.Some? ==>
                && LastGrant(loc.value, size + HEADER)
                && old(granted) <= granted && |granted| == |old(granted)| + size + HEADER
                && granted[|old(granted)|..|old(granted)| + HEADER]
                     == Le16(core * 0x8000 + size) + Le16(0)
      ensures size + HEADER > blockSize ==> loc.None? && Kept()
      ensures size + HEADER <= blockSize && old(pend.Queue()) != [] && answers != [] && answers[0].Ready? ==>
                old(published + Front()) <= published
      ensures size + HEADER <= blockSize && old(pend.Queue()) == [] ==>
                && (|old(Front())| + size + HEADER <= blockSize ==> loc == Some(InBlock(|old(Front())|)))
                && ((exists i :: 0 <= i < |answers| && answers[i].Ready?) ==> loc.Some?)
    {
      hide Stream, Contents, Wf, TailAt;
      if !GuardPasses(size, blockSize) {
        return None;
      }
      loc := Allocate(size + HEADER, answers);
      if loc.Some? {
        ghost var g, k := granted, |old(granted)|;
        var region := ReadRegion(loc.value, size + HEADER);
        var header := Le16(core * 0x8000 + size) + Le16(0);
        Overwrite(loc.value, header + region[HEADER..]);
        assert g[..k] == old(granted);
        assert granted == old(granted) + (header + region[HEADER..]);
      }
    }

    /** The application's payload, then the header update that closes the packet. */
    method UpBufferPut(loc: Loc, payload: seq<byte>)
      requires Valid() && LastGrant(loc, |payload| + HEADER)
      modifies this`granted, pend.data, blocks[0], blocks[1]
      ensures Valid()
      ensures var k := |old(granted)| - |payload| - HEADER;
              var size := old(granted)[k..k + 2];
              granted == old(granted)[..k] + (size + size + payload)
    {
      hide Stream, Contents, Wf, TailAt;
      var region := ReadRegion(loc, |payload| + HEADER);
      ghost var k := |granted| - |payload| - HEADER;
      assert region[..2] == granted[k..k + 2];
      Overwrite(loc, region[..2] + region[..2] + payload);
    }

    /** Allocation, payload and completion of one packet: all of it is appended to the stream, or none. */
    method Write(core: nat, payload: seq<byte>, answers: seq<Answer>) returns (ok: bool)
      requires Valid() && Answers(answers) && core < 2
      modifies Footprint()
      ensures Valid() && taken == old(taken)
      ensures !ok ==> |payload| + HEADER > blockSize || NoRoom(|payload| + HEADER)
      ensures ok ==> |payload| + HEADER <= blockSize
      ensures granted == if ok then old(granted) + Packet(core, payload) else old(granted)
      ensures old(pend.Queue()) == [] && |old(Front())| + |payload| + HEADER <= blockSize ==> ok
    {
      hide Stream, Contents, Wf, TailAt;
      var loc := UpBufferGet(core, |payload|, answers);
      ok := loc.Some?;
      if ok {
        ghost var g, k := granted, |old(granted)|;
        var size := Le16(core * 0x8000 + |payload|);
        assert g[k..k + 2] == g[k..k + HEADER][..2] == size;
        assert g[..k] == old(granted);
        UpBufferPut(loc.value, payload);
      }
    }

    /** The swaps that leave at most `minSize` bytes in the block. */
    ghost function SwapsNeeded(minSize: nat): (n: nat)
      requires Valid()
      reads this, pend, pend.data, down, down.data, blocks[0], blocks[1]
    {
      SwapsFor(|Front()|, |pend.Queue()|, blockSize, minSize)
    }

    /** Swaps until at most `minSize` bytes wait in the current block. */
    method Flush(minSize: nat, answers: seq<Answer>) returns (ok: bool, swaps: nat)
      requires Valid() && Answers(answers)
      modifies Footprint()
      ensures Valid() && granted == old(granted) && taken == old(taken)
      ensures ok <==> ReadyCount(answers) >= old(SwapsNeeded(minSize))
      ensures swaps == if ok then old(SwapsNeeded(minSize)) else ReadyCount(answers)
      ensures ok ==> |Front()| <= minSize
      ensures ok && minSize == 0 ==> Front() == [] && pend.Queue() == [] && published == granted
    {
      hide Stream, Contents, Wf, ReadyCount;
      swaps := 0;
      ok := true;
      if markers[inBlock % 2] < minSize {
        return;
      }
      var rest := answers;
      while markers[inBlock % 2] > minSize
        invariant Valid() && Answers(rest) && granted == old(granted) && taken == old(taken) && ok
        invariant swaps + SwapsNeeded(minSize) == old(SwapsNeeded(minSize))
        invariant swaps + ReadyCount(rest) == ReadyCount(answers)
        decreases |Front()| + |pend.Queue()|
      {
        ok, rest := SwapWait(rest);
        if !ok {
          return;
        }
        swaps := swaps + 1;
      }
      if minSize == 0 {
        FlushedStream();
      }
    }

    lemma FlushedStream()
      requires Valid() && Front() == []
      ensures pend.Queue() == [] && published == granted
    {
    }

    /** Hands out the oldest host bytes.  While there are none it waits for the host, and takes in the first data
        that it offers, as much of it as the ring holds. */
    method DownBufferGet(size: nat, polls: seq<Poll>) returns (r: Option<seq<byte>>)
      requires Valid() && size < U32 && forall i :: 0 <= i < |polls| && polls[i].Offer? ==> Answers(polls[i].answers)
      modifies Footprint()
      ensures Valid() && granted == old(granted)
      ensures accepted == old(accepted) + if old(down.Queue()) != [] then []
                                          else FirstOffer(polls)[..Min(|FirstOffer(polls)|, Capacity(down.data.Length))]
      ensures r.None? <==> old(down.Queue()) == [] && accepted == old(accepted)
      ensures r.None? ==> taken == old(taken) && down.Queue() == []
      ensures r.Some? ==> taken == old(taken) + r.value && |r.value| <= size && (size > 0 ==> r.value != [])
      ensures r.Some? && |r.value| < size ==> down.Queue() == [] || down.rd == 0
    {
      hide Stream, Contents, Wf;
      var i := 0;
      while true
        invariant 0 <= i <= |polls| && Valid()
        invariant granted == old(granted) && taken == old(taken)
        invariant old(down.Queue()) != [] ==> i == 0 && accepted == old(accepted) && down.Queue() != []
        invariant old(down.Queue()) == [] && down.Queue() != [] ==> Arrived(old(accepted), FirstOffer(polls))
        invariant old(down.Queue()) == [] && down.Queue() == [] ==>
                    && accepted == old(accepted)
                    && (Capacity(down.data.Length) == 0 || FirstOffer(polls) == FirstOffer(polls[i..]))
        decreases |polls| - i
      {
        var n := down.ReadSizeGet();
        if n != 0 {
          var m := Min(size, n);
          r := TakeDown(m);
          return;
        }
        if i == |polls| {
          return None;
        }
        if polls[i].Offer? {
          WaitForData(polls[i].answers);
        }
        assert polls[i..][1..] == polls[i + 1..];
        i := i + 1;
      }
    }

    ghost predicate Arrived(before: seq<byte>, data: seq<byte>)
      reads this`accepted
    {
      accepted == before + data[..Min(|data|, Capacity(down.data.Length))]
    }

    /** One swap, with the down ring empty. */
    method WaitForData(answers: seq<Answer>)
      requires Valid() && Answers(answers) && down.Queue() == []
      modifies Footprint()
      ensures Valid() && granted == old(granted) && taken == old(taken)
      ensures Arrived(old(accepted), Offered(answers))
      ensures down.Queue() == [] <==> Min(|Offered(answers)|, Capacity(down.data.Length)) == 0
    {
      hide Stream, Contents, Wf, Offered;
      ghost var a := accepted;
      var ok, _ := SwapWait(answers);
      if !ok {
        NothingOffered(answers);
      }
      ContentsSize(down.Cur(), down.data[..]);
      assert |accepted| == |a| + |down.Queue()|;
      TakenIn(a, Offered(answers), accepted, |down.Queue()|, Capacity(down.data.Length));
    }

    method TakeDown(m: nat) returns (r: Option<seq<byte>>)
      requires Valid() && m <= ReadSize(down.Cur())
      modifies this`taken, down
      ensures Valid() && r.Some? && |r.value| == m && taken == old(taken) + r.value
      ensures m == old(ReadSize(down.Cur())) ==> down.Queue() == [] || down.rd == 0
    {
      hide Contents, Wf, Stream, ReadSize, ConsumeStep, Front;
      ghost var q := down.Queue();
      var bytes := Oldest(down, m);
      assert q == bytes + down.Queue();
      assert taken + (bytes + down.Queue()) == (taken + bytes) + down.Queue();
      taken := taken + bytes;
      r := Some(bytes);
    }
  }

  // ---- Whole runs ----

  /** One call on the channel, with what the host does during it. */
  datatype Call =
    | WriteCall(core: nat, payload: seq<byte>, answers: seq<Answer>)
    | FlushCall(minSize: nat, answers: seq<Answer>)
    | DownCall(size: nat, polls: seq<Poll>)

  ghost predicate CallOk(ch: Channel, call: Call) {
    match call
    case WriteCall(core, _, answers) => core < 2 && ch.Answers(answers)
    case FlushCall(_, answers) => ch.Answers(answers)
    case DownCall(size, polls) =>
      size < U32 && forall i :: 0 <= i < |polls| && polls[i].Offer? ==> ch.Answers(polls[i].answers)
  }

  /** The answer of a call: whether it succeeded, and the host bytes it handed out. */
  datatype Reply = Reply(ok: bool, bytes: seq<byte>)

  /** What a call adds to the stream: its packet, exactly if it was accepted. */
  function Sent(call: Call, reply: Reply): (s: seq<byte>) {
    if call.WriteCall? && reply.ok then Packet(call.core, call.payload) else []
  }

  function AllSent(calls: seq<Call>, replies: seq<Reply>): (s: seq<byte>)
    requires |replies| <= |calls|
  {
    if replies == [] then []
    else
      var n := |replies| - 1;
      AllSent(calls, replies[..n]) + Sent(calls[n], replies[n])
  }

  /** An accepted packet fits a block, so that its length leaves room for the core bit. */
  predicate Fits(call: Call, reply: Reply) {
    call.WriteCall? && reply.ok ==> call.core < 2 && |call.payload| + HEADER <= MAX_BLOCK
  }

  /** The writes that answered success: core and payload. */
  function Accepted(calls: seq<Call>, replies: seq<Reply>): (r: seq<(nat, seq<byte>)>)
    requires |replies| <= |calls|
  {
    if replies == [] then []
    else
      var n := |replies| - 1;
      Accepted(calls, replies[..n])
      + if calls[n].WriteCall? && replies[n].ok then [(calls[n].core, calls[n].payload)] else []
  }

  /** What the host makes of the stream: each header holds the core in its top bit and the length twice. */
  function Unpack(s: seq<byte>): (r: Option<seq<(nat, seq<byte>)>>) {
    if s == [] then Some([])
    else if |s| < 4 then None
    else
      var v, size := WordAt(s, 0), SizeOf(WordAt(s, 0));
      if WordAt(s, 2) != v || |s| < 4 + size then None
      else
        var rest := Unpack(s[4 + size..]);
        if rest.None? then None else Some([(CoreOf(v), s[4..4 + size])] + rest.value)
  }

  function WordAt(s: seq<byte>, i: nat): (v: nat)
    requires i + 1 < |s|
  {
    s[i] as int + 256 * (s[i + 1] as int)
  }

  function CoreOf(v: nat): (core: nat) {
    v / 32768
  }

  function SizeOf(v: nat): (n: nat) {
    v % 32768
  }

  lemma Le16Reads(v: nat)
    requires v < 65536
    ensures Le16(v)[0] as int + 256 * (Le16(v)[1] as int) == v
  {
  }

  lemma CoreAndSize(core: nat, n: nat)
    requires core < 2 && n < 32768
    ensures var v := core * 0x8000 + n; CoreOf(v) == core && SizeOf(v) == n && v < 65536
  {
  }

  lemma PacketParts(core: nat, payload: seq<byte>, rest: seq<byte>)
    ensures var s, h := Packet(core, payload) + rest, Le16(core * 0x8000 + |payload|);
            && |s| == 4 + |payload| + |rest| && s[0] == s[2] == h[0] && s[1] == s[3] == h[1]
            && s[4..4 + |payload|] == payload && s[4 + |payload|..] == rest
  {
    hide Le16;
  }

  lemma UnpackOne(core: nat, payload: seq<byte>, rest: seq<byte>)
    requires core < 2 && |payload| + HEADER <= MAX_BLOCK
    ensures Unpack(Packet(core, payload) + rest)
            == if Unpack(rest).None? then None else Some([(core, payload)] + Unpack(rest).value)
  {
    CoreAndSize(core, |payload|);
    Le16Reads(core * 0x8000 + |payload|);
    PacketParts(core, payload, rest);
    hide Packet, Le16, Unpack, CoreOf, SizeOf;
    UnpackStep(Packet(core, payload) + rest, core * 0x8000 + |payload|, core, |payload|);
  }

  lemma UnpackStep(s: seq<byte>, v: nat, core: nat, n: nat)
    requires |s| >= 4 + n && WordAt(s, 0) == v == WordAt(s, 2) && CoreOf(v) == core && SizeOf(v) == n
    ensures var rest := Unpack(s[4 + n..]);
            Unpack(s) == if rest.None? then None else Some([(core, s[4..4 + n])] + rest.value)
  {
    hide WordAt, CoreOf, SizeOf;
  }

  function Packets(ps: seq<(nat, seq<byte>)>): (s: seq<byte>) {
    if ps == [] then [] else Packet(ps[0].0, ps[0].1) + Packets(ps[1..])
  }

  lemma {:induction false} PacketsSnoc(ps: seq<(nat, seq<byte>)>, p: (nat, seq<byte>))
    ensures Packets(ps + [p]) == Packets(ps) + Packet(p.0, p.1)
    decreases |ps|
  {
    hide Packet;
    if ps == [] {
      assert ps + [p] == [p] && [p][1..] == [];
    } else {
      assert (ps + [p])[1..] == ps[1..] + [p];
      PacketsSnoc(ps[1..], p);
    }
  }

  lemma {:induction false} PacketsUnpack(ps: seq<(nat, seq<byte>)>)
    requires forall p :: p in ps ==> p.0 < 2 && |p.1| + HEADER <= MAX_BLOCK
    ensures Unpack(Packets(ps)) == Some(ps)
    decreases |ps|
  {
    if ps == [] {
      assert Unpack([]) == Some([]);
    } else {
      hide Unpack, Packet;
      UnpackOne(ps[0].0, ps[0].1, Packets(ps[1..]));
      PacketsUnpack(ps[1..]);
      assert ps == [ps[0]] + ps[1..];
    }
  }

  predicate AllFit(calls: seq<Call>, replies: seq<Reply>) {
    |replies| <= |calls| && forall i :: 0 <= i < |replies| ==> Fits(calls[i], replies[i])
  }

  lemma {:induction false} SentAreAccepted(calls: seq<Call>, replies: seq<Reply>)
    requires AllFit(calls, replies)
    ensures AllSent(calls, replies) == Packets(Accepted(calls, replies))
    ensures forall p :: p in Accepted(calls, replies) ==> p.0 < 2 && |p.1| + HEADER <= MAX_BLOCK
    decreases |replies|
  {
    hide Packet, Packets;
    if replies == [] {
      assert Packets([]) == [] by { PacketsNone(); }
    } else {
      var n := |replies| - 1;
      var before := Accepted(calls, replies[..n]);
      SentAreAccepted(calls, replies[..n]);
      if calls[n].WriteCall? && replies[n].ok {
        PacketsSnoc(before, (calls[n].core, calls[n].payload));
        assert Fits(calls[n], replies[n]);
      } else {
        assert before + [] == before;
      }
    }
  }

  lemma PacketsNone()
    ensures Packets([]) == []
  {
  }

  /** The host can tell the accepted packets from the stream. */
  lemma SentUnpacks(calls: seq<Call>, replies: seq<Reply>)
    requires AllFit(calls, replies)
    ensures Unpack(AllSent(calls, replies)) == Some(Accepted(calls, replies))
  {
    SentAreAccepted(calls, replies);
    PacketsUnpack(Accepted(calls, replies));
  }

  function AllTaken(replies: seq<Reply>): (s: seq<byte>) {
    if replies == [] then [] else AllTaken(replies[..|replies| - 1]) + replies[|replies| - 1].bytes
  }

  /** One call, with its answer. */
  method Perform(ch: Channel, call: Call) returns (reply: Reply)
    requires ch.Valid() && CallOk(ch, call)
    modifies ch.Footprint()
    ensures ch.Valid()
    ensures ch.granted == old(ch.granted) + Sent(call, reply)
    ensures ch.taken == old(ch.taken) + reply.bytes && (call.DownCall? || reply.bytes == [])
    ensures Fits(call, reply)
  {
    hide Contents, Wf, Packet;
    match call {
      case WriteCall(core, payload, answers) =>
        var ok := ch.Write(core, payload, answers);
        reply := Reply(ok, []);
      case FlushCall(minSize, answers) =>
        var ok, _ := ch.Flush(minSize, answers);
        reply := Reply(ok, []);
      case DownCall(size, polls) =>
        var r := ch.DownBufferGet(size, polls);
        reply := Reply(r.Some?, if r.Some? then r.value else []);
    }
  }

  /** Every run from a fresh channel: the bytes published to the host, then the current block, then the pending ring
      are the packets of the accepted writes, each whole and in call order; the bytes handed out are the host's, in
      order. */
  method RunCalls(ch: Channel, calls: seq<Call>) returns (replies: seq<Reply>)
    requires ch.Valid() && ch.granted == [] && ch.taken == []
    requires forall i :: 0 <= i < |calls| ==> CallOk(ch, calls[i])
    modifies ch.Footprint()
    ensures ch.Valid() && |replies| == |calls|
    ensures ch.published + ch.Front() + ch.pend.Queue() == AllSent(calls, replies)
    ensures Unpack(ch.published + ch.Front() + ch.pend.Queue()) == Some(Accepted(calls, replies))
    ensures ch.accepted == AllTaken(replies) + ch.down.Queue()
    ensures ch.markers[0] <= ch.blockSize && ch.markers[1] <= ch.blockSize
    ensures ch.pend.Queue() != [] ==> ch.Front() != []
  {
    replies := [];
    assert AllSent(calls, replies) == [] && AllTaken(replies) == [] && AllFit(calls, replies);
    hide Contents, Wf, Packet, Sent, Unpack, Accepted, AllSent, AllTaken, AllFit;
    for n := 0 to |calls|
      invariant ch.Valid() && |replies| == n
      invariant ch.granted == AllSent(calls, replies) && ch.taken == AllTaken(replies) && AllFit(calls, replies)
    {
      assert CallOk(ch, calls[n]);
      var reply := Perform(ch, calls[n]);
      OneMoreReply(calls, replies, reply);
      replies := replies + [reply];
    }
    SentUnpacks(calls, replies);
  }

  lemma OneMoreReply(calls: seq<Call>, replies: seq<Reply>, reply: Reply)
    requires |replies| < |calls| && AllFit(calls, replies) && Fits(calls[|replies|], reply)
    ensures AllFit(calls, replies + [reply])
    ensures var more := replies + [reply];
            && AllSent(calls, more) == AllSent(calls, replies) + Sent(calls[|replies|], reply)
            && AllTaken(more) == AllTaken(replies) + reply.bytes
  {
    FitsMore(calls, replies, reply);
    hide Sent, Fits, AllSent, AllTaken, AllFit;
    var more := replies + [reply];
    assert |replies| < |calls|;
    assert more[..|replies|] == replies && more[|replies|] == reply;
    LastSent(calls, more);
  }

  lemma FitsMore(calls: seq<Call>, replies: seq<Reply>, reply: Reply)
    requires |replies| < |calls| && AllFit(calls, replies) && Fits(calls[|replies|], reply)
    ensures AllFit(calls, replies + [reply])
  {
    hide Fits;
  }

  lemma LastSent(calls: seq<Call>, replies: seq<Reply>)
    requires 0 < |replies| <= |calls|
    ensures var n := |replies| - 1;
            && AllSent(calls, replies) == AllSent(calls, replies[..n]) + Sent(calls[n], replies[n])
            && AllTaken(replies) == AllTaken(replies[..n]) + replies[n].bytes
  {
    hide Sent;
  }
}

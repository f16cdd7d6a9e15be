/**
 The application-trace ring buffer.  A `Cursor` holds the control words of the C structure;
 the storage is passed beside it, because produce and consume hand out regions of the storage
 without touching it.  `RingBuffer` is the structure itself, updated in place.
 */
module TraceRing {
  import opened Bytes

  datatype Cursor = Cursor(size: nat, cur: nat, rd: nat, wr: nat)

  ghost predicate Wf(c: Cursor) {
    && c.size < U32
    && c.wr <= c.size
    && (c.wr == c.size ==> c.size == 0)
    && (c.rd <= c.wr ==> c.cur == c.size)
    && (c.rd > c.wr ==> c.rd < c.cur <= c.size)
  }

  /** The queued bytes, oldest first. */
  ghost function Contents(c: Cursor, mem: seq<byte>): (q: seq<byte>)
    requires Wf(c) && |mem| == c.size
  {
    if c.rd <= c.wr then mem[c.rd..c.wr] else mem[c.rd..c.cur] + mem[..c.wr]
  }

  /** Storage cells that hold queued bytes. */
  ghost predicate Live(c: Cursor, i: int) {
    if c.rd <= c.wr then c.rd <= i < c.wr else c.rd <= i < c.cur || 0 <= i < c.wr
  }

  /** The control-word update of produce: the granted offset, if any, and the new cursor. */
  function ProduceStep(c: Cursor, n: nat): (r: (Option<nat>, Cursor)) {
    if c.rd <= c.wr then
      if Plus32(c.wr, n) >= c.size then
        if c.rd == 0 then
          (None, c)
        else if Plus32(c.wr, n) == c.size then
          (Some(c.wr), c.(wr := 0))
        else if n > c.rd - 1 then
          (None, c)
        else if c.rd == c.wr then
          (Some(0), c.(rd := 0, cur := if c.wr < c.size then c.size else c.wr, wr := n))
        else
          (Some(0), c.(cur := c.wr, wr := n))
      else
        (Some(c.wr), c.(wr := Plus32(c.wr, n)))
    else if n > c.rd - c.wr - 1 then
      (None, c)
    else
      (Some(c.wr), c.(wr := Plus32(c.wr, n)))
  }

  /** The control-word update of consume. */
  function ConsumeStep(c: Cursor, n: nat): (r: (Option<nat>, Cursor)) {
    if c.rd <= c.wr then
      if Plus32(c.rd, n) > c.wr then (None, c) else (Some(c.rd), c.(rd := Plus32(c.rd, n)))
    else if Plus32(c.rd, n) > c.cur then
      (None, c)
    else if Plus32(c.rd, n) == c.cur then
      (Some(c.rd), c.(rd := 0, cur := if c.cur < c.size then c.size else c.cur))
    else
      (Some(c.rd), c.(rd := Plus32(c.rd, n)))
  }

  function ReadSize(c: Cursor): (n: int) {
    if c.rd <= c.wr then c.wr - c.rd else c.cur - c.rd
  }

  function WriteSize(c: Cursor): (n: int) {
    if c.rd <= c.wr then
      if c.size - c.wr != 0 && c.rd == 0 then c.size - c.wr - 1 else c.size - c.wr
    else
      c.rd - c.wr - 1
  }

  // ---- Each call refines a queue operation ----

  /** Cells `p..p+n` hold exactly the last `n` queued bytes. */
  ghost predicate TailAt(c: Cursor, p: nat, n: nat)
  {
    if c.wr > 0 then p + n == c.wr && (c.rd <= c.wr ==> c.rd <= p)
    else c.rd > 0 && p + n == c.cur && c.rd <= p
  }

  /** `n` cells at `p` that the queue can grow into: behind the write mark, up to the end of the storage or
      short of the read mark, or else at the start of the storage, short of the read mark. */
  predicate Room(c: Cursor, p: nat, n: nat) {
    if c.rd <= c.wr then
      (p == c.wr && (p + n < c.size || (p + n == c.size && c.rd > 0))) || (p == 0 && n < c.rd)
    else
      p == c.wr && p + n < c.rd
  }

  predicate HasRoom(c: Cursor, n: nat) {
    Room(c, c.wr, n) || Room(c, 0, n)
  }

  /** The write mark is preferred. */
  function Grant(c: Cursor, n: nat): (p: Option<nat>) {
    if Room(c, c.wr, n) then Some(c.wr) else if Room(c, 0, n) then Some(0) else None
  }

  /** `n` cells inside the storage, none of them live, that leave the read mark apart from the new write mark. */
  ghost predicate Free(c: Cursor, p: nat, n: nat) {
    c.size > 0 && p + n <= c.size && (forall i :: p <= i < p + n ==> !Live(c, i)) && (p + n) % c.size != c.rd
  }

  /** While bytes are queued, there is room exactly where the cells at the write mark or at the start are free. */
  lemma RoomIffFree(c: Cursor, n: nat)
    requires Wf(c) && c.rd != c.wr
    ensures HasRoom(c, n) <==> Free(c, c.wr, n) || Free(c, 0, n)
  {
    FreeIff(c, c.wr, n);
    FreeIff(c, 0, n);
  }

  lemma FreeIff(c: Cursor, p: nat, n: nat)
    requires Wf(c) && c.rd != c.wr && (p == c.wr || p == 0)
    ensures Free(c, p, n) <==> Room(c, p, n) || (n == 0 && p == 0 && 0 < c.rd)
  {
    if p + n < c.size {
      RemainderUnique(p + n, c.size, 0, p + n);
    } else if p + n == c.size {
      RemainderUnique(p + n, c.size, 1, 0);
    }
    if c.rd < c.wr {
      assert Live(c, c.rd);
    } else {
      assert Live(c, c.rd) && (c.wr > 0 ==> Live(c, 0));
    }
  }

  /** Where produce puts a request, with the 32-bit sums resolved. */
  lemma ProduceCursor(c: Cursor, n: nat)
    requires Wf(c)
    requires c.rd <= c.wr ==> c.wr + n < U32
    ensures var (p, c') := ProduceStep(c, n);
            && Wf(c') && c'.size == c.size
            && p == Grant(c, n)
            && (p.None? ==> c' == c)
            && (p.Some? ==>
                  && p.value + n <= c.size
                  && (forall i :: p.value <= i < p.value + n ==> !Live(c, i))
                  && (n > 0 ==> TailAt(c', p.value, n)))
  {
  }

  // The four ways a grant extends the queue.

  lemma EnqueueStraight(c: Cursor, n: nat, mem: seq<byte>)
    requires Wf(c) && |mem| == c.size && c.rd <= c.wr && c.wr + n < c.size
    ensures Contents(c.(wr := c.wr + n), mem) == Contents(c, mem) + mem[c.wr..c.wr + n]
  {
  }

  lemma EnqueueToEnd(c: Cursor, n: nat, mem: seq<byte>)
    requires Wf(c) && |mem| == c.size && 0 < c.rd <= c.wr && c.wr + n == c.size
    ensures Contents(c.(wr := 0), mem) == Contents(c, mem) + mem[c.wr..c.wr + n]
  {
  }

  lemma EnqueueEarly(c: Cursor, n: nat, mem: seq<byte>)
    requires Wf(c) && |mem| == c.size && n < c.rd <= c.wr
    ensures var c' := if c.rd == c.wr then c.(rd := 0, wr := n) else c.(cur := c.wr, wr := n);
            Contents(c', mem) == Contents(c, mem) + mem[0..n]
  {
  }

  lemma EnqueueWrapped(c: Cursor, n: nat, mem: seq<byte>)
    requires Wf(c) && |mem| == c.size && c.wr + n < c.rd
    ensures Contents(c.(wr := c.wr + n), mem) == Contents(c, mem) + mem[c.wr..c.wr + n]
  {
  }

  /** Produce grants a request if and only if there is room, at the write mark if possible.  The grant is a
      contiguous region inside the storage, disjoint from the live bytes, and becomes the tail of the queue;
      a refusal changes nothing. */
  lemma ProduceIsEnqueue(c: Cursor, n: nat, mem: seq<byte>)
    requires Wf(c) && |mem| == c.size
    requires c.rd <= c.wr ==> c.wr + n < U32
    ensures var (p, c') := ProduceStep(c, n);
            && Wf(c') && c'.size == c.size
            && p == Grant(c, n)
            && (p.None? ==> c' == c)
            && (p.Some? ==>
                  && p.value + n <= c.size
                  && (forall i :: p.value <= i < p.value + n ==> !Live(c, i))
                  && Contents(c', mem) == Contents(c, mem) + mem[p.value..p.value + n]
                  && (n > 0 ==> TailAt(c', p.value, n)))
  {
    hide Live, TailAt, Grant, Contents;
    ProduceCursor(c, n);
    if ProduceStep(c, n).0.Some? {
      if c.rd > c.wr {
        EnqueueWrapped(c, n, mem);
      } else if c.wr + n < c.size {
        EnqueueStraight(c, n, mem);
      } else if c.wr + n == c.size {
        EnqueueToEnd(c, n, mem);
      } else {
        EnqueueEarly(c, n, mem);
      }
    }
  }

  /** At most `size - 1` bytes are held; the read size covers all of them or those in front of the wrap, and is
      zero exactly for the empty queue. */
  lemma ContentsSize(c: Cursor, mem: seq<byte>)
    requires Wf(c) && |mem| == c.size
    ensures c.size > 0 ==> |Contents(c, mem)| < c.size
    ensures 0 <= ReadSize(c) <= |Contents(c, mem)|
    ensures ReadSize(c) == 0 <==> Contents(c, mem) == []
    ensures ReadSize(c) == |Contents(c, mem)| || c.rd + ReadSize(c) == c.cur
    ensures 0 <= WriteSize(c)
  {
  }

  /** The write size is exact: requests up to it, and no others, are granted at the write mark. */
  lemma WriteSizeIsExact(c: Cursor, n: nat)
    requires Wf(c) && c.size > 0
    requires c.rd <= c.wr ==> c.wr + n < U32
    ensures ProduceStep(c, n).0 == Some(c.wr) <==> n <= WriteSize(c)
  {
  }

  lemma ReadBound(c: Cursor)
    requires Wf(c)
    ensures c.rd + ReadSize(c) <= c.size < U32 && ReadSize(c) >= 0
  {
  }

  lemma SplitSlice(mem: seq<byte>, a: nat, b: nat, n: nat)
    requires a + n <= b <= |mem|
    ensures mem[a..b][..n] == mem[a..a + n] && mem[a..b][n..] == mem[a + n..b]
  {
  }

  lemma SplitCat(x: seq<byte>, y: seq<byte>, n: nat)
    requires n <= |x|
    ensures (x + y)[..n] == x[..n] && (x + y)[n..] == x[n..] + y
  {
  }

  /** Where consume moves the read mark, with the 32-bit sums resolved. */
  lemma ConsumeCursor(c: Cursor, n: nat)
    requires Wf(c) && c.rd + n < U32
    ensures var (p, c') := ConsumeStep(c, n);
            && Wf(c') && c'.size == c.size && c'.wr == c.wr
            && (p.Some? <==> n <= ReadSize(c))
            && (p.None? ==> c' == c)
            && (p.Some? ==> p.value == c.rd && c.rd + n <= c.size
                            && if c.rd > c.wr && c.rd + n == c.cur then c'.rd == 0
                               else c'.rd == c.rd + n && c'.cur == c.cur)
  {
  }

  /** Consume hands out exactly the oldest bytes, and does so whenever they are contiguous. */
  lemma ConsumeIsDequeue(c: Cursor, n: nat, mem: seq<byte>)
    requires Wf(c) && |mem| == c.size
    requires c.rd + n < U32
    ensures var (p, c') := ConsumeStep(c, n);
            && Wf(c') && c'.size == c.size
            && (p.Some? <==> n <= ReadSize(c))
            && (p.None? ==> c' == c)
            && (p.Some? ==>
                  && p.value + n <= c.size && n <= |Contents(c, mem)|
                  && mem[p.value..p.value + n] == Contents(c, mem)[..n]
                  && Contents(c', mem) == Contents(c, mem)[n..])
  {
    ConsumeCursor(c, n);
    if n <= ReadSize(c) {
      if c.rd <= c.wr {
        SplitSlice(mem, c.rd, c.wr, n);
      } else {
        SplitSlice(mem, c.rd, c.cur, n);
        SplitCat(mem[c.rd..c.cur], mem[..c.wr], n);
        if c.rd + n == c.cur {
          assert mem[c.cur..c.cur] + mem[..c.wr] == mem[0..c.wr];
        }
      }
    }
  }

  /** Consuming the whole read size empties the queue or brings the read mark back to the start. */
  lemma DrainRun(c: Cursor, mem: seq<byte>)
    requires Wf(c) && |mem| == c.size
    ensures var c' := ConsumeStep(c, ReadSize(c)).1;
            Wf(c') && c'.size == c.size && (Contents(c', mem) == [] || c'.rd == 0)
  {
    hide ConsumeStep;
    ConsumeCursor(c, ReadSize(c));
  }

  /** Writing into the tail region changes the last queued bytes and no others. */
  lemma FillChangesTail(c: Cursor, p: nat, data: seq<byte>, mem: seq<byte>)
    requires Wf(c) && |mem| == c.size && TailAt(c, p, |data|) && p + |data| <= c.size
    ensures |Contents(c, mem)| >= |data|
    ensures var mem' := mem[..p] + data + mem[p + |data|..];
            Contents(c, mem') == Contents(c, mem)[..|Contents(c, mem)| - |data|] + data
  {
    var mem' := mem[..p] + data + mem[p + |data|..];
    if c.rd <= c.wr {
      Spliced(mem, p, data, c.rd);
      SplitSlice(mem, c.rd, c.wr, p - c.rd);
    } else if c.wr > 0 {
      Spliced(mem, p, data, 0);
      assert mem'[c.rd..c.cur] == mem[c.rd..c.cur];
      assert mem[..p] == mem[0..p] && mem'[..c.wr] == mem'[0..c.wr];
      TailOfCat(mem[c.rd..c.cur], mem[..c.wr], mem[..p], |data|);
      assert mem[c.rd..c.cur] + (mem[..p] + data) == (mem[c.rd..c.cur] + mem[..p]) + data;
    } else {
      Spliced(mem, p, data, c.rd);
      SplitSlice(mem, c.rd, c.cur, p - c.rd);
      assert mem[c.rd..c.cur] + mem[..0] == mem[c.rd..c.cur] && mem'[c.rd..c.cur] + mem'[..0] == mem'[c.rd..c.cur];
    }
  }

  /** A slice that ends where the new bytes end. */
  lemma Spliced(mem: seq<byte>, p: nat, data: seq<byte>, a: nat)
    requires a <= p && p + |data| <= |mem|
    ensures (mem[..p] + data + mem[p + |data|..])[a..p + |data|] == mem[a..p] + data
  {
  }

  lemma TailOfCat(x: seq<byte>, y: seq<byte>, z: seq<byte>, n: nat)
    requires n <= |y| && z == y[..|y| - n]
    ensures (x + y)[..|x + y| - n] == x + z
  {
  }

  /** The tail region holds the last queued bytes. */
  lemma TailIsRegion(c: Cursor, p: nat, n: nat, mem: seq<byte>)
    requires Wf(c) && |mem| == c.size && TailAt(c, p, n) && p + n <= c.size
    ensures |Contents(c, mem)| >= n
    ensures Contents(c, mem)[|Contents(c, mem)| - n..] == mem[p..p + n]
  {
  }

  /** The exact limit of produce: 32-bit sums keep every grant inside the storage if and only if
      `wr + n` does not overflow while the live bytes are in one piece. */
  lemma ProduceStaysInsideIff(c: Cursor, n: nat)
    requires Wf(c) && n < U32
    ensures (var (p, _) := ProduceStep(c, n); p.Some? ==> p.value + n <= c.size)
            <==> !(c.rd <= c.wr && c.wr + n >= U32)
  {
  }

  /** The exact limit of consume: no byte that was never queued is handed out if and only if
      `rd + n` does not overflow. */
  lemma ConsumeStaysInsideIff(c: Cursor, n: nat)
    requires Wf(c) && n < U32
    ensures (var (p, _) := ConsumeStep(c, n); p.Some? ==> n <= ReadSize(c))
            <==> c.rd + n < U32
  {
  }

  // ---- Whole runs ----

  datatype Op = Put(data: seq<byte>) | Take(n: nat)

  datatype Store = Store(c: Cursor, mem: seq<byte>)

  ghost predicate StoreWf(s: Store) {
    Wf(s.c) && |s.mem| == s.c.size
  }

  /** The request is one whose 32-bit sums cannot overflow on a ring of this size. */
  ghost predicate InRange(op: Op, size: nat) {
    size + (match op case Put(data) => |data| case Take(n) => n) < U32
  }

  datatype Result = Result(store: Store, sent: seq<byte>, got: seq<byte>)

  /** One call: a granted producer region is filled at once; refused calls move no bytes. */
  ghost function Step(s: Store, op: Op): (r: Result)
    requires StoreWf(s) && InRange(op, s.c.size)
    ensures StoreWf(r.store) && r.store.c.size == s.c.size
  {
    match op
    case Put(data) =>
      ProduceIsEnqueue(s.c, |data|, s.mem);
      var (p, c') := ProduceStep(s.c, |data|);
      if p.None? then Result(s, [], [])
      else Result(Store(c', s.mem[..p.value] + data + s.mem[p.value + |data|..]), data, [])
    case Take(n) =>
      ConsumeIsDequeue(s.c, n, s.mem);
      var (p, c') := ConsumeStep(s.c, n);
      if p.None? then Result(s, [], [])
      else Result(Store(c', s.mem), [], s.mem[p.value..p.value + n])
  }

  /** Cells outside the live bytes do not matter. */
  lemma ContentsFrame(c: Cursor, mem: seq<byte>, mem': seq<byte>)
    requires Wf(c) && |mem| == |mem'| == c.size
    requires forall i :: 0 <= i < c.size && Live(c, i) ==> mem[i] == mem'[i]
    ensures Contents(c, mem) == Contents(c, mem')
  {
  }

  lemma PutConserves(s: Store, data: seq<byte>, p: nat, c': Cursor)
    requires StoreWf(s) && s.c.size + |data| < U32
    requires ProduceStep(s.c, |data|) == (Some(p), c')
    ensures Wf(c') && c'.size == s.c.size && p + |data| <= s.c.size
    ensures Contents(c', s.mem[..p] + data + s.mem[p + |data|..]) == Contents(s.c, s.mem) + data
  {
    hide Contents, ProduceStep, Live, TailAt, Grant;
    ProduceCursor(s.c, |data|);
    var mem' := s.mem[..p] + data + s.mem[p + |data|..];
    ContentsFrame(s.c, s.mem, mem');
    assert mem'[p..p + |data|] == data;
    ProduceIsEnqueue(s.c, |data|, mem');
  }

  lemma TakeConserves(s: Store, n: nat, p: nat, c': Cursor)
    requires StoreWf(s) && s.c.size + n < U32
    requires ConsumeStep(s.c, n) == (Some(p), c')
    ensures Wf(c') && c'.size == s.c.size && p + n <= s.c.size
    ensures Contents(s.c, s.mem) == s.mem[p..p + n] + Contents(c', s.mem)
  {
    ConsumeIsDequeue(s.c, n, s.mem);
    var q := Contents(s.c, s.mem);
    assert q[..n] + q[n..] == q;
  }

  lemma StepConserves(s: Store, op: Op)
    requires StoreWf(s) && InRange(op, s.c.size)
    ensures var r := Step(s, op);
            Contents(s.c, s.mem) + r.sent == r.got + Contents(r.store.c, r.store.mem)
  {
    hide Contents, ProduceStep, ConsumeStep;
    match op {
      case Put(data) =>
        var (p, c') := ProduceStep(s.c, |data|);
        if p.Some? {
          PutConserves(s, data, p.value, c');
        }
      case Take(n) =>
        var (p, c') := ConsumeStep(s.c, n);
        if p.Some? {
          TakeConserves(s, n, p.value, c');
        }
    }
  }

  lemma Glue(q: seq<byte>, s1: seq<byte>, g1: seq<byte>, m: seq<byte>, s2: seq<byte>, g2: seq<byte>, q': seq<byte>)
    requires q + s1 == g1 + m && m + s2 == g2 + q'
    ensures q + (s1 + s2) == (g1 + g2) + q'
  {
    assert q + (s1 + s2) == (q + s1) + s2;
    assert (g1 + m) + s2 == g1 + (m + s2);
    assert g1 + (g2 + q') == (g1 + g2) + q';
  }

  ghost function Run(s: Store, ops: seq<Op>): (r: Result)
    requires StoreWf(s) && forall op :: op in ops ==> InRange(op, s.c.size)
    ensures StoreWf(r.store) && r.store.c.size == s.c.size
    decreases |ops|
  {
    if ops == [] then Result(s, [], [])
    else
      var a := Step(s, ops[0]);
      var b := Run(a.store, ops[1..]);
      Result(b.store, a.sent + b.sent, a.got + b.got)
  }

  /** Over every run, through normal and early wraps, the bytes handed out followed by the bytes
      still queued are the bytes accepted, in order. */
  lemma {:induction false} RunIsFifo(s: Store, ops: seq<Op>)
    requires StoreWf(s) && forall op :: op in ops ==> InRange(op, s.c.size)
    ensures var r := Run(s, ops);
            Contents(s.c, s.mem) + r.sent == r.got + Contents(r.store.c, r.store.mem)
    decreases |ops|
  {
    if ops != [] {
      var a := Step(s, ops[0]);
      StepConserves(s, ops[0]);
      var b := Run(a.store, ops[1..]);
      RunIsFifo(a.store, ops[1..]);
      Glue(Contents(s.c, s.mem), a.sent, a.got, Contents(a.store.c, a.store.mem), b.sent, b.got,
           Contents(b.store.c, b.store.mem));
    }
  }

  // ---- The structure, updated in place ----

  class RingBuffer {
    const data: array<byte>
    var curSize: nat
    var rd: nat
    var wr: nat

    ghost function Cur(): (c: Cursor)
      reads this
    {
      Cursor(data.Length, curSize, rd, wr)
    }

    ghost predicate Valid()
      reads this
    {
      Wf(Cur())
    }

    ghost function Queue(): (q: seq<byte>)
      requires Valid()
      reads this, data
    {
      Contents(Cur(), data[..])
    }

    constructor (storage: array<byte>)
      requires storage.Length < U32
      ensures data == storage && Valid() && Queue() == []
      ensures curSize == storage.Length && rd == 0 && wr == 0
    {
      data := storage;
      curSize := storage.Length;
      rd := 0;
      wr := 0;
    }

    method ReadSizeGet() returns (n: nat)
      requires Valid()
      ensures n == ReadSize(Cur()) && n <= |Queue()|
      ensures n == |Queue()| || rd + n == curSize
      ensures n == 0 <==> Queue() == []
    {
      if rd <= wr {
        n := wr - rd;
      } else {
        n := curSize - rd;
      }
    }

    method WriteSizeGet() returns (n: nat)
      requires Valid()
      ensures n == WriteSize(Cur())
      ensures forall k: nat :: 0 < data.Length && wr + k < U32 ==> (ProduceStep(Cur(), k).0 == Some(wr) <==> k <= n)
    {
      forall k: nat | 0 < data.Length && wr + k < U32
        ensures ProduceStep(Cur(), k).0 == Some(wr) <==> k <= WriteSize(Cur())
      {
        WriteSizeIsExact(Cur(), k);
      }
      if rd <= wr {
        n := data.Length - wr;
        if n != 0 && rd == 0 {
          n := n - 1;
        }
      } else {
        n := rd - wr - 1;
      }
    }

    /** Produce's update of the control words. */
    method MoveWr(n: nat) returns (p: Option<nat>)
      requires n < U32
      modifies this
      ensures (p, Cur()) == ProduceStep(old(Cur()), n)
    {
      p := Some(wr);
      if rd <= wr {
        if Plus32(wr, n) >= data.Length {
          if rd == 0 {
            p := None;
          } else if Plus32(wr, n) == data.Length {
            wr := 0;
          } else if n > rd - 1 {
            p := None;
          } else {
            curSize := wr;
            wr := 0;
            p := Some(0);
            if rd == curSize {
              rd := 0;
              if curSize < data.Length {
                curSize := data.Length;
              }
            }
            wr := Plus32(wr, n);
          }
        } else {
          wr := Plus32(wr, n);
        }
      } else if n > rd - wr - 1 {
        p := None;
      } else {
        wr := Plus32(wr, n);
      }
    }

    method Produce(n: nat) returns (p: Option<nat>)
      requires Valid() && n < U32
      requires rd <= wr ==> wr + n < U32
      modifies this
      ensures (p, Cur()) == ProduceStep(old(Cur()), n)
      ensures Valid()
      ensures p == old(Grant(Cur(), n))
      ensures p.None? ==> Queue() == old(Queue()) && Cur() == old(Cur())
      ensures p.Some? ==> p.value + n <= data.Length
                          && Queue() == old(Queue()) + data[..][p.value..p.value + n]
                          && (n > 0 ==> TailAt(Cur(), p.value, n))
    {
      hide Contents, Live, Grant, ProduceStep;
      ghost var before := Cur();
      p := MoveWr(n);
      ProduceIsEnqueue(before, n, data[..]);
    }

    /** Consume's update of the control words. */
    method MoveRd(n: nat) returns (p: Option<nat>)
      modifies this
      ensures (p, Cur()) == ConsumeStep(old(Cur()), n)
    {
      p := Some(rd);
      if rd <= wr {
        if Plus32(rd, n) > wr {
          p := None;
        } else {
          rd := Plus32(rd, n);
        }
      } else if Plus32(rd, n) > curSize {
        p := None;
      } else if Plus32(rd, n) == curSize {
        if curSize < data.Length {
          curSize := data.Length;
        }
        rd := 0;
      } else {
        rd := Plus32(rd, n);
      }
    }

    method Consume(n: nat) returns (p: Option<nat>)
      requires Valid() && n < U32
      requires rd + n < U32
      modifies this
      ensures (p, Cur()) == ConsumeStep(old(Cur()), n)
      ensures Valid()
      ensures p.Some? <==> n <= old(ReadSize(Cur()))
      ensures p.None? ==> Queue() == old(Queue())
      ensures p.Some? ==> p.value + n <= data.Length && n <= |old(Queue())|
                          && data[..][p.value..p.value + n] == old(Queue())[..n]
                          && Queue() == old(Queue())[n..]
      ensures n == old(ReadSize(Cur())) ==> Queue() == [] || rd == 0
    {
      hide Contents, ReadSize, ConsumeStep;
      ghost var before := Cur();
      p := MoveRd(n);
      ConsumeIsDequeue(before, n, data[..]);
      DrainRun(before, data[..]);
    }

    /** The copy into a granted region. */
    method Fill(p: nat, bytes: seq<byte>)
      requires Valid() && TailAt(Cur(), p, |bytes|) && p + |bytes| <= data.Length
      modifies data
      ensures |bytes| <= |old(Queue())|
      ensures Queue() == old(Queue())[..|old(Queue())| - |bytes|] + bytes
    {
      hide Contents;
      FillChangesTail(Cur(), p, bytes, data[..]);
      ghost var before := data[..];
      forall i | 0 <= i < |bytes| {
        data[p + i] := bytes[i];
      }
      assert data[..] == before[..p] + bytes + before[p + |bytes|..];
    }
  }
}

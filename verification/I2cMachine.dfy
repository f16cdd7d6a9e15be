/**
 The I2C master command engine on values: what the driver does with a list of commands, one register program per
 interrupt, and what the hardware makes of it.

 The hardware runs the sixteen command registers from index 0 up to an END or a STOP; bytes that a program does not send
 stay in the transmit FIFO.  `bus(k)` is the k-th byte taken from the receive FIFO in a transfer.
 */
module I2cMachine {
  import opened Bytes

  const FIFO_LEN: nat := 32
  const REG_COUNT: nat := 16

  /** A queued command.  A one-byte write carries its byte. */
  datatype Cmd =
    | Start
    | Stop
    | WriteByte(b: byte, ackEn: bool)
    | Write(data: seq<byte>, ackEn: bool)
    | Read(len: nat, ackVal: bool)

  /** What happens on the bus, byte by byte; `nack` is the acknowledge the master sends. */
  datatype BusOp = BusStart | BusStop | BusWrite(b: byte, ackEn: bool) | BusRead(nack: bool)

  datatype Reg = RegRestart | RegStop | RegWrite(n: nat, ackEn: bool) | RegRead(n: nat, nack: bool) | RegEnd

  datatype Status = Idle | Writing | Reading | AckError | TimedOut | Finished

  datatype Event = Nack | Timeout | ArbitrationLost | EndDetect | TransDone

  // ---- Straight-line meaning of a command list ----

  function Ops(c: Cmd): (ops: seq<BusOp>)
    ensures |ops| == if c.Start? || c.Stop? then 1 else Total(c)
  {
    match c
    case Start => [BusStart]
    case Stop => [BusStop]
    case WriteByte(b, ackEn) => [BusWrite(b, ackEn)]
    case Write(data, ackEn) => Writes(data, ackEn)
    case Read(len, ackVal) => Reads(len, ackVal)
  }

  /** The byte count of a command. */
  function Total(c: Cmd): (n: nat) {
    match c
    case Start => 0
    case Stop => 0
    case WriteByte(_, _) => 1
    case Write(data, _) => |data|
    case Read(len, _) => len
  }

  function Writes(data: seq<byte>, ackEn: bool): (ops: seq<BusOp>)
    ensures |ops| == |data|
  {
    seq(|data|, i requires 0 <= i < |data| => BusWrite(data[i], ackEn))
  }

  function Reads(n: nat, nack: bool): (ops: seq<BusOp>)
    ensures |ops| == n
  {
    seq(n, _ => BusRead(nack))
  }

  function Flatten(cmds: seq<Cmd>): (ops: seq<BusOp>) {
    if cmds == [] then [] else Ops(cmds[0]) + Flatten(cmds[1..])
  }

  lemma {:induction false} FlattenAppend(cmds: seq<Cmd>, c: Cmd)
    ensures Flatten(cmds + [c]) == Flatten(cmds) + Ops(c)
  {
    hide Ops;
    if cmds == [] {
      assert [] + [c] == [c] && [c][1..] == [];
    } else {
      assert (cmds + [c])[1..] == cmds[1..] + [c];
      FlattenAppend(cmds[1..], c);
    }
  }

  /** Number of operations in front of command `k`. */
  function Before(cmds: seq<Cmd>, k: nat): (n: nat)
    requires k <= |cmds|
  {
    |Flatten(cmds[..k])|
  }

  lemma BeforeStep(cmds: seq<Cmd>, k: nat)
    requires k < |cmds|
    ensures Before(cmds, k + 1) == Before(cmds, k) + |Ops(cmds[k])|
  {
    assert cmds[..k + 1] == cmds[..k] + [cmds[k]];
    FlattenAppend(cmds[..k], cmds[k]);
  }

  /** The operations of command `k` lie behind those of the commands before it. */
  lemma {:induction false} OpsAt(cmds: seq<Cmd>, k: nat)
    requires k < |cmds|
    ensures Before(cmds, k) + |Ops(cmds[k])| <= |Flatten(cmds)|
    ensures Flatten(cmds)[Before(cmds, k)..Before(cmds, k) + |Ops(cmds[k])|] == Ops(cmds[k])
    decreases |cmds|
  {
    hide Ops;
    if k == |cmds| - 1 {
      assert cmds == cmds[..k] + [cmds[k]];
      FlattenAppend(cmds[..k], cmds[k]);
    } else {
      var front, last := cmds[..|cmds| - 1], cmds[|cmds| - 1];
      assert cmds == front + [last] && front[..k] == cmds[..k] && front[k] == cmds[k];
      OpsAt(front, k);
      FlattenAppend(front, last);
    }
  }

  lemma BeforeAll(cmds: seq<Cmd>)
    ensures Before(cmds, |cmds|) == |Flatten(cmds)|
  {
    assert cmds[..|cmds|] == cmds;
  }

  lemma SliceWithin(f: seq<BusOp>, p: nat, len: nat, a: nat, b: nat)
    requires p + len <= |f| && a <= b <= len
    ensures f[p + a..p + b] == f[p..p + len][a..b]
  {
    var x, y := f[p + a..p + b], f[p..p + len][a..b];
    forall i | 0 <= i < b - a ensures x[i] == y[i] {
      assert y[i] == f[p..p + len][a + i];
    }
  }

  lemma OpsSlice(cmds: seq<Cmd>, k: nat, a: nat, b: nat)
    requires k < |cmds| && a <= b <= |Ops(cmds[k])|
    ensures Before(cmds, k) + b <= |Flatten(cmds)|
    ensures Flatten(cmds)[Before(cmds, k) + a..Before(cmds, k) + b] == Ops(cmds[k])[a..b]
  {
    hide Ops, Flatten, Before;
    OpsAt(cmds, k);
    SliceWithin(Flatten(cmds), Before(cmds, k), |Ops(cmds[k])|, a, b);
  }

  // ---- The hardware ----

  /** The bus operations of the register program, with `fifo` in the transmit FIFO. */
  function Execute(regs: seq<Reg>, i: nat, fifo: seq<byte>): (ops: seq<BusOp>)
    decreases |regs| - i
  {
    if i >= |regs| then []
    else
      match regs[i]
      case RegRestart => [BusStart] + Execute(regs, i + 1, fifo)
      case RegStop => [BusStop]
      case RegWrite(n, ackEn) =>
        if n <= |fifo| then Writes(fifo[..n], ackEn) + Execute(regs, i + 1, fifo[n..]) else Writes(fifo, ackEn)
      case RegRead(n, nack) => Reads(n, nack) + Execute(regs, i + 1, fifo)
      case RegEnd => []
  }

  /** What the program leaves in the transmit FIFO. */
  function Unsent(regs: seq<Reg>, i: nat, fifo: seq<byte>): (rest: seq<byte>)
    decreases |regs| - i
  {
    if i >= |regs| then fifo
    else
      match regs[i]
      case RegRestart => Unsent(regs, i + 1, fifo)
      case RegStop => fifo
      case RegWrite(n, _) => if n <= |fifo| then Unsent(regs, i + 1, fifo[n..]) else []
      case RegRead(_, _) => Unsent(regs, i + 1, fifo)
      case RegEnd => fifo
  }

  // ---- The driver ----

  /** Position in the list, progress counts and read buffers of its commands, and the driver's own variables. */
  datatype Machine = Machine(
    pos: nat,
    used: seq<nat>,
    bufs: seq<seq<byte>>,
    status: Status,
    rxCnt: nat,
    regs: seq<Reg>,
    fifo: seq<byte>,
    issued: seq<BusOp>,   // operations of all programs started so far
    got: seq<byte>,       // bytes taken from the receive FIFO
    signalled: bool)      // the DONE event has been queued

  ghost predicate Shape(cmds: seq<Cmd>, m: Machine) {
    && |m.used| == |m.bufs| == |cmds| && m.pos <= |cmds| && |m.regs| == REG_COUNT
    && (forall i :: 0 <= i < |cmds| ==> m.used[i] <= Total(cmds[i]))
    && (forall i :: 0 <= i < |cmds| ==> |m.bufs[i]| == if cmds[i].Read? then cmds[i].len else 0)
  }

  /** Bytes awaited belong to the read command at the head. */
  ghost predicate ReadOk(cmds: seq<Cmd>, m: Machine)
    requires Shape(cmds, m)
  {
    m.status == Reading && m.pos < |cmds| ==> cmds[m.pos].Read? && m.used[m.pos] + m.rxCnt <= cmds[m.pos].len
  }

  /** On to the next command, whose progress count is cleared. */
  function Next(m: Machine): (m': Machine) {
    m.(pos := m.pos + 1, used := if m.pos + 1 < |m.used| then m.used[m.pos + 1 := 0] else m.used)
  }

  function Chunk(left: nat): (n: nat) {
    if left < FIFO_LEN then left else FIFO_LEN
  }

  /** The register of a transfer, closed by an END. */
  function Closed(regs: seq<Reg>, idx: nat, r: Reg): (s: seq<Reg>)
    requires idx + 1 < |regs|
  {
    regs[idx := r][idx + 1 := RegEnd]
  }

  /** The register and the byte of a one-byte write. */
  function PutByte(m: Machine, idx: nat, b: byte, ackEn: bool): (m': Machine)
    requires idx + 1 < |m.regs|
  {
    Next(m.(regs := Closed(m.regs, idx, RegWrite(1, ackEn)), fifo := m.fifo + [b], status := Writing))
  }

  /** The register and the next bytes of a longer write. */
  function PutData(m: Machine, idx: nat, data: seq<byte>, ackEn: bool): (m': Machine)
    requires idx + 1 < |m.regs| && m.pos < |m.used| && m.used[m.pos] <= |data|
  {
    var u := m.used[m.pos];
    var k := Chunk(|data| - u);
    var m1 := m.(regs := Closed(m.regs, idx, RegWrite(k, ackEn)), fifo := m.fifo + data[u..u + k],
                 used := m.used[m.pos := u + k], status := Writing);
    if u + k == |data| then Next(m1) else m1
  }

  /** The register of the next bytes of a read. */
  function PutFetch(m: Machine, idx: nat, len: nat, ackVal: bool): (m': Machine)
    requires idx + 1 < |m.regs| && m.pos < |m.used| && m.used[m.pos] <= len
  {
    var k := Chunk(len - m.used[m.pos]);
    m.(regs := Closed(m.regs, idx, RegRead(k, ackVal)), rxCnt := k, status := Reading)
  }

  /** The register of a START or STOP. */
  function PutMark(m: Machine, idx: nat, r: Reg): (m': Machine)
    requires idx < |m.regs|
  {
    m.(regs := m.regs[idx := r], pos := m.pos + 1)
  }

  /** One turn of the register loop, and whether it goes on. */
  function Put(cmds: seq<Cmd>, m: Machine, idx: nat): (r: (Machine, bool))
    requires Shape(cmds, m) && m.pos < |cmds| && idx < 15
    ensures Shape(cmds, r.0) && m.pos <= r.0.pos && (r.1 ==> m.pos < r.0.pos < |cmds| && idx + 1 < 15)
  {
    match cmds[m.pos]
    case WriteByte(b, ackEn) => (PutByte(m, idx, b, ackEn), false)
    case Write(data, ackEn) => (PutData(m, idx, data, ackEn), false)
    case Read(len, ackVal) => (PutFetch(m, idx, len, ackVal), false)
    case Start => (PutMark(m, idx, RegRestart), m.pos + 1 < |cmds| && idx + 1 < 15)
    case Stop => (PutMark(m, idx, RegStop), m.pos + 1 < |cmds| && idx + 1 < 15)
  }

  function Fill(cmds: seq<Cmd>, m: Machine, idx: nat): (m': Machine)
    requires Shape(cmds, m) && m.pos < |cmds| && idx < 15
    ensures Shape(cmds, m') && m.pos <= m'.pos
    decreases |cmds| - m.pos
  {
    var (m1, more) := Put(cmds, m, idx);
    if more then Fill(cmds, m1, idx + 1) else m1
  }

  /** The program runs. */
  function Launch(m: Machine): (m': Machine) {
    m.(issued := m.issued + Execute(m.regs, 0, m.fifo), fifo := Unsent(m.regs, 0, m.fifo))
  }

  function Received(m: Machine, bus: nat -> byte): (bytes: seq<byte>)
    ensures |bytes| == m.rxCnt
  {
    seq(m.rxCnt, i requires i >= 0 => bus(|m.got| + i))
  }

  function Overlay(buf: seq<byte>, at: nat, bytes: seq<byte>): (r: seq<byte>)
    requires at + |bytes| <= |buf|
    ensures |r| == |buf|
  {
    buf[..at] + bytes + buf[at + |bytes|..]
  }

  /** Takes in the bytes of the finished read program. */
  function Collect(cmds: seq<Cmd>, m: Machine, bus: nat -> byte): (m': Machine)
    requires Shape(cmds, m) && ReadOk(cmds, m) && m.pos < |cmds| && m.status == Reading
    ensures Shape(cmds, m')
  {
    var p, u, bytes := m.pos, m.used[m.pos], Received(m, bus);
    var m1 := m.(used := m.used[p := u + m.rxCnt], bufs := m.bufs[p := Overlay(m.bufs[p], u, bytes)],
                 got := m.got + bytes);
    if u + m.rxCnt == cmds[p].len then Next(m1) else m1
  }

  predicate Failed(m: Machine) {
    m.status == AckError || m.status == TimedOut
  }

  /** Collects what was read. */
  function Settle(cmds: seq<Cmd>, m: Machine, bus: nat -> byte): (m': Machine)
    requires Shape(cmds, m) && ReadOk(cmds, m)
    ensures Shape(cmds, m')
  {
    if m.pos < |cmds| && m.status == Reading then Collect(cmds, m, bus) else m
  }

  /** One call of `i2c_master_cmd_begin_static`. */
  function Begin(cmds: seq<Cmd>, m: Machine, bus: nat -> byte): (m': Machine)
    requires Shape(cmds, m) && ReadOk(cmds, m)
    ensures Shape(cmds, m')
  {
    if Failed(m) then m.(signalled := true)
    else if m.status == Finished then m
    else
      var m1 := Settle(cmds, m, bus);
      if m1.pos == |cmds| then m1.(signalled := true, status := Idle) else Launch(Fill(cmds, m1, 0))
  }

  /** At most fourteen START and STOP commands follow one another, so that the register loop reaches a transfer. */
  predicate ShortRuns(cmds: seq<Cmd>) {
    forall i :: 0 <= i < |cmds| ==> RunWithin(cmds, i, 14)
  }

  /** A READ does not directly follow a START or STOP, so that its register is the first. */
  predicate ReadsFollow(cmds: seq<Cmd>) {
    forall i :: 0 <= i && i + 1 < |cmds| ==> ReadFollows(cmds, i)
  }

  predicate ReadFollows(cmds: seq<Cmd>, i: nat)
    requires i + 1 < |cmds|
  {
    Transfer(cmds[i]) || !cmds[i + 1].Read?
  }

  predicate RunWithin(cmds: seq<Cmd>, i: nat, k: nat)
    decreases k
  {
    i >= |cmds| || !(cmds[i].Start? || cmds[i].Stop?) || (k > 0 && RunWithin(cmds, i + 1, k - 1))
  }

  lemma PutEnds(cmds: seq<Cmd>, m: Machine, idx: nat)
    requires Shape(cmds, m) && m.pos < |cmds| && idx < 15
    ensures var (m1, more) := Put(cmds, m, idx);
            && m1.signalled == m.signalled && m1.issued == m.issued
            && if Transfer(cmds[m.pos]) then !more && ReadOk(cmds, m1) && (m1.status == Writing || m1.status == Reading)
               else m1.status == m.status && m1.pos == m.pos + 1 && (more <==> m.pos + 1 < |cmds| && idx + 1 < 15)
  {
  }

  /** The register loop ends at a transfer or at the end of the list. */
  lemma {:induction false} FillEnds(cmds: seq<Cmd>, m: Machine, idx: nat)
    requires Shape(cmds, m) && m.pos < |cmds| && idx < 15 && RunWithin(cmds, m.pos, 14 - idx)
    ensures var m' := Fill(cmds, m, idx);
            && ReadOk(cmds, m')
            && m'.signalled == m.signalled && m'.issued == m.issued
            && if exists i :: m.pos <= i < |cmds| && Transfer(cmds[i])
               then m'.status == Writing || m'.status == Reading
               else m'.status == m.status && m'.pos == |cmds|
    decreases |cmds| - m.pos
  {
    hide Put, Shape;
    var (m1, more) := Put(cmds, m, idx);
    PutEnds(cmds, m, idx);
    if more {
      FillEnds(cmds, m1, idx + 1);
      assert (exists i :: m.pos <= i < |cmds| && Transfer(cmds[i]))
         <==> (exists i :: m1.pos <= i < |cmds| && Transfer(cmds[i]));
    }
  }

  predicate Transfer(c: Cmd) {
    !c.Start? && !c.Stop?
  }

  lemma BeginKeeps(cmds: seq<Cmd>, m: Machine, bus: nat -> byte)
    requires Shape(cmds, m) && ReadOk(cmds, m) && ShortRuns(cmds)
    ensures ReadOk(cmds, Begin(cmds, m, bus))
  {
    var m1 := Settle(cmds, m, bus);
    if !Failed(m) && m.status != Finished && m1.pos < |cmds| {
      FillEnds(cmds, m1, 0);
    }
  }

  // ---- Whole transfers ----

  /** The master half of the interrupt handler. */
  function OnEvent(cmds: seq<Cmd>, m: Machine, e: Event, bus: nat -> byte): (m': Machine)
    requires Shape(cmds, m) && ReadOk(cmds, m)
    ensures Shape(cmds, m')
  {
    if m.status != Writing && m.status != Reading then m
    else
      match e
      case Nack => Begin(cmds, m.(status := AckError), bus)
      case Timeout => Begin(cmds, m.(status := TimedOut), bus)
      case ArbitrationLost => Begin(cmds, m.(status := TimedOut), bus)
      case EndDetect => Begin(cmds, m, bus)
      case TransDone => Begin(cmds, m, bus)
  }

  lemma OnEventKeeps(cmds: seq<Cmd>, m: Machine, e: Event, bus: nat -> byte)
    requires Shape(cmds, m) && ReadOk(cmds, m) && ShortRuns(cmds)
    ensures ReadOk(cmds, OnEvent(cmds, m, e, bus))
  {
    hide Begin;
    BeginKeeps(cmds, m, bus);
    BeginKeeps(cmds, m.(status := AckError), bus);
    BeginKeeps(cmds, m.(status := TimedOut), bus);
  }

  /** The wait for DONE, interrupted by these events. */
  function Serve(cmds: seq<Cmd>, m: Machine, events: seq<Event>, bus: nat -> byte): (m': Machine)
    requires Shape(cmds, m) && ReadOk(cmds, m) && ShortRuns(cmds)
    ensures Shape(cmds, m') && ReadOk(cmds, m')
    decreases |events|
  {
    if events == [] || m.signalled then m
    else
      OnEventKeeps(cmds, m, events[0], bus);
      Serve(cmds, OnEvent(cmds, m, events[0], bus), events[1..], bus)
  }

  /** What `i2c_master_cmd_begin` sets up: only the first progress count is cleared. */
  function Loaded(used: seq<nat>, bufs: seq<seq<byte>>, regs: seq<Reg>): (m: Machine)
    requires used != []
  {
    Machine(0, used[0 := 0], bufs, Idle, 0, regs, [], [], [], false)
  }

  /** A transfer, from the progress counts, buffers and registers an earlier one left. */
  function Run(cmds: seq<Cmd>, m: Machine, events: seq<Event>, bus: nat -> byte): (m': Machine)
    requires Shape(cmds, m) && ReadOk(cmds, m) && ShortRuns(cmds)
    ensures Shape(cmds, m') && ReadOk(cmds, m')
  {
    BeginKeeps(cmds, m, bus);
    Serve(cmds, Begin(cmds, m, bus), events, bus)
  }

  function Verdict(m: Machine): (s: Status) {
    if !m.signalled then TimedOut else if Failed(m) then m.status else Idle
  }

  // ---- How far the list has come ----

  /** Bytes done of the command at the head. */
  function Done(cmds: seq<Cmd>, m: Machine): (n: nat)
    requires |m.used| == |cmds|
  {
    if m.pos < |cmds| && (cmds[m.pos].Write? || cmds[m.pos].Read?) then m.used[m.pos] else 0
  }

  /** Bytes of the command at the head that the running program fetches. */
  function InFlight(cmds: seq<Cmd>, m: Machine): (n: nat) {
    if m.pos < |cmds| && m.status == Reading then m.rxCnt else 0
  }

  /** Operations of the list up to where a program begins, and up to where the running one ends. */
  function From(cmds: seq<Cmd>, m: Machine): (n: nat)
    requires |m.used| == |cmds| && m.pos <= |cmds|
  {
    Before(cmds, m.pos) + Done(cmds, m)
  }

  function Reached(cmds: seq<Cmd>, m: Machine): (n: nat)
    requires |m.used| == |cmds| && m.pos <= |cmds|
  {
    From(cmds, m) + InFlight(cmds, m)
  }

  lemma ReachedBound(cmds: seq<Cmd>, m: Machine)
    requires Shape(cmds, m) && ReadOk(cmds, m)
    ensures From(cmds, m) <= Reached(cmds, m) <= |Flatten(cmds)|
    ensures m.pos == |cmds| ==> From(cmds, m) == |Flatten(cmds)|
  {
    hide Flatten, Before;
    if m.pos < |cmds| {
      OpsAt(cmds, m.pos);
    } else {
      BeforeAll(cmds);
    }
  }

  /** Collecting does not change how far the list has come. */
  lemma SettleReaches(cmds: seq<Cmd>, m: Machine, bus: nat -> byte)
    requires Shape(cmds, m) && ReadOk(cmds, m)
    ensures var m1 := Settle(cmds, m, bus);
            && From(cmds, m1) == Reached(cmds, m) && m1.pos >= m.pos
            && m1.issued == m.issued && m1.fifo == m.fifo && m1.status == m.status && m1.signalled == m.signalled
  {
    hide Flatten, Before;
    if m.pos < |cmds| {
      BeforeStep(cmds, m.pos);
    }
  }

  // ---- Lists that are done as written ----

  /** A START is followed by a write, and a READ does not directly follow a START or STOP. */
  predicate Serviceable(cmds: seq<Cmd>) {
    ShortRuns(cmds) && forall i :: 0 <= i < |cmds| ==> ServiceableAt(cmds, i)
  }

  predicate ServiceableAt(cmds: seq<Cmd>, i: nat)
    requires i < |cmds|
  {
    && (cmds[i].Start? ==> i + 1 < |cmds| && (cmds[i + 1].WriteByte? || cmds[i + 1].Write?))
    && (cmds[i].Stop? && i + 1 < |cmds| ==> !cmds[i + 1].Read?)
  }

  /** A STOP in front of a command that has something to do. */
  predicate Overrun(cmds: seq<Cmd>, i: nat) {
    i + 1 < |cmds| && cmds[i].Stop? && Ops(cmds[i + 1]) != []
  }

  /** Every STOP is last, or followed by a write of no bytes. */
  predicate StopsEnd(cmds: seq<Cmd>) {
    forall i :: 0 <= i < |cmds| ==> !Overrun(cmds, i)
  }

  /** A START in front of a longer write whose progress count an earlier run left behind: the count is not cleared. */
  predicate Lag(cmds: seq<Cmd>, used: seq<nat>, i: nat) {
    i + 1 < |cmds| == |used| && cmds[i].Start? && cmds[i + 1].Write? && used[i + 1] > 0
  }

  predicate NoLag(cmds: seq<Cmd>, used: seq<nat>) {
    forall i :: 0 <= i < |cmds| ==> !Lag(cmds, used, i)
  }

  /** The commands are in order for a run from these progress counts. */
  predicate InOrder(cmds: seq<Cmd>, used: seq<nat>) {
    StopsEnd(cmds) && NoLag(cmds, used)
  }

  predicate Amiss(cmds: seq<Cmd>, used: seq<nat>, i: nat) {
    Overrun(cmds, i) || Lag(cmds, used, i)
  }

  /** The counts behind the head are still those of the start; in front of it, those of longer writes are used up. */
  ghost predicate Steady(cmds: seq<Cmd>, m: Machine, used: seq<nat>) {
    && |cmds| == |m.used| == |used| && (forall j :: m.pos < j < |used| ==> m.used[j] == used[j])
    && (forall j :: 0 <= j < m.pos <= |cmds| && cmds[j].Write? ==> m.used[j] == |cmds[j].data|)
  }

  /** Bytes of the next program of a transfer. */
  function NextBytes(c: Cmd, u: nat): (n: nat)
    requires u <= Total(c)
  {
    if c.WriteByte? then 1 else Chunk(Total(c) - u)
  }

  /** What a register for the next bytes of `c` looks like, and the bytes it finds in the FIFO. */
  ghost predicate Programmed(c: Cmd, u: nat, r: Reg, fifo: seq<byte>)
    requires u <= Total(c)
  {
    match c
    case WriteByte(b, ackEn) => u == 0 && r == RegWrite(1, ackEn) && fifo == [b]
    case Write(data, ackEn) => r == RegWrite(NextBytes(c, u), ackEn) && fifo == data[u..u + NextBytes(c, u)]
    case Read(len, ackVal) => r == RegRead(NextBytes(c, u), ackVal) && fifo == []
    case _ => false
  }

  /** Where the program of a transfer ends in the list. */
  lemma PutReaches(cmds: seq<Cmd>, m: Machine, idx: nat)
    requires Shape(cmds, m) && m.pos < |cmds| && idx < 15 && Transfer(cmds[m.pos])
    ensures var u := Done(cmds, m);
            u <= Total(cmds[m.pos]) && Reached(cmds, Put(cmds, m, idx).0) == From(cmds, m) + NextBytes(cmds[m.pos], u)
  {
    hide Flatten, Before;
    BeforeStep(cmds, m.pos);
  }

  lemma PutTransfer(cmds: seq<Cmd>, m: Machine, idx: nat)
    requires Shape(cmds, m) && m.pos < |cmds| && idx < 15 && Transfer(cmds[m.pos])
    ensures var (m1, more) := Put(cmds, m, idx);
            var u := Done(cmds, m);
            && !more && u <= Total(cmds[m.pos]) && m.fifo <= m1.fifo
            && Programmed(cmds[m.pos], u, m1.regs[idx], m1.fifo[|m.fifo|..])
            && m1.regs[idx + 1] == RegEnd && m1.regs[..idx] == m.regs[..idx]
  {
  }

  lemma WriteDoes(data: seq<byte>, ackEn: bool, u: nat, k: nat, regs: seq<Reg>, idx: nat)
    requires idx + 1 < |regs| && regs[idx + 1] == RegEnd && u + k <= |data| && regs[idx] == RegWrite(k, ackEn)
    ensures Execute(regs, idx, data[u..u + k]) == Writes(data, ackEn)[u..u + k]
    ensures Unsent(regs, idx, data[u..u + k]) == []
  {
    var fifo := data[u..u + k];
    assert fifo[..k] == fifo && fifo[k..] == [];
    assert Execute(regs, idx + 1, []) == [] && Unsent(regs, idx + 1, []) == [];
    assert Execute(regs, idx, fifo) == Writes(fifo, ackEn);
  }

  lemma ReadDoes(len: nat, nack: bool, u: nat, k: nat, regs: seq<Reg>, idx: nat)
    requires idx + 1 < |regs| && regs[idx + 1] == RegEnd && u + k <= len && regs[idx] == RegRead(k, nack)
    ensures Execute(regs, idx, []) == Reads(len, nack)[u..u + k]
    ensures Unsent(regs, idx, []) == []
  {
    assert Execute(regs, idx + 1, []) == [] && Unsent(regs, idx + 1, []) == [];
    assert Execute(regs, idx, []) == Reads(k, nack);
  }

  /** A closed write or read register does the next bytes of its command. */
  lemma ProgramDoes(c: Cmd, u: nat, regs: seq<Reg>, idx: nat, fifo: seq<byte>)
    requires idx + 1 < |regs| && regs[idx + 1] == RegEnd && u <= Total(c) && Programmed(c, u, regs[idx], fifo)
    ensures u + NextBytes(c, u) <= |Ops(c)|
    ensures Execute(regs, idx, fifo) == Ops(c)[u..u + NextBytes(c, u)]
    ensures Unsent(regs, idx, fifo) == []
  {
    hide Execute, Unsent;
    match c {
      case WriteByte(b, ackEn) =>
        WriteDoes([b], ackEn, 0, 1, regs, idx);
        assert [b][0..1] == [b] && Writes([b], ackEn) == Ops(c);
      case Write(data, ackEn) => WriteDoes(data, ackEn, u, NextBytes(c, u), regs, idx);
      case Read(len, ackVal) => ReadDoes(len, ackVal, u, NextBytes(c, u), regs, idx);
      case _ =>
    }
  }

  /** The registers of a transfer, written from `idx` on, do the next operations of the list. */
  lemma TransferProgram(cmds: seq<Cmd>, m: Machine, idx: nat)
    requires Shape(cmds, m) && m.pos < |cmds| && idx < 15 && Transfer(cmds[m.pos]) && m.fifo == []
    ensures var (m1, more) := Put(cmds, m, idx);
            && !more && From(cmds, m) <= Reached(cmds, m1) <= |Flatten(cmds)|
            && Execute(m1.regs, idx, m1.fifo) == Flatten(cmds)[From(cmds, m)..Reached(cmds, m1)]
            && Unsent(m1.regs, idx, m1.fifo) == []
            && m1.regs[..idx] == m.regs[..idx]
  {
    hide Put, Flatten, Before, Execute, Unsent, Programmed, Ops, Reached;
    PutTransfer(cmds, m, idx);
    PutReaches(cmds, m, idx);
    var c, u := cmds[m.pos], Done(cmds, m);
    var (m1, _) := Put(cmds, m, idx);
    assert m1.fifo[0..] == m1.fifo;
    ProgramDoes(c, u, m1.regs, idx, m1.fifo);
    OpsSlice(cmds, m.pos, u, u + NextBytes(c, u));
  }

  lemma ControlProgram(cmds: seq<Cmd>, m: Machine, idx: nat)
    requires Shape(cmds, m) && m.pos < |cmds| && idx < 15 && !Transfer(cmds[m.pos])
    ensures var (m1, _) := Put(cmds, m, idx);
            && From(cmds, m) + 1 == Before(cmds, m.pos + 1) <= |Flatten(cmds)|
            && [Flatten(cmds)[From(cmds, m)]] == Ops(cmds[m.pos])
            && m1.pos == m.pos + 1 && m1.fifo == m.fifo && m1.used == m.used
            && m1.regs == m.regs[idx := if cmds[m.pos].Start? then RegRestart else RegStop]
  {
    hide Flatten, Before;
    BeforeStep(cmds, m.pos);
    OpsSlice(cmds, m.pos, 0, 1);
  }

  /** The program of `m` does the operations of the list from `a` to `b`, and empties the FIFO. */
  ghost predicate Does(cmds: seq<Cmd>, m: Machine, a: nat, b: nat) {
    && a <= b <= |Flatten(cmds)|
    && Execute(m.regs, 0, m.fifo) == Flatten(cmds)[a..b]
    && Unsent(m.regs, 0, m.fifo) == []
  }

  lemma StartFirst(cmds: seq<Cmd>, m: Machine)
    requires Shape(cmds, m) && m.pos < |cmds| && m.fifo == [] && cmds[m.pos].Start? && ServiceableAt(cmds, m.pos)
    requires !Lag(cmds, m.used, m.pos)
    ensures var m' := Fill(cmds, m, 0); Does(cmds, m', From(cmds, m), Reached(cmds, m'))
  {
    hide Flatten, Before, Put, Ops, Reached, Fill, Execute, Unsent, From, Shape;
    FillTwo(cmds, m);
    ControlProgram(cmds, m, 0);
    var m1 := Put(cmds, m, 0).0;
    var m' := Put(cmds, m1, 1).0;
    Sizes(cmds, m);
    Sizes(cmds, m1);
    Sizes(cmds, m');
    FromStart(cmds, m1);
    TransferProgram(cmds, m1, 1);
    assert m'.regs[0] == m'.regs[..1][0] == m1.regs[0];
    RestartExecutes(m'.regs, m'.fifo);
    StartOps(cmds[m.pos]);
    OneMore(Flatten(cmds), From(cmds, m), Reached(cmds, m'), BusStart, Execute(m'.regs, 1, m'.fifo));
  }

  lemma Sizes(cmds: seq<Cmd>, m: Machine)
    requires Shape(cmds, m)
    ensures |m.used| == |cmds| && m.pos <= |cmds| && |m.regs| == REG_COUNT
  {
  }

  lemma FromStart(cmds: seq<Cmd>, m: Machine)
    requires Shape(cmds, m) && m.pos < |cmds|
    requires cmds[m.pos].WriteByte? || (cmds[m.pos].Write? && m.used[m.pos] == 0)
    ensures From(cmds, m) == Before(cmds, m.pos)
  {
  }

  lemma RestartExecutes(regs: seq<Reg>, fifo: seq<byte>)
    requires |regs| > 1 && regs[0] == RegRestart
    ensures Execute(regs, 0, fifo) == [BusStart] + Execute(regs, 1, fifo)
    ensures Unsent(regs, 0, fifo) == Unsent(regs, 1, fifo)
  {
  }

  lemma StartOps(c: Cmd)
    requires c.Start?
    ensures Ops(c) == [BusStart]
  {
  }

  lemma OneMore(ops: seq<BusOp>, a: nat, b: nat, op: BusOp, rest: seq<BusOp>)
    requires a < b <= |ops| && [ops[a]] == [op] && rest == ops[a + 1..b]
    ensures [op] + rest == ops[a..b]
  {
  }

  lemma StopFirst(cmds: seq<Cmd>, m: Machine)
    requires Shape(cmds, m) && m.pos < |cmds| && m.fifo == [] && cmds[m.pos].Stop?
    requires ServiceableAt(cmds, m.pos) && !Overrun(cmds, m.pos)
    ensures var m' := Fill(cmds, m, 0); Does(cmds, m', From(cmds, m), Reached(cmds, m'))
  {
    hide Flatten, Before, Fill, Put, Reached;
    ControlProgram(cmds, m, 0);
    if m.pos + 1 < |cmds| {
      StopThenNothing(cmds, m);
    } else {
      StopLast(cmds, m);
    }
    var m' := Fill(cmds, m, 0);
    var a := From(cmds, m);
    assert Ops(cmds[m.pos]) == [BusStop];
    assert Execute(m'.regs, 0, m'.fifo) == [BusStop] == Flatten(cmds)[a..a + 1];
  }

  lemma StopThenNothing(cmds: seq<Cmd>, m: Machine)
    requires Shape(cmds, m) && m.pos + 1 < |cmds| && m.fifo == [] && cmds[m.pos].Stop?
    requires ServiceableAt(cmds, m.pos) && !Overrun(cmds, m.pos)
    ensures var m' := Fill(cmds, m, 0);
            m'.regs[0] == RegStop && m'.fifo == [] && Reached(cmds, m') == Before(cmds, m.pos + 1)
  {
    hide Flatten, Before, Reached, Put, Fill;
    assert Total(cmds[m.pos + 1]) == 0;
    hide Ops;
    FillTwo(cmds, m);
    var m1, m' := Put(cmds, m, 0).0, Fill(cmds, m, 0);
    ControlProgram(cmds, m, 0);
    PutTransfer(cmds, m1, 1);
    PutReaches(cmds, m1, 1);
    assert m'.regs[0] == m'.regs[..1][0] == m1.regs[0];
  }

  lemma StopLast(cmds: seq<Cmd>, m: Machine)
    requires Shape(cmds, m) && m.pos + 1 == |cmds| && m.fifo == [] && cmds[m.pos].Stop?
    ensures var m' := Fill(cmds, m, 0);
            m'.regs[0] == RegStop && m'.fifo == [] && Reached(cmds, m') == Before(cmds, m.pos + 1)
  {
    hide Before;
  }

  /** The register loop over a START or STOP and the transfer behind it. */
  lemma FillTwo(cmds: seq<Cmd>, m: Machine)
    requires Shape(cmds, m) && m.pos + 1 < |cmds| && !Transfer(cmds[m.pos])
    ensures var m1 := Put(cmds, m, 0).0;
            m1.pos == m.pos + 1 && (Transfer(cmds[m1.pos]) ==> Fill(cmds, m, 0) == Put(cmds, m1, 1).0)
  {
  }

  /** One program of a list that is in order does exactly the operations that come next. */
  lemma FillSound(cmds: seq<Cmd>, used: seq<nat>, m: Machine)
    requires Shape(cmds, m) && m.pos < |cmds| && m.fifo == [] && Serviceable(cmds)
    requires InOrder(cmds, used) && Steady(cmds, m, used)
    ensures var m' := Fill(cmds, m, 0); Does(cmds, m', From(cmds, m), Reached(cmds, m'))
  {
    hide Flatten, Before, Execute, Unsent, Reached, From, Put;
    var c := cmds[m.pos];
    assert ServiceableAt(cmds, m.pos) && !Overrun(cmds, m.pos) && !Lag(cmds, used, m.pos);
    if Transfer(c) {
      TransferProgram(cmds, m, 0);
    } else if c.Start? {
      StartFirst(cmds, m);
    } else {
      StopFirst(cmds, m);
    }
  }

  // ---- What a list that is not in order loses ----

  /** Registers from `idx` on do no more than the list advances from `m` to `m'`, and less if it passes a place where
      something is amiss. */
  ghost predicate Counted(cmds: seq<Cmd>, used: seq<nat>, m: Machine, m': Machine, idx: nat, fifo: seq<byte>)
    requires Shape(cmds, m) && Shape(cmds, m') && m.pos < |cmds| && idx < REG_COUNT
  {
    && m'.regs[..idx] == m.regs[..idx]
    && Reached(cmds, m') >= Before(cmds, m.pos) + (if Ops(cmds[m.pos]) != [] then 1 else 0)
    && From(cmds, m) + |Execute(m'.regs, idx, fifo)| <= Reached(cmds, m')
    && ((exists i :: m.pos <= i < m'.pos && Amiss(cmds, used, i)) ==>
          From(cmds, m) + |Execute(m'.regs, idx, fifo)| < Reached(cmds, m'))
  }

  lemma TransferCounts(cmds: seq<Cmd>, used: seq<nat>, m: Machine, idx: nat, fifo: seq<byte>)
    requires Shape(cmds, m) && m.pos < |cmds| && idx < 15 && Transfer(cmds[m.pos])
    ensures !Put(cmds, m, idx).1 && Counted(cmds, used, m, Put(cmds, m, idx).0, idx, fifo)
  {
    var m1 := Put(cmds, m, idx).0;
    assert m1.pos <= m.pos + 1;
    hide Flatten, Before, Put, Reached;
    PutTransfer(cmds, m, idx);
    PutReaches(cmds, m, idx);
    ProgramCounts(cmds[m.pos], Done(cmds, m), m1.regs, idx, m1.fifo[|m.fifo|..], fifo);
  }

  lemma ProgramCounts(c: Cmd, u: nat, regs: seq<Reg>, idx: nat, bytes: seq<byte>, fifo: seq<byte>)
    requires idx + 1 < |regs| && regs[idx + 1] == RegEnd && u <= Total(c) && Programmed(c, u, regs[idx], bytes)
    ensures |Execute(regs, idx, fifo)| <= NextBytes(c, u)
    ensures Ops(c) != [] ==> u + NextBytes(c, u) > 0
  {
    assert Execute(regs, idx + 1, fifo) == [];
    if regs[idx].RegWrite? && regs[idx].n <= |fifo| {
      assert Execute(regs, idx + 1, fifo[regs[idx].n..]) == [];
    }
  }

  lemma ControlCounts(cmds: seq<Cmd>, used: seq<nat>, m: Machine, m1: Machine, m': Machine, idx: nat, fifo: seq<byte>)
    requires Shape(cmds, m) && m.pos + 1 < |cmds| && idx < 15 && !Transfer(cmds[m.pos]) && Steady(cmds, m, used)
    requires Shape(cmds, m1) && m1 == Put(cmds, m, idx).0 && Shape(cmds, m')
    requires Counted(cmds, used, m1, m', idx + 1, fifo)
    ensures Counted(cmds, used, m, m', idx, fifo)
  {
    hide Flatten, Before, Put, Reached, Ops, Execute;
    ControlProgram(cmds, m, idx);
    assert From(cmds, m1) >= Before(cmds, m1.pos) + (if Lag(cmds, used, m.pos) then 1 else 0);
    hide From, Lag, Shape, Steady;
    Sizes(cmds, m);
    Sizes(cmds, m1);
    Sizes(cmds, m');
    KeptRegs(m.regs, m1.regs, m'.regs, idx, if cmds[m.pos].Start? then RegRestart else RegStop);
    ControlExecutes(m'.regs, idx, fifo);
    PassedBehind(cmds, used, m.pos, m'.pos);
    LagIsStart(cmds, used, m.pos);
  }

  lemma LagIsStart(cmds: seq<Cmd>, used: seq<nat>, i: nat)
    ensures i < |cmds| && Lag(cmds, used, i) ==> cmds[i].Start?
  {
  }

  lemma KeptRegs(regs: seq<Reg>, regs1: seq<Reg>, regs': seq<Reg>, idx: nat, r: Reg)
    requires |regs| == |regs1| == |regs'| && idx + 1 < |regs| && regs1 == regs[idx := r]
    requires regs'[..idx + 1] == regs1[..idx + 1]
    ensures regs'[idx] == r && regs'[..idx] == regs[..idx]
  {
    assert regs'[idx] == regs'[..idx + 1][idx];
    assert regs'[..idx] == regs'[..idx + 1][..idx] == regs1[..idx + 1][..idx];
  }

  lemma ControlExecutes(regs: seq<Reg>, idx: nat, fifo: seq<byte>)
    requires idx < |regs| && (regs[idx] == RegRestart || regs[idx] == RegStop)
    ensures |Execute(regs, idx, fifo)| == if regs[idx] == RegStop then 1 else 1 + |Execute(regs, idx + 1, fifo)|
  {
  }

  lemma PassedBehind(cmds: seq<Cmd>, used: seq<nat>, p: nat, q: nat)
    ensures (exists i :: p <= i < q && Amiss(cmds, used, i)) ==>
              (p < q && Amiss(cmds, used, p)) || exists i :: p + 1 <= i < q && Amiss(cmds, used, i)
  {
  }

  lemma LastCounts(cmds: seq<Cmd>, used: seq<nat>, m: Machine, idx: nat, fifo: seq<byte>)
    requires Shape(cmds, m) && m.pos + 1 == |cmds| && idx < 15 && cmds[m.pos].Stop?
    ensures Counted(cmds, used, m, Put(cmds, m, idx).0, idx, fifo)
  {
    ControlProgram(cmds, m, idx);
    hide Flatten, Before;
  }

  lemma PutSteady(cmds: seq<Cmd>, used: seq<nat>, m: Machine, idx: nat)
    requires Shape(cmds, m) && m.pos < |cmds| && idx < 15 && Steady(cmds, m, used)
    ensures Steady(cmds, Put(cmds, m, idx).0, used)
  {
  }

  lemma {:induction false} FillCounts(cmds: seq<Cmd>, used: seq<nat>, m: Machine, idx: nat, fifo: seq<byte>)
    requires Shape(cmds, m) && m.pos < |cmds| && idx < 15 && Serviceable(cmds) && RunWithin(cmds, m.pos, 14 - idx)
    requires Steady(cmds, m, used)
    ensures Counted(cmds, used, m, Fill(cmds, m, idx), idx, fifo) && Steady(cmds, Fill(cmds, m, idx), used)
    decreases |cmds| - m.pos
  {
    var (m1, more) := Put(cmds, m, idx);
    assert ServiceableAt(cmds, m.pos);
    PutSteady(cmds, used, m, idx);
    hide Counted, ServiceableAt, Steady;
    if Transfer(cmds[m.pos]) {
      TransferCounts(cmds, used, m, idx, fifo);
    } else if more {
      FillCounts(cmds, used, m1, idx + 1, fifo);
      ControlCounts(cmds, used, m, m1, Fill(cmds, m1, idx + 1), idx, fifo);
    } else {
      LastCounts(cmds, used, m, idx, fifo);
    }
  }

  // ---- What was received ----

  /** The bytes received so far lie in the read buffers in list order. */
  ghost predicate Filled(cmds: seq<Cmd>, m: Machine, bus: nat -> byte)
    requires Shape(cmds, m)
  {
    && m.got == Concat(m.bufs[..m.pos])
                + (if m.pos < |cmds| && cmds[m.pos].Read? then m.bufs[m.pos][..m.used[m.pos]] else [])
    && forall k :: 0 <= k < |m.got| ==> m.got[k] == bus(k)
  }

  lemma PutFilled(cmds: seq<Cmd>, m: Machine, idx: nat, bus: nat -> byte)
    requires Shape(cmds, m) && m.pos < |cmds| && idx < 15 && Filled(cmds, m, bus) && ServiceableAt(cmds, m.pos)
    ensures Filled(cmds, Put(cmds, m, idx).0, bus)
  {
    hide Concat;
    if !cmds[m.pos].Read? {
      ConcatNext(m.bufs, m.pos);
      assert m.bufs[m.pos] == [];
    }
  }

  lemma {:induction false} FillFilled(cmds: seq<Cmd>, m: Machine, idx: nat, bus: nat -> byte)
    requires Shape(cmds, m) && m.pos < |cmds| && idx < 15 && Filled(cmds, m, bus) && Serviceable(cmds)
    ensures Filled(cmds, Fill(cmds, m, idx), bus)
    decreases |cmds| - m.pos
  {
    hide Filled;
    var (m1, more) := Put(cmds, m, idx);
    assert ServiceableAt(cmds, m.pos);
    PutFilled(cmds, m, idx, bus);
    if more {
      FillFilled(cmds, m1, idx + 1, bus);
    }
  }

  lemma CollectFilled(cmds: seq<Cmd>, m: Machine, bus: nat -> byte)
    requires Shape(cmds, m) && ReadOk(cmds, m) && m.pos < |cmds| && m.status == Reading && Filled(cmds, m, bus)
    ensures Filled(cmds, Collect(cmds, m, bus), bus)
  {
    hide Concat;
    var p, u, bytes := m.pos, m.used[m.pos], Received(m, bus);
    var buf := Overlay(m.bufs[p], u, bytes);
    var m' := Collect(cmds, m, bus);
    assert m'.bufs[..p] == m.bufs[..p] && m'.bufs[p] == buf;
    assert buf[..u + m.rxCnt] == m.bufs[p][..u] + bytes;
    assert Concat(m.bufs[..p]) + (m.bufs[p][..u] + bytes) == (Concat(m.bufs[..p]) + m.bufs[p][..u]) + bytes;
    if u + m.rxCnt == cmds[p].len {
      ConcatNext(m'.bufs, p);
    }
  }

  // ---- Every transfer ----

  /** A place where something is amiss lies behind. */
  ghost predicate Passed(cmds: seq<Cmd>, used: seq<nat>, p: nat) {
    exists i :: 0 <= i < p && Amiss(cmds, used, i)
  }

  /** What holds before and after every call of the driver, in a run from the counts `used`. */
  ghost predicate Good(cmds: seq<Cmd>, used: seq<nat>, m: Machine, bus: nat -> byte)
    requires Shape(cmds, m) && ReadOk(cmds, m)
  {
    if Failed(m) then InOrder(cmds, used) ==> m.issued <= Flatten(cmds)
    else
      && m.status != Finished && Filled(cmds, m, bus) && Steady(cmds, m, used)
      && |m.issued| + (if Passed(cmds, used, m.pos) then 1 else 0) <= Reached(cmds, m) <= |Flatten(cmds)|
      && (InOrder(cmds, used) ==> m.fifo == [] && m.issued == Flatten(cmds)[..Reached(cmds, m)])
      && (m.signalled ==> m.status == Idle && m.pos == |cmds|)
  }

  lemma Join(ops: seq<BusOp>, a: nat, b: nat)
    requires a <= b <= |ops|
    ensures ops[..a] + ops[a..b] == ops[..b]
  {
  }

  /** Launching the next program. */
  lemma LaunchGood(cmds: seq<Cmd>, used: seq<nat>, m: Machine, bus: nat -> byte)
    requires Shape(cmds, m) && m.pos < |cmds| && Serviceable(cmds) && !Failed(m) && m.status != Finished && !m.signalled
    requires Filled(cmds, m, bus) && Steady(cmds, m, used)
    requires |m.issued| + (if Passed(cmds, used, m.pos) then 1 else 0) <= From(cmds, m)
    requires InOrder(cmds, used) ==>
               m.fifo == [] && From(cmds, m) <= |Flatten(cmds)| && m.issued == Flatten(cmds)[..From(cmds, m)]
    ensures var m' := Launch(Fill(cmds, m, 0)); ReadOk(cmds, m') && Good(cmds, used, m', bus)
  {
    hide Fill, Filled, Execute, Unsent, From, Flatten, Reached, InOrder, Amiss, Steady;
    var m1 := Fill(cmds, m, 0);
    var m' := Launch(m1);
    SameReached(cmds, used, m1, m', bus);
    assert RunWithin(cmds, m.pos, 14);
    FillEnds(cmds, m, 0);
    FillFilled(cmds, m, 0, bus);
    FillCounts(cmds, used, m, 0, m1.fifo);
    ReachedBound(cmds, m1);
    if Passed(cmds, used, m1.pos) && !Passed(cmds, used, m.pos) {
      assert exists i :: m.pos <= i < m1.pos && Amiss(cmds, used, i);
    }
    if InOrder(cmds, used) {
      FillSound(cmds, used, m);
      Join(Flatten(cmds), From(cmds, m), Reached(cmds, m1));
    }
  }

  lemma SameReached(cmds: seq<Cmd>, used: seq<nat>, m: Machine, m': Machine, bus: nat -> byte)
    requires Shape(cmds, m) && m' == m.(issued := m'.issued, fifo := m'.fifo)
    ensures Reached(cmds, m') == Reached(cmds, m) && Filled(cmds, m', bus) == Filled(cmds, m, bus)
    ensures Steady(cmds, m', used) == Steady(cmds, m, used)
  {
  }

  /** Collecting keeps everything but how the count is kept. */
  lemma SettleGood(cmds: seq<Cmd>, used: seq<nat>, m: Machine, bus: nat -> byte)
    requires Shape(cmds, m) && ReadOk(cmds, m) && Good(cmds, used, m, bus) && !Failed(m)
    ensures var m1 := Settle(cmds, m, bus);
            && Filled(cmds, m1, bus) && Steady(cmds, m1, used)
            && |m1.issued| + (if Passed(cmds, used, m1.pos) then 1 else 0) <= From(cmds, m1) <= |Flatten(cmds)|
            && (InOrder(cmds, used) ==> m1.fifo == [] && m1.issued == Flatten(cmds)[..From(cmds, m1)])
            && m1.status == m.status && m1.signalled == m.signalled
  {
    SettleReaches(cmds, m, bus);
    SettlePassed(cmds, used, m, bus);
    if m.pos < |cmds| && m.status == Reading {
      CollectFilled(cmds, m, bus);
    }
    hide Filled, From, Flatten, Amiss, InOrder, Passed, Collect, Settle;
  }

  lemma BeginGood(cmds: seq<Cmd>, used: seq<nat>, m: Machine, bus: nat -> byte)
    requires Shape(cmds, m) && ReadOk(cmds, m) && Serviceable(cmds) && Good(cmds, used, m, bus) && !m.signalled
    ensures var m' := Begin(cmds, m, bus); ReadOk(cmds, m') && Good(cmds, used, m', bus)
  {
    hide Filled, From, Flatten, Settle, Amiss, InOrder, Passed, Launch, Fill, Serviceable, Steady;
    if !Failed(m) {
      var m1 := Settle(cmds, m, bus);
      SettleGood(cmds, used, m, bus);
      if m1.pos < |cmds| {
        LaunchGood(cmds, used, m1, bus);
      } else {
        var m' := m1.(signalled := true, status := Idle);
        ReachedBound(cmds, m');
        SameFilled(cmds, used, m1, m', bus);
      }
    }
  }

  lemma SameFilled(cmds: seq<Cmd>, used: seq<nat>, m: Machine, m': Machine, bus: nat -> byte)
    requires Shape(cmds, m) && m' == m.(signalled := m'.signalled, status := m'.status)
    ensures Filled(cmds, m', bus) == Filled(cmds, m, bus) && From(cmds, m') == From(cmds, m)
    ensures Steady(cmds, m', used) == Steady(cmds, m, used)
  {
  }

  /** Collecting passes a read, and clears no count but that of the next command. */
  lemma SettlePassed(cmds: seq<Cmd>, used: seq<nat>, m: Machine, bus: nat -> byte)
    requires Shape(cmds, m) && ReadOk(cmds, m)
    ensures Passed(cmds, used, Settle(cmds, m, bus).pos) ==> Passed(cmds, used, m.pos)
    ensures Steady(cmds, m, used) ==> Steady(cmds, Settle(cmds, m, bus), used)
  {
    var p := Settle(cmds, m, bus).pos;
    if p > m.pos {
      assert p == m.pos + 1 && !Amiss(cmds, used, m.pos);
    }
  }

  lemma OnEventGood(cmds: seq<Cmd>, used: seq<nat>, m: Machine, e: Event, bus: nat -> byte)
    requires Shape(cmds, m) && ReadOk(cmds, m) && Serviceable(cmds) && Good(cmds, used, m, bus) && !m.signalled
    ensures var m' := OnEvent(cmds, m, e, bus); ReadOk(cmds, m') && Good(cmds, used, m', bus)
  {
    hide Begin, Filled, Flatten, Reached, Passed, InOrder, Serviceable, Steady;
    if m.status == Writing || m.status == Reading {
      if e == EndDetect || e == TransDone {
        BeginGood(cmds, used, m, bus);
      } else {
        FailedGood(cmds, used, m, AckError, bus);
        FailedGood(cmds, used, m, TimedOut, bus);
        BeginGood(cmds, used, m.(status := if e == Nack then AckError else TimedOut), bus);
      }
    }
  }

  /** What was issued before an error is still a prefix. */
  lemma FailedGood(cmds: seq<Cmd>, used: seq<nat>, m: Machine, s: Status, bus: nat -> byte)
    requires Shape(cmds, m) && ReadOk(cmds, m) && Good(cmds, used, m, bus) && (s == AckError || s == TimedOut)
    ensures ReadOk(cmds, m.(status := s)) && Good(cmds, used, m.(status := s), bus)
  {
    hide Flatten, Reached;
  }

  lemma {:induction false} ServeGood(cmds: seq<Cmd>, used: seq<nat>, m: Machine, events: seq<Event>, bus: nat -> byte)
    requires Shape(cmds, m) && ReadOk(cmds, m) && Serviceable(cmds) && Good(cmds, used, m, bus)
    ensures Good(cmds, used, Serve(cmds, m, events, bus), bus)
    decreases |events|
  {
    hide Good, OnEvent, Serviceable;
    if events != [] && !m.signalled {
      OnEventGood(cmds, used, m, events[0], bus);
      assert ShortRuns(cmds) by {
        ServiceableRuns(cmds);
      }
      ServeGood(cmds, used, OnEvent(cmds, m, events[0], bus), events[1..], bus);
    }
  }

  lemma ServiceableRuns(cmds: seq<Cmd>)
    requires Serviceable(cmds)
    ensures ShortRuns(cmds)
  {
  }

  lemma LoadedGood(cmds: seq<Cmd>, used: seq<nat>, bufs: seq<seq<byte>>, regs: seq<Reg>, bus: nat -> byte)
    requires used != [] && Shape(cmds, Loaded(used, bufs, regs))
    ensures var m := Loaded(used, bufs, regs); ReadOk(cmds, m) && Good(cmds, used, m, bus)
  {
    var m := Loaded(used, bufs, regs);
    assert cmds[..0] == [] && bufs[..0] == [];
    assert Flatten(cmds)[..0] == [];
  }

  /**
   Every transfer of a serviceable list, under any interrupts and whatever an earlier run has left: what was issued is a
   prefix of the list if it is in order; and a transfer that succeeds has done the list exactly if it is.
   */
  lemma TransferOutcome(cmds: seq<Cmd>, used: seq<nat>, bufs: seq<seq<byte>>, regs: seq<Reg>, events: seq<Event>,
                        bus: nat -> byte)
    requires used != [] && Shape(cmds, Loaded(used, bufs, regs)) && Serviceable(cmds)
    ensures var m := Run(cmds, Loaded(used, bufs, regs), events, bus);
            && (InOrder(cmds, used) ==> m.issued <= Flatten(cmds))
            && (Verdict(m) == Idle ==>
                  && (m.issued == Flatten(cmds) <==> InOrder(cmds, used))
                  && m.got == Concat(m.bufs) && forall k :: 0 <= k < |m.got| ==> m.got[k] == bus(k))
  {
    hide Begin, Serve, Good, Serviceable, ShortRuns, ReadOk, Shape;
    var m0 := Loaded(used, bufs, regs);
    ServiceableRuns(cmds);
    LoadedGood(cmds, used, bufs, regs, bus);
    BeginGood(cmds, used, m0, bus);
    var m1 := Begin(cmds, m0, bus);
    ServeGood(cmds, used, m1, events, bus);
    GoodOutcome(cmds, used, Serve(cmds, m1, events, bus), bus);
  }

  lemma GoodOutcome(cmds: seq<Cmd>, used: seq<nat>, m: Machine, bus: nat -> byte)
    requires Shape(cmds, m) && ReadOk(cmds, m) && Good(cmds, used, m, bus)
    ensures InOrder(cmds, used) ==> m.issued <= Flatten(cmds)
    ensures Verdict(m) == Idle ==>
              && (m.issued == Flatten(cmds) <==> InOrder(cmds, used))
              && m.got == Concat(m.bufs) && forall k :: 0 <= k < |m.got| ==> m.got[k] == bus(k)
  {
    hide Flatten, Concat, InOrder, Amiss, Reached, Passed;
    if Verdict(m) == Idle {
      ReachedDone(cmds, m);
      assert m.bufs[..m.pos] == m.bufs;
      PassedAll(cmds, used);
      assert Flatten(cmds)[..|Flatten(cmds)|] == Flatten(cmds);
    }
  }

  lemma ReachedDone(cmds: seq<Cmd>, m: Machine)
    requires Shape(cmds, m) && ReadOk(cmds, m) && m.pos == |cmds|
    ensures Reached(cmds, m) == |Flatten(cmds)|
  {
    hide Flatten;
    ReachedBound(cmds, m);
  }

  lemma PassedAll(cmds: seq<Cmd>, used: seq<nat>)
    ensures Passed(cmds, used, |cmds|) <==> !InOrder(cmds, used)
  {
    if !StopsEnd(cmds) {
      var i :| 0 <= i < |cmds| && Overrun(cmds, i);
      assert Amiss(cmds, used, i);
    } else if !NoLag(cmds, used) {
      var i :| 0 <= i < |cmds| && Lag(cmds, used, i);
      assert Amiss(cmds, used, i);
    }
  }

  // ---- Running a list again ----

  /** A START in front of a longer write. */
  predicate LongBehindStart(cmds: seq<Cmd>, i: nat) {
    i + 1 < |cmds| && cmds[i].Start? && cmds[i + 1].Write? && cmds[i + 1].data != []
  }

  /** Once a list has been run with success, it can be run again with the same result exactly if its STOPs end it and no
      START is followed by a longer write. */
  lemma RunAgainIff(cmds: seq<Cmd>, used: seq<nat>, bufs: seq<seq<byte>>, regs: seq<Reg>, events: seq<Event>,
                    bus: nat -> byte)
    requires used != [] && Shape(cmds, Loaded(used, bufs, regs)) && Serviceable(cmds)
    requires Verdict(Run(cmds, Loaded(used, bufs, regs), events, bus)) == Idle
    ensures InOrder(cmds, Run(cmds, Loaded(used, bufs, regs), events, bus).used)
       <==> StopsEnd(cmds) && forall i :: 0 <= i < |cmds| ==> !LongBehindStart(cmds, i)
  {
    hide Begin, Serve, Good, Serviceable, ShortRuns, ReadOk, Shape;
    var m0 := Loaded(used, bufs, regs);
    ServiceableRuns(cmds);
    LoadedGood(cmds, used, bufs, regs, bus);
    BeginGood(cmds, used, m0, bus);
    var m1 := Begin(cmds, m0, bus);
    ServeGood(cmds, used, m1, events, bus);
    UsedUp(cmds, used, Serve(cmds, m1, events, bus), bus);
  }

  lemma UsedUp(cmds: seq<Cmd>, used: seq<nat>, m: Machine, bus: nat -> byte)
    requires Shape(cmds, m) && ReadOk(cmds, m) && Good(cmds, used, m, bus) && Verdict(m) == Idle
    ensures NoLag(cmds, m.used) <==> forall i :: 0 <= i < |cmds| ==> !LongBehindStart(cmds, i)
  {
    hide Flatten, Reached, Passed, InOrder, Filled;
    assert Steady(cmds, m, used) && m.pos == |cmds|;
    forall i | 0 <= i < |cmds|
      ensures Lag(cmds, m.used, i) <==> LongBehindStart(cmds, i)
    {
    }
  }

  // ---- When a transfer ends, and with what answer ----

  predicate Regular(e: Event) {
    e == EndDetect || e == TransDone
  }

  /** What the caller hears of an error. */
  function Answer(e: Event): (s: Status)
    requires !Regular(e)
  {
    if e == Nack then AckError else TimedOut
  }

  /** Programs for a transfer of `n` bytes. */
  function Pieces(n: nat): (k: nat)
    ensures k > 0
  {
    if n <= FIFO_LEN then 1 else 1 + Pieces(n - FIFO_LEN)
  }

  /** One for each 32 bytes begun, and one for an empty transfer. */
  lemma {:induction false} PiecesIsCeiling(n: nat)
    ensures n <= 32 * Pieces(n) && (n > 0 ==> 32 * (Pieces(n) - 1) < n) && (n == 0 ==> Pieces(n) == 1)
  {
    if n > FIFO_LEN {
      PiecesIsCeiling(n - FIFO_LEN);
    }
  }

  ghost predicate HasTransfer(cmds: seq<Cmd>, i: nat) {
    exists j :: i <= j < |cmds| && Transfer(cmds[j])
  }

  /** Bytes of a transfer behind the first `u`. */
  function Rest(c: Cmd, u: nat): (n: nat) {
    if u < Total(c) then Total(c) - u else 0
  }

  function Cleared(used: seq<nat>, i: nat): (r: seq<nat>)
    ensures |r| == |used|
  {
    if i < |used| then used[i := 0] else used
  }

  /** Programs that the list takes from command `i` on.  Marks share the program of the transfer behind them, or
      take one of their own at the end; the count of a command behind a transfer is cleared. */
  ghost function Programs(cmds: seq<Cmd>, used: seq<nat>, i: nat): (n: nat)
    requires |used| == |cmds| && i <= |cmds|
    ensures n == 0 <==> i == |cmds|
    decreases |cmds| - i
  {
    if i == |cmds| then 0
    else if Transfer(cmds[i]) then
      Pieces(Rest(cmds[i], used[i])) + Programs(cmds, Cleared(used, i + 1), i + 1)
    else if HasTransfer(cmds, i) then Later(cmds, i); Programs(cmds, used, i + 1)
    else 1
  }

  lemma Later(cmds: seq<Cmd>, i: nat)
    requires i < |cmds| && !Transfer(cmds[i])
    ensures HasTransfer(cmds, i) <==> HasTransfer(cmds, i + 1)
    ensures HasTransfer(cmds, i) ==> i + 1 < |cmds|
  {
  }

  /** Counts in front of `i` do not matter. */
  lemma {:induction false} ProgramsFrame(cmds: seq<Cmd>, used: seq<nat>, used': seq<nat>, i: nat)
    requires |used| == |used'| == |cmds| && i <= |cmds|
    requires forall j :: i <= j < |cmds| ==> used[j] == used'[j]
    ensures Programs(cmds, used, i) == Programs(cmds, used', i)
    decreases |cmds| - i
  {
    if i < |cmds| {
      if Transfer(cmds[i]) {
        ProgramsFrame(cmds, Cleared(used, i + 1), Cleared(used', i + 1), i + 1);
      } else if HasTransfer(cmds, i) {
        ProgramsFrame(cmds, used, used', i + 1);
      }
    }
  }

  predicate Engaged(m: Machine) {
    m.status == Writing || m.status == Reading
  }

  /** Programs to come when the running one has ended. */
  ghost function Coming(cmds: seq<Cmd>, m: Machine): (n: nat)
    requires |m.used| == |cmds| && m.pos <= |cmds|
  {
    if m.pos < |cmds| && m.status == Reading then Behind(cmds, m.used, m.pos, m.rxCnt)
    else Programs(cmds, m.used, m.pos)
  }

  /** ... behind `k` more bytes of the transfer at `p`. */
  ghost function Behind(cmds: seq<Cmd>, used: seq<nat>, p: nat, k: nat): (n: nat)
    requires |used| == |cmds| && p < |cmds|
  {
    var used' := used[p := used[p] + k];
    if used[p] + k == Total(cmds[p]) then Programs(cmds, Cleared(used', p + 1), p + 1) else Programs(cmds, used', p)
  }

  lemma SettleComes(cmds: seq<Cmd>, m: Machine, bus: nat -> byte)
    requires Shape(cmds, m) && ReadOk(cmds, m)
    ensures var m1 := Settle(cmds, m, bus); Programs(cmds, m1.used, m1.pos) == Coming(cmds, m)
  {
    hide Programs;
  }

  lemma TransferPrograms(cmds: seq<Cmd>, used: seq<nat>, p: nat)
    requires |used| == |cmds| && p < |cmds| && Transfer(cmds[p])
    ensures Programs(cmds, used, p)
            == Pieces(Rest(cmds[p], used[p])) + Programs(cmds, Cleared(used, p + 1), p + 1)
  {
  }

  /** Counts of other commands behind `p` do not change with that of `p`. */
  lemma ClearedBehind(cmds: seq<Cmd>, used: seq<nat>, p: nat, u: nat)
    requires |used| == |cmds| && p < |cmds|
    ensures Programs(cmds, Cleared(used[p := u], p + 1), p + 1) == Programs(cmds, Cleared(used, p + 1), p + 1)
  {
    ProgramsFrame(cmds, Cleared(used, p + 1), Cleared(used[p := u], p + 1), p + 1);
  }

  lemma PieceOf(c: Cmd, u: nat)
    requires u <= Total(c)
    ensures var u' := u + Chunk(Rest(c, u));
            Pieces(Rest(c, u)) == 1 + if u' == Total(c) then 0 else Pieces(Rest(c, u'))
  {
  }

  /** What a transfer's register leaves of its command. */
  ghost predicate Leaves(c: Cmd, m: Machine, m1: Machine)
    requires m.pos < |m.used|
  {
    var p, left := m.pos, Rest(c, m.used[m.pos]);
    && m.used[p] <= Total(c) && m1.status == (if c.Read? then Reading else Writing)
    && (c.Read? ==> m1.pos == p && m1.used == m.used && m1.rxCnt == Chunk(left))
    && (c.WriteByte? ==> m1.pos == p + 1 && m1.used == Cleared(m.used, p + 1) && left <= 1)
    && (c.Write? && Chunk(left) == left ==>
          m1.pos == p + 1 && m1.used == Cleared(m.used[p := m.used[p] + left], p + 1))
    && (c.Write? && Chunk(left) < left ==> m1.pos == p && m1.used == m.used[p := m.used[p] + Chunk(left)])
  }

  lemma PutLeaves(cmds: seq<Cmd>, m: Machine, idx: nat)
    requires Shape(cmds, m) && m.pos < |cmds| && idx < 15 && Transfer(cmds[m.pos])
    ensures var m1 := Put(cmds, m, idx).0;
            ReadOk(cmds, m1) && |m.used| == |m1.used| == |cmds| >= m1.pos && Leaves(cmds[m.pos], m, m1)
  {
  }

  lemma LeavesComing(cmds: seq<Cmd>, m: Machine, m1: Machine)
    requires |m.used| == |m1.used| == |cmds| && m.pos < |cmds| && m1.pos <= |cmds| && Transfer(cmds[m.pos])
    requires Leaves(cmds[m.pos], m, m1)
    ensures Coming(cmds, m1) + 1 == Programs(cmds, m.used, m.pos)
  {
    var p, k := m.pos, Chunk(Rest(cmds[m.pos], m.used[m.pos]));
    OnePieceLess(cmds, m.used, p);
    assert Coming(cmds, m1) == Behind(cmds, m.used, p, k) by {
      if cmds[p].WriteByte? {
        ClearedBehind(cmds, m.used, p, m.used[p] + k);
      }
      hide Programs, Cleared;
    }
  }

  /** The programs from a transfer on, before and after one piece of it. */
  lemma OnePieceLess(cmds: seq<Cmd>, used: seq<nat>, p: nat)
    requires |used| == |cmds| && p < |cmds| && Transfer(cmds[p]) && used[p] <= Total(cmds[p])
    ensures Programs(cmds, used, p) == 1 + Behind(cmds, used, p, Chunk(Rest(cmds[p], used[p])))
  {
    hide Programs, Pieces, Cleared;
    var u := used[p] + Chunk(Rest(cmds[p], used[p]));
    PieceOf(cmds[p], used[p]);
    hide Chunk, Rest, Total, Transfer;
    TransferPrograms(cmds, used, p);
    TransferPrograms(cmds, used[p := u], p);
    ClearedBehind(cmds, used, p, u);
  }

  lemma {:induction false} FillComes(cmds: seq<Cmd>, m: Machine, idx: nat)
    requires Shape(cmds, m) && m.pos < |cmds| && idx < 15 && RunWithin(cmds, m.pos, 14 - idx)
    ensures var m' := Fill(cmds, m, idx); ReadOk(cmds, m') && Coming(cmds, m') + 1 == Programs(cmds, m.used, m.pos)
    decreases |cmds| - m.pos
  {
    hide Put, Shape, Coming, Programs, HasTransfer, Leaves;
    var m1 := Put(cmds, m, idx).0;
    PutEnds(cmds, m, idx);
    if Transfer(cmds[m.pos]) {
      PutLeaves(cmds, m, idx);
      LeavesComing(cmds, m, m1);
    } else {
      MarkComes(cmds, m, idx);
      LaterShape(cmds, m);
      if HasTransfer(cmds, m.pos) {
        FillComes(cmds, m1, idx + 1);
      } else {
        MarksComing(cmds, m, idx);
      }
    }
  }

  lemma LaterShape(cmds: seq<Cmd>, m: Machine)
    requires Shape(cmds, m) && m.pos < |cmds| && !Transfer(cmds[m.pos])
    ensures HasTransfer(cmds, m.pos) ==> m.pos + 1 < |cmds|
  {
    Later(cmds, m.pos);
  }

  /** Marks alone are the last program. */
  lemma MarksComing(cmds: seq<Cmd>, m: Machine, idx: nat)
    requires Shape(cmds, m) && m.pos < |cmds| && idx < 15 && RunWithin(cmds, m.pos, 14 - idx)
    requires !HasTransfer(cmds, m.pos)
    ensures var m' := Fill(cmds, m, idx); ReadOk(cmds, m') && |m'.used| == |cmds| == m'.pos && Coming(cmds, m') == 0
  {
    FillEnds(cmds, m, idx);
    hide Fill;
  }

  /** A mark shares the program of what is behind it. */
  lemma MarkComes(cmds: seq<Cmd>, m: Machine, idx: nat)
    requires Shape(cmds, m) && m.pos < |cmds| && idx < 15 && !Transfer(cmds[m.pos])
    ensures var m1 := Put(cmds, m, idx).0;
            && m1.used == m.used && m1.pos == m.pos + 1 && |m.used| == |cmds|
            && if HasTransfer(cmds, m.pos) then Programs(cmds, m1.used, m1.pos) == Programs(cmds, m.used, m.pos)
               else Programs(cmds, m.used, m.pos) == 1
  {
    PutMarks(cmds, m, idx);
    hide Put, Shape;
    MarkPrograms(cmds, m.used, m.pos);
  }

  lemma PutMarks(cmds: seq<Cmd>, m: Machine, idx: nat)
    requires Shape(cmds, m) && m.pos < |cmds| && idx < 15 && !Transfer(cmds[m.pos])
    ensures var m1 := Put(cmds, m, idx).0; m1.used == m.used && m1.pos == m.pos + 1 && |m.used| == |cmds|
  {
  }

  lemma MarkPrograms(cmds: seq<Cmd>, used: seq<nat>, i: nat)
    requires |used| == |cmds| && i < |cmds| && !Transfer(cmds[i])
    ensures Programs(cmds, used, i) == if HasTransfer(cmds, i) then Programs(cmds, used, i + 1) else 1
  {
    Later(cmds, i);
    hide HasTransfer;
  }

  /** A call of the driver without an error: the next program, one fewer to come, or the end. */
  lemma BeginComes(cmds: seq<Cmd>, m: Machine, bus: nat -> byte)
    requires Shape(cmds, m) && ReadOk(cmds, m) && ShortRuns(cmds) && Engaged(m) && !m.signalled
    ensures var m' := Begin(cmds, m, bus);
            && ReadOk(cmds, m')
            && (Coming(cmds, m) == 0 ==> m'.signalled && m'.status == Idle)
            && (Coming(cmds, m) > 0 ==> !m'.signalled && Engaged(m') && Coming(cmds, m') + 1 == Coming(cmds, m))
  {
    hide Fill, Execute, Unsent, Programs, Coming;
    SettleComes(cmds, m, bus);
    SettleStatus(cmds, m, bus);
    var m1 := Settle(cmds, m, bus);
    if m1.pos < |cmds| {
      assert RunWithin(cmds, m1.pos, 14);
      FillComes(cmds, m1, 0);
      FillEnds(cmds, m1, 0);
      var m2 := Fill(cmds, m1, 0);
      LaunchComes(cmds, m2);
    }
  }

  lemma SettleStatus(cmds: seq<Cmd>, m: Machine, bus: nat -> byte)
    requires Shape(cmds, m) && ReadOk(cmds, m)
    ensures var m1 := Settle(cmds, m, bus); m1.status == m.status && m1.signalled == m.signalled
  {
  }

  lemma LaunchComes(cmds: seq<Cmd>, m: Machine)
    requires Shape(cmds, m) && ReadOk(cmds, m)
    ensures Shape(cmds, Launch(m)) && ReadOk(cmds, Launch(m)) && Coming(cmds, Launch(m)) == Coming(cmds, m)
  {
  }

  /** The answer to a caller, when `n` ends of programs are needed: the first error heard before them decides, and
      success takes all of them. */
  function Outcome(events: seq<Event>, n: nat): (s: Status)
    decreases |events|
  {
    if n == 0 then Idle
    else if events == [] then TimedOut
    else if Regular(events[0]) then Outcome(events[1..], n - 1)
    else Answer(events[0])
  }

  /** Event `e` is the first error, and it comes before the last of `n` ends of programs. */
  predicate FirstError(events: seq<Event>, n: nat, e: nat) {
    e < |events| && e < n && !Regular(events[e]) && forall i :: 0 <= i < e ==> Regular(events[i])
  }

  /** In other words. */
  lemma {:induction false} OutcomeMeans(events: seq<Event>, n: nat)
    ensures Outcome(events, n) == Idle <==> n <= |events| && forall i :: 0 <= i < n ==> Regular(events[i])
    ensures forall e: nat :: FirstError(events, n, e) ==> Outcome(events, n) == Answer(events[e])
    ensures |events| < n && (forall i :: 0 <= i < |events| ==> Regular(events[i])) ==> Outcome(events, n) == TimedOut
    decreases |events|
  {
    if n > 0 && events != [] && Regular(events[0]) {
      var rest := events[1..];
      OutcomeMeans(rest, n - 1);
      assert forall i :: 1 <= i < |events| ==> events[i] == rest[i - 1];
      forall e: nat | FirstError(events, n, e)
        ensures Outcome(events, n) == Answer(events[e])
      {
        assert FirstError(rest, n - 1, e - 1);
      }
    }
  }

  lemma SignalledServe(cmds: seq<Cmd>, m: Machine, events: seq<Event>, bus: nat -> byte)
    requires Shape(cmds, m) && ReadOk(cmds, m) && ShortRuns(cmds) && m.signalled
    ensures Serve(cmds, m, events, bus) == m
  {
  }

  /** An error while a program runs: nothing is issued or stored any more, and the caller is told. */
  lemma ErrorEvent(cmds: seq<Cmd>, m: Machine, e: Event, bus: nat -> byte)
    requires Shape(cmds, m) && ReadOk(cmds, m) && Engaged(m) && !Regular(e)
    ensures OnEvent(cmds, m, e, bus) == m.(status := Answer(e), signalled := true)
  {
  }

  lemma {:induction false} ServeOutcome(cmds: seq<Cmd>, m: Machine, events: seq<Event>, bus: nat -> byte)
    requires Shape(cmds, m) && ReadOk(cmds, m) && ShortRuns(cmds) && Engaged(m) && !m.signalled
    ensures Verdict(Serve(cmds, m, events, bus)) == Outcome(events, Coming(cmds, m) + 1)
    decreases |events|
  {
    hide Begin, OnEvent, Coming, ShortRuns;
    if events != [] {
      var m1 := OnEvent(cmds, m, events[0], bus);
      OnEventKeeps(cmds, m, events[0], bus);
      if Regular(events[0]) {
        RegularEvent(cmds, m, events[0], bus);
        BeginComes(cmds, m, bus);
      } else {
        ErrorEvent(cmds, m, events[0], bus);
      }
      if m1.signalled {
        SignalledServe(cmds, m1, events[1..], bus);
      } else {
        ServeOutcome(cmds, m1, events[1..], bus);
      }
    }
  }

  lemma RegularEvent(cmds: seq<Cmd>, m: Machine, e: Event, bus: nat -> byte)
    requires Shape(cmds, m) && ReadOk(cmds, m) && Engaged(m) && Regular(e)
    ensures OnEvent(cmds, m, e, bus) == Begin(cmds, m, bus)
  {
  }

  /** Behind the first error the transfer is as it was after the events before it. */
  lemma {:induction false} ServeStops(cmds: seq<Cmd>, m: Machine, events: seq<Event>, e: nat, bus: nat -> byte)
    requires Shape(cmds, m) && ReadOk(cmds, m) && ShortRuns(cmds) && Engaged(m) && !m.signalled
    requires FirstError(events, Coming(cmds, m) + 1, e)
    ensures Serve(cmds, m, events, bus)
            == Serve(cmds, m, events[..e], bus).(status := Answer(events[e]), signalled := true)
    decreases e
  {
    hide Begin, OnEvent, Coming, ShortRuns;
    var m1 := OnEvent(cmds, m, events[0], bus);
    OnEventKeeps(cmds, m, events[0], bus);
    if e == 0 {
      ErrorEvent(cmds, m, events[0], bus);
      SignalledServe(cmds, m1, events[1..], bus);
    } else {
      RegularEvent(cmds, m, events[0], bus);
      BeginComes(cmds, m, bus);
      ServeStops(cmds, m1, events[1..], e - 1, bus);
      assert events[..e][1..] == events[1..][..e - 1];
    }
  }

  /** Ends of programs that a list needs, when an earlier run left these progress counts. */
  ghost function Needed(cmds: seq<Cmd>, used: seq<nat>): (n: nat)
    requires |used| == |cmds|
  {
    Programs(cmds, Cleared(used, 0), 0)
  }

  lemma FirstProgram(cmds: seq<Cmd>, used: seq<nat>, bufs: seq<seq<byte>>, regs: seq<Reg>, bus: nat -> byte)
    requires used != [] && Shape(cmds, Loaded(used, bufs, regs)) && ShortRuns(cmds)
    ensures var m := Begin(cmds, Loaded(used, bufs, regs), bus);
            && !m.signalled && ReadOk(cmds, m)
            && if HasTransfer(cmds, 0) then Engaged(m) && Coming(cmds, m) + 1 == Needed(cmds, used)
               else m.status == Idle
  {
    hide Fill, Programs, Coming;
    var m0 := Loaded(used, bufs, regs);
    assert RunWithin(cmds, 0, 14);
    FillEnds(cmds, m0, 0);
    FillComes(cmds, m0, 0);
    LaunchComes(cmds, Fill(cmds, m0, 0));
  }

  /** The answer of every transfer, from its list and its events alone. */
  lemma TransferAnswer(cmds: seq<Cmd>, used: seq<nat>, bufs: seq<seq<byte>>, regs: seq<Reg>, events: seq<Event>,
                       bus: nat -> byte)
    requires used != [] && Shape(cmds, Loaded(used, bufs, regs)) && ShortRuns(cmds)
    ensures Verdict(Run(cmds, Loaded(used, bufs, regs), events, bus))
            == if HasTransfer(cmds, 0) then Outcome(events, Needed(cmds, used)) else TimedOut
  {
    hide Begin, ShortRuns, Needed, Coming;
    var m0 := Loaded(used, bufs, regs);
    BeginKeeps(cmds, m0, bus);
    FirstProgram(cmds, used, bufs, regs, bus);
    var m1 := Begin(cmds, m0, bus);
    if HasTransfer(cmds, 0) {
      ServeOutcome(cmds, m1, events, bus);
    } else {
      IdleServe(cmds, m1, events, bus);
    }
  }

  /** An error ends the transfer: whatever comes behind it, what was issued and received is what the events in front
      of it led to. */
  lemma ErrorEnds(cmds: seq<Cmd>, used: seq<nat>, bufs: seq<seq<byte>>, regs: seq<Reg>, events: seq<Event>, e: nat,
                  bus: nat -> byte)
    requires used != [] && Shape(cmds, Loaded(used, bufs, regs)) && ShortRuns(cmds)
    requires HasTransfer(cmds, 0) && FirstError(events, Needed(cmds, used), e)
    ensures var m0 := Loaded(used, bufs, regs);
            Run(cmds, m0, events, bus)
            == Run(cmds, m0, events[..e], bus).(status := Answer(events[e]), signalled := true)
  {
    hide Begin, ShortRuns, Needed, Coming;
    var m0 := Loaded(used, bufs, regs);
    BeginKeeps(cmds, m0, bus);
    FirstProgram(cmds, used, bufs, regs, bus);
    ServeStops(cmds, Begin(cmds, m0, bus), events, e, bus);
  }

  lemma {:induction false} IdleServe(cmds: seq<Cmd>, m: Machine, events: seq<Event>, bus: nat -> byte)
    requires Shape(cmds, m) && ReadOk(cmds, m) && ShortRuns(cmds) && m.status == Idle
    ensures Serve(cmds, m, events, bus) == m
    decreases |events|
  {
    if events != [] && !m.signalled {
      IdleServe(cmds, m, events[1..], bus);
    }
  }

  /** What a transfer promises its caller. */
  ghost predicate Kept(cmds: seq<Cmd>, used: seq<nat>, m0: Machine, events: seq<Event>, m: Machine, bus: nat -> byte)
    requires Shape(cmds, m0) && ReadOk(cmds, m0) && ShortRuns(cmds) && |used| == |cmds|
  {
    && (Serviceable(cmds) && InOrder(cmds, used) ==> m.issued <= Flatten(cmds))
    && (Serviceable(cmds) && Verdict(m) == Idle ==>
          && (m.issued == Flatten(cmds) <==> InOrder(cmds, used))
          && m.got == Concat(m.bufs) && forall k :: 0 <= k < |m.got| ==> m.got[k] == bus(k))
    && Verdict(m) == (if HasTransfer(cmds, 0) then Outcome(events, Needed(cmds, used)) else TimedOut)
    && (HasTransfer(cmds, 0) ==> forall e: nat :: FirstError(events, Needed(cmds, used), e) ==>
          m == Run(cmds, m0, events[..e], bus).(status := Answer(events[e]), signalled := true))
  }

  lemma RunKept(cmds: seq<Cmd>, used: seq<nat>, bufs: seq<seq<byte>>, regs: seq<Reg>, events: seq<Event>,
                bus: nat -> byte)
    requires used != [] && Shape(cmds, Loaded(used, bufs, regs)) && ShortRuns(cmds)
    ensures var m0 := Loaded(used, bufs, regs); Kept(cmds, used, m0, events, Run(cmds, m0, events, bus), bus)
  {
    hide Run, InOrder, Serviceable, ShortRuns, Flatten, Concat, Verdict, HasTransfer, Outcome, Needed;
    if Serviceable(cmds) {
      TransferOutcome(cmds, used, bufs, regs, events, bus);
    }
    TransferAnswer(cmds, used, bufs, regs, events, bus);
    if HasTransfer(cmds, 0) {
      forall e: nat | FirstError(events, Needed(cmds, used), e)
        ensures var m0 := Loaded(used, bufs, regs);
                Run(cmds, m0, events, bus)
                == Run(cmds, m0, events[..e], bus).(status := Answer(events[e]), signalled := true)
      {
        ErrorEnds(cmds, used, bufs, regs, events, e, bus);
      }
    }
  }

  // ---- A STOP in the middle ----

  /** Two messages in one list. */
  function TwoMessages(a: byte, b: byte): (cmds: seq<Cmd>) {
    [Start, WriteByte(a, true), Stop, Start, WriteByte(b, true), Stop]
  }

  lemma TwoMessagesShape(a: byte, b: byte)
    ensures Serviceable(TwoMessages(a, b)) && Overrun(TwoMessages(a, b), 2)
  {
    var cmds := TwoMessages(a, b);
    assert RunWithin(cmds, 4, 14) && RunWithin(cmds, 1, 14) && RunWithin(cmds, 6, 13) && RunWithin(cmds, 4, 12);
  }

  /** The first message is sent. */
  lemma FirstMessage(a: byte, b: byte, m: Machine, bus: nat -> byte)
    requires var cmds := TwoMessages(a, b); Shape(cmds, m) && m.pos == 0 && m.status == Idle && m.fifo == []
    ensures var m' := Begin(TwoMessages(a, b), m, bus);
            && m'.pos == 2 && m'.status == Writing && m'.signalled == m.signalled && m'.fifo == []
            && m'.issued == m.issued + [BusStart, BusWrite(a, true)]
  {
    var cmds := TwoMessages(a, b);
    var m1 := Put(cmds, m, 0).0;
    var m2 := Put(cmds, m1, 1).0;
    assert Fill(cmds, m, 0) == m2;
    var regs := m2.regs;
    assert m2.fifo == [a] && regs[0] == RegRestart && regs[1] == RegWrite(1, true) && regs[2] == RegEnd;
    assert Execute(regs, 2, []) == [] && Unsent(regs, 2, []) == [];
    assert [a][..1] == [a] && [a][1..] == [];
    assert Execute(regs, 1, [a]) == [BusWrite(a, true)] && Unsent(regs, 1, [a]) == [];
  }

  /** The STOP ends the program in front of the second message, whose byte stays in the FIFO. */
  lemma SecondMessage(a: byte, b: byte, m: Machine, bus: nat -> byte)
    requires var cmds := TwoMessages(a, b); Shape(cmds, m) && m.pos == 2 && m.status == Writing && m.fifo == []
    ensures var m' := Begin(TwoMessages(a, b), m, bus);
            && m'.pos == 5 && m'.status == Writing && m'.signalled == m.signalled && m'.fifo == [b]
            && m'.issued == m.issued + [BusStop]
  {
    var cmds := TwoMessages(a, b);
    assert cmds[2] == Stop && cmds[3] == Start && cmds[4] == WriteByte(b, true);
    hide TwoMessages, Execute, Unsent;
    var m1 := Put(cmds, m, 0).0;
    var m2 := Put(cmds, m1, 1).0;
    var m3 := Put(cmds, m2, 2).0;
    assert Fill(cmds, m2, 2) == m3;
    assert Fill(cmds, m, 0) == m3 && m3.regs[0] == RegStop && m3.pos == 5 && m3.fifo == [b];
    hide Put, Fill;
    StopExecutes(m3.regs, m3.fifo);
  }

  lemma StopExecutes(regs: seq<Reg>, fifo: seq<byte>)
    requires |regs| > 0 && regs[0] == RegStop
    ensures Execute(regs, 0, fifo) == [BusStop] && Unsent(regs, 0, fifo) == fifo
  {
  }

  lemma LastMessage(a: byte, b: byte, m: Machine, bus: nat -> byte)
    requires var cmds := TwoMessages(a, b); Shape(cmds, m) && m.pos == 5 && m.status == Writing
    ensures var m' := Begin(TwoMessages(a, b), m, bus);
            && m'.pos == 6 && m'.status == Writing && m'.signalled == m.signalled
            && m'.issued == m.issued + [BusStop]
  {
  }

  lemma ServeOne(cmds: seq<Cmd>, m: Machine, events: seq<Event>, bus: nat -> byte)
    requires Shape(cmds, m) && ReadOk(cmds, m) && ShortRuns(cmds)
    requires events != [] && events[0] == EndDetect && m.status == Writing && !m.signalled
    ensures ReadOk(cmds, Begin(cmds, m, bus))
    ensures Serve(cmds, m, events, bus) == Serve(cmds, Begin(cmds, m, bus), events[1..], bus)
  {
    hide Begin;
    BeginKeeps(cmds, m, bus);
  }

  /** The driver reports success, but the START and the byte of the second message never reach the bus. */
  lemma SecondMessageLost(a: byte, b: byte, bufs: seq<seq<byte>>, regs: seq<Reg>, bus: nat -> byte)
    requires Shape(TwoMessages(a, b), Loaded([0, 0, 0, 0, 0, 0], bufs, regs))
    ensures ShortRuns(TwoMessages(a, b))
    ensures var m := Run(TwoMessages(a, b), Loaded([0, 0, 0, 0, 0, 0], bufs, regs),
                         [EndDetect, EndDetect, EndDetect], bus);
            Verdict(m) == Idle && m.issued == [BusStart, BusWrite(a, true), BusStop, BusStop]
  {
    TwoMessagesShape(a, b);
    var cmds, e := TwoMessages(a, b), EndDetect;
    hide TwoMessages, Begin, Shape;
    var m0 := Loaded([0, 0, 0, 0, 0, 0], bufs, regs);
    BeginKeeps(cmds, m0, bus);
    FirstMessage(a, b, m0, bus);
    var m1 := Begin(cmds, m0, bus);
    SecondMessage(a, b, m1, bus);
    ServeOne(cmds, m1, [e, e, e], bus);
    assert [e, e, e][1..] == [e, e];
    var m2 := Begin(cmds, m1, bus);
    LastMessage(a, b, m2, bus);
    ServeOne(cmds, m2, [e, e], bus);
    assert [e, e][1..] == [e];
    var m3 := Begin(cmds, m2, bus);
    AtEnd(a, b, m3, bus);
    ServeOne(cmds, m3, [e], bus);
  }

  lemma AtEnd(a: byte, b: byte, m: Machine, bus: nat -> byte)
    requires var cmds := TwoMessages(a, b); Shape(cmds, m) && ReadOk(cmds, m) && m.pos == 6 && m.status == Writing
    ensures Begin(TwoMessages(a, b), m, bus) == m.(signalled := true, status := Idle)
  {
  }

  // ---- A list run twice ----

  /** One message of two bytes. */
  function OneMessage(a: byte, b: byte): (cmds: seq<Cmd>) {
    [Start, Write([a, b], true), Stop]
  }

  lemma OneMessageShape(a: byte, b: byte)
    ensures Serviceable(OneMessage(a, b)) && StopsEnd(OneMessage(a, b)) && LongBehindStart(OneMessage(a, b), 0)
  {
    var cmds := OneMessage(a, b);
    assert RunWithin(cmds, 1, 13) && RunWithin(cmds, 3, 13);
  }

  lemma MessageFill(a: byte, b: byte, m: Machine)
    requires var cmds := OneMessage(a, b); Shape(cmds, m) && m.pos == 0 && m.fifo == []
    requires m.used == [0, 0, 0] || m.used == [0, 2, 0]
    ensures var m', u := Fill(OneMessage(a, b), m, 0), m.used[1];
            && m'.regs[0] == RegRestart && m'.regs[1] == RegWrite(2 - u, true) && m'.regs[2] == RegEnd
            && m'.fifo == [a, b][u..2] && m'.used == [0, 2, 0] && m'.pos == 2 && m'.status == Writing
            && m'.issued == m.issued && m'.signalled == m.signalled
  {
    var cmds := OneMessage(a, b);
    assert cmds[0] == Start && cmds[1] == Write([a, b], true);
    var m1 := Put(cmds, m, 0).0;
    var m2 := Put(cmds, m1, 1).0;
    assert Fill(cmds, m, 0) == Fill(cmds, m1, 1) == m2;
    assert m2.used == [0, 2, 0];
  }

  lemma MessageWrites(a: byte, b: byte, regs: seq<Reg>, u: nat)
    requires |regs| == REG_COUNT && (u == 0 || u == 2)
    requires regs[0] == RegRestart && regs[1] == RegWrite(2 - u, true) && regs[2] == RegEnd
    ensures Execute(regs, 0, [a, b][u..2])
         == if u == 0 then [BusStart, BusWrite(a, true), BusWrite(b, true)] else [BusStart]
  {
    var data := [a, b];
    hide Execute, Unsent;
    RestartExecutes(regs, data[u..2]);
    WriteDoes(data, true, u, 2 - u, regs, 1);
    assert Writes(data, true) == [BusWrite(a, true), BusWrite(b, true)];
  }

  lemma IdleBegin(cmds: seq<Cmd>, m: Machine, bus: nat -> byte)
    requires Shape(cmds, m) && m.status == Idle && m.pos < |cmds|
    ensures ReadOk(cmds, m) && Begin(cmds, m, bus) == Launch(Fill(cmds, m, 0))
  {
    hide Fill, Execute, Unsent;
  }

  /** The program of the message, whose write finds its count cleared or used up. */
  lemma MessageProgram(a: byte, b: byte, m: Machine, bus: nat -> byte)
    requires var cmds := OneMessage(a, b); Shape(cmds, m) && m.pos == 0 && m.status == Idle && m.fifo == []
    requires m.used == [0, 0, 0] || m.used == [0, 2, 0]
    ensures var m' := Begin(OneMessage(a, b), m, bus);
            && m'.pos == 2 && m'.status == Writing && m'.signalled == m.signalled && m'.used == [0, 2, 0]
            && m'.issued
               == m.issued + (if m.used[1] == 0 then [BusStart, BusWrite(a, true), BusWrite(b, true)] else [BusStart])
  {
    assert |OneMessage(a, b)| == 3;
    hide OneMessage, Execute, Unsent, Fill, Begin, Shape, ReadOk;
    IdleBegin(OneMessage(a, b), m, bus);
    MessageFill(a, b, m);
    MessageWrites(a, b, Fill(OneMessage(a, b), m, 0).regs, m.used[1]);
  }

  lemma MessageStop(a: byte, b: byte, m: Machine, bus: nat -> byte)
    requires var cmds := OneMessage(a, b); Shape(cmds, m) && m.pos == 2 && m.status == Writing
    ensures var m' := Begin(OneMessage(a, b), m, bus);
            && m'.pos == 3 && m'.status == Writing && m'.signalled == m.signalled && m'.used == m.used
            && m'.issued == m.issued + [BusStop]
  {
  }

  lemma MessageEnd(a: byte, b: byte, m: Machine, bus: nat -> byte)
    requires var cmds := OneMessage(a, b); Shape(cmds, m) && ReadOk(cmds, m) && m.pos == 3 && m.status == Writing
    ensures Begin(OneMessage(a, b), m, bus) == m.(signalled := true, status := Idle)
  {
  }

  /** A run of the message from either counts, with the two ends of programs it needs. */
  lemma MessageRun(a: byte, b: byte, used: seq<nat>, bufs: seq<seq<byte>>, regs: seq<Reg>, bus: nat -> byte)
    requires used == [0, 0, 0] || used == [0, 2, 0]
    requires Shape(OneMessage(a, b), Loaded(used, bufs, regs))
    ensures ShortRuns(OneMessage(a, b))
    ensures var m := Run(OneMessage(a, b), Loaded(used, bufs, regs), [EndDetect, EndDetect], bus);
            && Verdict(m) == Idle && m.used == [0, 2, 0]
            && m.issued == if used[1] == 0 then [BusStart, BusWrite(a, true), BusWrite(b, true), BusStop]
                           else [BusStart, BusStop]
  {
    OneMessageShape(a, b);
    var cmds, e := OneMessage(a, b), EndDetect;
    hide OneMessage, Begin, Shape;
    var m0 := Loaded(used, bufs, regs);
    assert m0.used == used;
    BeginKeeps(cmds, m0, bus);
    MessageProgram(a, b, m0, bus);
    var m1 := Begin(cmds, m0, bus);
    MessageStop(a, b, m1, bus);
    ServeOne(cmds, m1, [e, e], bus);
    assert [e, e][1..] == [e];
    var m2 := Begin(cmds, m1, bus);
    MessageEnd(a, b, m2, bus);
    ServeOne(cmds, m2, [e], bus);
  }

  /** The same list run twice: the second run reports success as well, but both bytes are missing on the bus. */
  lemma SecondRunLosesBytes(a: byte, b: byte, bufs: seq<seq<byte>>, regs: seq<Reg>, bus: nat -> byte)
    requires Shape(OneMessage(a, b), Loaded([0, 0, 0], bufs, regs))
    ensures ShortRuns(OneMessage(a, b))
    ensures var cmds, events := OneMessage(a, b), [EndDetect, EndDetect];
            var first := Run(cmds, Loaded([0, 0, 0], bufs, regs), events, bus);
            var m0 := Loaded(first.used, first.bufs, first.regs);
            && Verdict(first) == Idle && first.issued == [BusStart, BusWrite(a, true), BusWrite(b, true), BusStop]
            && Shape(cmds, m0) && Verdict(Run(cmds, m0, events, bus)) == Idle
            && Run(cmds, m0, events, bus).issued == [BusStart, BusStop]
  {
    hide OneMessage, Run;
    MessageRun(a, b, [0, 0, 0], bufs, regs, bus);
    var first := Run(OneMessage(a, b), Loaded([0, 0, 0], bufs, regs), [EndDetect, EndDetect], bus);
    MessageRun(a, b, first.used, first.bufs, first.regs, bus);
  }
}

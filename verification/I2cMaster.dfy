/**
 The I2C master driver in place: the linked list of commands, and the engine whose interrupt handler walks it.  The
 engine's state is a `Machine`, and every method is one of its steps.
 */
module I2cMaster {
  import opened Bytes
  import opened I2cMachine

  // ---- The command list ----

  class Node {
    const cmd: Cmd
    const buffer: array<byte>  // where a read command stores its bytes
    var bytesUsed: nat
    var next: Node?

    constructor (cmd: Cmd)
      ensures this.cmd == cmd && next == null && bytesUsed == 0 && fresh(buffer)
      ensures buffer.Length == if cmd.Read? then cmd.len else 0
    {
      this.cmd := cmd;
      buffer := new byte[if cmd.Read? then cmd.len else 0](_ => 0);
      bytesUsed := 0;
      next := null;
    }
  }

  ghost function Cmds(nodes: seq<Node>): (cmds: seq<Cmd>)
    ensures |cmds| == |nodes| && forall i :: 0 <= i < |nodes| ==> cmds[i] == nodes[i].cmd
  {
    seq(|nodes|, i requires 0 <= i < |nodes| => nodes[i].cmd)
  }

  /** The nodes form a list, in this order, with a buffer each. */
  ghost predicate Chain(nodes: seq<Node>)
    reads nodes
  {
    && (forall i :: 0 <= i < |nodes| ==> LinkedAt(nodes, i))
    && (forall i, j :: 0 <= i < j < |nodes| ==> nodes[i] != nodes[j] && nodes[i].buffer != nodes[j].buffer)
  }

  ghost predicate LinkedAt(nodes: seq<Node>, i: nat)
    requires i < |nodes|
    reads nodes
  {
    && nodes[i].next == (if i + 1 < |nodes| then nodes[i + 1] else null)
    && nodes[i].buffer.Length == (if nodes[i].cmd.Read? then nodes[i].cmd.len else 0)
    && nodes[i].bytesUsed <= Total(nodes[i].cmd)
  }

  ghost function UsedOf(nodes: seq<Node>): (used: seq<nat>)
    reads nodes
    ensures |used| == |nodes|
  {
    seq(|nodes|, i requires 0 <= i < |nodes| reads nodes => nodes[i].bytesUsed)
  }

  ghost function BufsOf(nodes: seq<Node>): (bufs: seq<seq<byte>>)
    reads set n | n in nodes :: n.buffer
    ensures |bufs| == |nodes|
  {
    seq(|nodes|, i requires 0 <= i < |nodes| reads set n | n in nodes :: n.buffer => nodes[i].buffer[..])
  }

  datatype Ack = AckAll | NackAll | LastNack

  class CmdList {
    var head: Node?
    var cur: Node?
    ghost var nodes: seq<Node>

    ghost predicate Valid()
      reads this, nodes
    {
      && Chain(nodes)
      && (nodes == [] <==> head == null)
      && (nodes != [] ==> head == nodes[0] && cur == nodes[|nodes| - 1])
    }

    ghost function Commands(): (cmds: seq<Cmd>)
      reads this
    {
      Cmds(nodes)
    }

    constructor ()
      ensures Valid() && nodes == []
    {
      head, cur, nodes := null, null, [];
    }

    /** `i2c_cmd_link_append`; fails when there is no memory for a node. */
    method Append(cmd: Cmd, memory: bool) returns (ok: bool)
      requires Valid()
      modifies this, nodes
      ensures Valid() && ok == memory
      ensures !ok ==> nodes == old(nodes)
      ensures ok ==> Commands() == old(Commands()) + [cmd]
      ensures ok ==> |nodes| == |old(nodes)| + 1 && nodes[..|old(nodes)|] == old(nodes) && fresh(nodes[|old(nodes)|])
    {
      hide Cmds;
      ok := memory;
      if ok {
        var node := new Node(cmd);
        if head == null {
          head := node;
        } else {
          cur.next := node;
        }
        cur := node;
        ghost var before := nodes;
        nodes := nodes + [node];
        forall i | 0 <= i < |nodes|
          ensures LinkedAt(nodes, i)
        {
          assert i < |before| ==> old(LinkedAt(before, i));
        }
      }
    }

    /** `i2c_master_write`: a one-byte write becomes a byte command. */
    method MasterWrite(data: seq<byte>, ackEn: bool, memory: bool) returns (ok: bool)
      requires Valid()
      modifies this, nodes
      ensures Valid() && ok == memory
      ensures ok ==> Flatten(Commands()) == old(Flatten(Commands())) + Writes(data, ackEn)
      ensures ok && |data| == 1 ==> Commands() == old(Commands()) + [WriteByte(data[0], ackEn)]
      ensures ok && |data| != 1 ==> Commands() == old(Commands()) + [Write(data, ackEn)]
      ensures !ok ==> Commands() == old(Commands())
    {
      hide Chain;
      ghost var before := Commands();
      var cmd := if |data| == 1 then WriteByte(data[0], ackEn) else Write(data, ackEn);
      ok := Append(cmd, memory);
      FlattenAppend(before, cmd);
    }

    /** Appends one read command. */
    method AppendRead(len: nat, nack: bool, memory: bool) returns (ok: bool)
      requires Valid()
      modifies this, nodes
      ensures Valid() && ok == memory
      ensures !ok ==> nodes == old(nodes) && Commands() == old(Commands())
      ensures ok ==> Flatten(Commands()) == old(Flatten(Commands())) + Reads(len, nack)
      ensures ok ==> |nodes| == |old(nodes)| + 1 && nodes[..|old(nodes)|] == old(nodes) && fresh(nodes[|old(nodes)|])
    {
      hide Chain, Flatten, Reads, Cmds;
      ghost var before := Commands();
      ok := Append(Read(len, nack), memory);
      FlattenAppend(before, Read(len, nack));
    }

    /** `i2c_master_read`: with LAST_NACK, all bytes but the last are acknowledged. */
    method MasterRead(len: nat, ack: Ack, memory: bool, memory2: bool) returns (ok: bool)
      requires Valid()
      modifies this, nodes
      ensures Valid()
      ensures ok <==> len > 0 && memory && (ack == LastNack && len > 1 ==> memory2)
      ensures !ok ==> Flatten(Commands()) == old(Flatten(Commands()))
                                             + if len > 0 && memory then Reads(len - 1, false) else []
      ensures ok ==> Flatten(Commands()) == old(Flatten(Commands())) +
                       (if ack == LastNack then Reads(len - 1, false) + Reads(1, true) else Reads(len, ack == NackAll))
    {
      if len == 0 {
        return false;
      }
      if len == 1 {
        assert Reads(0, false) + Reads(1, true) == Reads(1, true);
      }
      hide Valid, Flatten, Reads, Cmds;
      if ack != LastNack {
        ok := AppendRead(len, ack == NackAll, memory);
      } else if len == 1 {
        ok := AppendRead(1, true, memory);
      } else {
        ok := AppendRead(len - 1, false, memory);
        if ok {
          ok := AppendRead(1, true, memory2);
        }
      }
    }
  }

  // ---- The engine ----

  class Engine {
    const bus: nat -> byte
    var head: Node?
    var cmdIdx: nat
    var status: Status
    var rxCnt: nat
    var regs: seq<Reg>
    var fifo: seq<byte>
    var signalled: bool
    var got: seq<byte>

    ghost var nodes: seq<Node>
    ghost var pos: nat
    ghost var issued: seq<BusOp>

    ghost function Abs(): (m: Machine)
      reads this, nodes, set n | n in nodes :: n.buffer
    {
      Machine(pos, UsedOf(nodes), BufsOf(nodes), status, rxCnt, regs, fifo, issued, got, signalled)
    }

    ghost predicate Linked()
      reads this`head, this`pos, this`nodes, this`regs, nodes
    {
      && Chain(nodes) && pos <= |nodes| && head == (if pos < |nodes| then nodes[pos] else null)
      && |regs| == REG_COUNT
    }

    lemma LinkedShape()
      requires Linked()
      ensures Shape(Cmds(nodes), Abs())
    {
      forall i | 0 <= i < |nodes|
        ensures UsedOf(nodes)[i] <= Total(nodes[i].cmd)
        ensures |BufsOf(nodes)[i]| == if nodes[i].cmd.Read? then nodes[i].cmd.len else 0
      {
        assert LinkedAt(nodes, i);
      }
    }

    /** Sets the progress count of the command at the head. */
    method SetUsed(v: nat)
      requires Linked() && head != null && v <= Total(head.cmd)
      modifies head`bytesUsed
      ensures Linked() && Abs() == old(Abs()).(used := old(Abs()).used[pos := v])
    {
      head.bytesUsed := v;
      forall i | 0 <= i < |nodes|
        ensures LinkedAt(nodes, i)
      {
        assert old(LinkedAt(nodes, i));
      }
      assert UsedOf(nodes) == old(UsedOf(nodes))[pos := v];
      assert BufsOf(nodes) == old(BufsOf(nodes));
    }

    /** Steps to the next node and clears its progress count. */
    method Advance()
      requires Linked() && head != null
      modifies this`head, this`pos, (set n | n in nodes)`bytesUsed
      ensures Linked() && Abs() == Next(old(Abs()))
    {
      hide Chain;
      Step();
      if head != null {
        SetUsed(0);
      }
    }

    method Step()
      requires Linked() && head != null
      modifies this`head, this`pos
      ensures Linked() && Abs() == old(Abs()).(pos := old(pos) + 1)
    {
      assert LinkedAt(nodes, pos);
      head := head.next;
      pos := pos + 1;
    }

    /** A one-byte write. */
    method PutWriteByte()
      requires Linked() && head != null && head.cmd.WriteByte? && cmdIdx < 15
      modifies this`regs, this`fifo, this`status, this`cmdIdx, this`head, this`pos, (set n | n in nodes)`bytesUsed
      ensures Linked() && cmdIdx == 0
      ensures Abs() == PutByte(old(Abs()), old(cmdIdx), old(head).cmd.b, old(head).cmd.ackEn)
    {
      hide Chain, UsedOf, BufsOf, Next;
      var cmd := head.cmd;
      fifo := fifo + [cmd.b];
      regs := regs[cmdIdx := RegWrite(1, cmd.ackEn)][cmdIdx + 1 := RegEnd];
      cmdIdx := 0;
      status := Writing;
      Advance();
    }

    lemma UsedAt()
      requires Linked() && head != null
      ensures Abs().used[pos] == head.bytesUsed <= Total(head.cmd)
    {
      assert LinkedAt(nodes, pos);
    }

    /** The register of a write of `k` bytes, and the bytes. */
    method PushData(u: nat, k: nat)
      requires Linked() && head != null && head.cmd.Write? && cmdIdx < 15 && u + k <= |head.cmd.data|
      modifies this`regs, this`fifo, this`status, this`cmdIdx
      ensures Linked() && cmdIdx == 0
      ensures Abs() == old(Abs()).(regs := Closed(old(regs), old(cmdIdx), RegWrite(k, head.cmd.ackEn)),
                                   fifo := old(fifo) + head.cmd.data[u..u + k], status := Writing)
    {
      hide Chain, UsedOf, BufsOf;
      fifo := fifo + head.cmd.data[u..u + k];
      regs := regs[cmdIdx := RegWrite(k, head.cmd.ackEn)][cmdIdx + 1 := RegEnd];
      cmdIdx := 0;
      status := Writing;
    }

    /** The next FIFO-full of a longer write. */
    method PutWrite()
      requires Linked() && head != null && head.cmd.Write? && cmdIdx < 15
      modifies this`regs, this`fifo, this`status, this`cmdIdx, this`head, this`pos, (set n | n in nodes)`bytesUsed
      ensures Linked() && cmdIdx == 0 && old(Abs().used[pos]) <= |old(head).cmd.data|
      ensures Abs() == PutData(old(Abs()), old(cmdIdx), old(head).cmd.data, old(head).cmd.ackEn)
    {
      hide Chain, UsedOf, BufsOf, Next, Closed;
      UsedAt();
      var u, total := head.bytesUsed, |head.cmd.data|;
      var k := Chunk(total - u);
      PushData(u, k);
      SetUsed(u + k);
      if u + k == total {
        Advance();
      }
    }

    /** The next FIFO-full of a read. */
    method PutRead()
      requires Linked() && head != null && head.cmd.Read? && cmdIdx < 15
      modifies this`regs, this`status, this`rxCnt
      ensures Linked() && old(Abs().used[pos]) <= head.cmd.len
      ensures Abs() == PutFetch(old(Abs()), cmdIdx, head.cmd.len, head.cmd.ackVal)
    {
      hide Chain, UsedOf, BufsOf;
      UsedAt();
      var cmd := head.cmd;
      rxCnt := Chunk(cmd.len - head.bytesUsed);
      regs := regs[cmdIdx := RegRead(rxCnt, cmd.ackVal)][cmdIdx + 1 := RegEnd];
      status := Reading;
    }

    /** A START or STOP. */
    method PutControl() returns (more: bool)
      requires Linked() && head != null && !Transfer(head.cmd) && cmdIdx < 15
      modifies this`regs, this`cmdIdx, this`head, this`pos
      ensures Linked() && cmdIdx == (if more then old(cmdIdx) + 1 else 0)
      ensures more <==> pos < |nodes| && old(cmdIdx) + 1 < 15
      ensures Abs() == PutMark(old(Abs()), old(cmdIdx), if old(head).cmd.Start? then RegRestart else RegStop)
    {
      hide Chain, UsedOf, BufsOf;
      regs := regs[cmdIdx := if head.cmd.Start? then RegRestart else RegStop];
      cmdIdx := cmdIdx + 1;
      Step();
      more := true;
      if head == null || cmdIdx >= 15 {
        cmdIdx := 0;
        more := false;
      }
    }

    /** One turn of the register loop. */
    method PutCommand() returns (more: bool)
      requires Linked() && head != null && cmdIdx < 15 && (head.cmd.Read? ==> cmdIdx == 0)
      requires Shape(Cmds(nodes), Abs())
      modifies this`regs, this`fifo, this`status, this`rxCnt, this`cmdIdx, this`head, this`pos,
        (set n | n in nodes)`bytesUsed
      ensures Linked() && cmdIdx == if more then old(cmdIdx) + 1 else 0
      ensures (Abs(), more) == Put(Cmds(nodes), old(Abs()), old(cmdIdx))
      ensures more ==> !Transfer(old(head).cmd) && pos == old(pos) + 1
    {
      hide Chain, Shape, PutByte, PutData, PutFetch, PutMark, UsedOf, BufsOf;
      more := false;
      if head.cmd.WriteByte? {
        PutWriteByte();
      } else if head.cmd.Write? {
        PutWrite();
      } else if head.cmd.Read? {
        PutRead();
      } else {
        MarkMoves(Abs(), cmdIdx);
        more := PutControl();
      }
    }

    /** Fills the registers from the head of the list. */
    method FillRegisters()
      requires Linked() && head != null && cmdIdx == 0 && ReadsFollow(Cmds(nodes)) && Shape(Cmds(nodes), Abs())
      modifies this`regs, this`fifo, this`status, this`rxCnt, this`cmdIdx, this`head, this`pos,
        (set n | n in nodes)`bytesUsed
      ensures Linked() && cmdIdx == 0 && Abs() == Fill(Cmds(nodes), old(Abs()), 0)
    {
      hide Chain, Shape, Put, ReadsFollow, UsedOf, BufsOf;
      ghost var cmds, all := Cmds(nodes), Fill(Cmds(nodes), Abs(), 0);
      var more := true;
      while head != null && more
        invariant Linked() && cmdIdx < 15 && (!more ==> cmdIdx == 0)
        invariant more ==> head != null && (head.cmd.Read? ==> cmdIdx == 0)
        invariant Shape(cmds, Abs()) && all == (if more then Fill(cmds, Abs(), cmdIdx) else Abs())
        decreases |nodes| - pos, more
      {
        ghost var p := pos;
        more := PutCommand();
        if more {
          NotRead(p);
        }
      }
    }

    /** Programs the registers and starts the hardware. */
    method ProgramBatch()
      requires Linked() && head != null && cmdIdx == 0 && ReadsFollow(Cmds(nodes)) && Shape(Cmds(nodes), Abs())
      modifies this`regs, this`fifo, this`status, this`rxCnt, this`cmdIdx, this`head, this`pos,
        this`issued, (set n | n in nodes)`bytesUsed
      ensures Linked() && cmdIdx == 0 && Abs() == Launch(Fill(Cmds(nodes), old(Abs()), 0))
    {
      hide Chain, Shape, Fill, ReadsFollow, UsedOf, BufsOf, Execute, Unsent;
      FillRegisters();
      issued := issued + Execute(regs, 0, fifo);
      fifo := Unsent(regs, 0, fifo);
    }

    lemma NotRead(p: nat)
      requires ReadsFollow(Cmds(nodes)) && p + 1 < |nodes| && !Transfer(nodes[p].cmd)
      ensures !nodes[p + 1].cmd.Read?
    {
      assert ReadFollows(Cmds(nodes), p);
    }

    lemma MarkMoves(m: Machine, idx: nat)
      requires idx < |m.regs|
      ensures PutMark(m, idx, RegRestart).pos == PutMark(m, idx, RegStop).pos == m.pos + 1
    {
    }

    /** Copies the receive FIFO behind the bytes already stored. */
    method StoreBytes()
      requires Linked() && head != null && head.cmd.Read? && head.bytesUsed + rxCnt <= head.cmd.len
      modifies this`got, head.buffer
      ensures Linked()
      ensures var m := old(Abs());
              && pos < |m.bufs| && m.used[pos] + rxCnt <= |m.bufs[pos]|
              && Abs() == m.(bufs := m.bufs[pos := Overlay(m.bufs[pos], m.used[pos], Received(m, bus))],
                             got := m.got + Received(m, bus))
    {
      assert LinkedAt(nodes, pos);
      var u, count := head.bytesUsed, |got|;
      var bytes := seq(rxCnt, i requires i >= 0 => bus(count + i));
      assert bytes == Received(Abs(), bus);
      CopyInto(head.buffer, u, bytes);
      got := got + bytes;
      assert head.buffer[..] == Overlay(old(head.buffer[..]), u, bytes);
      assert BufsOf(nodes) == old(BufsOf(nodes))[pos := head.buffer[..]];
    }

    /** Stores the bytes of the finished read program and counts them. */
    method Fetch()
      requires Linked() && head != null && head.cmd.Read? && head.bytesUsed + rxCnt <= head.cmd.len
      modifies this`got, head`bytesUsed, head.buffer
      ensures Linked() && head.bytesUsed == old(head.bytesUsed) + rxCnt
      ensures var m := old(Abs());
              && pos < |m.bufs| && m.used[pos] + rxCnt <= |m.bufs[pos]|
              && Abs() == m.(used := m.used[pos := m.used[pos] + rxCnt],
                             bufs := m.bufs[pos := Overlay(m.bufs[pos], m.used[pos], Received(m, bus))],
                             got := m.got + Received(m, bus))
    {
      hide Chain, UsedOf, BufsOf, Overlay, Received;
      UsedAt();
      StoreBytes();
      SetUsed(head.bytesUsed + rxCnt);
      UsedAt();
    }

    /** Takes in the finished read program, and goes on to the next command when the read is complete. */
    method CollectBytes()
      requires Linked() && head != null && status == Reading && cmdIdx == 0
      requires head.cmd.Read? && head.bytesUsed + rxCnt <= head.cmd.len
      requires Shape(Cmds(nodes), Abs()) && ReadOk(Cmds(nodes), Abs())
      modifies this`head, this`pos, this`got, this`cmdIdx, (set n | n in nodes)`bytesUsed, head.buffer
      ensures Linked() && cmdIdx == 0 && Abs() == Collect(Cmds(nodes), old(Abs()), bus)
    {
      hide Chain, Shape, Next, Overlay, Received, UsedOf, BufsOf, ReadOk;
      UsedAt();
      Fetch();
      if head.bytesUsed != head.cmd.len {
        cmdIdx := 0;
      } else {
        Advance();
      }
    }

    /** The engine between two calls, working on a list it can walk. */
    ghost predicate Valid()
      reads this, nodes, set n | n in nodes :: n.buffer
    {
      && Linked() && cmdIdx == 0
      && ShortRuns(Cmds(nodes)) && ReadsFollow(Cmds(nodes))
      && Shape(Cmds(nodes), Abs()) && ReadOk(Cmds(nodes), Abs())
    }

    lemma AwaitedBytes()
      requires Valid() && head != null && status == Reading
      ensures head.cmd.Read? && head.bytesUsed + rxCnt <= head.cmd.len
    {
    }

    /** The DONE event. */
    method SignalDone()
      modifies this`signalled
      ensures signalled
    {
      signalled := true;
    }

    /** The part of `i2c_master_cmd_begin_static` behind the error checks. */
    method Proceed()
      requires Valid() && !Failed(Abs()) && status != Finished
      modifies this, nodes, set n | n in nodes :: n.buffer
      ensures Linked() && cmdIdx == 0 && nodes == old(nodes) && Abs() == Begin(Cmds(nodes), old(Abs()), bus)
    {
      hide Chain, Fill, ReadsFollow, ShortRuns, UsedOf, BufsOf, Launch, Collect, Shape;
      if head != null && status == Reading {
        AwaitedBytes();
        CollectBytes();
      }
      if head == null {
        SignalDone();
        status := Idle;
      } else {
        ProgramBatch();
      }
    }

    /** `i2c_master_cmd_begin_static`: collect, then program the next piece, or report the end. */
    method BeginStatic()
      requires Valid()
      modifies this, nodes, set n | n in nodes :: n.buffer
      ensures Valid() && nodes == old(nodes) && Abs() == Begin(Cmds(nodes), old(Abs()), bus)
    {
      BeginKeeps(Cmds(nodes), Abs(), bus);
      hide Chain, ReadsFollow, ShortRuns, UsedOf, BufsOf, Shape, ReadOk, Linked;
      if status == AckError || status == TimedOut {
        SignalDone();
      } else if status != Finished {
        Proceed();
      }
    }

    method Fail(s: Status)
      requires Valid() && (s == AckError || s == TimedOut)
      modifies this`status
      ensures Valid() && Abs() == old(Abs()).(status := s)
    {
      hide Chain, UsedOf, BufsOf;
      status := s;
    }

    /** The master half of the interrupt handler. */
    method Interrupt(event: Event)
      requires Valid()
      modifies this, nodes, set n | n in nodes :: n.buffer
      ensures Valid() && nodes == old(nodes) && Abs() == OnEvent(Cmds(nodes), old(Abs()), event, bus)
    {
      hide Chain, ReadsFollow, ShortRuns, UsedOf, BufsOf, Shape, Begin, Linked;
      if status != Writing && status != Reading {
        return;
      }
      match event {
        case Nack => Fail(AckError);
        case Timeout => Fail(TimedOut);
        case ArbitrationLost => Fail(TimedOut);
        case EndDetect =>
        case TransDone =>
      }
      BeginStatic();
    }

    constructor (bus: nat -> byte, stale: seq<Reg>)
      requires |stale| == REG_COUNT
      ensures this.bus == bus && regs == stale && status == Finished
    {
      this.bus := bus;
      head, cmdIdx, status, rxCnt := null, 0, Finished, 0;
      regs, fifo, signalled, got := stale, [], false, [];
      nodes, pos, issued := [], 0, [];
    }

    /** The set-up of `i2c_master_cmd_begin`; only the first progress count is cleared. */
    method Load(list: CmdList)
      requires list.Valid() && list.nodes != [] && |regs| == REG_COUNT
      requires ShortRuns(list.Commands()) && ReadsFollow(list.Commands())
      modifies this, list.nodes
      ensures Valid() && nodes == list.nodes && list.nodes == old(list.nodes)
      ensures Abs() == Loaded(old(UsedOf(list.nodes)), old(BufsOf(list.nodes)), old(regs))
    {
      SetUp(list);
      hide Chain, UsedOf, BufsOf;
      SetUsed(0);
      LinkedShape();
    }

    method SetUp(list: CmdList)
      requires list.Valid() && list.nodes != [] && |regs| == REG_COUNT
      modifies this
      ensures Linked() && cmdIdx == 0 && head != null && nodes == list.nodes
      ensures Abs() == Machine(0, UsedOf(nodes), BufsOf(nodes), Idle, 0, old(regs), [], [], [], false)
    {
      hide Chain, UsedOf, BufsOf;
      Reset();
      head, nodes, pos := list.head, list.nodes, 0;
    }

    method Reset()
      modifies this`status, this`cmdIdx, this`rxCnt, this`fifo, this`signalled, this`got, this`issued
      ensures status == Idle && cmdIdx == 0 && rxCnt == 0 && fifo == [] && !signalled && got == [] && issued == []
    {
      status, cmdIdx, rxCnt, fifo, signalled, got, issued := Idle, 0, 0, [], false, [], [];
    }

    /** The wait for DONE, interrupted by these events. */
    method Await(events: seq<Event>)
      requires Valid()
      modifies this, nodes, set n | n in nodes :: n.buffer
      ensures Valid() && nodes == old(nodes) && Abs() == Serve(Cmds(nodes), old(Abs()), events, bus)
    {
      hide Linked, Shape, ReadOk, ShortRuns, ReadsFollow, OnEvent;
      ghost var cmds := Cmds(nodes);
      var i := 0;
      assert events[0..] == events;
      while i < |events| && !signalled
        invariant 0 <= i <= |events| && Valid() && nodes == old(nodes)
        invariant Serve(cmds, Abs(), events[i..], bus) == Serve(cmds, old(Abs()), events, bus)
      {
        assert events[i..][1..] == events[i + 1..];
        Interrupt(events[i]);
        i := i + 1;
      }
    }

    /** The first program and the events that follow. */
    method Drive(events: seq<Event>)
      requires Valid()
      modifies this, nodes, set n | n in nodes :: n.buffer
      ensures Valid() && nodes == old(nodes) && Abs() == Run(Cmds(nodes), old(Abs()), events, bus)
    {
      hide Linked, Shape, ReadOk, ShortRuns, ReadsFollow, Begin, Serve;
      BeginStatic();
      Await(events);
    }

    /**
     `i2c_master_cmd_begin` under any sequence of interrupts is `Run` on the list.  So if the list is in order, the
     operations issued are a prefix of it; and a transfer that succeeds has done the list exactly if it is in order, and
     has filled the read buffers in order.  The answer follows from the list and the events: the first error heard while
     a program runs ends the transfer with its own answer, and success takes as many ends of programs as the list needs.
     */
    method Transmit(list: CmdList, events: seq<Event>) returns (ret: Status)
      requires list.Valid() && list.nodes != [] && |regs| == REG_COUNT
      requires ShortRuns(list.Commands()) && ReadsFollow(list.Commands())
      modifies this, list.nodes, set n | n in list.nodes :: n.buffer
      ensures list.Valid() && list.nodes == old(list.nodes) && |regs| == REG_COUNT
      ensures var cmds, m0 := list.Commands(), Loaded(old(UsedOf(list.nodes)), old(BufsOf(list.nodes)), old(regs));
              && Shape(cmds, m0) && ReadOk(cmds, m0)
              && var m := Run(cmds, m0, events, bus);
                 && issued == m.issued && got == m.got && BufsOf(list.nodes) == m.bufs && ret == Verdict(m)
                 && |old(UsedOf(list.nodes))| == |cmds| && Kept(cmds, old(UsedOf(list.nodes)), m0, events, m, bus)
    {
      hide ShortRuns, ReadsFollow, Run, Kept, UsedOf, BufsOf, Chain, Shape;
      ghost var used, bufs, stale := UsedOf(list.nodes), BufsOf(list.nodes), regs;
      Load(list);
      ghost var cmds := Cmds(nodes);
      RunKept(cmds, used, bufs, stale, events, bus);
      Drive(events);
      ret := if !signalled then TimedOut else if status == AckError || status == TimedOut then status else Idle;
      status := Finished;
    }
  }
}

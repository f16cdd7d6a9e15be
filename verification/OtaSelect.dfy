/**
 Boot-slot selection: two records with sequence numbers in two flash sectors, switching between
 application slots, rollback, and the host tool that edits the same records.

 The checksum is a parameter.  `CrcOk` is the one fact used about it: with this seed the CRC of a
 four-byte word is all ones only for the zero word.
 */
module OtaSelect {
  import opened Bytes

  const UMAX: nat := 0xFFFF_FFFF

  const IMG_VALID: nat := 2
  const IMG_INVALID: nat := 3
  const IMG_ABORTED: nat := 4

  datatype Entry = Entry(seqNo: nat, state: nat, crc: nat)

  /** The two records. */
  type OtaData = d: seq<Entry> | |d| == 2 witness [BLANK, BLANK]

  /** An erased record. */
  const BLANK: Entry := Entry(UMAX, UMAX, UMAX)

  type Crc = nat -> nat

  ghost predicate CrcOk(crc: Crc) {
    forall s: nat :: 0 < s < U32 ==> crc(s) != UMAX
  }

  predicate BadState(e: Entry) {
    e.state == IMG_INVALID || e.state == IMG_ABORTED
  }

  predicate SelectInvalid(e: Entry) {
    e.seqNo == UMAX || BadState(e)
  }

  predicate SelectValid(crc: Crc, e: Entry) {
    !SelectInvalid(e) && e.crc == crc(e.seqNo)
  }

  /** The valid record with the larger sequence number; record 0 on a tie. */
  function SelectMax(d: OtaData, valid0: bool, valid1: bool): (a: Option<nat>)
    ensures a.Some? ==> a.value < 2
  {
    if valid0 && valid1 then
      if d[0].seqNo >= d[1].seqNo then Some(0) else Some(1)
    else if valid0 then Some(0)
    else if valid1 then Some(1)
    else None
  }

  function Active(crc: Crc, d: OtaData): (a: Option<nat>)
    ensures a.Some? ==> a.value < 2 && SelectValid(crc, d[a.value])
    ensures forall i :: 0 <= i < 2 && SelectValid(crc, d[i]) ==>
              a.Some? && d[i].seqNo <= d[a.value].seqNo
  {
    SelectMax(d, SelectValid(crc, d[0]), SelectValid(crc, d[1]))
  }

  /** In plain numbers: a record counts unless it is erased, invalid (3) or aborted (4), or its checksum is wrong. */
  predicate Counts(crc: Crc, e: Entry) {
    e.seqNo != 0xFFFF_FFFF && e.state != 3 && e.state != 4 && e.crc == crc(e.seqNo)
  }

  /** The active record is the one that counts; of two, the one with the larger number, or the first on a tie. */
  lemma ActiveIff(crc: Crc, d: OtaData, i: nat)
    requires i < 2
    ensures Active(crc, d) == Some(i) <==>
            && Counts(crc, d[i])
            && (Counts(crc, d[1 - i]) ==> d[i].seqNo > d[1 - i].seqNo || (d[i].seqNo == d[1 - i].seqNo && i == 0))
  {
  }

  // ---- Partitions ----

  datatype Part = Factory | Slot(i: nat) | Test

  /** The application partitions of the partition table. */
  type Table = set<Part>

  /** Number of application slots, counted from slot 0 up to the first missing one. */
  function SlotCount(t: Table, from: nat): (n: nat)
    requires from <= 16
    ensures from <= n <= 16
    ensures forall i :: from <= i < n ==> Slot(i) in t
    ensures n < 16 ==> Slot(n) !in t
    decreases 16 - from
  {
    if from < 16 && Slot(from) in t then SlotCount(t, from + 1) else from
  }

  function FirstSlot(t: Table, from: nat): (p: Option<Part>)
    requires from <= 16
    decreases 16 - from
  {
    if from == 16 then None else if Slot(from) in t then Some(Slot(from)) else FirstSlot(t, from + 1)
  }

  function DefaultBoot(t: Table): (p: Option<Part>) {
    if Factory in t then Some(Factory)
    else if FirstSlot(t, 0).Some? then FirstSlot(t, 0)
    else if Test in t then Some(Test)
    else None
  }

  /** The default order: the factory image, then the first slot there is, then the test image. */
  lemma DefaultBootOrder(t: Table)
    ensures DefaultBoot(t) == Some(Factory) <==> Factory in t
    ensures forall i: nat :: DefaultBoot(t) == Some(Slot(i)) <==>
              && Factory !in t && i < 16 && Slot(i) in t && forall j: nat :: j < i ==> Slot(j) !in t
    ensures DefaultBoot(t) == Some(Test) <==>
              Factory !in t && Test in t && forall j: nat :: j < 16 ==> Slot(j) !in t
  {
    FirstSlotIsFirst(t, 0);
  }

  lemma {:induction false} FirstSlotIsFirst(t: Table, from: nat)
    requires from <= 16
    ensures FirstSlot(t, from) == None || exists i: nat :: from <= i < 16 && FirstSlot(t, from) == Some(Slot(i))
    ensures forall i: nat :: FirstSlot(t, from) == Some(Slot(i)) ==>
              from <= i < 16 && Slot(i) in t && forall j: nat :: from <= j < i ==> Slot(j) !in t
    ensures FirstSlot(t, from) == None ==> forall j: nat :: from <= j < 16 ==> Slot(j) !in t
    decreases 16 - from
  {
    if from < 16 {
      FirstSlotIsFirst(t, from + 1);
    }
  }

  /** The slot a sequence number stands for; the C subtraction is unsigned. */
  function SlotOf(seqNo: nat, n: nat): (i: nat)
    requires n > 0
    ensures i < n
  {
    (seqNo - 1) % U32 % n
  }

  function BootPartition(crc: Crc, d: OtaData, t: Table): (p: Option<Part>) {
    var n := SlotCount(t, 0);
    if (SelectInvalid(d[0]) && SelectInvalid(d[1])) || n == 0 then
      DefaultBoot(t)
    else
      var a := Active(crc, d);
      if a.Some? then
        var s := Slot(SlotOf(d[a.value].seqNo, n));
        if s in t then Some(s) else None
      else
        DefaultBoot(t)
  }

  // ---- The next sequence number ----

  lemma RemainderStep(a: int, n: int)
    requires n > 0
    ensures (a + n) % n == a % n
  {
    assert a + n == (a / n + 1) * n + a % n;
    RemainderUnique(a + n, n, a / n + 1, a % n);
  }

  /** Numbers with the same remainder are at least `n` apart. */
  lemma SameRemainderApart(u: int, v: int, n: int)
    requires n > 0 && u < v && u % n == v % n
    ensures v >= u + n
  {
    DivideBack(u, n);
    DivideBack(v, n);
    var p, q := u / n, v / n;
    if q > p {
      MulSub(q, p, n);
      MulAtLeast(q - p, n);
    } else if q < p {
      MulSub(p, q, n);
      MulAtLeast(p - q, n);
    }
  }

  /** A sequence number stands for slot `x` exactly if it is `x + 1` modulo the number of slots. */
  lemma SlotRemainder(v: nat, x: nat, n: nat)
    requires 0 < v < U32 && x < n
    ensures SlotOf(v, n) == x <==> v % n == (x + 1) % n
  {
    assert SlotOf(v, n) == (v - 1) % n;
    var q, m := (v - 1) / n, (v - 1) % n;
    assert v - 1 == q * n + m;
    if m + 1 < n {
      RemainderUnique(v, n, q, m + 1);
    } else {
      assert v == (q + 1) * n + 0;
      RemainderUnique(v, n, q + 1, 0);
    }
    if x + 1 < n {
      RemainderUnique(x + 1, n, 0, x + 1);
    } else {
      RemainderUnique(x + 1, n, 1, 0);
    }
  }

  /** The first of `r`, `r + n`, `r + 2n`, ... that reaches `s`. */
  function Climb(s: nat, r: nat, n: nat): (v: nat)
    requires n > 0
    decreases s - r
  {
    if s <= r then r else Climb(s, r + n, n)
  }

  lemma {:induction false} ClimbFacts(s: nat, r: nat, n: nat)
    requires n > 0
    ensures Climb(s, r, n) >= s && Climb(s, r, n) >= r
    ensures Climb(s, r, n) % n == r % n
    ensures r < s + n ==> Climb(s, r, n) < s + n
    decreases s - r
  {
    if s > r {
      ClimbFacts(s, r + n, n);
      RemainderStep(r, n);
    }
  }

  function NextSeq(s: nat, x: nat, n: nat): (v: nat)
    requires x < n
  {
    Climb(s, (x + 1) % n, n)
  }

  /** The new sequence number is the least one, not below the active one, that stands for the target
      slot; it adds less than the number of slots. */
  lemma NextSeqIsLeast(s: nat, x: nat, n: nat)
    requires 0 < s && x < n && NextSeq(s, x, n) < U32
    ensures var v := NextSeq(s, x, n);
            && s <= v < s + n && SlotOf(v, n) == x
            && forall u :: s <= u < v ==> SlotOf(u, n) != x
  {
    var r := (x + 1) % n;
    var v := NextSeq(s, x, n);
    ClimbFacts(s, r, n);
    RemainderUnique(r, n, 0, r);
    SlotRemainder(v, x, n);
    forall u | s <= u < v
      ensures SlotOf(u, n) != x
    {
      if SlotOf(u, n) == x {
        SlotRemainder(u, x, n);
        SameRemainderApart(u, v, n);
      }
    }
  }

  /** A number that fits 32 bits, is not below `s` and stands for slot `x` exists exactly if the least one fits; the
      loop, which stops only at a number not below `s`, cannot select the slot otherwise. */
  lemma NumberLeftIff(s: nat, x: nat, n: nat)
    requires 0 < s < U32 && x < n
    ensures (exists c :: s <= c < U32 && SlotOf(c, n) == x) <==> NextSeq(s, x, n) < U32
  {
    var r, v := (x + 1) % n, NextSeq(s, x, n);
    ClimbFacts(s, r, n);
    if v < U32 {
      NextSeqIsLeast(s, x, n);
    } else {
      RemainderUnique(r, n, 0, r);
      forall c | s <= c < U32
        ensures SlotOf(c, n) != x
      {
        if SlotOf(c, n) == x {
          SlotRemainder(c, x, n);
          SameRemainderApart(c, v, n);
        }
      }
    }
  }

  /** The `i`-th number the device's loop tries, in 32-bit arithmetic. */
  function Candidate(r: nat, i: nat, n: nat): (v: nat) {
    Plus32(r, i * n % U32)
  }

  /** If no number is left, the wrapping loop can only stop at another slot. */
  lemma LoopMisses(s: nat, x: nat, n: nat, i: nat)
    requires 0 < s < U32 && x < n && NextSeq(s, x, n) >= U32 && Candidate((x + 1) % n, i, n) >= s
    ensures SlotOf(Candidate((x + 1) % n, i, n), n) != x
  {
    hide NextSeq, SlotOf;
    NumberLeftIff(s, x, n);
  }

  lemma CandidateExact(r: nat, i: nat, n: nat, k: nat)
    requires k == i * n && r + k < U32
    ensures Candidate(r, i, n) == r + k
    ensures k + n == (i + 1) * n
  {
  }

  /** The device's loop. */
  method DeviceNextSeq(s: nat, x: nat, n: nat) returns (v: nat)
    requires x < n <= 16 && s < U32 && NextSeq(s, x, n) < U32
    ensures v == NextSeq(s, x, n)
  {
    hide Candidate;
    var r := (x + 1) % n;
    var i := 0;
    ghost var k := 0;
    ClimbFacts(s, r, n);
    CandidateExact(r, 0, n, 0);
    while s > Candidate(r, i, n)
      invariant i >= 0 && k == i * n && r + k < U32
      invariant Candidate(r, i, n) == r + k
      invariant Climb(s, r + k, n) == NextSeq(s, x, n)
      decreases s - (r + k)
    {
      ClimbFacts(s, r + k + n, n);
      CandidateExact(r, i, n, k);
      k := k + n;
      i := i + 1;
      CandidateExact(r, i, n, k);
    }
    return Candidate(r, i, n);
  }

  // ---- Rewriting a record, with power failures ----

  /** How far a record rewrite gets: not begun, erased, `cut` bytes of 32 programmed, complete. */
  datatype Power = NotBegun | Erased | Cut(cut: nat) | Complete

  /** `w` little-endian bytes of which only the first `k` were programmed over erased flash. */
  function Partial(v: nat, w: nat, k: nat): (r: nat) {
    if w == 0 then 0
    else (if k > 0 then v % 256 else 0xFF) + 256 * Partial(v / 256, w - 1, if k > 0 then k - 1 else 0)
  }

  function Pow256(w: nat): (p: nat) {
    if w == 0 then 1 else 256 * Pow256(w - 1)
  }

  lemma {:induction false} PartialFacts(v: nat, w: nat, k: nat)
    requires v < Pow256(w)
    ensures Partial(v, w, k) < Pow256(w)
    ensures k >= w ==> Partial(v, w, k) == v
    ensures k == 0 ==> Partial(v, w, k) == Pow256(w) - 1
    ensures k < w ==> Partial(v, w, k) >= 255 * Pow256(w - 1)
  {
    if w > 0 {
      PartialFacts(v / 256, w - 1, if k > 0 then k - 1 else 0);
    }
  }

  /** A word of which only the first `k` bytes were programmed. */
  function TornWord(v: nat, k: nat): (w: nat)
    requires v < U32
    ensures k >= 4 ==> w == v
    ensures k < 4 ==> w >= 0xFF00_0000
    ensures k == 0 ==> w == UMAX
    ensures w < U32
  {
    assert Pow256(2) == 0x1_0000 && Pow256(4) == U32 && Pow256(3) == 0x100_0000;
    PartialFacts(v, 4, k);
    Partial(v, 4, k)
  }

  function Clip(cut: nat, from: nat): (k: nat) {
    if cut <= from then 0 else cut - from
  }

  /** The record layout: sequence number at byte 0, state at byte 24, checksum at byte 28. */
  function Torn(e: Entry, cut: nat): (t: Entry)
    requires EntryOk(e)
  {
    Entry(TornWord(e.seqNo, cut), TornWord(e.state, Clip(cut, 24)), TornWord(e.crc, Clip(cut, 28)))
  }

  predicate EntryOk(e: Entry) {
    e.seqNo < U32 && e.state < U32 && e.crc < U32
  }

  function Rewrite(d: OtaData, sec: nat, e: Entry, power: Power): (d': OtaData)
    requires sec < 2 && EntryOk(e)
  {
    match power
    case NotBegun => d
    case Erased => d[sec := BLANK]
    case Cut(cut) => d[sec := Torn(e, cut)]
    case Complete => d[sec := e]
  }

  /** Byte `j` of a little-endian word. */
  function ByteOf(v: nat, j: nat): (b: nat) {
    if j == 0 then v % 256 else ByteOf(v / 256, j - 1)
  }

  lemma {:induction false} PartialBytes(v: nat, w: nat, k: nat, j: nat)
    requires j < w
    ensures ByteOf(Partial(v, w, k), j) == if j < k then ByteOf(v, j) else 0xFF
    decreases j
  {
    var k' := if k > 0 then k - 1 else 0;
    var rest := Partial(v / 256, w - 1, k');
    RemainderUnique(Partial(v, w, k), 256, rest, if k > 0 then v % 256 else 0xFF);
    if j > 0 {
      PartialBytes(v / 256, w - 1, k', j - 1);
    }
  }

  /** Of a record cut off behind `cut` bytes, exactly the bytes from there on are blank. */
  lemma TornBytes(e: Entry, cut: nat, j: nat)
    requires EntryOk(e) && j < 4
    ensures ByteOf(Torn(e, cut).seqNo, j) == if j < cut then ByteOf(e.seqNo, j) else 0xFF
    ensures ByteOf(Torn(e, cut).state, j) == if 24 + j < cut then ByteOf(e.state, j) else 0xFF
    ensures ByteOf(Torn(e, cut).crc, j) == if 28 + j < cut then ByteOf(e.crc, j) else 0xFF
  {
    PartialBytes(e.seqNo, 4, cut, j);
    PartialBytes(e.state, 4, Clip(cut, 24), j);
    PartialBytes(e.crc, 4, Clip(cut, 28), j);
    hide Partial, ByteOf;
  }

  /** A record cut off anywhere is invalid, or was in fact written in full. */
  lemma TornIsInvalidOrWhole(crc: Crc, e: Entry, cut: nat)
    requires CrcOk(crc) && EntryOk(e) && 0 < e.seqNo && e.crc == crc(e.seqNo)
    ensures !SelectValid(crc, Torn(e, cut)) || Torn(e, cut) == e
  {
  }

  // ---- Switching the boot slot ----

  /** The record `esp_rewrite_ota_data` writes for slot `x` of `n`, and where. */
  function SwitchRecord(crc: Crc, d: OtaData, x: nat, n: nat, newState: nat): (r: (nat, Entry))
    requires x < n
    ensures r.0 < 2
  {
    var a := Active(crc, d);
    var v := if a.Some? then NextSeq(d[a.value].seqNo, x, n) else x + 1;
    (if a.Some? then 1 - a.value else 0, Entry(v, newState, crc(v)))
  }

  /** The record can be selected: its number is in range and its state is not a failed one. */
  ghost predicate Usable(crc: Crc, e: Entry) {
    EntryOk(e) && 0 < e.seqNo && e.crc == crc(e.seqNo) && !BadState(e)
  }

  /** Boot selection: the active record's slot, or the default without one or without slots. */
  lemma BootFollowsActive(crc: Crc, d: OtaData, t: Table)
    ensures BootPartition(crc, d, t) ==
            if SlotCount(t, 0) > 0 && Active(crc, d).Some?
            then Some(Slot(SlotOf(d[Active(crc, d).value].seqNo, SlotCount(t, 0))))
            else DefaultBoot(t)
  {
  }

  /** Replacing the record beside a valid one: an invalid record leaves the selection alone, a valid one
      with a number not smaller takes over. */
  lemma ReplaceOther(crc: Crc, d: OtaData, a: nat, e: Entry)
    requires a < 2 && SelectValid(crc, d[a])
    ensures var b := Active(crc, d[1 - a := e]);
            && b.Some?
            && (!SelectValid(crc, e) ==> b == Some(a))
            && (SelectValid(crc, e) && e.seqNo >= d[a].seqNo ==> d[1 - a := e][b.value].seqNo == e.seqNo)
  {
  }

  /** Completion selects the requested slot if and only if the new number is not the erased pattern. */
  lemma SwitchSelectsIff(crc: Crc, d: OtaData, t: Table, x: nat, newState: nat)
    requires x < SlotCount(t, 0)
    requires Active(crc, d).Some? ==> 0 < d[Active(crc, d).value].seqNo
    requires Usable(crc, SwitchRecord(crc, d, x, SlotCount(t, 0), newState).1)
    ensures var (sec, e) := SwitchRecord(crc, d, x, SlotCount(t, 0), newState);
            BootPartition(crc, Rewrite(d, sec, e, Complete), t) == Some(Slot(x)) <==> e.seqNo != UMAX
  {
    var n := SlotCount(t, 0);
    var (sec, e) := SwitchRecord(crc, d, x, n, newState);
    var d' := Rewrite(d, sec, e, Complete);
    BootFollowsActive(crc, d', t);
    var a := Active(crc, d);
    if a.Some? {
      var s := d[a.value].seqNo;
      NextSeqIsLeast(s, x, n);
      ReplaceOther(crc, d, a.value, e);
      hide SelectMax, SlotOf, BootPartition, NextSeq;
      if e.seqNo == UMAX {
        assert Active(crc, d') == a && SlotOf(s, n) != x;
      }
    } else {
      hide BootPartition;
      assert e.seqNo == x + 1 && SlotOf(x + 1, n) == x by {
        SlotRemainder(x + 1, x, n);
      }
      assert Active(crc, d') == Some(0);
    }
  }

  /** Switching is atomic under power failure: at every instant boot selection yields the slot or the default partition
      selected before, or the requested slot. */
  lemma SwitchIsCrashAtomic(crc: Crc, d: OtaData, t: Table, x: nat, newState: nat, power: Power)
    requires CrcOk(crc) && x < SlotCount(t, 0)
    requires Active(crc, d).Some? ==> 0 < d[Active(crc, d).value].seqNo
    requires Usable(crc, SwitchRecord(crc, d, x, SlotCount(t, 0), newState).1)
    ensures var (sec, e) := SwitchRecord(crc, d, x, SlotCount(t, 0), newState);
            var after := BootPartition(crc, Rewrite(d, sec, e, power), t);
            after == BootPartition(crc, d, t) || after == Some(Slot(x))
  {
    var n := SlotCount(t, 0);
    var (sec, e) := SwitchRecord(crc, d, x, n, newState);
    var d' := Rewrite(d, sec, e, power);
    BootFollowsActive(crc, d, t);
    BootFollowsActive(crc, d', t);
    if power.Cut? {
      TornIsInvalidOrWhole(crc, e, power.cut);
    }
    if Active(crc, d).Some? {
      var a := Active(crc, d).value;
      NextSeqIsLeast(d[a].seqNo, x, n);
      hide SelectMax, SlotOf, BootPartition, NextSeq, Torn;
      if power != NotBegun {
        assert d' == d[1 - a := d'[1 - a]];
        ReplaceOther(crc, d, a, d'[1 - a]);
      }
    } else {
      SlotRemainder(x + 1, x, n);
      hide SlotOf, BootPartition, NextSeq, Torn;
      assert !SelectValid(crc, d[1]) && d'[1] == d[1];
      assert SelectValid(crc, d'[0]) ==> d'[0] == e && Active(crc, d') == Some(0);
    }
  }

  // ---- Growth of the sequence number ----

  /** The records after switching to each of these slots in turn. */
  function Switches(crc: Crc, d: OtaData, slots: seq<nat>, n: nat, newState: nat): (d': OtaData)
    requires forall i :: 0 <= i < |slots| ==> slots[i] < n
  {
    if slots == [] then d
    else
      var before := Switches(crc, d, slots[..|slots| - 1], n, newState);
      var (sec, e) := SwitchRecord(crc, before, slots[|slots| - 1], n, newState);
      before[sec := e]
  }

  ghost predicate NumbersWithin(crc: Crc, d: OtaData, bound: nat) {
    forall i :: 0 <= i < 2 && SelectValid(crc, d[i]) ==> 0 < d[i].seqNo <= bound
  }

  /** The largest number after `k` switches among `n` slots. */
  function Bound(k: nat, n: nat): (b: nat)
    requires n > 0
  {
    if k <= 1 then n else Bound(k - 1, n) + n - 1
  }

  lemma {:induction false} BoundClosedForm(k: nat, n: nat)
    requires n > 0 && k > 0
    ensures Bound(k, n) == n + (k - 1) * (n - 1)
  {
    if k > 1 {
      BoundClosedForm(k - 1, n);
      MulSub(k - 1, k - 2, n - 1);
    }
  }

  /** One switch of a run: the number grows by at most `n - 1` and the target becomes the selection. */
  lemma SwitchGrows(crc: Crc, d: OtaData, x: nat, n: nat, newState: nat, bound: nat)
    requires x < n && newState != IMG_INVALID && newState != IMG_ABORTED
    requires NumbersWithin(crc, d, bound) && Active(crc, d).Some? && bound + n - 1 < UMAX
    ensures var (sec, e) := SwitchRecord(crc, d, x, n, newState);
            var d' := d[sec := e];
            && NumbersWithin(crc, d', bound + n - 1)
            && Active(crc, d').Some? && SlotOf(d'[Active(crc, d').value].seqNo, n) == x
  {
    var a := Active(crc, d).value;
    var (sec, e) := SwitchRecord(crc, d, x, n, newState);
    ClimbFacts(d[a].seqNo, (x + 1) % n, n);
    NextSeqIsLeast(d[a].seqNo, x, n);
    ReplaceOther(crc, d, a, e);
    hide SlotOf, NextSeq, SelectMax;
    var d' := d[sec := e];
    assert d'[a] == d[a] && d'[sec] == e && sec == 1 - a;
    assert SelectValid(crc, e);
  }

  /** From blank records, `k` switches among `n` slots keep every number between 1 and
      `n + (k - 1)(n - 1)`, so that none of them runs out of 32 bits while that bound is below 2^32 - 1,
      and each switch selects its slot. */
  lemma {:induction false} SequenceBound(crc: Crc, slots: seq<nat>, n: nat, newState: nat)
    requires n > 0 && forall i :: 0 <= i < |slots| ==> slots[i] < n
    requires newState != IMG_INVALID && newState != IMG_ABORTED
    requires |slots| > 0 && Bound(|slots|, n) < UMAX
    ensures var d := Switches(crc, [BLANK, BLANK], slots, n, newState);
            && NumbersWithin(crc, d, Bound(|slots|, n))
            && Active(crc, d).Some?
            && SlotOf(d[Active(crc, d).value].seqNo, n) == slots[|slots| - 1]
  {
    var k := |slots|;
    var before := Switches(crc, [BLANK, BLANK], slots[..k - 1], n, newState);
    if k == 1 {
      assert before == [BLANK, BLANK];
      assert Active(crc, before).None?;
      SlotRemainder(slots[0] + 1, slots[0], n);
    } else {
      hide SlotOf, SelectMax, SwitchRecord;
      SequenceBound(crc, slots[..k - 1], n, newState);
      SwitchGrows(crc, before, slots[k - 1], n, newState, Bound(k - 1, n));
    }
  }

  // ---- Rollback ----

  /** Is there a verified image to fall back to?  `verified` holds the partitions whose image checks. */
  predicate RollbackPossible(crc: Crc, d: OtaData, t: Table, verified: set<Part>) {
    var n := SlotCount(t, 0);
    var a := Active(crc, d);
    n != 0 && a.Some? &&
    var other := d[1 - a.value];
    if SelectValid(crc, other) then
      var p := Slot(SlotOf(other.seqNo, n));
      p in t && p in verified
    else
      Factory in t && Factory in verified
  }

  /** Rollback is judged possible if and only if the image that boots without the active record is verified, and is
      the other record's or the factory image. */
  lemma RollbackPossibleIff(crc: Crc, d: OtaData, t: Table, verified: set<Part>)
    ensures RollbackPossible(crc, d, t, verified) <==>
            && SlotCount(t, 0) > 0 && Active(crc, d).Some?
            && var a := Active(crc, d).value;
               var p := BootPartition(crc, d[a := BLANK], t);
               p.Some? && p.value in verified && (SelectValid(crc, d[1 - a]) || p.value == Factory)
  {
    var n := SlotCount(t, 0);
    if n > 0 && Active(crc, d).Some? {
      var a := Active(crc, d).value;
      var d' := d[a := BLANK];
      BootFollowsActive(crc, d', t);
      DefaultBootOrder(t);
      hide BootPartition, SlotOf, DefaultBoot;
      assert d'[1 - a] == d[1 - a] && !SelectValid(crc, d'[a]);
    }
  }

  /** If rollback is judged possible and the active record is rewritten as invalid, then from the moment
      its sector is erased, and at every cut of the write, the device boots a verified image: the other
      record's slot or the factory image. */
  lemma RollbackBootsVerified(crc: Crc, d: OtaData, t: Table, verified: set<Part>, power: Power)
    requires CrcOk(crc) && RollbackPossible(crc, d, t, verified) && power != NotBegun
    requires EntryOk(d[Active(crc, d).value]) && 0 < d[Active(crc, d).value].seqNo
    ensures var a := Active(crc, d).value;
            var e := d[a].(state := IMG_INVALID);
            var p := BootPartition(crc, Rewrite(d, a, e, power), t);
            && p.Some? && p.value in verified && p.value in t
            && p.value == if SelectValid(crc, d[1 - a]) then Slot(SlotOf(d[1 - a].seqNo, SlotCount(t, 0))) else Factory
  {
  }

  /** Confirming the running image rewrites the active record in place.  From its erasure until it is whole again the
      device boots what it would without that record; otherwise the selection stays. */
  lemma ConfirmBoots(crc: Crc, d: OtaData, t: Table, power: Power)
    requires CrcOk(crc) && Active(crc, d).Some? && SlotCount(t, 0) > 0
    requires EntryOk(d[Active(crc, d).value]) && 0 < d[Active(crc, d).value].seqNo
    ensures var a := Active(crc, d).value;
            var e := d[a].(state := IMG_VALID);
            var d' := Rewrite(d, a, e, power);
            BootPartition(crc, d', t) ==
            if d'[a] == e || power == NotBegun then BootPartition(crc, d, t)
            else if SelectValid(crc, d[1 - a]) then Some(Slot(SlotOf(d[1 - a].seqNo, SlotCount(t, 0))))
            else DefaultBoot(t)
  {
    var a := Active(crc, d).value;
    var e := d[a].(state := IMG_VALID);
    var d' := Rewrite(d, a, e, power);
    BootFollowsActive(crc, d, t);
    BootFollowsActive(crc, d', t);
    if power.Cut? {
      TornIsInvalidOrWhole(crc, e, power.cut);
    }
    hide BootPartition, SlotOf, Torn;
    assert d'[1 - a] == d[1 - a];
    assert d'[a] == e || power == NotBegun || !SelectValid(crc, d'[a]);
  }

  // ---- The records in flash, updated in place ----

  datatype Err = Ok | InvalidArg | Fail | RollbackFailed

  class OtaStore {
    var records: OtaData

    constructor (d: OtaData)
      ensures records == d
    {
      records := d;
    }

    /** Erases the sector of a record and programs it, as far as the power lasts. */
    method RewriteRecord(sec: nat, e: Entry, power: Power)
      requires sec < 2 && EntryOk(e)
      modifies this
      ensures records == Rewrite(old(records), sec, e, power)
      ensures records[1 - sec] == old(records)[1 - sec] && (power == Complete ==> records[sec] == e)
      ensures forall crc :: CrcOk(crc) && 0 < e.seqNo && e.crc == crc(e.seqNo) && power != NotBegun ==>
                !SelectValid(crc, records[sec]) || records[sec] == e
    {
      forall crc | CrcOk(crc) && 0 < e.seqNo && e.crc == crc(e.seqNo) && power.Cut?
        ensures !SelectValid(crc, Torn(e, power.cut)) || Torn(e, power.cut) == e
      {
        TornIsInvalidOrWhole(crc, e, power.cut);
      }
      if power == NotBegun {
        return;
      }
      records := records[sec := BLANK];
      match power {
        case NotBegun =>
        case Erased =>
        case Cut(cut) => records := records[sec := Torn(e, cut)];
        case Complete => records := records[sec := e];
      }
    }

    /** `esp_rewrite_ota_data` for the slot whose subtype has these low bits. */
    method SwitchTo(crc: Crc, t: Table, x: nat, newState: nat, power: Power) returns (err: Err)
      requires forall s: nat :: crc(s) < U32
      requires newState < U32 && EntryOk(records[0]) && EntryOk(records[1])
      requires x < SlotCount(t, 0) ==> SwitchRecord(crc, records, x, SlotCount(t, 0), newState).1.seqNo < U32
      modifies this
      ensures err == if x < SlotCount(t, 0) then Ok else InvalidArg
      ensures err == InvalidArg ==> records == old(records)
      ensures err == Ok ==>
                var (sec, e) := SwitchRecord(crc, old(records), x, SlotCount(t, 0), newState);
                && records == Rewrite(old(records), sec, e, power)
                && (power == Complete ==>
                      && records[sec].state == newState && records[sec].crc == crc(records[sec].seqNo)
                      && (old(Active(crc, records).Some? ==> 0 < records[Active(crc, records).value].seqNo) ==>
                            SlotOf(records[sec].seqNo, SlotCount(t, 0)) == x))
    {
      var n := SlotCount(t, 0);
      if x >= n {
        return InvalidArg;
      }
      var a := Active(crc, records);
      if a.Some? {
        var v := DeviceNextSeq(records[a.value].seqNo, x, n);
        if records[a.value].seqNo > 0 {
          NextSeqIsLeast(records[a.value].seqNo, x, n);
        }
        RewriteRecord(1 - a.value, Entry(v, newState, crc(v)), power);
      } else {
        SlotRemainder(x + 1, x, n);
        RewriteRecord(0, Entry(x + 1, newState, crc(x + 1)), power);
      }
      return Ok;
    }

    /** `esp_ota_mark_app_valid_cancel_rollback`. */
    method Confirm(crc: Crc, t: Table, power: Power) returns (err: Err)
      requires CrcOk(crc) && EntryOk(records[0]) && EntryOk(records[1])
      requires Active(crc, records).Some? ==> 0 < records[Active(crc, records).value].seqNo
      modifies this
      ensures err == Ok <==> Active(crc, old(records)).Some? && SlotCount(t, 0) > 0
      ensures err != Ok ==> records == old(records)
      ensures err == Ok && power == Complete ==>
                && BootPartition(crc, records, t) == BootPartition(crc, old(records), t)
                && records[Active(crc, old(records)).value].state == IMG_VALID
    {
      var a := Active(crc, records);
      if a.None? || SlotCount(t, 0) == 0 {
        return Fail;
      }
      ConfirmBoots(crc, records, t, power);
      hide BootPartition;
      if records[a.value].state != IMG_VALID {
        RewriteRecord(a.value, records[a.value].(state := IMG_VALID), power);
      }
      return Ok;
    }

    /** `esp_ota_mark_app_invalid_rollback_and_reboot`, up to the restart. */
    method RollBack(crc: Crc, t: Table, verified: set<Part>, power: Power) returns (err: Err)
      requires CrcOk(crc) && EntryOk(records[0]) && EntryOk(records[1])
      requires Active(crc, records).Some? ==> 0 < records[Active(crc, records).value].seqNo
      modifies this
      ensures err != Ok ==> records == old(records)
      ensures err == Ok <==> RollbackPossible(crc, old(records), t, verified)
      ensures err == Fail <==> Active(crc, old(records)).None? || SlotCount(t, 0) == 0
      ensures err == Ok || err == Fail || err == RollbackFailed
      ensures err == Ok && power == Complete ==> records[Active(crc, old(records)).value].state == IMG_INVALID
      ensures err == Ok && power != NotBegun ==>
                var p := BootPartition(crc, records, t); p.Some? && p.value in verified
    {
      var a := Active(crc, records);
      if a.None? || SlotCount(t, 0) == 0 {
        return Fail;
      }
      if !RollbackPossible(crc, records, t, verified) {
        return RollbackFailed;
      }
      if power != NotBegun {
        RollbackBootsVerified(crc, records, t, verified, power);
      }
      hide BootPartition, RollbackPossible;
      RewriteRecord(a.value, records[a.value].(state := IMG_INVALID), power);
      return Ok;
    }
  }

  // ---- The host tool ----

  predicate HostValid(crc: Crc, e: Entry) {
    e.seqNo < UMAX && e.crc == crc(e.seqNo)
  }

  /** The record the host tool bases its computation on; it does not look at the state. */
  function HostBase(crc: Crc, d: OtaData): (b: Option<nat>)
    ensures b.Some? ==> b.value < 2
  {
    if HostValid(crc, d[0]) && HostValid(crc, d[1]) then
      if d[0].seqNo >= d[1].seqNo then Some(0) else Some(1)
    else if HostValid(crc, d[0]) then Some(0)
    else if HostValid(crc, d[1]) then Some(1)
    else None
  }

  /** The `i`-th number the host's loop tries. */
  function Nth(r: nat, i: nat, n: nat): (v: nat) {
    r + i * n
  }

  lemma NthStep(r: nat, i: nat, n: nat)
    ensures Nth(r, 0, n) == r && Nth(r, i + 1, n) == Nth(r, i, n) + n
  {
    MulSub(i + 1, i, n);
  }

  /** The record the host tool overwrites, ... */
  function HostRecord(crc: Crc, d: OtaData): (sec: nat)
    ensures sec < 2
  {
    if HostBase(crc, d) == Some(0) then 1 else 0
  }

  /** ... the number it writes there, ... */
  function HostNumber(crc: Crc, d: OtaData, x: nat, n: nat): (v: nat)
    requires x < n
  {
    if HostBase(crc, d).Some? then NextSeq(d[HostBase(crc, d).value].seqNo, x, n) else x + 1
  }

  /** ... and the records then: the state of the overwritten one stays. */
  function HostRecords(crc: Crc, d: OtaData, x: nat, n: nat): (d': OtaData)
    requires x < n
  {
    var sec, v := HostRecord(crc, d), HostNumber(crc, d, x, n);
    d[sec := Entry(v, d[sec].state, crc(v))]
  }

  /** The host tool; a number that does not fit its field is an error. */
  method HostSwitch(crc: Crc, d: OtaData, x: nat, n: nat) returns (r: Option<OtaData>)
    requires x < n
    ensures r == if HostNumber(crc, d, x, n) < U32 then Some(HostRecords(crc, d, x, n)) else None
  {
    var b := HostBase(crc, d);
    var sec := if b == Some(0) then 1 else 0;
    var v := x + 1;
    if b.Some? {
      var base := d[b.value].seqNo;
      var r := v % n;
      var i := 0;
      NthStep(r, 0, n);
      hide Nth;
      while base > Nth(r, i, n)
        invariant Climb(base, Nth(r, i, n), n) == NextSeq(base, x, n)
        decreases base - Nth(r, i, n)
      {
        NthStep(r, i, n);
        i := i + 1;
      }
      v := Nth(r, i, n);
    }
    r := if v < U32 then Some(d[sec := Entry(v, d[sec].state, crc(v))]) else None;
  }

  /** The device follows the host's switch exactly if the overwritten record is not marked as failed; otherwise it boots
      what it did before. */
  lemma HostSwitchHonoured(crc: Crc, d: OtaData, t: Table, x: nat)
    requires EntryOk(d[0]) && EntryOk(d[1]) && x < SlotCount(t, 0)
    requires HostBase(crc, d).Some? ==> 0 < d[HostBase(crc, d).value].seqNo
    requires HostNumber(crc, d, x, SlotCount(t, 0)) < UMAX
    ensures BootPartition(crc, HostRecords(crc, d, x, SlotCount(t, 0)), t)
         == if BadState(d[HostRecord(crc, d)]) then BootPartition(crc, d, t) else Some(Slot(x))
  {
    var n := SlotCount(t, 0);
    var sec, v, d' := HostRecord(crc, d), HostNumber(crc, d, x, n), HostRecords(crc, d, x, n);
    BootFollowsActive(crc, d, t);
    BootFollowsActive(crc, d', t);
    if HostBase(crc, d).Some? {
      NextSeqIsLeast(d[HostBase(crc, d).value].seqNo, x, n);
    } else {
      SlotRemainder(x + 1, x, n);
    }
    hide BootPartition, SlotOf, NextSeq;
    assert d'[1 - sec] == d[1 - sec];
    if BadState(d[sec]) {
      assert Active(crc, d') == Active(crc, d) && (Active(crc, d) == Some(1 - sec) || Active(crc, d) == None);
    } else {
      assert SelectValid(crc, d'[sec]);
    }
  }

  /** The host tool and the device start from the same record if and only if the host's choice is not a
      record that the device has marked as failed. */
  lemma HostBaseAgreesIff(crc: Crc, d: OtaData)
    requires EntryOk(d[0]) && EntryOk(d[1])
    ensures HostBase(crc, d) == Active(crc, d)
            <==> (HostBase(crc, d).Some? ==> !BadState(d[HostBase(crc, d).value]))
  {
  }

  /** For records not marked as failed, the host tool overwrites the record the device would, with the
      sequence number the device would write. */
  lemma HostAgreesWithDevice(crc: Crc, d: OtaData, x: nat, n: nat, newState: nat)
    requires EntryOk(d[0]) && EntryOk(d[1]) && x < n && !BadState(d[0]) && !BadState(d[1])
    ensures var (sec, e) := SwitchRecord(crc, d, x, n, newState);
            sec == HostRecord(crc, d) && e.seqNo == HostNumber(crc, d, x, n)
  {
    HostBaseAgreesIff(crc, d);
  }
}

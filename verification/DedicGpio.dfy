/**
 The dedicated-GPIO driver of one CPU core: bundles of GPIOs get contiguous windows of output and input channels.
 A mask or a register value is the set of its one bits.
 */
module DedicGpio {
  import opened Bytes

  const OUT_CHANNELS: nat := 8
  const IN_CHANNELS: nat := 8

  type Mask = set<nat>

  datatype Bundle = Bundle(outMask: Mask, inMask: Mask, outOffset: nat, inOffset: nat, size: nat, gpios: seq<nat>)

  datatype Config = Config(gpios: seq<nat>, outEnable: bool, inEnable: bool)

  datatype Status = Ok | InvalidArg | NoMem | NotFound

  // ---- Masks ----

  /** A pattern of `size` ones, shifted to `offset`. */
  function Window(offset: nat, size: nat): (m: Mask)
    ensures forall c :: c in m <==> offset <= c < offset + size
  {
    if size == 0 then {} else Window(offset, size - 1) + {offset + size - 1}
  }

  function ShiftLeft(m: Mask, k: nat): (r: Mask) {
    set b | b in m && b + k < 32 :: b + k
  }

  function ShiftRight(m: Mask, k: nat): (r: Mask) {
    set b | b in m && b >= k :: b - k
  }

  predicate Free(used: Mask, offset: nat, size: nat) {
    used !! Window(offset, size)
  }

  ghost predicate FreeWindowExists(used: Mask, size: nat, channels: nat) {
    exists i: nat :: i + size <= channels && Free(used, i, size)
  }

  /** The free window with the least offset. */
  ghost predicate FirstFree(used: Mask, size: nat, channels: nat, offset: nat) {
    && offset + size <= channels && Free(used, offset, size)
    && forall i: nat :: i < offset ==> !Free(used, i, size)
  }

  /** First-fit search; the empty mask means that no window is free. */
  method FindWindow(used: Mask, size: nat, channels: nat) returns (mask: Mask, offset: nat)
    requires 0 < size <= channels
    ensures mask == {} <==> !FreeWindowExists(used, size, channels)
    ensures mask != {} ==> mask == Window(offset, size) && FirstFree(used, size, channels, offset)
    ensures mask == {} ==> offset == 0
  {
    mask, offset := {}, 0;
    for i := 0 to channels - size + 1
      invariant mask == {} && offset == 0
      invariant forall j: nat :: j < i ==> !Free(used, j, size)
    {
      if Free(used, i, size) {
        mask, offset := Window(i, size), i;
        assert i in mask;
        return;
      }
    }
  }

  // ---- Bundles ----

  /** The masks of a bundle are windows of its size, inside the bank; at least one is there. */
  ghost predicate WellFormed(b: Bundle) {
    && b.size == |b.gpios| > 0
    && (b.outMask == {} || (b.outMask == Window(b.outOffset, b.size) && b.outOffset + b.size <= OUT_CHANNELS))
    && (b.inMask == {} || (b.inMask == Window(b.inOffset, b.size) && b.inOffset + b.size <= IN_CHANNELS))
    && (b.outMask != {} || b.inMask != {})
  }

  ghost predicate Apart(b: Bundle, c: Bundle) {
    b.outMask !! c.outMask && b.inMask !! c.inMask
  }

  /** Exactly the channels of the live bundles are occupied. */
  ghost predicate Covers(outUsed: Mask, inUsed: Mask, live: set<Bundle>) {
    CoversOut(outUsed, live) && CoversIn(inUsed, live)
  }

  ghost predicate CoversOut(used: Mask, live: set<Bundle>) {
    forall c :: c in used <==> exists b :: b in live && c in b.outMask
  }

  ghost predicate CoversIn(used: Mask, live: set<Bundle>) {
    forall c :: c in used <==> exists b :: b in live && c in b.inMask
  }

  ghost predicate Separate(live: set<Bundle>) {
    && (forall b :: b in live ==> WellFormed(b))
    && (forall b, c :: b in live && c in live && b != c ==> Apart(b, c))
  }

  /** What a bundle reads of the output register. */
  function View(out: Mask, b: Bundle): (v: Mask) {
    ShiftRight(out * b.outMask, b.outOffset)
  }

  /** The register with the bits of `mask` replaced. */
  function Masked(out: Mask, mask: Mask, value: Mask): (r: Mask) {
    (out - mask) + (value * mask)
  }

  function WriteTo(out: Mask, b: Bundle, mask: Mask, value: Mask): (r: Mask) {
    Masked(out, b.outMask * ShiftLeft(mask, b.outOffset), ShiftLeft(value, b.outOffset))
  }

  lemma ViewBit(out: Mask, b: Bundle, k: nat)
    ensures k in View(out, b) <==> k + b.outOffset in out && k + b.outOffset in b.outMask
  {
    if k + b.outOffset in out * b.outMask {
      assert k == (k + b.outOffset) - b.outOffset;
    }
  }

  lemma ShiftLeftBit(m: Mask, off: nat, k: nat)
    requires k + off < 32
    ensures k + off in ShiftLeft(m, off) <==> k in m
  {
  }

  /** A bundle is a register of its own, as wide as the bundle: a write changes just the selected bits. */
  lemma WriteSeenByOwner(out: Mask, b: Bundle, mask: Mask, value: Mask)
    requires WellFormed(b)
    ensures View(WriteTo(out, b, mask, value), b)
         == if b.outMask == {} then View(out, b) else Masked(View(out, b), mask * Window(0, b.size), value)
  {
    hide View, Masked, ShiftLeft;
    var after := WriteTo(out, b, mask, value);
    forall k: nat
      ensures k in View(after, b) <==>
              if b.outMask == {} then k in View(out, b) else k in Masked(View(out, b), mask * Window(0, b.size), value)
    {
      ViewBit(out, b, k);
      ViewBit(after, b, k);
      MaskedBit(View(out, b), mask * Window(0, b.size), value, k);
      MaskedBit(out, b.outMask * ShiftLeft(mask, b.outOffset), ShiftLeft(value, b.outOffset), k + b.outOffset);
      if k + b.outOffset in b.outMask {
        ShiftLeftBit(mask, b.outOffset, k);
        ShiftLeftBit(value, b.outOffset, k);
      }
    }
  }

  lemma MaskedBit(out: Mask, mask: Mask, value: Mask, k: nat)
    ensures k in Masked(out, mask, value) <==> if k in mask then k in value else k in out
  {
  }

  /** ... and no other bundle sees it. */
  lemma WriteUnseenByOthers(out: Mask, b: Bundle, c: Bundle, mask: Mask, value: Mask)
    requires Apart(b, c)
    ensures View(WriteTo(out, b, mask, value), c) == View(out, c)
  {
    assert WriteTo(out, b, mask, value) * c.outMask == out * c.outMask;
  }

  // ---- Allocation on the masks ----

  /** How a creation ends, given whether the memory it needs is there. */
  ghost function Outcome(config: Config, memory: bool, outUsed: Mask, inUsed: Mask): (s: Status) {
    var size := |config.gpios|;
    if size == 0 || !(config.inEnable || config.outEnable) then InvalidArg
    else if !memory then NoMem
    else if size > 8 then InvalidArg
    else if config.outEnable && !FreeWindowExists(outUsed, size, OUT_CHANNELS) then NotFound
    else if config.inEnable && !FreeWindowExists(inUsed, size, IN_CHANNELS) then NotFound
    else Ok
  }

  /** Claiming and giving back a free window. */
  lemma Restored(used: Mask, mask: Mask)
    requires used !! mask
    ensures used + mask - mask == used
  {
  }

  lemma AddApart(outUsed: Mask, inUsed: Mask, live: set<Bundle>, b: Bundle, c: Bundle)
    requires Covers(outUsed, inUsed, live) && c in live
    requires outUsed !! b.outMask && inUsed !! b.inMask
    ensures Apart(b, c) && Apart(c, b)
  {
  }

  lemma AddKeeps(outUsed: Mask, inUsed: Mask, live: set<Bundle>, b: Bundle)
    requires Separate(live) && Covers(outUsed, inUsed, live)
    requires WellFormed(b) && outUsed !! b.outMask && inUsed !! b.inMask
    ensures b !in live && Separate(live + {b}) && Covers(outUsed + b.outMask, inUsed + b.inMask, live + {b})
  {
    hide WellFormed, Window, Covers, Apart;
    forall c | c in live ensures Apart(b, c) && Apart(c, b) {
      AddApart(outUsed, inUsed, live, b, c);
    }
    if b in live {
      NotApartFromItself(b);
    }
    AddCovers(outUsed, inUsed, live, b);
  }

  lemma NotApartFromItself(b: Bundle)
    requires WellFormed(b)
    ensures !Apart(b, b)
  {
  }

  lemma AddCovers(outUsed: Mask, inUsed: Mask, live: set<Bundle>, b: Bundle)
    requires Covers(outUsed, inUsed, live)
    ensures Covers(outUsed + b.outMask, inUsed + b.inMask, live + {b})
  {
  }

  lemma RemoveOut(used: Mask, live: set<Bundle>, b: Bundle)
    requires Separate(live) && CoversOut(used, live) && b in live
    ensures CoversOut(used - b.outMask, live - {b})
  {
  }

  lemma RemoveIn(used: Mask, live: set<Bundle>, b: Bundle)
    requires Separate(live) && CoversIn(used, live) && b in live
    ensures CoversIn(used - b.inMask, live - {b})
  {
  }

  lemma RemoveKeeps(outUsed: Mask, inUsed: Mask, live: set<Bundle>, b: Bundle)
    requires Separate(live) && Covers(outUsed, inUsed, live) && b in live
    ensures Separate(live - {b}) && Covers(outUsed - b.outMask, inUsed - b.inMask, live - {b})
    ensures (outUsed - b.outMask == {} && inUsed - b.inMask == {}) <==> live == {b}
  {
    hide WellFormed, CoversOut, CoversIn;
    var now := live - {b};
    RemoveOut(outUsed, live, b);
    RemoveIn(inUsed, live, b);
    EmptyIffNoBundle(outUsed - b.outMask, inUsed - b.inMask, now);
    assert live == now + {b};
  }

  lemma EmptyIffNoBundle(outUsed: Mask, inUsed: Mask, live: set<Bundle>)
    requires Separate(live) && Covers(outUsed, inUsed, live)
    ensures outUsed == {} && inUsed == {} <==> live == {}
  {
  }

  datatype Call =
    | New(config: Config, platformMemory: bool, bundleMemory: bool)
    | Delete(bundle: Bundle)
    | Write(bundle: Bundle, mask: Mask, value: Mask)

  /** What a bundle's own register holds after the writes among `calls` that go through it. */
  function Replay(level: Mask, b: Bundle, calls: seq<Call>): (r: Mask) {
    if calls == [] then level
    else
      var n := |calls| - 1;
      var before := Replay(level, b, calls[..n]);
      if calls[n].Write? && calls[n].bundle == b && b.outMask != {}
      then Masked(before, calls[n].mask * Window(0, b.size), calls[n].value)
      else before
  }

  /** There are GPIOs, and a direction for them. */
  predicate Asked(config: Config) {
    |config.gpios| > 0 && (config.outEnable || config.inEnable)
  }

  /** One bit of a bundle's register: the last write that selects it decides. */
  lemma {:induction false} ReplayBit(level: Mask, b: Bundle, calls: seq<Call>, k: nat)
    requires b.outMask != {} && k < b.size
    ensures (forall i :: 0 <= i < |calls| ==> !Selects(calls[i], b, k)) ==>
              (k in Replay(level, b, calls) <==> k in level)
    ensures forall i :: LastSelects(calls, b, k, i) ==> (k in Replay(level, b, calls) <==> k in calls[i].value)
    decreases |calls|
  {
    if calls != [] {
      var n := |calls| - 1;
      LastCallBit(level, b, calls, k);
      hide Replay, Masked, Window, Selects;
      ReplayBit(level, b, calls[..n], k);
      forall i | LastSelects(calls, b, k, i)
        ensures k in Replay(level, b, calls) <==> k in calls[i].value
      {
        LastSelectsFront(calls, b, k, i);
      }
    }
  }

  lemma LastSelectsFront(calls: seq<Call>, b: Bundle, k: nat, i: int)
    requires LastSelects(calls, b, k, i)
    ensures var n := |calls| - 1;
            if i == n then Selects(calls[n], b, k)
            else LastSelects(calls[..n], b, k, i) && !Selects(calls[n], b, k) && calls[..n][i] == calls[i]
  {
    hide Selects;
  }

  lemma LastCallBit(level: Mask, b: Bundle, calls: seq<Call>, k: nat)
    requires b.outMask != {} && k < b.size && calls != []
    ensures var n := |calls| - 1;
            k in Replay(level, b, calls)
            <==> if Selects(calls[n], b, k) then k in calls[n].value else k in Replay(level, b, calls[..n])
  {
  }

  predicate Selects(call: Call, b: Bundle, k: nat) {
    call.Write? && call.bundle == b && k in call.mask
  }

  predicate LastSelects(calls: seq<Call>, b: Bundle, k: nat, i: int) {
    0 <= i < |calls| && Selects(calls[i], b, k) && forall j :: i < j < |calls| ==> !Selects(calls[j], b, k)
  }

  class Core {
    /** Whether the platform object exists. */
    var built: bool
    var outUsed: Mask
    var inUsed: Mask

    /** The output register. */
    var out: Mask

    /** The handles that callers hold. */
    var live: set<Bundle>

    ghost predicate Valid()
      reads this
    {
      && Separate(live)
      && Covers(outUsed, inUsed, live)
      && (!built ==> live == {} && outUsed == {} && inUsed == {})
    }

    constructor (out: Mask)
      ensures Valid() && !built && live == {} && this.out == out
    {
      built, outUsed, inUsed, live := false, {}, {}, {};
      this.out := out;
    }

    /** Claims a window among the output channels. */
    method ClaimOut(size: nat) returns (status: Status, mask: Mask, offset: nat)
      requires size > 0
      modifies this`outUsed
      ensures status == if size > OUT_CHANNELS then InvalidArg
                        else if FreeWindowExists(old(outUsed), size, OUT_CHANNELS) then Ok else NotFound
      ensures status == Ok ==> mask == Window(offset, size) != {} && FirstFree(old(outUsed), size, OUT_CHANNELS, offset)
      ensures status != Ok ==> mask == {}
      ensures outUsed == old(outUsed) + mask
    {
      status, mask, offset := Ok, {}, 0;
      if size > OUT_CHANNELS {
        return InvalidArg, {}, 0;
      }
      mask, offset := FindWindow(outUsed, size, OUT_CHANNELS);
      if mask != {} {
        outUsed := outUsed + mask;
      } else {
        status := NotFound;
      }
    }

    /** Claims a window among the input channels. */
    method ClaimIn(size: nat) returns (status: Status, mask: Mask, offset: nat)
      requires size > 0
      modifies this`inUsed
      ensures status == if size > IN_CHANNELS then InvalidArg
                        else if FreeWindowExists(old(inUsed), size, IN_CHANNELS) then Ok else NotFound
      ensures status == Ok ==> mask == Window(offset, size) != {} && FirstFree(old(inUsed), size, IN_CHANNELS, offset)
      ensures status != Ok ==> mask == {}
      ensures inUsed == old(inUsed) + mask
    {
      status, mask, offset := Ok, {}, 0;
      if size > IN_CHANNELS {
        return InvalidArg, {}, 0;
      }
      mask, offset := FindWindow(inUsed, size, IN_CHANNELS);
      if mask != {} {
        inUsed := inUsed + mask;
      } else {
        status := NotFound;
      }
    }

    /**
     Creates a bundle.  Each enabled direction gets the first free window; a failure leaves both masks as they were, and
     "not found" means that an enabled direction has no free window.
     */
    method NewBundle(config: Config, platformMemory: bool, bundleMemory: bool)
      returns (status: Status, bundle: Option<Bundle>)
      requires Valid()
      modifies this`built, this`outUsed, this`inUsed, this`live
      ensures Valid()
      ensures status == Outcome(config, (old(built) || platformMemory) && bundleMemory, old(outUsed), old(inUsed))
      ensures built <==> old(built) || (Asked(config) && platformMemory)
      ensures status == NoMem <==> Asked(config) && !(built && bundleMemory)
      ensures status == Ok <==>
              && Asked(config) && built && bundleMemory
              && (config.outEnable ==> FreeWindowExists(old(outUsed), |config.gpios|, OUT_CHANNELS))
              && (config.inEnable ==> FreeWindowExists(old(inUsed), |config.gpios|, IN_CHANNELS))
      ensures status != Ok ==> bundle == None && live == old(live) && outUsed == old(outUsed) && inUsed == old(inUsed)
      ensures status == Ok ==>
                && bundle.Some? && bundle.value !in old(live) && live == old(live) + {bundle.value}
                && bundle.value.gpios == config.gpios
                && outUsed == old(outUsed) + bundle.value.outMask && inUsed == old(inUsed) + bundle.value.inMask
                && (bundle.value.outMask != {} <==> config.outEnable)
                && (bundle.value.inMask != {} <==> config.inEnable)
                && (config.outEnable ==> FirstFree(old(outUsed), |config.gpios|, OUT_CHANNELS, bundle.value.outOffset))
                && (config.inEnable ==> FirstFree(old(inUsed), |config.gpios|, IN_CHANNELS, bundle.value.inOffset))
                && (!config.outEnable ==> bundle.value.outOffset == 0)
                && (!config.inEnable ==> bundle.value.inOffset == 0)
    {
      var size := |config.gpios|;
      assert size > OUT_CHANNELS ==> !FreeWindowExists(outUsed, size, OUT_CHANNELS);
      assert size > IN_CHANNELS ==> !FreeWindowExists(inUsed, size, IN_CHANNELS);
      hide Separate, Covers, FreeWindowExists;
      if size == 0 || !(config.inEnable || config.outEnable) {
        return InvalidArg, None;
      }
      if !built {
        built := platformMemory;
      }
      if !built || !bundleMemory {
        return NoMem, None;
      }
      var outMask, inMask, outOffset, inOffset := {}, {}, 0, 0;
      status, bundle := Ok, None;
      if config.outEnable {
        status, outMask, outOffset := ClaimOut(size);
      }
      if status == Ok && config.inEnable {
        status, inMask, inOffset := ClaimIn(size);
      }
      if status != Ok {
        Restored(old(outUsed), outMask);
        outUsed := outUsed - outMask;
        inUsed := inUsed - inMask;
        assert outUsed == old(outUsed) && inUsed == old(inUsed);
        return;
      }
      var b := Bundle(outMask, inMask, outOffset, inOffset, size, config.gpios);
      assert outUsed == old(outUsed) + outMask && inUsed == old(inUsed) + inMask;
      AddKeeps(old(outUsed), old(inUsed), live, b);
      bundle, live := Some(b), live + {b};
    }

    /** Deletes a bundle; the platform goes with the last one. */
    method DeleteBundle(b: Bundle)
      requires Valid() && b in live
      modifies this`built, this`outUsed, this`inUsed, this`live
      ensures Valid()
      ensures live == old(live) - {b} && outUsed == old(outUsed) - b.outMask && inUsed == old(inUsed) - b.inMask
      ensures built <==> live != {}
    {
      hide Separate, Covers;
      RemoveKeeps(outUsed, inUsed, live, b);
      outUsed := outUsed - b.outMask;
      inUsed := inUsed - b.inMask;
      live := live - {b};
      built := !(inUsed == {} && outUsed == {});
    }

    function ReadOut(b: Bundle): (v: Mask)
      reads this`out
    {
      View(out, b)
    }

    /** Writes through a bundle. */
    method WriteBundle(b: Bundle, mask: Mask, value: Mask)
      requires Valid() && b in live
      modifies this`out
      ensures ReadOut(b) == if b.outMask == {} then old(ReadOut(b))
                            else Masked(old(ReadOut(b)), mask * Window(0, b.size), value)
      ensures forall c :: c in live && c != b ==> ReadOut(c) == old(ReadOut(c))
    {
      out := WriteTo(out, b, mask, value);
      WriteSeenByOwner(old(out), b, mask, value);
      forall c | c in live && c != b ensures ReadOut(c) == old(ReadOut(c)) {
        assert Apart(b, c);
        WriteUnseenByOthers(old(out), b, c, mask, value);
      }
    }

    /** One call; a handle that callers no longer hold is not used. */
    method Perform(call: Call)
      requires Valid()
      modifies this
      ensures Valid()
      ensures call.Delete? ==> call.bundle !in live
      ensures forall b :: b in old(live) && call != Delete(b) ==>
                b in live && ReadOut(b) == Replay(old(ReadOut(b)), b, [call])
    {
      hide Separate, Covers, View, Masked, Window, WellFormed;
      match call
      case New(config, platformMemory, bundleMemory) =>
        var _, _ := NewBundle(config, platformMemory, bundleMemory);
      case Delete(b) =>
        if b in live {
          DeleteBundle(b);
        }
      case Write(b, mask, value) =>
        if b in live {
          WriteBundle(b, mask, value);
        }
      assert [call][..0] == [];
    }

    /** Over any calls, a bundle that stays reads back what its own writes left, whatever the others do. */
    method Run(calls: seq<Call>)
      requires Valid()
      modifies this
      ensures Valid()
      ensures forall b :: b in old(live) && Delete(b) !in calls ==>
                b in live && ReadOut(b) == Replay(old(ReadOut(b)), b, calls)
    {
      hide Valid, View, Masked, Window;
      for i := 0 to |calls|
        invariant Valid()
        invariant forall b :: b in old(live) && Delete(b) !in calls[..i] ==>
                    b in live && ReadOut(b) == Replay(old(ReadOut(b)), b, calls[..i])
      {
        Perform(calls[i]);
        assert calls[..i + 1] == calls[..i] + [calls[i]];
        forall b | b in old(live) && Delete(b) !in calls[..i + 1]
          ensures b in live && ReadOut(b) == Replay(old(ReadOut(b)), b, calls[..i + 1])
        {
          assert Delete(b) !in calls[..i] && Delete(b) != calls[i];
          ReplayStep(old(ReadOut(b)), b, calls, i);
        }
      }
      assert calls[..|calls|] == calls;
    }
  }

  lemma ReplayStep(level: Mask, b: Bundle, calls: seq<Call>, i: nat)
    requires i < |calls|
    ensures Replay(level, b, calls[..i + 1]) == Replay(Replay(level, b, calls[..i]), b, [calls[i]])
  {
    assert calls[..i + 1][..i] == calls[..i];
    assert [calls[i]][..0] == [];
    var l := Replay(level, b, calls[..i]);
    assert Replay(l, b, []) == l;
  }
}

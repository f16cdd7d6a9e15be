/**
 Streaming an update image into its partition: lazy sector erasure and the 16-byte cache that flash
 encryption needs.  A flash cell remembers whether it was erased before it was programmed, so an
 intact `Written` cell shows that it was blank when programmed and has not been erased since.
 */
module OtaStream {
  import opened Bytes

  datatype Cell = Stale | Blank | Written(b: byte) | Spoiled

  datatype Err = Ok | EraseFailed | BadMagic | WriteFailed | NothingWritten

  const SECTOR: nat := 4096
  const AES_BLOCK: nat := 16
  const MAGIC: byte := 0xE9

  /** Programming a cell that is not blank spoils it. */
  function Program(c: Cell, b: byte): (c': Cell) {
    if c.Blank? then Written(b) else Spoiled
  }

  /** The first sector boundary at or after `n`. */
  function SectorEnd(n: nat): (e: nat)
    ensures e % SECTOR == 0 && n <= e < n + SECTOR
  {
    (n + SECTOR - 1) / SECTOR * SECTOR
  }

  ghost predicate BlankRange(cells: seq<Cell>, from: nat, to: nat) {
    to <= |cells| && forall i :: from <= i < to ==> cells[i] == Blank
  }

  ghost predicate AllStale(cells: seq<Cell>) {
    forall i :: 0 <= i < |cells| ==> cells[i] == Stale
  }

  /** The cells start with exactly these bytes, each programmed once into a blank cell. */
  ghost predicate Holds(cells: seq<Cell>, bytes: seq<byte>) {
    |bytes| <= |cells| && forall i :: 0 <= i < |bytes| ==> cells[i] == Written(bytes[i])
  }

  /** What a cell that `bytes` has not reached holds: blank up to the frontier, the old content behind it. */
  function Ground(initial: seq<Cell>, frontier: nat, i: nat): (c: Cell)
    requires i < |initial|
  {
    if i < frontier then Blank else initial[i]
  }

  /** Every one of `bytes` was programmed once, in its place; cells from there up to the frontier are blank,
      and cells from `touched` on are as they were. */
  ghost predicate Laid(cells: seq<Cell>, initial: seq<Cell>, bytes: seq<byte>, frontier: nat, touched: nat) {
    && |bytes| <= |cells| == |initial| && frontier <= touched <= |cells|
    && (|bytes| > frontier ==> touched == frontier)
    && (forall i :: 0 <= i < |bytes| ==> cells[i] == Program(Ground(initial, frontier, i), bytes[i]))
    && (forall i :: |bytes| <= i < frontier ==> cells[i] == Blank)
    && (forall i :: |bytes| <= i < |cells| && touched <= i ==> cells[i] == initial[i])
  }

  lemma LaidHolds(cells: seq<Cell>, initial: seq<Cell>, bytes: seq<byte>, frontier: nat, touched: nat)
    requires Laid(cells, initial, bytes, frontier, touched) && |bytes| <= frontier
    ensures Holds(cells, bytes)
  {
  }

  /** Bytes within the blank stretch are intact, whatever was programmed behind them; on old data no others are. */
  lemma LaidImage(cells: seq<Cell>, initial: seq<Cell>, bytes: seq<byte>, frontier: nat, touched: nat, image: seq<byte>)
    requires Laid(cells, initial, bytes, frontier, touched) && image <= bytes
    ensures |image| <= frontier ==> Holds(cells, image)
    ensures |image| > frontier && initial[frontier] == Stale ==> !Holds(cells, image)
  {
    if |image| > frontier && initial[frontier] == Stale {
      assert cells[frontier] == Spoiled;
    }
  }

  /** Programming the next bytes. */
  lemma LaidPut(before: seq<Cell>, after: seq<Cell>, initial: seq<Cell>, bytes: seq<byte>, more: seq<byte>,
                frontier: nat, touched: nat)
    requires Laid(before, initial, bytes, frontier, touched) && |bytes| + |more| <= |before| == |after|
    requires |bytes| + |more| <= frontier || touched == frontier
    requires forall i :: 0 <= i < |after| ==>
               after[i] == if |bytes| <= i < |bytes| + |more| then Program(before[i], more[i - |bytes|]) else before[i]
    ensures Laid(after, initial, bytes + more, frontier, touched)
  {
    forall i | 0 <= i < |bytes| + |more|
      ensures after[i] == Program(Ground(initial, frontier, i), (bytes + more)[i])
    {
      if i >= |bytes| {
        assert before[i] == Ground(initial, frontier, i);
      }
    }
  }

  /** `esp_partition_erase_range`, with its argument checks. */
  method EraseRange(cells: array<Cell>, off: nat, len: nat) returns (ok: bool)
    modifies cells
    ensures ok <==> off + len <= cells.Length && len % SECTOR == 0 && off % SECTOR == 0
    ensures forall i :: 0 <= i < cells.Length ==>
              cells[i] == if ok && off <= i < off + len then Blank else old(cells[i])
  {
    ok := off + len <= cells.Length && len % SECTOR == 0 && off % SECTOR == 0;
    if ok {
      forall i | off <= i < off + len {
        cells[i] := Blank;
      }
    }
  }

  /** `esp_partition_write`, with its argument checks. */
  method WriteRange(cells: array<Cell>, off: nat, data: seq<byte>) returns (ok: bool)
    modifies cells
    ensures ok <==> off + |data| <= cells.Length
    ensures forall i :: 0 <= i < cells.Length ==>
              cells[i] == if ok && off <= i < off + |data| then Program(old(cells[i]), data[i - off])
                          else old(cells[i])
  {
    ok := off + |data| <= cells.Length;
    if ok {
      forall i | off <= i < off + |data| {
        cells[i] := Program(cells[i], data[i - off]);
      }
    }
  }

  /** The sectors a sequential write reaches, against the blank stretch it finds. */
  lemma SectorArithmetic(w: nat, n: nat, frontier: nat)
    requires n > 0 && w <= frontier <= w + SECTOR && frontier % SECTOR == 0
    ensures var first, last := w / SECTOR, (w + n - 1) / SECTOR;
            && first <= last && SectorEnd(w + n) == (last + 1) * SECTOR && frontier <= (last + 1) * SECTOR
            && (w % SECTOR == 0 ==> w == first * SECTOR)
            && (w % SECTOR != 0 ==> frontier == (first + 1) * SECTOR)
  {
  }

  /** The write position after a call of `n` bytes. */
  function NextPos(w: nat, p: nat, n: nat, encrypted: bool): (w': nat) {
    if encrypted then (w + p + n) / AES_BLOCK * AES_BLOCK else w + n
  }

  /** Facts about the encrypted write position at a block boundary. */
  lemma NextPosFacts(w: nat, p: nat, n: nat)
    requires w % AES_BLOCK == 0 && p < AES_BLOCK
    ensures NextPos(w, p, n, true) + (p + n) % AES_BLOCK == w + p + n
    ensures NextPos(w, p, n, true) % AES_BLOCK == 0
    ensures p + n >= AES_BLOCK ==> w + AES_BLOCK <= NextPos(w, p, n, true)
                                   && NextPos(w + AES_BLOCK, 0, p + n - AES_BLOCK, true) == NextPos(w, p, n, true)
  {
  }

  /** The position after filling up the cache and writing whole blocks. */
  lemma CountedPos(w: nat, p: nat, n: nat)
    requires w % AES_BLOCK == 0 && p < AES_BLOCK
    ensures NextPos(w, p, n, true) % AES_BLOCK == 0
    ensures p == 0 ==> NextPos(w, p, n, true) == w + n - n % AES_BLOCK
    ensures p + n < AES_BLOCK ==> NextPos(w, p, n, true) == w
    ensures p + n >= AES_BLOCK ==>
              NextPos(w, p, n, true) == w + AES_BLOCK + (p + n - AES_BLOCK) - (p + n - AES_BLOCK) % AES_BLOCK
  {
  }

  lemma NextPosPlain(w: nat, p: nat, n: nat)
    ensures NextPos(w, p, n, false) == w + n
  {
  }

  lemma NextPosUnique(w: nat, p: nat, n: nat, w': nat, p': nat)
    requires w' % AES_BLOCK == 0 && p' < AES_BLOCK && w' + p' == w + p + n
    ensures w' == NextPos(w, p, n, true)
  {
  }

  /** How far a call moves the write position, against the sectors erased for it. */
  lemma BlocksWritten(w: nat, p: nat, n: nat, encrypted: bool)
    requires n > 0
    requires if encrypted then w % AES_BLOCK == 0 && p < AES_BLOCK else p == 0
    ensures var w' := NextPos(w, p, n, encrypted);
            && w' <= w + p + n
            && (encrypted ==> w' == w + (p + n) / AES_BLOCK * AES_BLOCK)
            && w' <= SectorEnd(w + n) <= w' + SECTOR
            && (SectorEnd(w + n) == w' <==> w' % SECTOR == 0 && n <= w' - w)
  {
    var e := SectorEnd(w + n);
    if encrypted {
      var q, a, s := (p + n) / AES_BLOCK, w / AES_BLOCK, e / SECTOR;
      assert w == AES_BLOCK * a && e == AES_BLOCK * (256 * s);
      assert (w + p + n) / AES_BLOCK == a + q;
      Between(a + q, 256 * s, w + n, p);
    }
    SectorEndLeast(w + n, NextPos(w, p, n, encrypted));
  }

  lemma SectorEndLeast(n: nat, m: nat)
    ensures m % SECTOR == 0 && n <= m ==> SectorEnd(n) <= m
  {
  }

  /** A block boundary `16 * b` just below `x + p` does not pass a sector boundary at or after `x`. */
  lemma Between(b: int, s: int, x: int, p: int)
    requires 0 <= p < AES_BLOCK && x <= AES_BLOCK * s < x + SECTOR
    requires AES_BLOCK * b <= x + p < AES_BLOCK * b + AES_BLOCK
    ensures AES_BLOCK * b <= AES_BLOCK * s <= AES_BLOCK * b + SECTOR
  {
  }

  /** Erasing whole sectors from inside the blank stretch keeps the data and moves the frontier. */
  lemma EraseKeeps(before: seq<Cell>, after: seq<Cell>, initial: seq<Cell>, bytes: seq<byte>, frontier: nat,
                   touched: nat, from: nat, to: nat)
    requires |bytes| <= from <= frontier <= to <= |before| == |after|
    requires forall i :: 0 <= i < |after| ==> after[i] == if from <= i < to then Blank else before[i]
    requires Laid(before, initial, bytes, frontier, touched)
    ensures Laid(after, initial, bytes, to, if touched > to then touched else to)
  {
  }

  lemma SuffixSplit(stream: seq<byte>, w: nat, data: seq<byte>, size: nat)
    requires w <= |stream| && stream[w..] == [] + data && size <= |data|
    ensures |stream| == w + |data|
    ensures data[..size] == stream[w..w + size] && data[size..] == stream[w + size..]
  {
    assert stream[w..] == data;
    assert stream[w..w + size] == stream[w..][..size];
    assert stream[w + size..] == stream[w..][size..];
  }

  /** A cache filled up from the front of `data` is the next block of the stream, and the rest follows. */
  lemma CacheFull(stream: seq<byte>, w: nat, cached: seq<byte>, data: seq<byte>, n: nat)
    requires w <= |stream| && stream[w..] == cached + data && n <= |data| && |cached| + n == AES_BLOCK
    ensures w + AES_BLOCK <= |stream|
    ensures cached + data[..n] == stream[w..w + AES_BLOCK] && data[n..] == stream[w + AES_BLOCK..]
  {
    assert stream[w..w + AES_BLOCK] == stream[w..][..AES_BLOCK];
    assert stream[w + AES_BLOCK..] == stream[w..][AES_BLOCK..];
    assert data == data[..n] + data[n..];
  }

  class Session {
    const encrypted: bool
    const needErase: bool
    const cells: array<Cell>
    const partialData: array<byte>
    var wroteSize: nat
    var partialBytes: nat

    ghost const initial: seq<Cell>
    ghost var stream: seq<byte>  // all data accepted so far
    ghost var frontier: nat      // cells from wroteSize up to here are blank
    ghost var touched: nat       // no erase or write has reached a cell from here on

    ghost predicate Shape()
      reads this`wroteSize
    {
      && partialData.Length == AES_BLOCK && |initial| == cells.Length
      && cells.Length % SECTOR == 0 && cells.Length + SECTOR < U32
      && wroteSize <= cells.Length
    }

    /** Flash up to `wroteSize` was programmed with the start of the accepted data; a sequential session
        stays within the blank stretch, and one erased at its start erases no more. */
    ghost predicate FlashOk()
      reads this`wroteSize, this`stream, this`frontier, this`touched, cells
      ensures FlashOk() ==> wroteSize <= |stream| && Shape()
    {
      && Shape()
      && wroteSize <= |stream|
      && Laid(cells[..], initial, stream[..wroteSize], frontier, touched)
      && (if needErase then frontier % SECTOR == 0 && wroteSize <= frontier else touched == frontier)
    }

    /** What was programmed, then the cached bytes, are the accepted data. */
    ghost predicate Valid()
      reads this, cells, partialData
    {
      && FlashOk()
      && |stream| == wroteSize + partialBytes
      && (if encrypted then wroteSize % AES_BLOCK == 0 && partialBytes < AES_BLOCK else partialBytes == 0)
      && partialData[..partialBytes] == stream[wroteSize..]
    }

    /** Between calls of a sequential session at most one sector ahead is blank. */
    ghost predicate Tight()
      reads this
    {
      needErase ==> frontier <= wroteSize + SECTOR
    }

    /** A session on a partition whose first `blank` cells were erased for it. */
    constructor (part: array<Cell>, encrypted: bool, needErase: bool, ghost blank: nat)
      requires part.Length % SECTOR == 0 && part.Length + SECTOR < U32
      requires BlankRange(part[..], 0, blank) && (needErase ==> blank == 0)
      ensures Valid() && Tight() && stream == [] && this.needErase == needErase && this.encrypted == encrypted
      ensures cells == part && frontier == blank && touched == blank && initial == part[..] && fresh(partialData)
    {
      this.encrypted := encrypted;
      this.needErase := needErase;
      cells := part;
      partialData := new byte[AES_BLOCK](_ => 0);
      wroteSize := 0;
      partialBytes := 0;
      initial := part[..];
      stream, frontier, touched := [], blank, blank;
    }

    /** Erases whole sectors from a boundary inside the blank stretch onwards. */
    method EraseTo(from: nat, to: nat) returns (ok: bool)
      requires Valid() && needErase && wroteSize <= from <= frontier <= to
      requires from % SECTOR == 0 && to % SECTOR == 0
      modifies cells, this`frontier, this`touched
      ensures Valid()
      ensures ok <==> to <= cells.Length
      ensures ok ==> frontier == to && touched == (if old(touched) > to then old(touched) else to)
      ensures !ok ==> frontier == old(frontier) && touched == old(touched)
    {
      hide Laid;
      ghost var before := cells[..];
      assert (to - from) % SECTOR == 0;
      ok := EraseRange(cells, from, to - from);
      if !ok {
        assert cells[..] == before;
      } else {
        EraseKeeps(before, cells[..], initial, stream[..wroteSize], frontier, touched, from, to);
        frontier := to;
        touched := if touched > to then touched else to;
      }
    }

    /** The sector erasure in front of a sequential write. */
    method EraseAhead(n: nat) returns (ok: bool)
      requires Valid() && Tight() && needErase && n > 0 && wroteSize + n < U32
      modifies cells, this`frontier, this`touched
      ensures Valid()
      ensures ok <==> SectorEnd(wroteSize + n) <= cells.Length
      ensures ok ==> frontier == SectorEnd(wroteSize + n)
                     && touched == (if old(touched) > frontier then old(touched) else frontier)
      ensures !ok ==> frontier == old(frontier) && touched == old(touched)
      ensures frontier >= old(frontier)
    {
      hide Laid;
      Positions();
      var first := wroteSize / SECTOR;
      var last := (wroteSize + n - 1) / SECTOR;
      SectorArithmetic(wroteSize, n, frontier);
      ok := true;
      if wroteSize % SECTOR == 0 {
        ok := EraseTo(wroteSize, wroteSize + (last - first + 1) * SECTOR);
      } else if first != last {
        ok := EraseTo((first + 1) * SECTOR, (first + 1) * SECTOR + (last - first) * SECTOR);
      }
    }

    /** Programs the next bytes and advances; sound while they are the next accepted bytes and can be placed. */
    method Put(bytes: seq<byte>) returns (ok: bool)
      requires Shape()
      modifies cells, this`wroteSize
      ensures ok <==> old(wroteSize) + |bytes| <= cells.Length
      ensures wroteSize == old(wroteSize) + (if ok then |bytes| else 0)
      ensures old(FlashOk() && Next(bytes)) ==> ok && FlashOk()
    {
      hide Laid;
      ghost var w, before := wroteSize, cells[..];
      ok := WriteRange(cells, wroteSize, bytes);
      if ok {
        wroteSize := wroteSize + |bytes|;
        if old(FlashOk() && Next(bytes)) {
          LaidPut(before, cells[..], initial, stream[..w], bytes, frontier, touched);
          assert stream[..wroteSize] == stream[..w] + bytes;
        }
      }
    }

    /** Bytes up to `q` can be placed: in the blank stretch, or, in a session erased at its start, in the partition. */
    ghost predicate CanReach(q: nat)
      reads this`frontier
    {
      if needErase then q <= frontier <= cells.Length else q <= cells.Length
    }

    /** The next accepted bytes that are not in flash yet. */
    ghost predicate Next(bytes: seq<byte>)
      reads this
    {
      && CanReach(wroteSize + |bytes|) && wroteSize + |bytes| <= |stream|
      && bytes == stream[wroteSize..wroteSize + |bytes|]
    }

    /** The stream already counts `data`, whose bytes follow the cached ones. */
    ghost predicate Counted(data: seq<byte>)
      reads this, cells, partialData
    {
      && FlashOk() && partialBytes < AES_BLOCK && encrypted
      && stream[wroteSize..] == partialData[..partialBytes] + data
      && wroteSize % AES_BLOCK == 0 && CanReach(NextPos(wroteSize, partialBytes, |data|, true))
    }

    /** Copies bytes from the front of `data` into the cache, as many as it takes. */
    method FillCache(data: seq<byte>) returns (n: nat)
      requires partialData.Length == AES_BLOCK && partialBytes <= AES_BLOCK
      modifies this`partialBytes, partialData
      ensures n == if AES_BLOCK - old(partialBytes) < |data| then AES_BLOCK - old(partialBytes) else |data|
      ensures partialBytes == old(partialBytes) + n
      ensures partialData[..partialBytes] == old(partialData[..partialBytes]) + data[..n]
    {
      n := if AES_BLOCK - partialBytes < |data| then AES_BLOCK - partialBytes else |data|;
      CopyInto(partialData, partialBytes, data[..n]);
      partialBytes := partialBytes + n;
    }

    /** Writes a full cache and empties it. */
    method FlushCache() returns (ok: bool)
      requires Shape() && partialBytes == AES_BLOCK
      modifies cells, this`wroteSize, this`partialBytes, partialData
      ensures Shape() && (ok ==> partialBytes == 0 && wroteSize == old(wroteSize) + AES_BLOCK)
      ensures old(FlashOk() && Next(partialData[..])) ==> ok && FlashOk()
    {
      hide FlashOk, Next;
      ok := Put(partialData[..]);
      if ok {
        partialBytes := 0;
        CopyInto(partialData, 0, seq(AES_BLOCK, _ => 0xFF));
      }
    }

    /** Fills the cache from the front of `data`; a full cache is written and emptied. */
    method TopUp(data: seq<byte>) returns (ok: bool, full: bool, rest: seq<byte>)
      requires Shape() && partialBytes <= AES_BLOCK
      modifies cells, this`wroteSize, this`partialBytes, partialData
      ensures Shape() && (ok && full ==> partialBytes == 0)
      ensures ok && full ==> wroteSize == old(wroteSize) + AES_BLOCK && |rest| == old(partialBytes) + |data| - AES_BLOCK
      ensures ok && !full ==> wroteSize == old(wroteSize) && old(partialBytes) + |data| < AES_BLOCK
      ensures old(Counted(data)) && old(partialBytes) + |data| < AES_BLOCK ==>
                ok && !full && FlashOk() && wroteSize == old(wroteSize)
                && partialBytes == old(partialBytes) + |data| && partialData[..partialBytes] == stream[wroteSize..]
      ensures old(Counted(data)) && old(partialBytes) + |data| >= AES_BLOCK ==>
                ok && full && Counted(rest) && partialBytes == 0
                && wroteSize == old(wroteSize) + AES_BLOCK && wroteSize + |rest| == |stream|
    {
      hide FlashOk, NextPos, Counted, Next;
      ghost var counted, w, cached := Counted(data), wroteSize, partialData[..partialBytes];
      if counted {
        CountedFacts(data);
      }
      var n := FillCache(data);
      full := partialBytes == AES_BLOCK;
      rest := data[n..];
      ok := true;
      if full {
        assert partialData[..] == partialData[..partialBytes] == cached + data[..n];
        if counted {
          CacheNext(w, cached, data, n);
        }
        ok := FlushCache();
        if counted {
          CountedRest(rest);
        }
      } else {
        assert data[..n] == data;
      }
    }

    /** A cache filled up from counted data is next in line. */
    lemma CacheNext(w: nat, cached: seq<byte>, data: seq<byte>, n: nat)
      requires FlashOk() && w == wroteSize && wroteSize % AES_BLOCK == 0 && stream[w..] == cached + data
      requires n <= |data| && |cached| + n == AES_BLOCK && |cached| < AES_BLOCK
      requires CanReach(NextPos(w, |cached|, |data|, true))
      ensures Next(cached + data[..n]) && w + AES_BLOCK <= |stream| && stream[w + AES_BLOCK..] == data[n..]
      ensures CanReach(NextPos(w + AES_BLOCK, 0, |data| - n, true))
    {
      NextPosFacts(w, |cached|, |data|);
      hide FlashOk, NextPos;
      CacheFull(stream, w, cached, data, n);
    }

    /** With an empty cache, the rest of the stream is what is counted. */
    lemma CountedRest(rest: seq<byte>)
      requires FlashOk() && encrypted && partialBytes == 0 && wroteSize % AES_BLOCK == 0 && stream[wroteSize..] == rest
      requires CanReach(NextPos(wroteSize, 0, |rest|, true))
      ensures Counted(rest) && wroteSize + |rest| == |stream|
    {
      hide FlashOk, NextPos;
      assert partialData[..0] + rest == rest;
    }

    /** Saves the bytes past the last whole block in the empty cache and writes the others. */
    method WriteBlocks(data: seq<byte>) returns (ok: bool)
      requires Shape() && partialBytes == 0
      modifies cells, this`wroteSize, this`partialBytes, partialData
      ensures Shape() && (ok ==> wroteSize == old(wroteSize) + |data| - |data| % AES_BLOCK)
      ensures old(Counted(data)) ==> ok && FlashOk() && |stream| == wroteSize + partialBytes
                                     && partialBytes == |data| % AES_BLOCK
                                     && wroteSize == old(wroteSize) + |data| - |data| % AES_BLOCK
                                     && partialData[..partialBytes] == stream[wroteSize..]
    {
      hide FlashOk, NextPos, Counted;
      if Counted(data) {
        BlocksReady(data);
      }
      partialBytes := |data| % AES_BLOCK;
      var size := |data|;
      if partialBytes != 0 {
        size := size - partialBytes;
        CopyInto(partialData, 0, data[size..]);
      }
      ok := Put(data[..size]);
    }

    /** With an empty cache, the whole blocks of `data` are next in line, and its tail follows them. */
    lemma BlocksReady(data: seq<byte>)
      requires Counted(data) && partialBytes == 0
      ensures var size := |data| - |data| % AES_BLOCK;
              && FlashOk() && Next(data[..size])
              && |stream| == wroteSize + |data| && data[size..] == stream[wroteSize + size..]
    {
      CountedPos(wroteSize, 0, |data|);
      hide FlashOk, NextPos;
      assert partialData[..0] == [];
      SuffixSplit(stream, wroteSize, data, |data| - |data| % AES_BLOCK);
    }

    method WriteEncrypted(data: seq<byte>) returns (ok: bool)
      requires Shape() && encrypted && partialBytes <= AES_BLOCK
      modifies cells, this`wroteSize, this`partialBytes, this`stream, partialData
      ensures ok && old(partialBytes < AES_BLOCK && wroteSize % AES_BLOCK == 0) ==>
                NextPos(old(wroteSize), old(partialBytes), |data|, true) <= cells.Length
      ensures old(Valid() && CanReach(NextPos(wroteSize, partialBytes, |data|, encrypted))) ==>
                ok && Valid() && stream == old(stream) + data
    {
      hide Laid;
      stream := stream + data;
      ghost var counted := old(Valid() && CanReach(NextPos(wroteSize, partialBytes, |data|, encrypted)));
      if counted {
        StillHeld(old(stream), data);
      }
      ok := WriteCounted(data);
    }

    method WriteCounted(data: seq<byte>) returns (ok: bool)
      requires Shape() && partialBytes <= AES_BLOCK
      modifies cells, this`wroteSize, this`partialBytes, partialData
      ensures ok && old(partialBytes < AES_BLOCK && wroteSize % AES_BLOCK == 0) ==>
                wroteSize == NextPos(old(wroteSize), old(partialBytes), |data|, true) <= cells.Length
      ensures old(Counted(data) && |stream| == wroteSize + partialBytes + |data|) ==> ok && Valid()
    {
      hide FlashOk, NextPos, Counted, Valid;
      if partialBytes == 0 {
        if wroteSize % AES_BLOCK == 0 {
          CountedPos(wroteSize, 0, |data|);
        }
        if Counted(data) {
          CountedFacts(data);
        }
        ghost var counted := Counted(data);
        ok := WriteBlocks(data);
        if counted {
          Settled();
        }
      } else {
        ok := WriteCached(data);
      }
    }

    /** The case of a cache that is not empty. */
    method WriteCached(data: seq<byte>) returns (ok: bool)
      requires Shape() && 0 < partialBytes <= AES_BLOCK
      modifies cells, this`wroteSize, this`partialBytes, partialData
      ensures ok && old(partialBytes < AES_BLOCK && wroteSize % AES_BLOCK == 0) ==>
                wroteSize == NextPos(old(wroteSize), old(partialBytes), |data|, true) <= cells.Length
      ensures old(Counted(data) && |stream| == wroteSize + partialBytes + |data|) ==> ok && Valid()
    {
      hide FlashOk, NextPos, Counted, Valid;
      if partialBytes < AES_BLOCK && wroteSize % AES_BLOCK == 0 {
        CountedPos(wroteSize, partialBytes, |data|);
      }
      if Counted(data) {
        CountedFacts(data);
      }
      ghost var counted := Counted(data);
      var full, rest;
      ok, full, rest := TopUp(data);
      if ok && full {
        ok := WriteBlocks(rest);
      }
      if counted {
        Settled();
      }
    }

    lemma CountedFacts(data: seq<byte>)
      requires Counted(data)
      ensures FlashOk() && encrypted && partialBytes < AES_BLOCK && wroteSize % AES_BLOCK == 0
      ensures stream[wroteSize..] == partialData[..partialBytes] + data
      ensures CanReach(NextPos(wroteSize, partialBytes, |data|, true))
    {
    }

    lemma Settled()
      requires FlashOk() && encrypted && |stream| == wroteSize + partialBytes && partialBytes < AES_BLOCK
      requires wroteSize % AES_BLOCK == 0 && partialData[..partialBytes] == stream[wroteSize..]
      ensures Valid()
    {
    }

    /** `esp_ota_write`: the call takes all of `data` or, on an error, none of it.  Every byte goes to a
        blank cell, and no byte written before is erased. */
    method Write(data: seq<byte>) returns (ret: Err)
      requires Valid() && Tight() && cells.Length + |data| < U32
      modifies this, cells, partialData
      ensures data == [] ==> ret == Ok && Valid() && Tight() && stream == old(stream)
      ensures data != [] && !old(Room(data)) && needErase ==>
                ret == EraseFailed && Valid() && Tight() && stream == old(stream)
      ensures data != [] && !old(Room(data)) && !needErase && !(old(stream) == [] && data[0] != MAGIC)
              ==> ret == WriteFailed
      ensures data != [] && (old(Room(data)) || !needErase) && old(stream) == [] && data[0] != MAGIC ==>
                ret == BadMagic && Valid() && Tight() && stream == old(stream)
      ensures data != [] && old(Room(data)) && !(old(stream) == [] && data[0] != MAGIC) ==>
                ret == Ok && Valid() && Tight() && stream == old(stream) + data
      ensures ret == Ok && data != [] && needErase ==>
                && frontier == SectorEnd(old(wroteSize) + |data|)
                && (frontier == wroteSize <==> wroteSize % SECTOR == 0 && |data| <= wroteSize - old(wroteSize))
                && (old(touched) == old(frontier) ==> touched == frontier)
      ensures !needErase || data == [] ==> frontier == old(frontier) && touched == old(touched)
      ensures data == [] ==> wroteSize == old(wroteSize)
    {
      hide FlashOk, NextPos, SectorEnd, Valid;
      Positions();
      if |data| == 0 {
        return Ok;
      }
      if needErase {
        var ok := EraseAhead(|data|);
        if !ok {
          return EraseFailed;
        }
      }
      if wroteSize == 0 && partialBytes == 0 && data[0] != MAGIC {
        if needErase {
          ForgetBlank();
        }
        return BadMagic;
      }
      Positions();
      ghost var w, p := wroteSize, partialBytes;
      BlocksWritten(w, p, |data|, encrypted);
      var ok := Store(data);
      ret := if ok then Ok else WriteFailed;
    }

    /** The part of a write that goes through the cache. */
    method Store(data: seq<byte>) returns (ok: bool)
      requires Shape() && partialBytes <= AES_BLOCK
      modifies cells, this`wroteSize, this`partialBytes, this`stream, partialData
      ensures ok && old(Valid()) ==> NextPos(old(wroteSize), old(partialBytes), |data|, encrypted) <= cells.Length
      ensures old(Valid() && CanReach(NextPos(wroteSize, partialBytes, |data|, encrypted))) ==>
                && ok && Valid() && stream == old(stream) + data
                && wroteSize == NextPos(old(wroteSize), old(partialBytes), |data|, encrypted)
    {
      hide FlashOk, NextPos;
      ghost var w, p := wroteSize, partialBytes;
      if encrypted {
        ok := WriteEncrypted(data);
        if old(Valid() && CanReach(NextPos(wroteSize, partialBytes, |data|, encrypted))) {
          NextPosUnique(w, p, |data|, wroteSize, partialBytes);
        }
      } else {
        NextPosPlain(w, p, |data|);
        ok := WritePlain(data);
      }
    }

    /** What a valid session has placed, in terms of the accepted data. */
    lemma Streamed()
      requires Valid()
      ensures Laid(cells[..], initial, stream[..wroteSize], frontier, touched)
      ensures wroteSize <= frontier ==> Holds(cells[..], stream[..wroteSize])
      ensures partialData[..partialBytes] == stream[wroteSize..]
    {
      if wroteSize <= frontier {
        LaidHolds(cells[..], initial, stream[..wroteSize], frontier, touched);
      }
    }

    lemma Positions()
      requires Valid()
      ensures Shape() && partialBytes <= AES_BLOCK && |stream| == wroteSize + partialBytes
      ensures encrypted ==> wroteSize % AES_BLOCK == 0 && partialBytes < AES_BLOCK
      ensures !encrypted ==> partialBytes == 0
      ensures frontier <= touched <= cells.Length && (needErase ==> wroteSize <= frontier)
      ensures !needErase ==> touched == frontier
    {
    }

    /** A rejected first call leaves blank cells that nothing relies on. */
    ghost method ForgetBlank()
      requires Valid() && wroteSize == 0 && needErase
      modifies this`frontier
      ensures Valid() && frontier == 0
    {
      frontier := 0;
    }

    method WritePlain(data: seq<byte>) returns (ok: bool)
      requires Shape()
      modifies cells, this`wroteSize, this`stream
      ensures ok ==> old(wroteSize) + |data| <= cells.Length
      ensures old(Valid() && !encrypted && CanReach(wroteSize + |data|)) ==>
                ok && Valid() && stream == old(stream) + data
    {
      hide Laid;
      ghost var w := wroteSize;
      stream := stream + data;
      ghost var counted := old(Valid() && !encrypted && CanReach(wroteSize + |data|));
      if counted {
        StillHeld(old(stream), data);
        assert stream[w..w + |data|] == data;
      }
      ok := Put(data);
    }

    /** Space for the call: sectors to erase, or, in a session erased at its start, cells of the partition. */
    ghost predicate Room(data: seq<byte>)
      reads this
    {
      if needErase then SectorEnd(wroteSize + |data|) <= cells.Length
      else NextPos(wroteSize, partialBytes, |data|, encrypted) <= cells.Length
    }

    lemma StillHeld(before: seq<byte>, data: seq<byte>)
      requires wroteSize <= |before|
      ensures (before + data)[..wroteSize] == before[..wroteSize]
      ensures (before + data)[wroteSize..] == before[wroteSize..] + data
    {
    }

    /** The partition still holds old data wherever the session has not erased it. */
    ghost predicate Untried()
      reads this, cells
    {
      touched == frontier && forall i :: touched <= i < |initial| ==> initial[i].Stale?
    }

    /** The flush of the cached tail when the session ends; it erases nothing. */
    method FlushTail() returns (ret: Err)
      requires Valid() && Tight()
      modifies this`wroteSize, this`partialBytes, cells
      ensures ret == NothingWritten <==> old(wroteSize) == 0
      ensures ret == Ok <==>
              old(wroteSize) > 0 && (old(partialBytes) == 0 || old(wroteSize) + AES_BLOCK <= cells.Length)
      ensures ret == Ok ==> partialBytes == 0
      ensures ret == Ok ==> wroteSize == old(wroteSize) + (if old(partialBytes) > 0 then AES_BLOCK else 0)
      ensures ret == Ok && |stream| <= frontier ==> Holds(cells[..], stream)
      ensures ret == Ok && |stream| > frontier && old(Untried()) ==> !Holds(cells[..], stream)
    {
      hide Laid;
      Positions();
      ghost var w, before := wroteSize, cells[..];
      if wroteSize == 0 {
        return NothingWritten;
      }
      assert stream == stream[..w] + partialData[..partialBytes];
      if partialBytes > 0 {
        var bytes := partialData[..];
        var ok := WriteRange(cells, wroteSize, bytes);
        if !ok {
          return WriteFailed;
        }
        wroteSize := wroteSize + AES_BLOCK;
        partialBytes := 0;
        assert stream <= stream[..w] + bytes;
        if |stream| <= frontier && needErase {
          RoomForBlock(w, frontier);
        }
        if |stream| <= frontier || touched == frontier {
          LaidPut(before, cells[..], initial, stream[..w], bytes, frontier, touched);
          LaidImage(cells[..], initial, stream[..w] + bytes, frontier, touched, stream);
        }
      } else {
        assert stream[..w] == stream;
        LaidImage(cells[..], initial, stream, frontier, touched, stream);
      }
      return Ok;
    }
  }

  lemma RoomForBlock(w: nat, frontier: nat)
    requires w % AES_BLOCK == 0 && frontier % SECTOR == 0 && w < frontier
    ensures w + AES_BLOCK <= frontier
  {
    DivideBack(w, AES_BLOCK);
    DivideBack(frontier, SECTOR);
  }

  const OTA_SIZE_UNKNOWN: nat := 0xffff_ffff
  const OTA_WITH_SEQUENTIAL_WRITES: nat := 0xffff_fffe

  /** The announced size in whole sectors, in 32-bit arithmetic. */
  function EraseSize(imageSize: nat): (n: nat) {
    Plus32(imageSize, SECTOR - 1) / SECTOR * SECTOR
  }

  /** The sectors erased for an announced size cover it if and only if rounding it up does not overflow. */
  lemma EraseSizeCoversIff(imageSize: nat)
    requires imageSize < U32
    ensures EraseSize(imageSize) >= imageSize <==> imageSize + SECTOR <= U32
    ensures imageSize + SECTOR <= U32 ==> EraseSize(imageSize) == SectorEnd(imageSize)
    ensures imageSize + SECTOR > U32 ==> EraseSize(imageSize) == 0
  {
  }

  /** The erasure at the start of a session: none in sequential mode, the whole partition for an unknown size,
      otherwise the announced size in whole sectors; sizes whose rounding overflows 32 bits erase nothing. */
  method Begin(part: array<Cell>, encrypted: bool, imageSize: nat) returns (s: Session?)
    requires part.Length % SECTOR == 0 && part.Length + SECTOR < U32 && imageSize < U32
    modifies part
    ensures s == null <==> Announced(imageSize) && SectorEnd(imageSize) > part.Length
    ensures s == null || imageSize == OTA_WITH_SEQUENTIAL_WRITES ==> part[..] == old(part[..])
    ensures imageSize == 0 || imageSize == OTA_SIZE_UNKNOWN ==>
              s != null && s.frontier == part.Length && forall i :: 0 <= i < part.Length ==> part[i] == Blank
    ensures s != null && Announced(imageSize) ==>
              s.frontier == SectorEnd(imageSize) && forall i :: 0 <= i < SectorEnd(imageSize) ==> part[i] == Blank
    ensures imageSize != 0 && imageSize != OTA_SIZE_UNKNOWN && !Announced(imageSize) ==>
              s != null && s.frontier == 0 && part[..] == old(part[..])
    ensures s != null ==>
              && fresh(s) && fresh(s.partialData) && s.Valid() && s.Tight() && s.stream == [] && s.cells == part
              && s.needErase == (imageSize == OTA_WITH_SEQUENTIAL_WRITES) && s.encrypted == encrypted
              && s.touched == s.frontier && s.initial == part[..]
              && (forall i :: s.frontier <= i < part.Length ==> part[i] == old(part[i]))
  {
    ghost var blank := 0;
    EraseSizeCoversIff(imageSize);
    if imageSize != OTA_WITH_SEQUENTIAL_WRITES {
      var len := if imageSize == 0 || imageSize == OTA_SIZE_UNKNOWN then part.Length else EraseSize(imageSize);
      var ok := EraseRange(part, 0, len);
      if !ok {
        assert part[..] == old(part[..]);
        return null;
      }
      blank := len;
    }
    assert blank == 0 ==> part[..] == old(part[..]);
    s := new Session(part, encrypted, imageSize == OTA_WITH_SEQUENTIAL_WRITES, blank);
  }

  /** A size that can be rounded up to whole sectors in 32 bits. */
  predicate Announced(imageSize: nat) {
    0 < imageSize <= U32 - SECTOR
  }

  // ---- Any split of an image ----

  lemma ConcatPrefix(chunks: seq<seq<byte>>, n: nat)
    requires n <= |chunks|
    ensures Concat(chunks[..n]) <= Concat(chunks)
  {
    assert chunks == chunks[..n] + chunks[n..];
    ConcatAppend(chunks[..n], chunks[n..]);
  }

  lemma SectorEndMonotone(a: nat, b: nat)
    requires a <= b
    ensures SectorEnd(a) <= SectorEnd(b)
  {
  }

  /** How much of `len` accepted bytes is in flash between calls. */
  function Wrote(len: nat, encrypted: bool): (w: nat)
    ensures w <= len
  {
    if encrypted then len / AES_BLOCK * AES_BLOCK else len
  }

  /** The length of the last call that was not empty. */
  function LastLen(chunks: seq<seq<byte>>): (n: nat) {
    if chunks == [] then 0
    else if chunks[|chunks| - 1] != [] then |chunks[|chunks| - 1]|
    else LastLen(chunks[..|chunks| - 1])
  }

  lemma {:induction false} LastLenBound(chunks: seq<seq<byte>>)
    ensures LastLen(chunks) <= |Concat(chunks)|
    ensures LastLen(chunks) == 0 <==> Concat(chunks) == []
    decreases |chunks|
  {
    if chunks != [] {
      var n := |chunks| - 1;
      LastLenBound(chunks[..n]);
      ConcatNext(chunks, n);
      assert chunks[..n + 1] == chunks;
    }
  }

  /** A call of `last` bytes that brings the accepted data to `len` has used up every sector erased for it. */
  predicate NoBlankLeft(len: nat, last: nat, encrypted: bool)
    requires last <= len
  {
    Wrote(len, encrypted) % SECTOR == 0 && last <= Wrote(len, encrypted) - Wrote(len - last, encrypted)
  }

  /** What is left blank in a sequential session, from the lengths of its calls alone. */
  ghost predicate BlankLeft(chunks: seq<seq<byte>>, frontier: nat, wroteSize: nat, encrypted: bool) {
    var len, last := |Concat(chunks)|, LastLen(chunks);
    0 < last <= len ==> (frontier == wroteSize <==> NoBlankLeft(len, last, encrypted))
  }

  /** One more call, from the frontier `f` and position `w` to `f'` and `w'`. */
  lemma BlankLeftStep(chunks: seq<seq<byte>>, n: nat, f: nat, w: nat, f': nat, w': nat, encrypted: bool)
    requires n < |chunks| && BlankLeft(chunks[..n], f, w, encrypted)
    requires w == Wrote(|Concat(chunks[..n])|, encrypted) && w' == Wrote(|Concat(chunks[..n + 1])|, encrypted)
    requires chunks[n] == [] ==> f' == f
    requires chunks[n] != [] ==> (f' == w' <==> w' % SECTOR == 0 && |chunks[n]| <= w' - w)
    ensures BlankLeft(chunks[..n + 1], f', w', encrypted)
  {
    hide Wrote;
    ConcatNext(chunks, n);
    assert chunks[..n + 1][..n] == chunks[..n] && chunks[..n + 1][n] == chunks[n];
  }

  lemma WroteExact(s: Session)
    requires s.Valid()
    ensures s.wroteSize == Wrote(|s.stream|, s.encrypted)
  {
  }

  /** The session has room for the whole image. */
  ghost predicate Fits(s: Session, len: nat)
    reads s
  {
    if s.needErase then SectorEnd(len) <= s.cells.Length else Wrote(len, s.encrypted) <= s.cells.Length
  }

  lemma WroteMonotone(a: nat, b: nat, encrypted: bool)
    requires a <= b
    ensures Wrote(a, encrypted) <= Wrote(b, encrypted)
  {
  }

  lemma NextPosWrote(w: nat, p: nat, n: nat, encrypted: bool)
    requires !encrypted ==> p == 0
    ensures NextPos(w, p, n, encrypted) == Wrote(w + p + n, encrypted)
  {
  }

  /** However an image is split into calls, a session takes it whole if it starts with the magic byte and fits, and then
      what was programmed, followed by the cache, is the image; within the blank stretch it is intact. */
  method WriteAll(s: Session, chunks: seq<seq<byte>>) returns (ok: bool)
    requires s.Valid() && s.Tight() && s.stream == [] && s.touched == s.frontier
    requires s.cells.Length + |Concat(chunks)| < U32
    modifies s, s.cells, s.partialData
    ensures ok ==> s.Valid() && s.Tight() && s.stream == Concat(chunks) && s.touched == s.frontier
    ensures ok ==> s.partialData[..s.partialBytes] == Concat(chunks)[s.wroteSize..]
                   && s.wroteSize == Wrote(|Concat(chunks)|, s.encrypted)
                   && (s.wroteSize <= s.frontier ==> Holds(s.cells[..], Concat(chunks)[..s.wroteSize]))
    ensures ok ==> if s.needErase
                   then s.wroteSize <= s.frontier && BlankLeft(chunks, s.frontier, s.wroteSize, s.encrypted)
                   else s.frontier == old(s.frontier)
    ensures (|Concat(chunks)| > 0 && Concat(chunks)[0] == MAGIC && old(Fits(s, |Concat(chunks)|))) ==> ok
  {
    assert Concat(chunks[..0]) == [];
    hide Session.FlashOk, SectorEnd, Concat, Wrote;
    ok := true;
    for n := 0 to |chunks|
      invariant s.Valid() && s.Tight()
      invariant ok && s.stream == Concat(chunks[..n]) && s.touched == s.frontier
      invariant if s.needErase then BlankLeft(chunks[..n], s.frontier, s.wroteSize, s.encrypted)
                else s.frontier == old(s.frontier)
    {
      ChunkFits(s, chunks, n);
      ok := WriteChunk(s, chunks, n);
      if !ok {
        return;
      }
    }
    assert chunks[..|chunks|] == chunks;
    s.Positions();
    s.Streamed();
    WroteExact(s);
  }

  /** The call is one that a session takes. */
  ghost predicate Accepts(s: Session, data: seq<byte>)
    reads s
  {
    data == [] || (s.Room(data) && (s.stream == [] ==> data[0] == MAGIC))
  }

  /** What the next call finds. */
  lemma ChunkFits(s: Session, chunks: seq<seq<byte>>, n: nat)
    requires s.Valid() && n < |chunks| && s.stream == Concat(chunks[..n])
    ensures var chunk, image := chunks[n], Concat(chunks);
            && Concat(chunks[..n + 1]) == s.stream + chunk && |s.stream| + |chunk| <= |image|
            && (Fits(s, |image|) ==> s.Room(chunk))
            && (s.stream == [] && chunk != [] ==> chunk[0] == image[0])
  {
    hide Session.FlashOk, Session.Valid, Session.Room, Fits, Concat;
    ConcatNext(chunks, n);
    ConcatPrefix(chunks, n + 1);
    RoomWithin(s, chunks[n], |Concat(chunks)|);
  }

  lemma RoomWithin(s: Session, data: seq<byte>, len: nat)
    requires s.Valid() && |s.stream| + |data| <= len
    ensures Fits(s, len) ==> s.Room(data)
  {
    s.Positions();
    hide Session.FlashOk, SectorEnd, Wrote, NextPos, Session.Valid;
    SectorEndMonotone(s.wroteSize + |data|, len);
    NextPosWrote(s.wroteSize, s.partialBytes, |data|, s.encrypted);
    WroteMonotone(|s.stream| + |data|, len, s.encrypted);
  }

  /** One of the calls. */
  method WriteChunk(s: Session, chunks: seq<seq<byte>>, n: nat) returns (ok: bool)
    requires s.Valid() && s.Tight() && n < |chunks| && s.stream == Concat(chunks[..n])
    requires s.cells.Length + |Concat(chunks)| < U32
    requires s.touched == s.frontier && (s.needErase ==> BlankLeft(chunks[..n], s.frontier, s.wroteSize, s.encrypted))
    modifies s, s.cells, s.partialData
    ensures ok ==> s.Valid() && s.Tight() && s.stream == Concat(chunks[..n + 1]) && s.touched == s.frontier
    ensures ok ==> if s.needErase then BlankLeft(chunks[..n + 1], s.frontier, s.wroteSize, s.encrypted)
                   else s.frontier == old(s.frontier)
    ensures old(Accepts(s, chunks[n])) ==> ok
  {
    hide Session.FlashOk, SectorEnd, Concat, Wrote, BlankLeft, Session.Room, Session.Valid, Session.Tight;
    ChunkFits(s, chunks, n);
    WroteExact(s);
    ghost var f, w := s.frontier, s.wroteSize;
    var ret := s.Write(chunks[n]);
    ok := ret == Ok;
    if ok {
      WroteExact(s);
      if s.needErase {
        BlankLeftStep(chunks, n, f, w, s.frontier, s.wroteSize, s.encrypted);
      }
    }
  }

  // ---- A whole update ----

  /** The end of the session spoils the cached tail: there is one, and the last call left no blank cell for it. */
  predicate TailLost(len: nat, last: nat, encrypted: bool)
    requires last <= len
  {
    encrypted && len % AES_BLOCK != 0 && NoBlankLeft(len, last, encrypted)
  }

  /** The cached tail, from the lengths alone. */
  lemma TailFacts(len: nat, encrypted: bool, size: nat)
    requires size % SECTOR == 0 && len <= size
    ensures len - Wrote(len, encrypted) > 0 <==> encrypted && len % AES_BLOCK != 0
    ensures len - Wrote(len, encrypted) > 0 ==> Wrote(len, encrypted) + AES_BLOCK <= size
  {
    var w := Wrote(len, encrypted);
    assert encrypted ==> w + len % AES_BLOCK == len && w % AES_BLOCK == 0;
    hide Wrote;
    if encrypted && len % AES_BLOCK != 0 {
      RoomForBlock(w, size);
    }
  }

  /** Whether the frontier reaches the end of the image. */
  lemma TailPlaced(s: Session, erased: nat, chunks: seq<seq<byte>>)
    requires s.Valid() && s.stream == Concat(chunks) && s.wroteSize == Wrote(|Concat(chunks)|, s.encrypted)
    requires LastLen(chunks) <= |Concat(chunks)| && (LastLen(chunks) == 0 ==> Concat(chunks) == [])
    requires if s.needErase then BlankLeft(chunks, s.frontier, s.wroteSize, s.encrypted) else s.frontier == erased
    ensures Placed(s, erased, chunks) <==> |s.stream| <= s.frontier
  {
    s.Positions();
    hide Session.Valid, Concat, LastLen;
    if s.needErase {
      if s.frontier > s.wroteSize {
        if s.encrypted {
          RoomForBlock(s.wroteSize, s.frontier);
        }
      }
    }
  }

  /** A session from its first call to its end. */
  method RunSession(s: Session, chunks: seq<seq<byte>>) returns (ret: Err)
    requires s.Valid() && s.Tight() && s.stream == [] && s.touched == s.frontier
    requires s.needErase ==> s.frontier == 0
    requires s.cells.Length + |Concat(chunks)| < U32
    modifies s, s.cells, s.partialData
    ensures LastLen(chunks) <= |Concat(chunks)|
    ensures ret == Ok ==> |Concat(chunks)| <= s.cells.Length
    ensures ret == Ok && Placed(s, old(s.frontier), chunks) ==> Holds(s.cells[..], Concat(chunks))
    ensures ret == Ok && !Placed(s, old(s.frontier), chunks) && old(StaleFrom(s.initial, s.frontier)) ==>
              !Holds(s.cells[..], Concat(chunks))
    ensures Takes(s, chunks) && old(Fits(s, |Concat(chunks)|)) && |Concat(chunks)| <= s.cells.Length ==> ret == Ok
  {
    hide Session.FlashOk, Concat, Wrote, LastLen, Holds, SectorEnd, BlankLeft, TailLost;
    LastLenBound(chunks);
    s.Positions();
    var ok := WriteAll(s, chunks);
    if !ok {
      return WriteFailed;
    }
    s.Positions();
    ghost var len := |Concat(chunks)|;
    if len <= s.cells.Length {
      TailFacts(len, s.encrypted, s.cells.Length);
    }
    TailPlaced(s, old(s.frontier), chunks);
    ret := s.FlushTail();
  }

  ghost predicate StaleFrom(cells: seq<Cell>, from: nat) {
    forall i :: from <= i < |cells| ==> cells[i] == Stale
  }

  /** The whole image goes to blank cells: it is no longer than the stretch erased at the start, or, with sequential
      erasure, the lengths of the calls do not lose its tail. */
  ghost predicate Placed(s: Session, erased: nat, chunks: seq<seq<byte>>)
    requires LastLen(chunks) <= |Concat(chunks)|
  {
    if s.needErase then !TailLost(|Concat(chunks)|, LastLen(chunks), s.encrypted) else |Concat(chunks)| <= erased
  }

  /** The image starts with the magic byte, and its session gets past the first block. */
  ghost predicate Takes(s: Session, chunks: seq<seq<byte>>) {
    Wrote(|Concat(chunks)|, s.encrypted) > 0 && Concat(chunks)[0] == MAGIC
  }

  /** The image fits the partition in this mode. */
  predicate ImageFits(imageSize: nat, len: nat, partSize: nat) {
    if imageSize == OTA_WITH_SEQUENTIAL_WRITES then SectorEnd(len) <= partSize
    else len <= partSize && (Announced(imageSize) ==> SectorEnd(imageSize) <= partSize)
  }

  /** Whether the whole image goes to blank cells, from what the caller knows. */
  predicate ImagePlaced(imageSize: nat, chunks: seq<seq<byte>>, encrypted: bool, partSize: nat)
    requires LastLen(chunks) <= |Concat(chunks)|
  {
    if imageSize == OTA_WITH_SEQUENTIAL_WRITES then !TailLost(|Concat(chunks)|, LastLen(chunks), encrypted)
    else if imageSize == 0 || imageSize == OTA_SIZE_UNKNOWN then |Concat(chunks)| <= partSize
    else if Announced(imageSize) then |Concat(chunks)| <= SectorEnd(imageSize)
    else Concat(chunks) == []
  }

  /**
   An update from beginning to end, split into any calls.  Its image is intact if no size was announced, if it is no
   longer than the announced one in whole sectors or, with sequential erasure, if the lengths of the calls do not lose
   the tail; on old data, only then.
   */
  method Update(part: array<Cell>, encrypted: bool, imageSize: nat, chunks: seq<seq<byte>>) returns (ret: Err)
    requires part.Length % SECTOR == 0 && part.Length + SECTOR < U32 && imageSize < U32
    requires part.Length + |Concat(chunks)| < U32
    modifies part
    ensures LastLen(chunks) <= |Concat(chunks)|
    ensures ret == Ok && (imageSize == 0 || imageSize == OTA_SIZE_UNKNOWN) ==> Holds(part[..], Concat(chunks))
    ensures ret == Ok && ImagePlaced(imageSize, chunks, encrypted, part.Length) ==> Holds(part[..], Concat(chunks))
    ensures ret == Ok && !ImagePlaced(imageSize, chunks, encrypted, part.Length) && old(AllStale(part[..])) ==>
              !Holds(part[..], Concat(chunks))
    ensures (Wrote(|Concat(chunks)|, encrypted) > 0 && Concat(chunks)[0] == MAGIC
             && ImageFits(imageSize, |Concat(chunks)|, part.Length)) ==> ret == Ok
  {
    hide Session.FlashOk, Concat, Wrote, LastLen, Holds, SectorEnd, TailLost, Session.Valid;
    LastLenBound(chunks);
    var s := Begin(part, encrypted, imageSize);
    if s == null {
      return EraseFailed;
    }
    ret := RunSession(s, chunks);
  }

  /** The missing sector, concretely: 4095 bytes and then 2 leave one cached byte at a sector boundary that no call has
      erased, and the end of the session spoils it. */
  lemma TailSectorNotErased(chunks: seq<seq<byte>>)
    requires |chunks| == 2 && |chunks[0]| == SECTOR - 1 && |chunks[1]| == 2
    ensures |Concat(chunks)| == SECTOR + 1 && LastLen(chunks) == 2 && TailLost(SECTOR + 1, 2, true)
  {
    assert chunks == [chunks[0]] + [chunks[1]];
    ConcatSnoc([chunks[0]], chunks[1]);
    assert [chunks[0]] == [] + [chunks[0]];
    ConcatSnoc([], chunks[0]);
  }
}

/**
 The DFU image writer: a CPIO archive in the "new ASCII" format whose first member indexes the others,
 padded and followed by the DFU suffix.  `Decode` reads such archives independently of the writer.
 MD5 and CRC are parameters.
 */
module DfuArchive {
  import opened Bytes

  const HEADER_SIZE: nat := 110
  const BLOCK_SIZE: nat := 10240
  const RECORD_SIZE: nat := 88

  /** 070701 */
  const MAGIC: seq<byte> := [0x30, 0x37, 0x30, 0x37, 0x30, 0x31]

  /** TRAILER!!! */
  const TRAILER: seq<byte> := [0x54, 0x52, 0x41, 0x49, 0x4C, 0x45, 0x52, 0x21, 0x21, 0x21]

  /** dfuinfo0.dat */
  const INDEX_NAME: seq<byte> := [0x64, 0x66, 0x75, 0x69, 0x6E, 0x66, 0x6F, 0x30, 0x2E, 0x64, 0x61, 0x74]

  datatype File = File(name: seq<byte>, data: seq<byte>)

  type Digest = d: seq<byte> | |d| == 16 witness seq(16, _ => 0)

  datatype Info = Info(address: nat, flags: nat, name: seq<byte>, md5: Digest)

  // ---- Hexadecimal fields ----

  function Digit(d: nat): (c: byte)
    requires d < 16
  {
    if d < 10 then 0x30 + d else 0x61 + d - 10
  }

  function DigitValue(c: byte): (d: nat) {
    if 0x30 <= c <= 0x39 then c - 0x30 else if 0x61 <= c <= 0x66 then c - 0x61 + 10 else 0
  }

  function Hex(v: nat, k: nat): (s: seq<byte>)
    ensures |s| == k
  {
    if k == 0 then [] else Hex(v / 16, k - 1) + [Digit(v % 16)]
  }

  function FromHex(s: seq<byte>): (v: nat) {
    if s == [] then 0 else 16 * FromHex(s[..|s| - 1]) + DigitValue(s[|s| - 1])
  }

  function Pow16(k: nat): (p: nat)
    ensures p > 0
  {
    if k == 0 then 1 else 16 * Pow16(k - 1)
  }

  lemma {:induction false} HexRoundTrip(v: nat, k: nat)
    requires v < Pow16(k)
    ensures FromHex(Hex(v, k)) == v
    ensures forall c :: c in Hex(v, k) ==> 0x30 <= c <= 0x39 || 0x61 <= c <= 0x66
  {
    if k > 0 {
      HexStep(v, k);
      assert v / 16 < Pow16(k - 1);
      hide Hex, FromHex;
      HexRoundTrip(v / 16, k - 1);
    } else {
      assert Hex(v, 0) == [];
    }
  }

  lemma HexStep(v: nat, k: nat)
    requires k > 0
    ensures FromHex(Hex(v, k)) == 16 * FromHex(Hex(v / 16, k - 1)) + v % 16
  {
    var s := Hex(v, k);
    assert s[..|s| - 1] == Hex(v / 16, k - 1);
    DigitReads(v % 16);
  }

  lemma DigitReads(d: nat)
    requires d < 16
    ensures DigitValue(Digit(d)) == d
  {
  }

  lemma Pow16Of8()
    ensures Pow16(8) == U32
  {
  }

  // ---- CPIO entries ----

  function RoundUp(n: nat, m: nat): (r: nat)
    requires m > 0
  {
    (n + m - 1) / m * m
  }

  lemma RoundUpBounds(n: nat, m: nat)
    requires m > 0
    ensures n <= RoundUp(n, m) < n + m && RoundUp(n, m) % m == 0
  {
    var q := (n + m - 1) / m;
    assert n + m - 1 == q * m + (n + m - 1) % m;
    MultipleRemainder(q, m);
  }

  lemma MultipleRemainder(q: nat, m: nat)
    requires m > 0
    ensures q * m % m == 0
  {
    var p, r := q * m / m, q * m % m;
    assert (q - p) * m == r;
    Scaled(q - p, m);
  }

  lemma Scaled(k: int, m: int)
    requires m > 0
    ensures k >= 1 ==> k * m >= m
    ensures k <= -1 ==> k * m <= -m
  {
  }

  function Zeros(n: nat): (s: seq<byte>) {
    seq(n, _ => 0)
  }

  function Pad(b: seq<byte>, m: nat): (r: seq<byte>)
    requires m > 0
  {
    RoundUpBounds(|b|, m);
    b + Zeros(RoundUp(|b|, m) - |b|)
  }

  /** The numbers behind the magic: inode, mode, owner, group, links, time, file size, four device numbers, name
      size, check. */
  function Numbers(nameLen: nat, fileLen: nat, trailer: bool): (f: seq<nat>)
    ensures |f| == 13
  {
    [0, if trailer then 0 else 0x81A4, 0, 0, if trailer then 1 else 0, 0, fileLen, 0, 0, 0, 0, nameLen, 0]
  }

  function HexFields(numbers: seq<nat>): (s: seq<byte>)
    ensures |s| == 8 * |numbers|
  {
    if numbers == [] then [] else Hex(numbers[0], 8) + HexFields(numbers[1..])
  }

  function Header(nameLen: nat, fileLen: nat, trailer: bool): (h: seq<byte>)
    ensures |h| == HEADER_SIZE
  {
    MAGIC + HexFields(Numbers(nameLen, fileLen, trailer))
  }

  function Entry(name: seq<byte>, data: seq<byte>, trailer: bool): (e: seq<byte>) {
    Pad(Header(|name| + 1, |data|, trailer) + name + [0], 4) + Pad(data, 4)
  }

  /** Reads an archive up to its trailer. */
  function Decode(s: seq<byte>): (files: Option<seq<File>>)
    decreases |s|
  {
    if |s| < HEADER_SIZE || s[..6] != MAGIC then None
    else
      var fileSize, nameSize := FromHex(s[54..62]), FromHex(s[94..102]);
      var nameEnd := HEADER_SIZE + nameSize;
      var data := RoundUp(nameEnd, 4);
      var next := RoundUp(data + fileSize, 4);
      if nameSize == 0 || !(nameEnd <= data <= data + fileSize <= next <= |s|) then None
      else
        var name := s[HEADER_SIZE..nameEnd - 1];
        if name == TRAILER then Some([])
        else
          var rest := Decode(s[next..]);
          if rest.None? then None else Some([File(name, s[data..data + fileSize])] + rest.value)
  }

  lemma {:induction false} HexFieldAt(front: seq<byte>, numbers: seq<nat>, i: nat)
    requires i < |numbers|
    ensures (front + HexFields(numbers))[|front| + 8 * i..|front| + 8 * i + 8] == Hex(numbers[i], 8)
    decreases i
  {
    hide Hex;
    if i > 0 {
      assert front + HexFields(numbers) == (front + Hex(numbers[0], 8)) + HexFields(numbers[1..]);
      HexFieldAt(front + Hex(numbers[0], 8), numbers[1..], i - 1);
    }
  }

  lemma HeaderFields(nameLen: nat, fileLen: nat, trailer: bool)
    ensures var h := Header(nameLen, fileLen, trailer);
            h[..6] == MAGIC && h[54..62] == Hex(fileLen, 8) && h[94..102] == Hex(nameLen, 8)
  {
    hide Hex, HexFields;
    HexFieldAt(MAGIC, Numbers(nameLen, fileLen, trailer), 6);
    HexFieldAt(MAGIC, Numbers(nameLen, fileLen, trailer), 11);
  }

  /** Number `i` of the thirteen behind the magic. */
  function Number(h: seq<byte>, i: nat): (v: nat)
    requires |h| == HEADER_SIZE && i < 13
  {
    FromHex(h[6 + 8 * i..14 + 8 * i])
  }

  /** The header reads back: mode and number of links tell a file from the trailer, file size and name size are in
      their places, and every other number is 0. */
  lemma HeaderReads(nameLen: nat, fileLen: nat, trailer: bool, i: nat)
    requires nameLen < U32 && fileLen < U32 && i < 13
    ensures Number(Header(nameLen, fileLen, trailer), i) ==
            if i == 1 then (if trailer then 0 else 33188)
            else if i == 4 then (if trailer then 1 else 0)
            else if i == 6 then fileLen
            else if i == 11 then nameLen
            else 0
  {
    hide Hex, FromHex, HexFields, Pow16;
    HexFieldAt(MAGIC, Numbers(nameLen, fileLen, trailer), i);
    Pow16Of8();
    HexRoundTrip(Numbers(nameLen, fileLen, trailer)[i], 8);
  }

  lemma RoundUpAligned(d: nat, n: nat)
    requires d % 4 == 0
    ensures RoundUp(d + n, 4) == d + RoundUp(n, 4)
  {
    var q := d / 4;
    assert d == 4 * q;
    assert (4 * q + (n + 3)) / 4 == q + (n + 3) / 4;
  }

  /** Where the parts of an entry lie. */
  lemma EntryLayout(name: seq<byte>, data: seq<byte>, trailer: bool)
    ensures var e, nameEnd := Entry(name, data, trailer), HEADER_SIZE + |name| + 1;
            var d := RoundUp(nameEnd, 4);
            && |e| == d + RoundUp(|data|, 4) == RoundUp(d + |data|, 4) && |e| % 4 == 0
            && nameEnd <= d && d + |data| <= |e|
            && e[..HEADER_SIZE] == Header(|name| + 1, |data|, trailer)
            && e[HEADER_SIZE..nameEnd - 1] == name && e[nameEnd - 1..d] == Zeros(d - nameEnd + 1)
            && e[d..d + |data|] == data && e[d + |data|..] == Zeros(|e| - d - |data|)
  {
    hide Header;
    var nameEnd := HEADER_SIZE + |name| + 1;
    RoundUpBounds(nameEnd, 4);
    RoundUpBounds(|data|, 4);
    RoundUpAligned(RoundUp(nameEnd, 4), |data|);
  }

  lemma SliceOfPrefix(e: seq<byte>, rest: seq<byte>, a: nat, b: nat)
    requires a <= b <= |e|
    ensures (e + rest)[a..b] == e[a..b]
  {
  }

  lemma EntryHeader(name: seq<byte>, data: seq<byte>, trailer: bool)
    requires |name| + 1 < U32 && |data| < U32
    ensures var e := Entry(name, data, trailer);
            |e| >= HEADER_SIZE && e[..6] == MAGIC && FromHex(e[54..62]) == |data| && FromHex(e[94..102]) == |name| + 1
  {
    hide Header, Hex, FromHex, Entry, RoundUp, Pow16;
    var e := Entry(name, data, trailer);
    EntryLayout(name, data, trailer);
    HeaderFields(|name| + 1, |data|, trailer);
    Pow16Of8();
    HexRoundTrip(|name| + 1, 8);
    HexRoundTrip(|data|, 8);
    assert e[..6] == e[..HEADER_SIZE][..6];
    assert e[54..62] == e[..HEADER_SIZE][54..62] && e[94..102] == e[..HEADER_SIZE][94..102];
  }

  lemma SliceBehind(e: seq<byte>, rest: seq<byte>)
    ensures (e + rest)[|e|..] == rest
  {
  }

  /** The header fields the decoder finds in front of `rest`. */
  lemma EntryFields(name: seq<byte>, data: seq<byte>, trailer: bool, rest: seq<byte>)
    requires |name| + 1 < U32 && |data| < U32
    ensures var s := Entry(name, data, trailer) + rest;
            |s| >= HEADER_SIZE && s[..6] == MAGIC && FromHex(s[54..62]) == |data| && FromHex(s[94..102]) == |name| + 1
  {
    hide FromHex, Entry;
    var e := Entry(name, data, trailer);
    EntryHeader(name, data, trailer);
    SliceOfPrefix(e, rest, 0, 6);
    SliceOfPrefix(e, rest, 54, 62);
    SliceOfPrefix(e, rest, 94, 102);
    assert (e + rest)[..6] == (e + rest)[0..6] && e[..6] == e[0..6];
  }

  /** The name, the data and what follows, found at the offsets the decoder computes. */
  lemma EntryParts(name: seq<byte>, data: seq<byte>, trailer: bool, rest: seq<byte>)
    ensures var s, nameEnd := Entry(name, data, trailer) + rest, HEADER_SIZE + |name| + 1;
            var d := RoundUp(nameEnd, 4);
            var next := RoundUp(d + |data|, 4);
            && nameEnd <= d && d + |data| <= next <= |s|
            && s[HEADER_SIZE..nameEnd - 1] == name && s[d..d + |data|] == data && s[next..] == rest
  {
    hide Header, Entry, RoundUp;
    var e := Entry(name, data, trailer);
    EntryLayout(name, data, trailer);
    var nameEnd := HEADER_SIZE + |name| + 1;
    var d := RoundUp(nameEnd, 4);
    SliceOfPrefix(e, rest, HEADER_SIZE, nameEnd - 1);
    SliceOfPrefix(e, rest, d, d + |data|);
    SliceBehind(e, rest);
  }

  /** Decoding takes one entry off the front. */
  lemma DecodeEntry(name: seq<byte>, data: seq<byte>, trailer: bool, rest: seq<byte>)
    requires |name| + 1 < U32 && |data| < U32
    ensures Decode(Entry(name, data, trailer) + rest) ==
            if name == TRAILER then Some([])
            else if Decode(rest).None? then None
            else Some([File(name, data)] + Decode(rest).value)
  {
    hide FromHex, Entry, RoundUp;
    EntryFields(name, data, trailer, rest);
    EntryParts(name, data, trailer, rest);
  }

  // ---- Archives ----

  function PrefixLen(parts: seq<seq<byte>>, k: nat): (n: nat)
    requires k <= |parts|
  {
    |Concat(parts[..k])|
  }

  function EntryOf(f: File): (e: seq<byte>) {
    Entry(f.name, f.data, false)
  }

  function Entries(files: seq<File>): (e: seq<seq<byte>>)
    ensures |e| == |files|
    ensures forall i :: 0 <= i < |e| ==> e[i] == EntryOf(files[i])
  {
    seq(|files|, i requires 0 <= i < |files| => EntryOf(files[i]))
  }

  /** The sizes fit the eight hexadecimal digits of the header. */
  ghost predicate Sized(f: File) {
    |f.name| + 1 < U32 && |f.data| < U32
  }

  ghost predicate AllSized(files: seq<File>) {
    forall i :: 0 <= i < |files| ==> Sized(files[i])
  }

  /** What a reader of the archive gets: it stops at the first file named like the trailer. */
  function Readable(files: seq<File>): (r: seq<File>) {
    if files == [] || files[0].name == TRAILER then [] else [files[0]] + Readable(files[1..])
  }

  lemma {:induction false} ReadableIffNoTrailerName(files: seq<File>)
    ensures Readable(files) == files <==> forall i :: 0 <= i < |files| ==> files[i].name != TRAILER
    decreases |files|
  {
    if files != [] {
      ReadableIffNoTrailerName(files[1..]);
      assert files == [files[0]] + files[1..];
      if files[0].name != TRAILER && Readable(files) == files {
        assert Readable(files)[1..] == Readable(files[1..]) == files[1..];
        forall i | 0 <= i < |files| ensures files[i].name != TRAILER {
          if i > 0 {
            assert files[i] == files[1..][i - 1];
          }
        }
      }
    }
  }

  /** Decoding the archive of any files, whatever follows the trailer. */
  lemma {:induction false} ArchiveDecodes(files: seq<File>, after: seq<byte>)
    requires AllSized(files)
    ensures Decode(Concat(Entries(files)) + (Entry(TRAILER, [], true) + after)) == Some(Readable(files))
    decreases |files|
  {
    hide Entry, Decode;
    var end := Entry(TRAILER, [], true) + after;
    if files == [] {
      DecodeEntry(TRAILER, [], true, after);
      assert Concat(Entries(files)) + end == end;
    } else {
      var f, rest := files[0], Concat(Entries(files[1..])) + end;
      assert Sized(f);
      ArchiveDecodes(files[1..], after);
      DecodeEntry(f.name, f.data, false, rest);
      assert Entries(files)[1..] == Entries(files[1..]);
      assert Concat(Entries(files)) + end == EntryOf(f) + rest;
    }
  }

  /** Every entry starts on a four-byte boundary. */
  lemma {:induction false} EntriesAligned(files: seq<File>)
    ensures |Concat(Entries(files))| % 4 == 0
    decreases |files|
  {
    hide Entry, RoundUp, Header;
    if files != [] {
      EntryLayout(files[0].name, files[0].data, false);
      EntriesAligned(files[1..]);
      assert Entries(files)[1..] == Entries(files[1..]);
    }
  }

  // ---- Little-endian fields and index records ----

  function Le(v: nat, k: nat): (s: seq<byte>)
    ensures |s| == k
  {
    if k == 0 then [] else [v % 256] + Le(v / 256, k - 1)
  }

  function FromLe(s: seq<byte>): (v: nat) {
    if s == [] then 0 else s[0] + 256 * FromLe(s[1..])
  }

  function Pow256(k: nat): (p: nat) {
    if k == 0 then 1 else 256 * Pow256(k - 1)
  }

  lemma {:induction false} LeRoundTrip(v: nat, k: nat)
    requires v < Pow256(k)
    ensures FromLe(Le(v, k)) == v
  {
    if k > 0 {
      LeRoundTrip(v / 256, k - 1);
      assert Le(v, k)[1..] == Le(v / 256, k - 1);
    }
  }

  /** A string field: cut or filled with zeros to its size. */
  function Field(s: seq<byte>, k: nat): (r: seq<byte>)
    ensures |r| == k
  {
    if |s| >= k then s[..k] else s + Zeros(k - |s|)
  }

  function Record(i: Info): (r: seq<byte>)
    ensures |r| == RECORD_SIZE
  {
    Le(i.address, 4) + Le(i.flags, 4) + Field(i.name, 64) + Field(i.md5, 16)
  }

  /** Reads one record of the index. */
  function ParseRecord(r: seq<byte>): (i: Info)
    requires |r| == RECORD_SIZE
  {
    Info(FromLe(r[0..4]), FromLe(r[4..8]), r[8..72], r[72..88])
  }

  lemma RecordRoundTrip(i: Info)
    requires Packable(i)
    ensures ParseRecord(Record(i)) == i.(name := Field(i.name, 64))
    ensures var r := Record(i);
            && FromLe(r[..4]) == i.address && FromLe(r[4..8]) == i.flags
            && r[8..72] == Field(i.name, 64) && r[72..] == i.md5
  {
    hide Le, FromLe, Field;
    assert Pow256(2) == 0x1_0000 && Pow256(4) == U32;
    LeRoundTrip(i.address, 4);
    LeRoundTrip(i.flags, 4);
    assert Field(i.md5, 16) == i.md5 by {
      FieldExact(i.md5);
    }
    var r := Record(i);
    assert r[0..4] == r[..4] == Le(i.address, 4) && r[4..8] == Le(i.flags, 4);
    assert r[8..72] == Field(i.name, 64) && r[72..] == r[72..88] == Field(i.md5, 16);
  }

  lemma FieldExact(s: seq<byte>)
    ensures Field(s, |s|) == s
  {
  }

  /** Both numbers fit their 32-bit fields. */
  predicate Packable(i: Info) {
    i.address < U32 && i.flags < U32
  }

  function Records(index: seq<Info>): (r: seq<seq<byte>>)
    ensures |r| == |index|
    ensures forall i :: 0 <= i < |r| ==> r[i] == Record(index[i])
  {
    seq(|index|, i requires 0 <= i < |index| => Record(index[i]))
  }

  /** The index file is an array of records: the k-th starts at 88 k. */
  lemma {:induction false} IndexRecordAt(index: seq<Info>, k: nat)
    requires k < |index|
    ensures var d := Concat(Records(index));
            |d| == RECORD_SIZE * |index| && d[RECORD_SIZE * k..RECORD_SIZE * (k + 1)] == Record(index[k])
    decreases |index|
  {
    hide Record;
    var x, tail := Record(index[0]), Concat(Records(index[1..]));
    assert Records(index)[1..] == Records(index[1..]);
    assert Concat(Records(index)) == x + tail;
    if |index| > 1 {
      IndexRecordAt(index[1..], if k > 0 then k - 1 else 0);
    } else {
      assert tail == [];
    }
    hide Concat, Records;
    if k > 0 {
      SliceShift(x, tail, RECORD_SIZE * k, RECORD_SIZE * (k + 1));
    } else {
      SliceShift(x, tail, 0, RECORD_SIZE);
    }
  }

  lemma SliceShift(x: seq<byte>, tail: seq<byte>, a: nat, b: nat)
    requires a <= b <= |x| + |tail|
    ensures |x| <= a ==> (x + tail)[a..b] == tail[a - |x|..b - |x|]
    ensures a == 0 && b == |x| ==> (x + tail)[a..b] == x
  {
  }

  // ---- Splitting a file into parts ----

  /** One read of at most `part` bytes; a negative bound reads everything. */
  function ReadLen(part: int, left: nat): (n: nat)
    ensures n <= left
  {
    if part < 0 || part > left then left else part
  }

  /** The reads up to the first one that returns nothing. */
  function Chunks(data: seq<byte>, part: int): (c: seq<seq<byte>>)
    decreases |data|
  {
    var n := ReadLen(part, |data|);
    if n == 0 then [] else [data[..n]] + Chunks(data[n..], part)
  }

  /** The parts make up the file exactly when the part size is not zero (or the file is empty). */
  lemma {:induction false} ChunksReassembleIff(data: seq<byte>, part: int)
    ensures Concat(Chunks(data, part)) == data <==> (part != 0 || data == [])
    decreases |data|
  {
    var n := ReadLen(part, |data|);
    if n > 0 {
      ChunksReassembleIff(data[n..], part);
      assert Chunks(data, part)[1..] == Chunks(data[n..], part);
      assert data == data[..n] + data[n..];
    }
  }

  /** Part k is the piece of the file behind the parts before it. */
  lemma {:induction false} ChunkAt(data: seq<byte>, part: int, k: nat)
    requires k < |Chunks(data, part)|
    ensures var p := PrefixLen(Chunks(data, part), k);
            p < |data| && Chunks(data, part)[k] == data[p..p + ReadLen(part, |data| - p)]
    decreases k
  {
    var n, c := ReadLen(part, |data|), Chunks(data, part);
    if k > 0 {
      var rest := data[n..];
      assert c[1..] == Chunks(rest, part);
      ChunkAt(rest, part, k - 1);
      ShiftPrefix(c, k);
      var p := PrefixLen(c[1..], k - 1);
      var m := ReadLen(part, |rest| - p);
      assert rest[p..p + m] == data[n + p..n + p + m];
    }
  }

  lemma ShiftPrefix(c: seq<seq<byte>>, k: nat)
    requires 0 < k <= |c|
    ensures PrefixLen(c, k) == |c[0]| + PrefixLen(c[1..], k - 1)
  {
    assert c[..k][1..] == c[1..][..k - 1];
  }

  /** With a positive part size, part k lies at k times that size: only the last part may be shorter. */
  lemma {:induction false} ChunkOffset(data: seq<byte>, part: nat, k: nat)
    requires k < |Chunks(data, part)|
    ensures PrefixLen(Chunks(data, part), k) == part * k
    decreases k
  {
    var n, c := ReadLen(part, |data|), Chunks(data, part);
    if k > 0 {
      assert c[1..] == Chunks(data[n..], part) && n == part;
      ChunkOffset(data[n..], part, k - 1);
      ShiftPrefix(c, k);
      assert part * k == part * (k - 1) + part;
    }
  }

  function Decimal(n: nat): (s: seq<byte>) {
    if n < 10 then [0x30 + n] else Decimal(n / 10) + [0x30 + n % 10]
  }

  /** The value of decimal digits, the first one the highest. */
  function DecimalValue(s: seq<byte>): (v: int) {
    if s == [] then 0 else 10 * DecimalValue(s[..|s| - 1]) + (s[|s| - 1] as int - 0x30)
  }

  /** Digits without a leading zero. */
  lemma {:induction false} DecimalReads(n: nat)
    ensures DecimalValue(Decimal(n)) == n && Decimal(n) != []
    ensures forall c :: c in Decimal(n) ==> 0x30 <= c <= 0x39
    ensures n > 0 ==> Decimal(n)[0] != 0x30
  {
    if n >= 10 {
      DecimalReads(n / 10);
      assert Decimal(n)[..|Decimal(n)| - 1] == Decimal(n / 10);
    }
  }

  lemma DecimalInjective(a: nat, b: nat)
    requires Decimal(a) == Decimal(b)
    ensures a == b
  {
    DecimalReads(a);
    DecimalReads(b);
  }

  function PartName(name: seq<byte>, k: nat): (s: seq<byte>) {
    if k == 0 then name else name + [0x2E] + Decimal(k)
  }

  /** The parts of one file never share a name. */
  lemma PartNamesDistinct(name: seq<byte>, j: nat, k: nat)
    requires PartName(name, j) == PartName(name, k)
    ensures j == k
  {
    hide Decimal;
    if j > 0 && k > 0 {
      var n := |name| + 1;
      assert PartName(name, j)[n..] == Decimal(j) && PartName(name, k)[n..] == Decimal(k);
      DecimalInjective(j, k);
    }
  }

  type Word = w: nat | w < U32

  /** The index record of a file placed at `address`. */
  function InfoOf(f: File, address: nat, flags: nat, md5: seq<byte> -> Digest): (i: Info) {
    Info(address, flags, f.name, md5(f.data))
  }

  function PartFile(name: seq<byte>, chunks: seq<seq<byte>>, k: nat): (f: File)
    requires k < |chunks|
  {
    File(PartName(name, k), chunks[k])
  }

  function PartFiles(name: seq<byte>, chunks: seq<seq<byte>>): (f: seq<File>)
    ensures |f| == |chunks|
  {
    seq(|chunks|, k requires 0 <= k < |chunks| => PartFile(name, chunks, k))
  }

  /** Part k lies directly behind the parts before it. */
  function PartInfos(name: seq<byte>, address: nat, chunks: seq<seq<byte>>, md5: seq<byte> -> Digest): (r: seq<Info>)
    ensures |r| == |chunks|
  {
    seq(|chunks|, k requires 0 <= k < |chunks| =>
      InfoOf(PartFile(name, chunks, k), address + PrefixLen(chunks, k), 0, md5))
  }

  // ---- The suffix ----

  datatype Suffix =
    Suffix(device: nat, product: nat, vendor: nat, dfu: nat, signature: seq<byte>, length: nat, crc: nat)

  /** The suffix of a DFU file, read from its end as Appendix B of USB DFU 1.1 lays it out. */
  function ParseSuffix(s: seq<byte>): (r: Suffix)
    requires |s| >= 16
  {
    var n := |s|;
    Suffix(FromLe(s[n - 16..n - 14]), FromLe(s[n - 14..n - 12]), FromLe(s[n - 12..n - 10]), FromLe(s[n - 10..n - 8]),
           s[n - 8..n - 5], s[n - 5], FromLe(s[n - 4..n]))
  }

  /** UFD */
  const SIGNATURE: seq<byte> := [0x55, 0x46, 0x44]
  const VENDOR: nat := 12346

  function WithSuffix(data: seq<byte>, pid: nat): (s: seq<byte>)
    ensures |s| == |data| + 12
  {
    data + (Le(0xFFFF, 2) + Le(pid, 2) + Le(VENDOR, 2) + Le(0x0100, 2) + SIGNATURE + [16])
  }

  /** Byte for byte. */
  lemma SuffixBytes(data: seq<byte>, pid: nat)
    requires pid < 0x1_0000
    ensures WithSuffix(data, pid)[|data|..]
         == [0xFF, 0xFF, pid % 256, pid / 256, 0x3A, 0x30, 0x00, 0x01, 0x55, 0x46, 0x44, 16]
  {
    LeTwo(0xFFFF);
    LeTwo(pid);
    LeTwo(VENDOR);
    LeTwo(0x0100);
  }

  lemma LeTwo(v: nat)
    requires v < 0x1_0000
    ensures Le(v, 2) == [v % 256, v / 256]
  {
    assert Le(v, 2) == [v % 256] + Le(v / 256, 1) && Le(v / 256, 1) == [v / 256 % 256] + Le(v / 256 / 256, 0);
  }

  lemma SuffixRoundTrip(data: seq<byte>, pid: nat, crc: Word)
    requires pid < 0x1_0000
    ensures ParseSuffix(WithSuffix(data, pid) + Le(crc, 4)) == Suffix(0xFFFF, pid, 0x303A, 0x0100, SIGNATURE, 16, crc)
  {
    hide Le, FromLe;
    assert Pow256(2) == 0x1_0000 && Pow256(4) == U32;
    LeRoundTrip(0xFFFF, 2);
    LeRoundTrip(pid, 2);
    LeRoundTrip(VENDOR, 2);
    LeRoundTrip(0x0100, 2);
    LeRoundTrip(crc, 4);
    var s := WithSuffix(data, pid) + Le(crc, 4);
    var n := |s|;
    assert s[n - 16..n - 14] == Le(0xFFFF, 2);
    assert s[n - 14..n - 12] == Le(pid, 2);
    assert s[n - 12..n - 10] == Le(VENDOR, 2);
    assert s[n - 10..n - 8] == Le(0x0100, 2);
    assert s[n - 8..n - 5] == SIGNATURE;
    assert s[n - 4..n] == Le(crc, 4);
  }

  // ---- The writer ----

  class DfuWriter {
    const pid: nat
    const part: int
    const md5: seq<byte> -> Digest
    const crc: seq<byte> -> Word
    var entries: seq<seq<byte>>
    var index: seq<Info>

    /** The flash entries added so far. */
    ghost var files: seq<File>

    /** Index records match the flash entries one for one. */
    ghost predicate Valid()
      reads this
    {
      && entries == Entries(files)
      && |index| == |files|
      && forall i :: 0 <= i < |files| ==> index[i] == InfoOf(files[i], index[i].address, index[i].flags, md5)
    }

    constructor (pid: nat, part: int, md5: seq<byte> -> Digest, crc: seq<byte> -> Word)
      ensures Valid() && files == [] && index == []
      ensures this.pid == pid && this.part == part && this.md5 == md5 && this.crc == crc
    {
      this.pid, this.part, this.md5, this.crc := pid, part, md5, crc;
      entries, index, files := [], [], [];
    }

    method AddCpioEntry(name: seq<byte>, data: seq<byte>, first: bool, trailer: bool)
      modifies this`entries
      ensures entries == if first then [Entry(name, data, trailer)] + old(entries)
                         else old(entries) + [Entry(name, data, trailer)]
    {
      var entry := Pad(Header(|name| + 1, |data|, trailer) + (name + [0]), 4) + Pad(data, 4);
      assert Header(|name| + 1, |data|, trailer) + (name + [0]) == Header(|name| + 1, |data|, trailer) + name + [0];
      if !first {
        entries := entries + [entry];
      } else {
        entries := [entry] + entries;
      }
    }

    method AddFlashEntry(name: seq<byte>, address: nat, data: seq<byte>, flags: nat)
      requires Valid()
      modifies this
      ensures Valid()
      ensures files == old(files) + [File(name, data)]
      ensures index == old(index) + [InfoOf(File(name, data), address, flags, md5)]
    {
      hide Entry;
      index := index + [Info(address, flags, name, md5(data))];
      AddCpioEntry(name, data, false, false);
      files := files + [File(name, data)];
      assert entries == Entries(files);
    }

    /** Adds a file in parts, each behind the one before it. */
    method AddFile(address: nat, name: seq<byte>, content: seq<byte>)
      requires Valid()
      modifies this
      ensures Valid()
      ensures files == old(files) + PartFiles(name, Chunks(content, part))
      ensures index == old(index) + PartInfos(name, address, Chunks(content, part), md5)
    {
      hide Decimal, InfoOf, Entries, Valid, PartFiles, PartInfos, PrefixLen, Chunks;
      ghost var all := Chunks(content, part);
      ghost var fs, infos := PartFiles(name, all), PartInfos(name, address, all, md5);
      NoPartsYet(all);
      var left, i, at := content, 0, address;
      while ReadLen(part, |left|) > 0
        invariant Valid()
        invariant i <= |all| && all[i..] == Chunks(left, part)
        invariant at == address + PrefixLen(all, i)
        invariant files == old(files) + fs[..i]
        invariant index == old(index) + infos[..i]
        decreases |left|
      {
        var n := ReadLen(part, |left|);
        var chunk := left[..n];
        NextChunk(all, i, left, part);
        PartFacts(name, address, all, md5, i);
        AddFlashEntry(if i == 0 then name else name + [0x2E] + Decimal(i), at, chunk, 0);
        NextPart(all, i);
        OneMorePart(fs, i);
        OneMorePart(infos, i);
        left, i, at := left[n..], i + 1, at + n;
      }
      LastChunk(all, i, left, part);
      assert fs[..i] == fs && infos[..i] == infos;
    }

    /** The archive of the index, the files and the trailer, padded to whole blocks. */
    method Combine(indexFile: seq<byte>) returns (data: seq<byte>)
      requires Valid()
      modifies this`entries
      ensures IsArchive(data, [File(INDEX_NAME, indexFile)] + files)
    {
      hide Entry, Decode, Readable, Pad, AllSized;
      ghost var all := [File(INDEX_NAME, indexFile)] + files;
      AddCpioEntry(INDEX_NAME, indexFile, true, false);
      assert entries == Entries(all);
      AddCpioEntry(TRAILER, [], false, true);
      data := Pad(Concat(entries), BLOCK_SIZE);
      forall tail ensures AllSized(all) ==> Decode(data + tail) == Some(Readable(all)) {
        ImageIsArchive(all, data, tail);
      }
      ImageIsArchive(all, data, []);
    }

    /** Writes the image, or fails where a field of the index or of the suffix does not fit. */
    method Finish() returns (out: Option<seq<byte>>)
      requires Valid()
      modifies this`entries
      ensures out.Some? <==> pid < 0x1_0000 && forall i :: 0 <= i < |index| ==> Packable(index[i])
      ensures out.Some? ==>
                var all := [File(INDEX_NAME, Concat(Records(index)))] + files;
                && |out.value| >= 16 && |out.value| % BLOCK_SIZE == 16
                && out.value[..|out.value| - 16] == Archive(all)
                && (AllSized(all) ==> Decode(out.value) == Some(Readable(all)))
                && ParseSuffix(out.value)
                   == Suffix(0xFFFF, pid, 0x303A, 0x0100, SIGNATURE, 16, crc(out.value[..|out.value| - 4]))
    {
      hide Decode, ParseSuffix, Readable, Records, Le, Valid, Concat, Packable, AllSized;
      hide IsArchive, WithSuffix, Archive;
      if exists i :: 0 <= i < |index| && !Packable(index[i]) {
        return None;
      }
      var data := Combine(Concat(Records(index)));
      if pid >= 0x1_0000 {
        return None;
      }
      var image := WithSuffix(data, pid);
      var check := crc(image);
      out := Some(image + Le(check, 4));
      WrittenImage(data, [File(INDEX_NAME, Concat(Records(index)))] + files, pid, check);
    }
  }

  /** The entries of the files and of the trailer, filled up with zeros. */
  function Archive(all: seq<File>): (s: seq<byte>) {
    Pad(Concat(Entries(all) + [Entry(TRAILER, [], true)]), BLOCK_SIZE)
  }

  /** Whole blocks that decode to the files, whatever is written behind them. */
  ghost predicate IsArchive(data: seq<byte>, all: seq<File>) {
    && |data| % BLOCK_SIZE == 0 && data == Archive(all)
    && (AllSized(all) ==> forall tail :: Decode(data + tail) == Some(Readable(all)))
  }

  lemma WrittenImage(data: seq<byte>, all: seq<File>, pid: nat, check: Word)
    requires IsArchive(data, all) && pid < 0x1_0000
    ensures var out := WithSuffix(data, pid) + Le(check, 4);
            && |out| % BLOCK_SIZE == 16 && out[..|out| - 4] == WithSuffix(data, pid)
            && out[..|out| - 16] == Archive(all)
            && (AllSized(all) ==> Decode(out) == Some(Readable(all)))
            && ParseSuffix(out) == Suffix(0xFFFF, pid, 0x303A, 0x0100, SIGNATURE, 16, check)
  {
    var out := WithSuffix(data, pid) + Le(check, 4);
    SuffixBehind(data, pid, Le(check, 4));
    ArchiveWith(data, all, out[|data|..]);
    SuffixRoundTrip(data, pid, check);
    hide Decode, ParseSuffix, Readable, Le, AllSized, WithSuffix, Archive, IsArchive;
  }

  lemma ArchiveWith(data: seq<byte>, all: seq<File>, tail: seq<byte>)
    requires IsArchive(data, all)
    ensures data == Archive(all) && (|data| + 16) % BLOCK_SIZE == 16
    ensures AllSized(all) ==> Decode(data + tail) == Some(Readable(all))
  {
    hide Decode, Readable, AllSized, Archive;
  }

  lemma SuffixBehind(data: seq<byte>, pid: nat, check: seq<byte>)
    requires |check| == 4
    ensures var out := WithSuffix(data, pid) + check;
            && |out| == |data| + 16 && out[..|out| - 4] == WithSuffix(data, pid)
            && out[..|data|] == data && out == data + out[|data|..]
  {
    hide Le;
  }

  lemma PadShape(b: seq<byte>, m: nat)
    requires m > 0
    ensures |Pad(b, m)| % m == 0 && |b| <= |Pad(b, m)| && Pad(b, m) == b + Pad(b, m)[|b|..]
  {
    RoundUpBounds(|b|, m);
  }

  /** The padded archive with anything behind it. */
  lemma ImageIsArchive(all: seq<File>, data: seq<byte>, tail: seq<byte>)
    requires data == Archive(all)
    ensures |data| % BLOCK_SIZE == 0
    ensures AllSized(all) ==> Decode(data + tail) == Some(Readable(all))
  {
    hide Entry, Decode, Pad, Readable;
    var end := Entry(TRAILER, [], true);
    var b := Concat(Entries(all) + [end]);
    ConcatSnoc(Entries(all), end);
    assert b == Concat(Entries(all)) + end;
    PadShape(b, BLOCK_SIZE);
    if AllSized(all) {
      var after := data[|b|..] + tail;
      ArchiveDecodes(all, after);
      assert data + tail == Concat(Entries(all)) + (end + after);
    }
  }

  lemma NoPartsYet(all: seq<seq<byte>>)
    ensures PrefixLen(all, 0) == 0 && all[0..] == all
  {
  }

  /** The next read finds the next part. */
  lemma NextChunk(all: seq<seq<byte>>, i: nat, left: seq<byte>, part: int)
    requires i <= |all| && all[i..] == Chunks(left, part) && ReadLen(part, |left|) > 0
    ensures var n := ReadLen(part, |left|);
            i < |all| && all[i] == left[..n] && all[i + 1..] == Chunks(left[n..], part)
  {
    var n := ReadLen(part, |left|);
    var rest := Chunks(left[n..], part);
    assert all[i..] == [left[..n]] + rest;
    assert all[i] == all[i..][0] && all[i + 1..] == all[i..][1..];
  }

  lemma LastChunk(all: seq<seq<byte>>, i: nat, left: seq<byte>, part: int)
    requires i <= |all| && all[i..] == Chunks(left, part) && ReadLen(part, |left|) == 0
    ensures i == |all|
  {
  }

  lemma PartFacts(name: seq<byte>, address: nat, all: seq<seq<byte>>, md5: seq<byte> -> Digest, i: nat)
    requires i < |all|
    ensures var f := File(if i == 0 then name else name + [0x2E] + Decimal(i), all[i]);
            && PartFiles(name, all)[i] == f
            && PartInfos(name, address, all, md5)[i] == InfoOf(f, address + PrefixLen(all, i), 0, md5)
  {
  }

  lemma OneMorePart<T>(s: seq<T>, i: nat)
    requires i < |s|
    ensures s[..i + 1] == s[..i] + [s[i]]
  {
  }

  lemma NextPart(all: seq<seq<byte>>, i: nat)
    requires i < |all|
    ensures PrefixLen(all, i + 1) == PrefixLen(all, i) + |all[i]|
  {
    ConcatNext(all, i);
  }

  // ---- The write command ----

  datatype Input = Input(address: nat, name: seq<byte>, content: seq<byte>)

  /** flash_params.dat */
  const PARAMS_NAME: seq<byte> :=
    [0x66, 0x6C, 0x61, 0x73, 0x68, 0x5F, 0x70, 0x61, 0x72, 0x61, 0x6D, 0x73, 0x2E, 0x64, 0x61, 0x74]

  function ParamsFile(chipSize: nat): (f: File) {
    File(PARAMS_NAME,
         Le(0, 4) + Le(0, 4) + Le(0, 4) + Le(chipSize, 4)
         + Le(0x1_0000, 4) + Le(0x1000, 4) + Le(256, 4) + Le(0xFFFF, 4))
  }

  /** The parameter, no-erase and ignore-digest flags. */
  const PARAMS_FLAGS: nat := 4 + 8 + 16

  function AllFiles(inputs: seq<Input>, part: int): (f: seq<File>) {
    if inputs == [] then []
    else
      var last := inputs[|inputs| - 1];
      AllFiles(inputs[..|inputs| - 1], part) + PartFiles(last.name, Chunks(last.content, part))
  }

  function AllInfos(inputs: seq<Input>, part: int, md5: seq<byte> -> Digest): (r: seq<Info>)
    ensures |r| == |AllFiles(inputs, part)|
  {
    if inputs == [] then []
    else
      var last := inputs[|inputs| - 1];
      AllInfos(inputs[..|inputs| - 1], part, md5) + PartInfos(last.name, last.address, Chunks(last.content, part), md5)
  }

  /** Everything the image describes: the flash parameters, then the parts of each file. */
  function ImageFiles(chipSize: nat, inputs: seq<Input>, part: int): (f: seq<File>) {
    [ParamsFile(chipSize)] + AllFiles(inputs, part)
  }

  function ImageIndex(chipSize: nat, inputs: seq<Input>, part: int, md5: seq<byte> -> Digest): (r: seq<Info>)
    ensures |r| == |ImageFiles(chipSize, inputs, part)|
  {
    [InfoOf(ParamsFile(chipSize), 0, PARAMS_FLAGS, md5)] + AllInfos(inputs, part, md5)
  }

  /** The members of the archive: the index file first. */
  function Members(chipSize: nat, inputs: seq<Input>, part: int, md5: seq<byte> -> Digest): (f: seq<File>)
    ensures |f| == |ImageFiles(chipSize, inputs, part)| + 1
  {
    [File(INDEX_NAME, Concat(Records(ImageIndex(chipSize, inputs, part, md5))))] + ImageFiles(chipSize, inputs, part)
  }

  method WriteImage(pid: nat, part: int, md5: seq<byte> -> Digest, crc: seq<byte> -> Word, chipSize: nat,
                    inputs: seq<Input>) returns (out: Option<seq<byte>>)
    ensures out.Some? <==>
            var index := ImageIndex(chipSize, inputs, part, md5);
            pid < 0x1_0000 && forall i :: 0 <= i < |index| ==> Packable(index[i])
    ensures out.Some? ==>
              var all := Members(chipSize, inputs, part, md5);
              && |out.value| >= 16 && |out.value| % BLOCK_SIZE == 16
              && out.value[..|out.value| - 16] == Archive(all)
              && (AllSized(all) ==> Decode(out.value) == Some(Readable(all)))
              && ParseSuffix(out.value)
                 == Suffix(0xFFFF, pid, 0x303A, 0x0100, SIGNATURE, 16, crc(out.value[..|out.value| - 4]))
    ensures out.Some? && part != 0 ==>
              var all := Members(chipSize, inputs, part, md5);
              AllSized(all) && NoTrailerName(all) ==> LoadsAs(out.value, inputs)
    ensures out.Some? ==>
              var all := Members(chipSize, inputs, part, md5);
              && (AllSized(all) && NoTrailerName(all) ==> Decode(out.value) == Some(all))
              && Describes(all, md5) && (chipSize < U32 ==> IsParams(all[1], chipSize))
  {
    hide Decode, ParseSuffix, Readable, Records, Concat, Packable, AllSized, Describes, IsParams;
    hide AllFiles, AllInfos, InfoOf, ParamsFile, DfuWriter.Valid;
    var writer := new DfuWriter(pid, part, md5, crc);
    AddFlashParams(writer, chipSize);
    AddFiles(writer, inputs);
    assert writer.files == ImageFiles(chipSize, inputs, part);
    assert writer.index == ImageIndex(chipSize, inputs, part, md5);
    out := writer.Finish();
    ReadableIffNoTrailerName(Members(chipSize, inputs, part, md5));
    if chipSize < U32 {
      ParamsReadBack(chipSize);
    }
    if out.Some? {
      ImageDescribes(chipSize, inputs, part, md5);
    }
    if out.Some? && part != 0 && AllSized(Members(chipSize, inputs, part, md5)) {
      DecodedLoads(out.value, chipSize, inputs, part, md5);
    }
  }

  method AddFiles(writer: DfuWriter, inputs: seq<Input>)
    requires writer.Valid()
    modifies writer
    ensures writer.Valid()
    ensures writer.files == old(writer.files) + AllFiles(inputs, writer.part)
    ensures writer.index == old(writer.index) + AllInfos(inputs, writer.part, writer.md5)
  {
    assert AllFiles(inputs[..0], writer.part) == [] && AllInfos(inputs[..0], writer.part, writer.md5) == [];
    hide Chunks, PartFiles, PartInfos, AllFiles, AllInfos, DfuWriter.Valid;
    for i := 0 to |inputs|
      invariant writer.Valid()
      invariant writer.files == old(writer.files) + AllFiles(inputs[..i], writer.part)
      invariant writer.index == old(writer.index) + AllInfos(inputs[..i], writer.part, writer.md5)
    {
      writer.AddFile(inputs[i].address, inputs[i].name, inputs[i].content);
      AllStep(inputs, writer.part, writer.md5, i, old(writer.files), old(writer.index));
    }
    assert inputs[..|inputs|] == inputs;
  }

  lemma AllStep(inputs: seq<Input>, part: int, md5: seq<byte> -> Digest, i: nat, fs: seq<File>, infos: seq<Info>)
    requires i < |inputs|
    ensures var f := inputs[i];
            && fs + AllFiles(inputs[..i + 1], part)
               == (fs + AllFiles(inputs[..i], part)) + PartFiles(f.name, Chunks(f.content, part))
            && infos + AllInfos(inputs[..i + 1], part, md5)
               == (infos + AllInfos(inputs[..i], part, md5))
                  + PartInfos(f.name, f.address, Chunks(f.content, part), md5)
  {
    hide Chunks, PartFiles, PartInfos;
    assert inputs[..i + 1][..i] == inputs[..i];
  }

  method AddFlashParams(writer: DfuWriter, chipSize: nat)
    requires writer.Valid()
    modifies writer
    ensures writer.Valid()
    ensures writer.files == old(writer.files) + [ParamsFile(chipSize)]
    ensures writer.index == old(writer.index) + [InfoOf(ParamsFile(chipSize), 0, PARAMS_FLAGS, writer.md5)]
  {
    writer.AddFlashEntry(PARAMS_NAME, 0, ParamsFile(chipSize).data, PARAMS_FLAGS);
  }

  // ---- What the image puts into flash ----

  type Flash = map<nat, byte>

  /** Programs the bytes one behind the other. */
  function Program(flash: Flash, address: nat, data: seq<byte>): (f: Flash) {
    if data == [] then flash
    else
      var n := |data| - 1;
      Program(flash, address, data[..n])[address + n := data[n]]
  }

  lemma {:induction false} ProgramAt(flash: Flash, address: nat, data: seq<byte>, a: nat)
    ensures var f := Program(flash, address, data);
            if address <= a < address + |data| then a in f && f[a] == data[a - address]
            else (a in f <==> a in flash) && (a in f ==> f[a] == flash[a])
    decreases |data|
  {
    if data != [] {
      ProgramAt(flash, address, data[..|data| - 1], a);
    }
  }

  /** A record with the parameter flag describes the chip and is not programmed. */
  function ProgramMember(flash: Flash, i: Info, data: seq<byte>): (f: Flash) {
    if i.flags / 4 % 2 == 1 then flash else Program(flash, i.address, data)
  }

  /** Programs the members where their records say, in order. */
  function ProgramAll(flash: Flash, index: seq<Info>, files: seq<File>): (f: Flash)
    requires |index| == |files|
  {
    if files == [] then flash
    else
      var n := |files| - 1;
      ProgramMember(ProgramAll(flash, index[..n], files[..n]), index[n], files[n].data)
  }

  lemma {:induction false} ProgramCat(flash: Flash, i1: seq<Info>, f1: seq<File>, i2: seq<Info>, f2: seq<File>)
    requires |i1| == |f1| && |i2| == |f2|
    ensures ProgramAll(flash, i1 + i2, f1 + f2) == ProgramAll(ProgramAll(flash, i1, f1), i2, f2)
    decreases |f2|
  {
    if f2 == [] {
      assert i1 + i2 == i1 && f1 + f2 == f1;
    } else {
      var n := |f2| - 1;
      ProgramSnoc(flash, i1 + i2, f1 + f2);
      ProgramSnoc(ProgramAll(flash, i1, f1), i2, f2);
      hide ProgramAll, ProgramMember;
      FrontOfCat(i1, i2);
      FrontOfCat(f1, f2);
      ProgramCat(flash, i1, f1, i2[..n], f2[..n]);
    }
  }

  lemma FrontOfCat<T>(a: seq<T>, b: seq<T>)
    requires b != []
    ensures var n := |a + b| - 1; (a + b)[..n] == a + b[..|b| - 1] && (a + b)[n] == b[|b| - 1]
  {
  }

  lemma ProgramSnoc(flash: Flash, index: seq<Info>, files: seq<File>)
    requires |index| == |files| > 0
    ensures var n := |files| - 1;
            ProgramAll(flash, index, files)
            == ProgramMember(ProgramAll(flash, index[..n], files[..n]), index[n], files[n].data)
  {
  }

  lemma ProgramNext(flash: Flash, index: seq<Info>, files: seq<File>, k: nat)
    requires k < |index| == |files|
    ensures ProgramAll(flash, index[..k + 1], files[..k + 1])
         == ProgramMember(ProgramAll(flash, index[..k], files[..k]), index[k], files[k].data)
  {
    assert index[..k + 1][..k] == index[..k] && files[..k + 1][..k] == files[..k];
  }

  lemma {:induction false} ProgramBehind(flash: Flash, address: nat, x: seq<byte>, y: seq<byte>)
    ensures Program(Program(flash, address, x), address + |x|, y) == Program(flash, address, x + y)
    decreases |y|
  {
    if y == [] {
      assert x + y == x;
    } else {
      var n := |y| - 1;
      assert (x + y)[..|x| + n] == x + y[..n];
      ProgramBehind(flash, address, x, y[..n]);
    }
  }

  lemma ProgramNothing(flash: Flash, address: nat, index: seq<Info>, files: seq<File>, chunks: seq<seq<byte>>)
    ensures ProgramAll(flash, index[..0], files[..0]) == flash && Program(flash, address, Concat(chunks[..0])) == flash
  {
  }

  lemma PartAt(name: seq<byte>, address: nat, chunks: seq<seq<byte>>, md5: seq<byte> -> Digest, k: nat)
    requires k < |chunks|
    ensures var i := PartInfos(name, address, chunks, md5)[k];
            i.address == address + |Concat(chunks[..k])| && i.flags == 0
    ensures PartFiles(name, chunks)[k].data == chunks[k]
  {
  }

  /** Programming the first `k` parts of a file programs that much of it. */
  lemma {:induction false} PartsProgram(flash: Flash, name: seq<byte>, address: nat, chunks: seq<seq<byte>>,
                                        md5: seq<byte> -> Digest, k: nat)
    requires k <= |chunks|
    ensures ProgramAll(flash, PartInfos(name, address, chunks, md5)[..k], PartFiles(name, chunks)[..k])
         == Program(flash, address, Concat(chunks[..k]))
    decreases k
  {
    hide Program, Concat, PartInfos, PartFiles, ProgramAll;
    var infos, files := PartInfos(name, address, chunks, md5), PartFiles(name, chunks);
    if k == 0 {
      ProgramNothing(flash, address, infos, files, chunks);
    } else {
      PartAt(name, address, chunks, md5, k - 1);
      PartsProgram(flash, name, address, chunks, md5, k - 1);
      ProgramNext(flash, infos, files, k - 1);
      ConcatNext(chunks, k - 1);
      ProgramBehind(flash, address, Concat(chunks[..k - 1]), chunks[k - 1]);
    }
  }

  /** The files programmed whole, in order. */
  function Wanted(flash: Flash, inputs: seq<Input>): (f: Flash) {
    if inputs == [] then flash
    else
      var last := inputs[|inputs| - 1];
      Program(Wanted(flash, inputs[..|inputs| - 1]), last.address, last.content)
  }

  lemma {:induction false} InputsProgram(flash: Flash, inputs: seq<Input>, part: int, md5: seq<byte> -> Digest)
    requires part != 0
    ensures ProgramAll(flash, AllInfos(inputs, part, md5), AllFiles(inputs, part)) == Wanted(flash, inputs)
    decreases |inputs|
  {
    if inputs != [] {
      var n := |inputs| - 1;
      var last := inputs[n];
      var chunks := Chunks(last.content, part);
      hide PartInfos, PartFiles, Chunks, Program;
      var infos, files := PartInfos(last.name, last.address, chunks, md5), PartFiles(last.name, chunks);
      InputsProgram(flash, inputs[..n], part, md5);
      ProgramCat(flash, AllInfos(inputs[..n], part, md5), AllFiles(inputs[..n], part), infos, files);
      PartsProgram(Wanted(flash, inputs[..n]), last.name, last.address, chunks, md5, |chunks|);
      assert infos[..|chunks|] == infos && files[..|chunks|] == files && chunks[..|chunks|] == chunks;
      ChunksReassembleIff(last.content, part);
    }
  }

  /** At each address, the last file that covers it decides. */
  lemma {:induction false} LastWriter(flash: Flash, inputs: seq<Input>, i: nat, a: nat)
    requires i < |inputs| && Covers(inputs[i], a) && forall j :: i < j < |inputs| ==> !Covers(inputs[j], a)
    ensures a in Wanted(flash, inputs) && Wanted(flash, inputs)[a] == inputs[i].content[a - inputs[i].address]
    decreases |inputs|
  {
    var n := |inputs| - 1;
    ProgramAt(Wanted(flash, inputs[..n]), inputs[n].address, inputs[n].content, a);
    if i < n {
      assert !Covers(inputs[n], a);
      LastWriter(flash, inputs[..n], i, a);
    }
  }

  predicate Covers(f: Input, a: nat) {
    f.address <= a < f.address + |f.content|
  }

  /** Record k of an index file, read back. */
  function RecordAt(indexFile: seq<byte>, k: nat): (i: Info)
    requires RECORD_SIZE * (k + 1) <= |indexFile|
  {
    ParseRecord(indexFile[RECORD_SIZE * k..RECORD_SIZE * (k + 1)])
  }

  /** The first `n` records of an index file. */
  function ReadIndex(indexFile: seq<byte>, n: nat): (r: seq<Info>)
    requires RECORD_SIZE * n <= |indexFile|
    ensures |r| == n
  {
    if n == 0 then [] else ReadIndex(indexFile, n - 1) + [RecordAt(indexFile, n - 1)]
  }

  lemma {:induction false} IndexReads(index: seq<Info>, files: seq<File>, flash: Flash, n: nat)
    requires n <= |index| == |files| && forall j :: 0 <= j < |index| ==> Packable(index[j])
    ensures |Concat(Records(index))| == RECORD_SIZE * |index|
    ensures ProgramAll(flash, ReadIndex(Concat(Records(index)), n), files[..n])
         == ProgramAll(flash, index[..n], files[..n])
    decreases n
  {
    hide Record, ParseRecord, Records, Program, Concat, ReadIndex, ProgramAll, Packable;
    IndexSize(index);
    var d := Concat(Records(index));
    if n == 0 {
      ReadNothing(d, index, files, flash);
    } else {
      IndexReads(index, files, flash, n - 1);
      ProgramNext(flash, index, files, n - 1);
      assert Packable(index[n - 1]);
      ReadOne(index, n - 1);
      ProgramReads(flash, ReadIndex(d, n), files, n - 1);
    }
  }

  lemma ReadNothing(d: seq<byte>, index: seq<Info>, files: seq<File>, flash: Flash)
    requires |index| == |files|
    ensures ProgramAll(flash, ReadIndex(d, 0), files[..0]) == ProgramAll(flash, index[..0], files[..0])
  {
  }

  lemma ProgramReads(flash: Flash, r: seq<Info>, files: seq<File>, k: nat)
    requires |r| == k + 1 <= |files|
    ensures ProgramAll(flash, r, files[..k + 1])
         == ProgramMember(ProgramAll(flash, r[..k], files[..k]), r[k], files[k].data)
  {
    assert files[..k + 1][..k] == files[..k];
  }

  lemma IndexSize(index: seq<Info>)
    ensures |Concat(Records(index))| == RECORD_SIZE * |index|
  {
    if |index| > 0 {
      hide Record, Records, Concat;
      IndexRecordAt(index, 0);
    } else {
      assert Records(index) == [];
    }
  }

  /** Reading record k gives what was written, but for the length of its name. */
  lemma ReadOne(index: seq<Info>, k: nat)
    requires k < |index| && Packable(index[k]) && |Concat(Records(index))| == RECORD_SIZE * |index|
    ensures var d := Concat(Records(index));
            var r := ReadIndex(d, k + 1);
            && r[..k] == ReadIndex(d, k)
            && r[k].address == index[k].address && r[k].flags == index[k].flags
  {
    hide Record, ParseRecord, Records, Concat, Packable;
    IndexRecordAt(index, k);
    RecordRoundTrip(index[k]);
    assert ReadIndex(Concat(Records(index)), k + 1)
        == ReadIndex(Concat(Records(index)), k) + [RecordAt(Concat(Records(index)), k)];
  }

  /** What a loader makes of the decoded members: it reads the index, and programs the others where it says. */
  function Load(flash: Flash, members: seq<File>): (f: Flash)
    requires members != [] && RECORD_SIZE * (|members| - 1) <= |members[0].data|
  {
    ProgramAll(flash, ReadIndex(members[0].data, |members| - 1), members[1..])
  }

  /** Loading the image leaves the flash as if every file had been programmed whole, at its address and in order. */
  lemma ImageLoads(flash: Flash, chipSize: nat, inputs: seq<Input>, part: int, md5: seq<byte> -> Digest)
    requires part != 0
    requires var index := ImageIndex(chipSize, inputs, part, md5);
             forall j :: 0 <= j < |index| ==> Packable(index[j])
    ensures var all := Members(chipSize, inputs, part, md5);
            RECORD_SIZE * (|all| - 1) <= |all[0].data| && Load(flash, all) == Wanted(flash, inputs)
  {
    hide AllFiles, AllInfos, ParamsFile, Packable, Records, ReadIndex, ProgramAll;
    var index, files := ImageIndex(chipSize, inputs, part, md5), ImageFiles(chipSize, inputs, part);
    IndexReads(index, files, flash, |index|);
    assert index[..|index|] == index && files[..|files|] == files;
    ParamsFirst(flash, chipSize, md5);
    ProgramCat(flash, [InfoOf(ParamsFile(chipSize), 0, PARAMS_FLAGS, md5)], [ParamsFile(chipSize)],
               AllInfos(inputs, part, md5), AllFiles(inputs, part));
    InputsProgram(flash, inputs, part, md5);
    assert Members(chipSize, inputs, part, md5)[1..] == files;
  }

  lemma ParamsFirst(flash: Flash, chipSize: nat, md5: seq<byte> -> Digest)
    ensures ProgramAll(flash, [InfoOf(ParamsFile(chipSize), 0, PARAMS_FLAGS, md5)], [ParamsFile(chipSize)]) == flash
  {
  }

  ghost predicate NoTrailerName(files: seq<File>) {
    forall i :: 0 <= i < |files| ==> files[i].name != TRAILER
  }

  /** Whoever decodes the image and loads its members ends up with every file in its place. */
  ghost predicate LoadsAs(image: seq<byte>, inputs: seq<Input>) {
    var members := Decode(image);
    && members.Some? && members.value != [] && RECORD_SIZE * (|members.value| - 1) <= |members.value[0].data|
    && forall flash :: Load(flash, members.value) == Wanted(flash, inputs)
  }

  /** From the written bytes to the flash. */
  lemma DecodedLoads(image: seq<byte>, chipSize: nat, inputs: seq<Input>, part: int, md5: seq<byte> -> Digest)
    requires part != 0 && Decode(image) == Some(Readable(Members(chipSize, inputs, part, md5)))
    requires var index := ImageIndex(chipSize, inputs, part, md5);
             forall j :: 0 <= j < |index| ==> Packable(index[j])
    ensures NoTrailerName(Members(chipSize, inputs, part, md5)) ==> LoadsAs(image, inputs)
  {
    hide Decode, Readable, Packable, Load, Wanted;
    var all := Members(chipSize, inputs, part, md5);
    ReadableIffNoTrailerName(all);
    forall flash
      ensures RECORD_SIZE * (|all| - 1) <= |all[0].data| && Load(flash, all) == Wanted(flash, inputs)
    {
      ImageLoads(flash, chipSize, inputs, part, md5);
    }
    ImageLoads(map[], chipSize, inputs, part, md5);
  }

  // ---- What the index says of the members ----

  /** The index is the first member, and its record of each other member holds the digest of the data, the name, and
      the flags: the parameters come first, and plain files behind them. */
  ghost predicate Describes(members: seq<File>, md5: seq<byte> -> Digest) {
    && members != [] && members[0].name == INDEX_NAME && RECORD_SIZE * (|members| - 1) == |members[0].data|
    && forall k :: 0 <= k < |members| - 1 ==> Described(RecordAt(members[0].data, k), members[k + 1], md5, k == 0)
  }

  predicate Described(r: Info, f: File, md5: seq<byte> -> Digest, params: bool) {
    && r.md5 == md5(f.data) && r.name == Field(f.name, 64)
    && r.flags == if params then 28 else 0
  }

  /** The parameters of the flash chip, in the order of `FlashParamsData`. */
  ghost predicate IsParams(f: File, chipSize: nat) {
    && f.name == PARAMS_NAME && |f.data| == 32
    && FromLe(f.data[0..4]) == 0 && FromLe(f.data[4..8]) == 0 && FromLe(f.data[8..12]) == 0
    && FromLe(f.data[12..16]) == chipSize && FromLe(f.data[16..20]) == 64 * 1024
    && FromLe(f.data[20..24]) == 4 * 1024 && FromLe(f.data[24..28]) == 256 && FromLe(f.data[28..32]) == 0xffff
  }

  lemma ParamsReadBack(chipSize: nat)
    requires chipSize < U32
    ensures IsParams(ParamsFile(chipSize), chipSize)
  {
    hide Le, FromLe;
    assert Pow256(2) == 0x1_0000 && Pow256(4) == U32;
    LeRoundTrip(0, 4);
    LeRoundTrip(chipSize, 4);
    LeRoundTrip(0x1_0000, 4);
    LeRoundTrip(0x1000, 4);
    LeRoundTrip(256, 4);
    LeRoundTrip(0xFFFF, 4);
    var d := ParamsFile(chipSize).data;
    assert d[0..4] == Le(0, 4) && d[4..8] == Le(0, 4) && d[8..12] == Le(0, 4) && d[12..16] == Le(chipSize, 4);
    assert d[16..20] == Le(0x1_0000, 4) && d[20..24] == Le(0x1000, 4);
    assert d[24..28] == Le(256, 4) && d[28..32] == Le(0xFFFF, 4);
  }

  lemma {:induction false} InfosDescribe(inputs: seq<Input>, part: int, md5: seq<byte> -> Digest, k: nat)
    requires k < |AllFiles(inputs, part)|
    ensures var i, f := AllInfos(inputs, part, md5)[k], AllFiles(inputs, part)[k];
            i.md5 == md5(f.data) && i.name == f.name && i.flags == 0
    decreases |inputs|
  {
    hide Chunks;
    var n := |inputs| - 1;
    if k < |AllFiles(inputs[..n], part)| {
      InfosDescribe(inputs[..n], part, md5, k);
    }
  }

  /** The archive describes itself. */
  lemma ImageDescribes(chipSize: nat, inputs: seq<Input>, part: int, md5: seq<byte> -> Digest)
    requires var index := ImageIndex(chipSize, inputs, part, md5);
             forall j :: 0 <= j < |index| ==> Packable(index[j])
    ensures Describes(Members(chipSize, inputs, part, md5), md5)
  {
    hide Record, ParseRecord, Records, Concat, Packable, AllFiles, AllInfos, ParamsFile;
    var index, all := ImageIndex(chipSize, inputs, part, md5), Members(chipSize, inputs, part, md5);
    IndexSize(index);
    forall k | 0 <= k < |all| - 1
      ensures RECORD_SIZE * (k + 1) <= |all[0].data|
      ensures Described(RecordAt(all[0].data, k), all[k + 1], md5, k == 0)
    {
      IndexRecordAt(index, k);
      RecordRoundTrip(index[k]);
      if k > 0 {
        InfosDescribe(inputs, part, md5, k - 1);
      }
    }
  }
}

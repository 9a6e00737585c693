/**
 * The sorted file of storage/sstable.go. RecBytes, IndexEntryBytes and Footer are its three
 * layouts; IndexOf says which keys the index has.
 */
module SSTable {
  import opened Bytes
  import opened Keys
  import Wal

  const MAGIC: nat := 0x5354414B564B5631

  const INDEX_EVERY: nat := 16

  const MAX_OFFSET: nat := 0x8000_0000_0000_0000

  datatype IndexEntry = IndexEntry(key: Bytes, offset: nat)

  // ---- The format ----

  function RecBytes(e: KV): (b: Bytes)
    ensures |b| == 9 + |e.key| + |e.value|
  {
    [if e.tombstone then 1 else 0] + U32(|e.key|) + U32(|e.value|) + e.key + e.value
  }

  function DataBytes(es: seq<KV>): Bytes {
    if es == [] then [] else DataBytes(es[..|es| - 1]) + RecBytes(es[|es| - 1])
  }

  function IndexEntryBytes(ie: IndexEntry): (b: Bytes)
    ensures |b| == 12 + |ie.key|
  {
    U32(|ie.key|) + ie.key + U64(ie.offset)
  }

  function IndexBytes(ix: seq<IndexEntry>): Bytes {
    if ix == [] then [] else IndexBytes(ix[..|ix| - 1]) + IndexEntryBytes(ix[|ix| - 1])
  }

  /** The index after the first n records: the key and offset of every 16th. */
  function IndexOf(es: seq<KV>, n: nat): seq<IndexEntry>
    requires n <= |es|
  {
    if n == 0 then []
    else if (n - 1) % INDEX_EVERY == 0
    then IndexOf(es, n - 1) + [IndexEntry(es[n - 1].key, |DataBytes(es[..n - 1])|)]
    else IndexOf(es, n - 1)
  }

  function Footer(crc: Wal.Crc, indexOff: nat, count: nat, ib: Bytes): (b: Bytes)
    ensures |b| == 24
  {
    U64(indexOff) + U32(count) + U32(crc(ib)) + U64(MAGIC)
  }

  function TableBytes(crc: Wal.Crc, es: seq<KV>): Bytes {
    var ix := IndexOf(es, |es|);
    DataBytes(es) + IndexBytes(ix) + Footer(crc, |DataBytes(es)|, |ix|, IndexBytes(ix))
  }

  /** Lengths fit their fields: keys and values in 32 bits, offsets in 63, the index count in 32. */
  ghost predicate Fits(es: seq<KV>) {
    && (forall k :: 0 <= k < |es| ==> |es[k].key| < MAX32 && |es[k].value| < MAX32)
    && |DataBytes(es)| < MAX_OFFSET
    && |IndexOf(es, |es|)| < MAX32
  }

  // ---- writeSSTable ----

  method WriteSSTable(crc: Wal.Crc, es: seq<KV>) returns (file: Bytes)
    ensures file == TableBytes(crc, es)
  {
    hide RecBytes, IndexEntryBytes, Footer, U32, U64;
    file := [];
    var off := 0;
    var index: seq<IndexEntry> := [];
    var i := 0;
    while i < |es|
      invariant 0 <= i <= |es|
      invariant file == DataBytes(es[..i]) && off == |file| && index == IndexOf(es, i)
    {
      assert es[..i + 1][..i] == es[..i];
      if i % INDEX_EVERY == 0 {
        index := index + [IndexEntry(es[i].key, off)];
      }
      file := file + RecBytes(es[i]);
      off := off + 9 + |es[i].key| + |es[i].value|;
      i := i + 1;
    }
    assert es[..i] == es;
    var indexOff := off;
    var ib: Bytes := [];
    i := 0;
    while i < |index|
      invariant 0 <= i <= |index| && ib == IndexBytes(index[..i])
    {
      assert index[..i + 1][..i] == index[..i];
      ib := ib + IndexEntryBytes(index[i]);
      i := i + 1;
    }
    assert index[..i] == index;
    file := file + ib + Footer(crc, indexOff, |index|, ib);
  }

  // ---- Reading records back ----

  function KLen(b: Bytes): nat requires |b| >= 9 { GetLE(b[1..5]) }

  function VLen(b: Bytes): nat requires |b| >= 9 { GetLE(b[5..9]) }

  /** A whole record at the start of b. */
  predicate HasRec(b: Bytes) {
    |b| >= 9 && 9 + KLen(b) + VLen(b) <= |b|
  }

  function RecOf(b: Bytes): KV
    requires HasRec(b)
  {
    KV(b[9..9 + KLen(b)], b[9 + KLen(b)..9 + KLen(b) + VLen(b)], b[0] % 2 == 1)
  }

  function AfterRec(b: Bytes): (r: Bytes)
    requires HasRec(b)
    ensures |r| < |b|
  {
    b[9 + KLen(b) + VLen(b)..]
  }

  lemma RecParses(e: KV, rest: Bytes)
    requires |e.key| < MAX32 && |e.value| < MAX32
    ensures var b := RecBytes(e) + rest; HasRec(b) && RecOf(b) == e && AfterRec(b) == rest
  {
    hide U32, GetLE;
    var b := RecBytes(e) + rest;
    U32Back(|e.key|);
    U32Back(|e.value|);
    assert b[1..5] == U32(|e.key|);
    assert b[5..9] == U32(|e.value|);
    assert b[9..9 + |e.key|] == e.key;
    assert b[9 + |e.key|..9 + |e.key| + |e.value|] == e.value;
    assert b[9 + |e.key| + |e.value|..] == rest;
  }

  lemma {:induction false} DataCons(es: seq<KV>)
    requires es != []
    ensures DataBytes(es) == RecBytes(es[0]) + DataBytes(es[1..])
  {
    hide RecBytes;
    var n := |es| - 1;
    if n == 0 {
      assert es[..0] == [] && es[1..] == [];
    } else {
      var last, mid := es[n], es[1..n];
      DataCons(es[..n]);
      assert es[..n][1..] == mid && es[1..][..n - 1] == mid && es[1..][n - 1] == last;
      assert DataBytes(es[1..]) == DataBytes(mid) + RecBytes(last);
      assert DataBytes(es) == DataBytes(es[..n]) + RecBytes(last);
    }
  }

  lemma {:induction false} DataSplit(es: seq<KV>, k: nat)
    requires k <= |es|
    ensures DataBytes(es) == DataBytes(es[..k]) + DataBytes(es[k..])
  {
    hide RecBytes;
    if k == |es| {
      assert es[..k] == es && es[k..] == [];
    } else {
      var n := |es| - 1;
      DataSplit(es[..n], k);
      assert es[..n][..k] == es[..k];
      assert es[k..][..n - k] == es[..n][k..];
      assert es[k..][n - k] == es[n];
    }
  }

  /** What a scan for a key meets: its entry, no entry, or a record cut short. */
  datatype Scan = Found(e: KV) | Missing | Torn

  /** The callback of get: stop at the key or at the first key above it. */
  function ScanFor(b: Bytes, key: Bytes): Scan
    decreases |b|
  {
    if |b| < 9 then Missing
    else if !HasRec(b) then Torn
    else if RecOf(b).key == key then Found(RecOf(b))
    else if Less(key, RecOf(b).key) then Missing
    else ScanFor(AfterRec(b), key)
  }

  ghost predicate Short(es: seq<KV>) {
    forall k :: 0 <= k < |es| ==> |es[k].key| < MAX32 && |es[k].value| < MAX32
  }

  lemma OrderedTail(es: seq<KV>, k: nat)
    requires Ordered(es) && k <= |es|
    ensures Ordered(es[k..])
  {
    forall a, b | 0 <= a < b < |es[k..]| ensures Before(es[k..], a, b) { assert Before(es, a + k, b + k); }
  }

  /** On sorted data, stopping at the first larger key loses nothing. */
  lemma {:induction false} ScanForData(es: seq<KV>, key: Bytes)
    requires Short(es) && Ordered(es)
    ensures ScanFor(DataBytes(es), key) == match Find(es, key) case Some(e) => Found(e) case None => Missing
  {
    if es != [] {
      hide RecBytes, HasRec, RecOf, AfterRec, Ordered;
      DataCons(es);
      RecParses(es[0], DataBytes(es[1..]));
      OrderedTail(es, 1);
      ScanForData(es[1..], key);
      if Less(key, es[0].key) { NothingBelowFirst(es, key); }
    }
  }

  lemma NothingBelowFirst(es: seq<KV>, key: Bytes)
    requires Ordered(es) && es != [] && Less(key, es[0].key)
    ensures Find(es, key) == None
  {
    FindIs(es, key);
    LessIrreflexive(key);
    forall k | 0 <= k < |es| ensures es[k].key != key {
      if k > 0 {
        assert Before(es, 0, k);
        LessTransitive(key, es[0].key, es[k].key);
      }
    }
  }

  // ---- The index ----

  lemma {:induction false} IndexLen(es: seq<KV>, n: nat)
    requires n <= |es|
    ensures |IndexOf(es, n)| == (n + 15) / 16
  {
    if n > 0 { IndexLen(es, n - 1); }
  }

  lemma {:induction false} IndexAt(es: seq<KV>, n: nat, k: nat)
    requires n <= |es| && k < |IndexOf(es, n)|
    ensures 16 * k < n && IndexOf(es, n)[k] == IndexEntry(es[16 * k].key, |DataBytes(es[..16 * k])|)
  {
    IndexLen(es, n);
    IndexLen(es, n - 1);
    if k < |IndexOf(es, n - 1)| { IndexAt(es, n - 1, k); }
  }

  /** The loop of openSSTable; none where the Go code would slice out of range. */
  function ParseIndex(ib: Bytes, count: nat): Option<seq<IndexEntry>> {
    if count == 0 then Some([])
    else if |ib| < 4 then None
    else
      var klen := GetLE(ib[..4]);
      if |ib| < 12 + klen then None
      else match ParseIndex(ib[12 + klen..], count - 1)
        case None => None
        case Some(ix) => Some([IndexEntry(ib[4..4 + klen], GetLE(ib[4 + klen..12 + klen]))] + ix)
  }

  lemma {:induction false} IndexCons(ix: seq<IndexEntry>)
    requires ix != []
    ensures IndexBytes(ix) == IndexEntryBytes(ix[0]) + IndexBytes(ix[1..])
  {
    hide IndexEntryBytes;
    var n := |ix| - 1;
    if n == 0 {
      assert ix[..0] == [] && ix[1..] == [];
    } else {
      var last, mid := ix[n], ix[1..n];
      IndexCons(ix[..n]);
      assert ix[..n][1..] == mid && ix[1..][..n - 1] == mid && ix[1..][n - 1] == last;
      assert IndexBytes(ix[1..]) == IndexBytes(mid) + IndexEntryBytes(last);
      assert IndexBytes(ix) == IndexBytes(ix[..n]) + IndexEntryBytes(last);
    }
  }

  ghost predicate ShortIndex(ix: seq<IndexEntry>) {
    forall k :: 0 <= k < |ix| ==> |ix[k].key| < MAX32 && ix[k].offset < MAX64
  }

  lemma {:induction false} IndexParses(ix: seq<IndexEntry>)
    requires ShortIndex(ix)
    ensures ParseIndex(IndexBytes(ix), |ix|) == Some(ix)
  {
    if ix != [] {
      hide U32, U64, GetLE;
      var ie, rest := ix[0], IndexBytes(ix[1..]);
      IndexCons(ix);
      var b := IndexEntryBytes(ie) + rest;
      U32Back(|ie.key|);
      U64Back(ie.offset);
      assert b[..4] == U32(|ie.key|);
      assert b[4..4 + |ie.key|] == ie.key;
      assert b[4 + |ie.key|..12 + |ie.key|] == U64(ie.offset);
      assert b[12 + |ie.key|..] == rest;
      IndexParses(ix[1..]);
      assert ix == [ie] + ix[1..];
    }
  }

  method ReadIndex(ib: Bytes, count: nat) returns (r: Option<seq<IndexEntry>>)
    ensures r == ParseIndex(ib, count)
  {
    hide GetLE;
    var index: seq<IndexEntry> := [];
    var b, i := ib, 0;
    PrependNone(ParseIndex(ib, count));
    while i < count
      invariant 0 <= i <= count
      invariant ParseIndex(ib, count) == Prepend(index, ParseIndex(b, count - i))
    {
      if |b| < 4 {
        return None;
      }
      var klen := GetLE(b[..4]);
      if |b| < 12 + klen {
        return None;
      }
      var ie := IndexEntry(b[4..4 + klen], GetLE(b[4 + klen..12 + klen]));
      var rest := b[12 + klen..];
      assert ParseIndex(b, count - i) == Prepend([ie], ParseIndex(rest, count - i - 1));
      PrependTwice(index, [ie], ParseIndex(rest, count - i - 1));
      index := index + [ie];
      b := rest;
      i := i + 1;
    }
    assert index + [] == index;
    r := Some(index);
  }

  lemma PrependNone(r: Option<seq<IndexEntry>>)
    ensures Prepend([], r) == r
  {
    if r.Some? { assert [] + r.value == r.value; }
  }

  function Prepend(a: seq<IndexEntry>, r: Option<seq<IndexEntry>>): Option<seq<IndexEntry>> {
    match r case None => None case Some(ix) => Some(a + ix)
  }

  lemma PrependTwice(a: seq<IndexEntry>, b: seq<IndexEntry>, r: Option<seq<IndexEntry>>)
    ensures Prepend(a, Prepend(b, r)) == Prepend(a + b, r)
  {
    if r.Some? { assert a + (b + r.value) == a + b + r.value; }
  }

  // ---- openSSTable ----

  /** An open table: immutable, like the file it stands for. */
  datatype Table = Table(file: Bytes, index: seq<IndexEntry>, minKey: Bytes, maxKey: Bytes)

  /**
   * NegativeOffset: the offset of the index is negative as a signed integer. Reading there is an error,
   * if the slice for it can be made at all.
   */
  datatype Open =
    Opened(table: Table) | TooSmall | BadMagic | NegativeOffset | BadChecksum | BadBlock | Panics

  /** The bytes between two offsets; nothing when they are out of order. */
  function Section(file: Bytes, lo: nat, hi: nat): Bytes {
    if lo <= hi <= |file| then file[lo..hi] else []
  }

  function IndexOffset(file: Bytes): nat
    requires |file| >= 24
  {
    GetLE(file[|file| - 24..|file| - 16])
  }

  /** The last key of a block, or none when a record is cut short. */
  function LastKey(b: Bytes, key: Bytes): Option<Bytes>
    decreases |b|
  {
    if |b| < 9 then Some(key) else if !HasRec(b) then None else LastKey(AfterRec(b), RecOf(b).key)
  }

  function OpenTable(crc: Wal.Crc, file: Bytes): Open {
    if |file| < 24 then TooSmall
    else
      var n := |file| - 24;
      if GetLE(file[n + 16..]) != MAGIC then BadMagic
      else if IndexOffset(file) >= MAX_OFFSET then NegativeOffset
      else if IndexOffset(file) > n then Panics
      else
        var ib := file[IndexOffset(file)..n];
        if U32(crc(ib)) != file[n + 12..n + 16] then BadChecksum
        else match ParseIndex(ib, GetLE(file[n + 8..n + 12]))
          case None => Panics
          case Some(ix) => WithKeys(file, ix)
  }

  /** The smallest key is the first of the index; the largest is found by scanning the last block. */
  function WithKeys(file: Bytes, ix: seq<IndexEntry>): Open
    requires |file| >= 24
  {
    if ix == [] then Opened(Table(file, ix, [], []))
    else match LastKey(Section(file, ix[|ix| - 1].offset, IndexOffset(file)), [])
      case None => BadBlock
      case Some(k) => Opened(Table(file, ix, ix[0].key, k))
  }

  method OpenSSTable(crc: Wal.Crc, file: Bytes) returns (r: Open)
    ensures r == OpenTable(crc, file)
  {
    hide U32, GetLE, ParseIndex, LastKey;
    if |file| < 24 {
      return TooSmall;
    }
    var n := |file| - 24;
    if GetLE(file[n + 16..]) != MAGIC {
      return BadMagic;
    }
    var indexOff := IndexOffset(file);
    var count := GetLE(file[n + 8..n + 12]);
    if indexOff >= MAX_OFFSET {
      return NegativeOffset;
    }
    if indexOff > n {
      return Panics;
    }
    var ib := file[indexOff..n];
    if U32(crc(ib)) != file[n + 12..n + 16] {
      return BadChecksum;
    }
    var index := ReadIndex(ib, count);
    if index.None? {
      return Panics;
    }
    if index.value == [] {
      return Opened(Table(file, [], [], []));
    }
    var last := ScanLastKey(Section(file, index.value[|index.value| - 1].offset, indexOff));
    if last.None? {
      return BadBlock;
    }
    r := Opened(Table(file, index.value, index.value[0].key, last.value));
  }

  method ScanLastKey(block: Bytes) returns (r: Option<Bytes>)
    ensures r == LastKey(block, [])
  {
    var b, key := block, [];
    while |b| >= 9
      invariant LastKey(block, []) == LastKey(b, key)
      decreases |b|
    {
      if !HasRec(b) {
        return None;
      }
      b, key := AfterRec(b), RecOf(b).key;
    }
    r := Some(key);
  }

  // ---- The round trip ----

  /** The table openSSTable returns for the file of a list. */
  function TableOf(crc: Wal.Crc, es: seq<KV>): Table {
    var ix := IndexOf(es, |es|);
    if es == [] then Table(TableBytes(crc, es), ix, [], [])
    else Table(TableBytes(crc, es), ix, es[0].key, es[|es| - 1].key)
  }

  lemma FooterParts(crc: Wal.Crc, a: Bytes, indexOff: nat, count: nat, ib: Bytes)
    requires indexOff < MAX64 && count < MAX32
    ensures var file := a + Footer(crc, indexOff, count, ib); var n := |file| - 24;
            && n == |a| && GetLE(file[n + 16..]) == MAGIC && GetLE(file[n..n + 8]) == indexOff
            && GetLE(file[n + 8..n + 12]) == count && file[n + 12..n + 16] == U32(crc(ib)) && file[..n] == a
  {
    hide U32, U64, GetLE;
    U64Back(indexOff);
    U32Back(count);
    U64Back(MAGIC);
    var file := a + Footer(crc, indexOff, count, ib);
    var n := |a|;
    assert file[n..n + 8] == U64(indexOff);
    assert file[n + 8..n + 12] == U32(count);
    assert file[n + 12..n + 16] == U32(crc(ib));
    assert file[n + 16..] == U64(MAGIC);
  }

  lemma {:induction false} LastKeyData(es: seq<KV>, key: Bytes)
    requires Short(es)
    ensures LastKey(DataBytes(es), key) == Some(if es == [] then key else es[|es| - 1].key)
  {
    if es != [] {
      hide RecBytes, HasRec, RecOf, AfterRec;
      DataCons(es);
      RecParses(es[0], DataBytes(es[1..]));
      LastKeyData(es[1..], es[0].key);
    }
  }

  lemma IndexShort(es: seq<KV>)
    requires Fits(es)
    ensures ShortIndex(IndexOf(es, |es|))
  {
    var ix := IndexOf(es, |es|);
    forall k | 0 <= k < |ix| ensures |ix[k].key| < MAX32 && ix[k].offset < MAX64 {
      IndexAt(es, |es|, k);
      DataSplit(es, 16 * k);
    }
  }

  /** The bytes from an index entry's offset to the index block are the records from its key on. */
  lemma BlockAt(crc: Wal.Crc, es: seq<KV>, k: nat)
    requires Fits(es) && k < |IndexOf(es, |es|)|
    ensures var file := TableBytes(crc, es);
            && 16 * k < |es| && |file| >= 24 && IndexOffset(file) == |DataBytes(es)|
            && Section(file, IndexOf(es, |es|)[k].offset, IndexOffset(file)) == DataBytes(es[16 * k..])
  {
    hide DataBytes, IndexBytes, Footer, IndexOf, GetLE;
    var ix := IndexOf(es, |es|);
    var data, ib := DataBytes(es), IndexBytes(ix);
    var file := TableBytes(crc, es);
    FooterParts(crc, data + ib, |data|, |ix|, ib);
    IndexAt(es, |es|, k);
    DataSplit(es, 16 * k);
    var off := |DataBytes(es[..16 * k])|;
    assert file[off..|data|] == data[off..];
  }

  /** Opening the file of a sorted list succeeds and finds its index, smallest and largest key. */
  lemma OpenWritten(crc: Wal.Crc, es: seq<KV>)
    requires Fits(es)
    ensures OpenTable(crc, TableBytes(crc, es)) == Opened(TableOf(crc, es))
  {
    hide DataBytes, IndexBytes, Footer, IndexOf, GetLE, U32, ParseIndex, LastKey, Section;
    var ix := IndexOf(es, |es|);
    var data, ib := DataBytes(es), IndexBytes(ix);
    var file := TableBytes(crc, es);
    FooterParts(crc, data + ib, |data|, |ix|, ib);
    assert file[|data|..|file| - 24] == ib;
    IndexShort(es);
    IndexParses(ix);
    IndexLen(es, |es|);
    if es != [] {
      var k := |ix| - 1;
      BlockAt(crc, es, k);
      IndexAt(es, |es|, 0);
      LastKeyData(es[16 * k..], []);
    }
  }

  // ---- get and all ----

  /** The table of a sorted list, as openSSTable returns it. */
  ghost predicate IsTable(crc: Wal.Crc, t: Table, es: seq<KV>) {
    Fits(es) && Ordered(es) && t == TableOf(crc, es)
  }

  /** sort.Search: the first index entry with a key above the one sought. */
  method SearchIndex(index: seq<IndexEntry>, key: Bytes) returns (i: nat)
    requires forall a, b :: 0 <= a < b < |index| ==> Less(index[a].key, index[b].key)
    ensures i <= |index|
    ensures forall a :: 0 <= a < i ==> !Less(key, index[a].key)
    ensures forall a :: i <= a < |index| ==> Less(key, index[a].key)
  {
    i := 0;
    var j := |index|;
    while i < j
      invariant 0 <= i <= j <= |index|
      invariant forall a :: 0 <= a < i ==> !Less(key, index[a].key)
      invariant forall a :: j <= a < |index| ==> Less(key, index[a].key)
    {
      var h := (i + j) / 2;
      if !Less(key, index[h].key) {
        forall a | 0 <= a < h + 1 ensures !Less(key, index[a].key) {
          if a < h && Less(key, index[a].key) { LessTransitive(key, index[a].key, index[h].key); }
        }
        i := h + 1;
      } else {
        forall a | h <= a < |index| ensures Less(key, index[a].key) {
          if h < a { LessTransitive(key, index[h].key, index[a].key); }
        }
        j := h;
      }
    }
  }

  lemma IndexOrdered(es: seq<KV>)
    requires Ordered(es)
    ensures var ix := IndexOf(es, |es|);
            forall a, b :: 0 <= a < b < |ix| ==> Less(ix[a].key, ix[b].key)
  {
    var ix := IndexOf(es, |es|);
    forall a, b | 0 <= a < b < |ix| ensures Less(ix[a].key, ix[b].key) {
      IndexAt(es, |es|, a);
      IndexAt(es, |es|, b);
      assert Before(es, 16 * a, 16 * b);
    }
  }

  /** Keys outside the table's range are not in it. */
  lemma OutOfRange(es: seq<KV>, key: Bytes)
    requires Ordered(es) && es != [] && (Less(key, es[0].key) || Less(es[|es| - 1].key, key))
    ensures Find(es, key) == None
  {
    if Less(key, es[0].key) {
      NothingBelowFirst(es, key);
    } else {
      FindIs(es, key);
      LessIrreflexive(key);
      forall k | 0 <= k < |es| ensures es[k].key != key {
        if k < |es| - 1 {
          assert Before(es, k, |es| - 1);
          if es[k].key == key { LessTransitive(key, es[|es| - 1].key, key); }
        }
      }
    }
  }

  lemma {:induction false} FindInTail(es: seq<KV>, key: Bytes, k: nat)
    requires k <= |es| && forall a :: 0 <= a < k ==> es[a].key != key
    ensures Find(es, key) == Find(es[k..], key)
  {
    if k == 0 {
      assert es[0..] == es;
    } else {
      FindInTail(es[1..], key, k - 1);
      assert es[1..][k - 1..] == es[k..];
    }
  }

  /** Starting at the last indexed key not above the target skips nothing that matters. */
  lemma SkipBlocks(es: seq<KV>, key: Bytes, k: nat)
    requires Ordered(es) && k < |es| && !Less(key, es[k].key)
    ensures Find(es, key) == Find(es[k..], key)
  {
    forall a | 0 <= a < k ensures es[a].key != key { assert Before(es, a, k); }
    FindInTail(es, key, k);
  }

  /** The range filter, the binary search on every 16th key and the forward scan find what linear search does. */
  method Get(crc: Wal.Crc, t: Table, ghost es: seq<KV>, key: Bytes) returns (r: Scan)
    requires IsTable(crc, t, es)
    ensures r == match Find(es, key) case Some(e) => Found(e) case None => Missing
  {
    hide DataBytes, Ordered, Find, IndexOf, TableBytes, Section, ScanFor, HasRec, RecOf, AfterRec, GetLE;
    IndexLen(es, |es|);
    EmptyHasNothing(es, key);
    if |t.index| == 0 || Less(key, t.minKey) || Less(t.maxKey, key) {
      if es != [] { OutOfRange(es, key); }
      return Missing;
    }
    IndexOrdered(es);
    var i := SearchIndex(t.index, key);
    if i == 0 {
      IndexAt(es, |es|, 0);
      assert false;
    }
    i := i - 1;
    IndexAt(es, |es|, i);
    BlockAt(crc, es, i);
    SkipBlocks(es, key, 16 * i);
    OrderedTail(es, 16 * i);
    ScanForData(es[16 * i..], key);
    r := ScanBlockFor(Section(t.file, t.index[i].offset, IndexOffset(t.file)), key);
  }

  lemma EmptyHasNothing(es: seq<KV>, key: Bytes)
    ensures es == [] ==> Find(es, key) == None
  {
  }

  method ScanBlockFor(block: Bytes, key: Bytes) returns (r: Scan)
    ensures r == ScanFor(block, key)
  {
    var b := block;
    while |b| >= 9
      invariant ScanFor(block, key) == ScanFor(b, key)
      decreases |b|
    {
      if !HasRec(b) {
        return Torn;
      }
      var e := RecOf(b);
      if e.key == key {
        return Found(e);
      }
      if Less(key, e.key) {
        return Missing;
      }
      b := AfterRec(b);
    }
    r := Missing;
  }

  /** Every entry of the table, in order. */
  method All(crc: Wal.Crc, t: Table, ghost es: seq<KV>) returns (out: seq<KV>)
    requires IsTable(crc, t, es)
    ensures out == es
  {
    hide Ordered, IndexOf, TableBytes, HasRec, RecOf, AfterRec, RecBytes;
    DataBlock(crc, es);
    var b := Section(t.file, 0, IndexOffset(t.file));
    ghost var k := 0;
    out := [];
    assert es[0..] == es;
    while |b| >= 9
      invariant 0 <= k <= |es| && out == es[..k] && b == DataBytes(es[k..])
      decreases |b|
    {
      DataCons(es[k..]);
      assert es[k..][1..] == es[k + 1..];
      RecParses(es[k], DataBytes(es[k + 1..]));
      out := out + [RecOf(b)];
      b := AfterRec(b);
      k := k + 1;
    }
    DataLong(es[k..]);
  }

  lemma DataLong(es: seq<KV>)
    ensures es != [] ==> |DataBytes(es)| >= 9
  {
    hide RecBytes;
  }

  lemma DataBlock(crc: Wal.Crc, es: seq<KV>)
    requires Fits(es)
    ensures var file := TableBytes(crc, es);
            |file| >= 24 && Section(file, 0, IndexOffset(file)) == DataBytes(es)
  {
    hide DataBytes, IndexBytes, Footer, IndexOf, GetLE;
    var ix := IndexOf(es, |es|);
    var data, ib := DataBytes(es), IndexBytes(ix);
    FooterParts(crc, data + ib, |data|, |ix|, ib);
    assert TableBytes(crc, es)[0..|data|] == data;
  }
}

/** What the history file on disk is worth: after every operation, after a clean close
    and after a crash at any point in between. */
module Recovery {
  import opened Samples
  import opened Bytes
  import opened Layout
  import opened Rings
  import opened Mirror
  import Registry

  // ------------------------------------------------------ one operation

  lemma {:induction false} SameHeader(a: Image, b: Image)
    requires HEADER_SIZE <= |a| && HEADER_SIZE <= |b| && a[..HEADER_SIZE] == b[..HEADER_SIZE]
    ensures DecodeHeader(a) == DecodeHeader(b)
  {
    var c := a[..HEADER_SIZE];
    assert a[0..8] == c[0..8] && a[8..12] == c[8..12] && a[12..16] == c[12..16] && a[16..20] == c[16..20];
    assert b[0..8] == c[0..8] && b[8..12] == c[8..12] && b[12..16] == c[12..16] && b[16..20] == c[16..20];
    assert a[20..24] == c[20..24] && a[24..28] == c[24..28] && a[28..32] == c[28..32];
    assert b[20..24] == c[20..24] && b[24..28] == c[24..28] && b[28..32] == c[28..32];
  }

  lemma {:induction false} LaidOutImage(image: Image, ids: seq<string>, h: Header)
    requires Fits(h.nMetrics, h.capacity, h.interval, ids) && h.head == 0 && h.count == 0
    ensures var withIds := Splice(image, HEADER_BYTES, EncodeIds(ids));
            LaidOut(Resize(Splice(withIds, 0, EncodeHeader(h)), FileBytes(h.nMetrics, h.capacity)), ids, h)
  {
    var withIds := Splice(image, HEADER_BYTES, EncodeIds(ids));
    var withHeader := Splice(withIds, 0, EncodeHeader(h));
    var end := RecordsOffset(h.nMetrics);
    var final := Resize(withHeader, FileBytes(h.nMetrics, h.capacity));
    assert withIds[HEADER_BYTES..end] == EncodeIds(ids);
    SpliceElsewhere(withIds, 0, EncodeHeader(h), HEADER_BYTES, end);
    SlotInside(h.nMetrics, h.capacity, 0);
    assert final[HEADER_BYTES..end] == withHeader[HEADER_BYTES..end];
    assert withHeader[0..HEADER_SIZE] == EncodeHeader(h);
    assert final[..HEADER_SIZE] == withHeader[0..HEADER_SIZE];
    DecodeEncodeHeader(final, h);
  }

  lemma {:induction false} TracksEmpty<T>(r: Ring<T>)
    requires |r.slots| > 0 && r.head == 0 && r.count == 0
    ensures Tracks(r, 0, [], [])
  {
    TracksFlush(r);
  }

  /** Laying the file out, whatever it held before, starts an empty mirror. */
  lemma {:induction false} InitialiseMirrors(p: State, ids: seq<string>)
    requires Fits(p.n, p.capacity, p.interval, ids)
    ensures Mirrors(Initialise(p, ids), ids, [], [])
  {
    var h := Header(p.n, p.capacity, p.interval, 0, 0);
    LaidOutImage(p.image, ids, h);
    var q := Initialise(p, ids);
    assert LaidOut(q.image, ids, h) by {
      assert HeaderOf(p.(head := 0, count := 0)) == h;
    }
    TracksEmpty(FileRing(q));
  }

  /** A header write keeps the layout, the ids and the slots, and brings the index up to date. */
  lemma {:induction false} HeaderWriteKeepsLayout(image: Image, ids: seq<string>, before: Header, h: Header)
    requires LaidOut(image, ids, before) && h == before.(head := h.head, count := h.count)
    requires h.head < h.capacity && h.count <= h.capacity
    ensures var w := Splice(image, 0, EncodeHeader(h));
            LaidOut(w, ids, h) &&
            Slots(w, h.nMetrics, h.capacity) == Slots(image, h.nMetrics, h.capacity)
  {
    HeaderWrite(image, h.nMetrics, h.capacity, h);
  }

  /** A record write keeps the layout, the ids and the index on disk. */
  lemma {:induction false} RecordWriteKeepsLayout(image: Image, ids: seq<string>, h: Header, slot: nat, x: Sample)
    requires LaidOut(image, ids, h) && slot < h.capacity && |x.row| == h.nMetrics && IsInt64(x.ts)
    ensures var w := Splice(image, SlotOffset(h.nMetrics, slot), EncodeRecord(x));
            LaidOut(w, ids, h) &&
            Slots(w, h.nMetrics, h.capacity) == Slots(image, h.nMetrics, h.capacity)[slot := x]
  {
    var w := Splice(image, SlotOffset(h.nMetrics, slot), EncodeRecord(x));
    var end := RecordsOffset(h.nMetrics);
    RecordWrite(image, h.nMetrics, h.capacity, slot, x);
    assert w[..HEADER_SIZE] == w[..end][..HEADER_SIZE];
    assert image[..HEADER_SIZE] == image[..end][..HEADER_SIZE];
    SameHeader(image, w);
    assert w[HEADER_BYTES..end] == w[..end][HEADER_BYTES..];
    assert image[HEADER_BYTES..end] == image[..end][HEADER_BYTES..];
  }

  /** Writing the header makes everything appended so far flushed. */
  lemma {:induction false} WriteHeaderMirrors(p: State, ids: seq<string>)
    requires p.owns
    requires var h := DiskHeader(p.image);
             h == Header(p.n, p.capacity, p.interval, h.head, h.count) && LaidOut(p.image, ids, h)
    requires Valid(FileRing(p))
    ensures var q := WriteHeader(p);
            Mirrors(q, ids, Denote(FileRing(p)), []) && FileRing(q) == FileRing(p)
  {
    HeaderWriteKeepsLayout(p.image, ids, DiskHeader(p.image), HeaderOf(p));
    TracksFlush(FileRing(p));
  }

  lemma {:induction false} WriteRecordMirrors(
    p: State, ids: seq<string>, flushed: seq<Sample>, pending: seq<Sample>, x: Sample)
    requires Mirrors(p, ids, flushed, pending) && |x.row| == p.n && IsInt64(x.ts)
    ensures var q, h := WriteRecord(p, x), DiskHeader(p.image);
            LaidOut(q.image, ids, h) && Tracks(FileRing(q), h.head, flushed, pending + [x])
  {
    hide Denote, Recovered, LastN, EncodeRecord, DecodeHeader;
    var h := DiskHeader(p.image);
    RecordWriteKeepsLayout(p.image, ids, h, p.head, x);
    TracksAppend(FileRing(p), h.head, flushed, pending, x);
    assert FileRing(WriteRecord(p, x)) == Rings.Append(FileRing(p), x);
  }

  /** An append is pending until the sixtieth, which flushes them all. */
  lemma {:induction false} AppendMirrors(
    p: State, ids: seq<string>, flushed: seq<Sample>, pending: seq<Sample>, x: Sample)
    requires Mirrors(p, ids, flushed, pending) && |x.row| == p.n && IsInt64(x.ts)
    ensures var q := AppendRecord(p, x);
            if |pending| + 1 < 60
            then Mirrors(q, ids, flushed, pending + [x])
            else Mirrors(q, ids, LastN(flushed + pending + [x], p.capacity), [])
  {
    hide Recovered, EncodeRecord, EncodeHeader, Splice, Slots, LastN;
    WriteRecordMirrors(p, ids, flushed, pending, x);
    if |pending| + 1 >= 60 {
      assert flushed + (pending + [x]) == flushed + pending + [x];
      WriteHeaderMirrors(WriteRecord(p, x), ids);
    }
  }

  // ------------------------------------------------------------- loading

  /** 32 bits are enough for a sum below 2^32. */
  lemma {:induction false} WrapsNowhere(sum: nat, capacity: nat)
    requires capacity > 0 && sum < TWO32
    ensures sum % TWO32 % capacity == sum % capacity
  {
    SmallMod(sum, TWO32);
  }

  lemma {:induction false} StartInSource(h: Header)
    requires 0 < h.capacity < TWO32 / 2 && h.head < h.capacity && h.count <= h.capacity
    ensures (h.head + h.capacity - h.count) % TWO32 % h.capacity == Start(h.head, h.count, h.capacity)
  {
    WrapsNowhere(h.head + h.capacity - h.count, h.capacity);
  }

  /** On a file of ours the load walks the ring the header describes. */
  lemma {:induction false} LoadSlotIsRingSlot(h: Header, i: nat)
    requires 0 < h.capacity < TWO32 / 2 && h.head < h.capacity && h.count <= h.capacity && i < h.count
    ensures LoadSlot(h, i) == SlotOf(h.head, h.count, h.capacity, i)
  {
    hide Start;
    StartInSource(h);
    WrapsNowhere(Start(h.head, h.count, h.capacity) + i, h.capacity);
  }

  /** A file long enough for the records that its header speaks of. */
  ghost predicate Framed(image: Image, h: Header)
  {
    0 < h.capacity < TWO32 / 2 && h.head < h.capacity && h.count <= h.capacity &&
    FileBytes(h.nMetrics, h.capacity) <= |image|
  }

  /** The entries a header's index covers. */
  ghost function Indexed(image: Image, h: Header): (held: seq<Sample>)
    requires Framed(image, h)
  {
    Denote(Ring(Slots(image, h.nMetrics, h.capacity), h.head, h.count))
  }

  /** Samples without a positive time are not restored. */
  function Timed(xs: seq<Sample>): (ys: seq<Sample>)
    ensures forall y :: y in ys ==> y in xs && y.ts > 0
    decreases |xs|
  {
    if xs == [] then [] else (if xs[0].ts > 0 then [xs[0]] else []) + Timed(xs[1..])
  }

  lemma {:induction false} DatedIsTimed(xs: seq<Sample>)
    requires Dated(xs)
    ensures Timed(xs) == xs
    decreases |xs|
  {
    if xs != [] {
      DatedIsTimed(xs[1..]);
      assert xs == [xs[0]] + xs[1..];
    }
  }

  lemma {:induction false} TimedRows(xs: seq<Sample>, n: nat)
    requires Rows(xs, n)
    ensures Rows(Timed(xs), n)
  {
    forall i | 0 <= i < |Timed(xs)| ensures |Timed(xs)[i].row| == n {
      assert Timed(xs)[i] in xs;
    }
  }

  /** One step of the load restores the entry the index puts there, if it has a time. */
  lemma {:induction false} LoadStep(image: Image, h: Header, saved: seq<string>, current: seq<string>, i: nat)
    requires Framed(image, h) && |saved| == h.nMetrics && i < h.count
    ensures |Indexed(image, h)| == h.count
    ensures var x, rest := Indexed(image, h)[i], LoadFrom(image, h, saved, current, i + 1);
            |x.row| == |saved| &&
            LoadFrom(image, h, saved, current, i) == if x.ts > 0 then [Remap(x, saved, current)] + rest else rest
  {
    LoadSlotIsRingSlot(h, i);
    var slot := LoadSlot(h, i);
    SlotInside(h.nMetrics, h.capacity, slot);
    assert Slots(image, h.nMetrics, h.capacity)[slot]
        == DecodeRecord(SlotBytes(image, h.nMetrics, h.capacity, slot), h.nMetrics);
  }

  lemma {:induction false} RemapAllCons(x: Sample, xs: seq<Sample>, ids: seq<string>, current: seq<string>)
    requires |x.row| == |ids| && Rows(xs, |ids|)
    ensures RemapAll([x] + xs, ids, current) == [Remap(x, ids, current)] + RemapAll(xs, ids, current)
  {
  }

  lemma {:induction false} LoadFromReadsIndex(
    image: Image, h: Header, saved: seq<string>, current: seq<string>, held: seq<Sample>, i: nat)
    requires Framed(image, h) && |saved| == h.nMetrics && i <= h.count
    requires held == Indexed(image, h) && |held| == h.count && Rows(held, |saved|)
    ensures Rows(Timed(held[i..]), |saved|)
    ensures LoadFrom(image, h, saved, current, i) == RemapAll(Timed(held[i..]), saved, current)
    decreases h.count - i
  {
    TimedRows(held[i..], |saved|);
    if i < h.count {
      var x, rest := held[i], held[i + 1..];
      assert held[i..][0] == x && held[i..][1..] == rest;
      assert Timed(held[i..]) == if x.ts > 0 then [x] + Timed(rest) else Timed(rest);
      hide LoadFrom, Framed, Scatter, Indexed, Remap, Timed;
      LoadFromReadsIndex(image, h, saved, current, held, i + 1);
      LoadStep(image, h, saved, current, i);
      RemapAllCons(x, Timed(rest), saved, current);
    }
  }

  lemma {:induction false} IndexedRows(image: Image, h: Header)
    requires Framed(image, h)
    ensures |Indexed(image, h)| == h.count && Rows(Indexed(image, h), h.nMetrics)
  {
    forall i | 0 <= i < h.count ensures |Indexed(image, h)| == h.count && |Indexed(image, h)[i].row| == h.nMetrics {
      LoadStep(image, h, seq(h.nMetrics, _ => ""), [], i);
    }
  }

  /** A file of ours gives back exactly what its header's index covers, by id. */
  lemma {:induction false} LoadReadsIndex(image: Image, ids: seq<string>, h: Header, current: seq<string>)
    requires LaidOut(image, ids, h)
    requires Dated(Denote(Ring(Slots(image, h.nMetrics, h.capacity), h.head, h.count)))
    ensures var held := Denote(Ring(Slots(image, h.nMetrics, h.capacity), h.head, h.count));
            Rows(held, |ids|) && Load(image, h.interval, current) == RemapAll(held, ids, current)
  {
    var held := Indexed(image, h);
    var saved := SavedIds(image, h.nMetrics);
    forall i | 0 <= i < |ids| ensures saved[i] == ids[i] {
      DecodeEncodeIds(ids, i);
    }
    assert saved == ids;
    IndexedRows(image, h);
    assert held[0..] == held;
    DatedIsTimed(held);
    LoadFromReadsIndex(image, h, ids, current, held, 0);
  }

  /** At any moment the bytes on disk load as the stale view of the two lists. */
  lemma {:induction false} LoadMirrored(
    p: State, ids: seq<string>, flushed: seq<Sample>, pending: seq<Sample>, current: seq<string>)
    requires Mirrors(p, ids, flushed, pending)
    requires Dated(flushed) && Dated(pending)
    ensures Rows(Recovered(flushed, pending, p.capacity), |ids|)
    ensures Load(p.image, p.interval, current) == RemapAll(Recovered(flushed, pending, p.capacity), ids, current)
  {
    LoadReadsIndex(p.image, ids, DiskHeader(p.image), current);
  }

  // ---------------------------------------------------- the bytes on disk

  /** Where a reader of the file finds everything, in numbers: recordings made by other
      versions of the program stay readable. */
  lemma {:induction false} LaidOutOnDisk(image: Image, ids: seq<string>, h: Header)
    requires LaidOut(image, ids, h)
    ensures |image| == 4096 + 64 * |ids| + h.capacity * (8 + 4 * |ids|)
    ensures image[0..8] == [Raw(65), Raw(88), Raw(77), Raw(69), Raw(84), Raw(82), Raw(73), Raw(67)]
    ensures DecodeLE(image[8..12]) == 1 && DecodeLE(image[12..16]) == |ids| && DecodeLE(image[16..20]) == h.capacity
    ensures DecodeLE(image[20..24]) == h.interval && DecodeLE(image[24..28]) == h.head
    ensures DecodeLE(image[28..32]) == h.count
  {
  }

  /** Each id fills 64 bytes from offset 4096 on: its letters, then a zero. */
  lemma {:induction false} IdOnDisk(image: Image, ids: seq<string>, h: Header, i: nat)
    requires LaidOut(image, ids, h) && i < |ids|
    ensures 4096 + 64 * i + |ids[i]| < 4096 + 64 * |ids| <= |image| && IsText(ids[i])
    ensures forall k :: 0 <= k < |ids[i]| ==> image[4096 + 64 * i + k] == Raw(ids[i][k] as int)
    ensures image[4096 + 64 * i + |ids[i]|] == Raw(0)
  {
    var table := EncodeIds(ids);
    LaidOutOnDisk(image, ids, h);
    EncodeIdsAt(ids, i);
    EntryOfId(ids[i]);
    assert image[4096..4096 + 64 * |ids|] == table;
    hide LaidOut, EncodeIds, EncodeId, DecodeLE;
    EntryInPlace(image, table, EncodeId(ids[i]), 64 * i);
  }

  lemma {:induction false} EntryOfId(id: string)
    requires IsText(id) && |id| < 64
    ensures var e := EncodeId(id);
            (forall k :: 0 <= k < |id| ==> e[k] == Raw(id[k] as int)) && e[|id|] == Raw(0)
  {
  }

  lemma {:induction false} EntryInPlace(image: Image, table: Image, entry: Image, o: nat)
    requires 4096 + |table| <= |image| && image[4096..4096 + |table|] == table
    requires o + |entry| <= |table| && table[o..o + |entry|] == entry
    ensures forall k :: 0 <= k < |entry| ==> image[4096 + o + k] == entry[k]
  {
    forall k | 0 <= k < |entry| ensures image[4096 + o + k] == entry[k] {
      assert entry[k] == table[o + k];
      assert table[o + k] == image[4096 + (o + k)];
    }
  }

  /** Each record is its time in eight bytes, low byte first, and four bytes a reading. */
  lemma {:induction false} RecordOnDisk(image: Image, ids: seq<string>, h: Header, slot: nat)
    requires LaidOut(image, ids, h) && slot < h.capacity
    ensures var o, x := 4096 + 64 * |ids| + slot * (8 + 4 * |ids|), Slots(image, |ids|, h.capacity)[slot];
            && o + 8 + 4 * |ids| <= |image| && |x.row| == |ids|
            && x.ts == DecodeI64(image[o..o + 8])
            && forall m :: 0 <= m < |ids| ==> x.row[m] == DecodeFloat(image[o + 8 + 4 * m..o + 12 + 4 * m])
  {
    var n := |ids|;
    var o := SlotOffset(n, slot);
    SlotInside(n, h.capacity, slot);
    assert o == 4096 + 64 * n + slot * (8 + 4 * n);
    var raw := SlotBytes(image, n, h.capacity, slot);
    assert raw[0..8] == image[o..o + 8];
    forall m | 0 <= m < n ensures raw[8 + 4 * m..8 + 4 * m + 4] == image[o + 8 + 4 * m..o + 12 + 4 * m] {
    }
  }

  /** Files that give nothing back: short or foreign ones, another version, another
      interval, no slots, and metric sets that are empty or larger than 100000. */
  lemma {:induction false} RefusedFiles(image: Image, interval: nat, current: seq<string>)
    requires |image| >= 36 ==>
               image[0..8] != [Raw(65), Raw(88), Raw(77), Raw(69), Raw(84), Raw(82), Raw(73), Raw(67)] ||
               DecodeLE(image[8..12]) != 1 || DecodeLE(image[12..16]) == 0 || DecodeLE(image[12..16]) > 100_000 ||
               DecodeLE(image[16..20]) == 0 || DecodeLE(image[20..24]) != interval
    ensures Load(image, interval, current) == []
  {
  }

  // ------------------------------------------------- a layout cut short

  lemma {:induction false} TableSplits(ids: seq<string>, k: nat)
    requires AllText(ids) && k <= |ids|
    ensures AllText(ids[..k]) && AllText(ids[k..])
    ensures EncodeIds(ids) == EncodeIds(ids[..k]) + EncodeIds(ids[k..])
  {
    hide EncodeIds, IsText;
    EncodeIdsJoin(ids[..k], ids[k..]);
    assert ids == ids[..k] + ids[k..];
  }

  /** A shorter table written over the front of one leaves the rest of it. */
  lemma {:induction false} TableOver(image: Image, end: nat, front: Image, back: Image, data: Image)
    requires HEADER_BYTES <= end <= |image| && image[HEADER_BYTES..end] == front + back && |data| == |front|
    ensures var torn := Splice(image, HEADER_BYTES, data);
            end <= |torn| && torn[HEADER_BYTES..end] == data + back
  {
    var torn, mid := Splice(image, HEADER_BYTES, data), HEADER_BYTES + |data|;
    SpliceElsewhere(image, HEADER_BYTES, data, mid, end);
    assert image[mid..end] == image[HEADER_BYTES..end][|data|..] == back;
    if data != [] {
      assert torn[HEADER_BYTES..mid] == data;
    }
    assert torn[HEADER_BYTES..end] == torn[HEADER_BYTES..mid] + torn[mid..end];
  }

  lemma {:induction false} TableKeepsHeader(image: Image, data: Image)
    requires HEADER_SIZE <= |image| && HEADER_SIZE <= HEADER_BYTES
    ensures HEADER_SIZE <= |Splice(image, HEADER_BYTES, data)|
    ensures DecodeHeader(Splice(image, HEADER_BYTES, data)) == DecodeHeader(image)
  {
    var torn := Splice(image, HEADER_BYTES, data);
    SpliceElsewhere(image, HEADER_BYTES, data, 0, HEADER_SIZE);
    assert torn[..HEADER_SIZE] == torn[0..HEADER_SIZE] && image[..HEADER_SIZE] == image[0..HEADER_SIZE];
    SameHeader(torn, image);
  }

  lemma {:induction false} TornTable(image: Image, ids: seq<string>, h: Header, m: seq<string>)
    requires LaidOut(image, ids, h) && |m| <= |ids| && AllText(m)
    ensures var torn := Splice(image, HEADER_BYTES, EncodeIds(m));
            var end := RecordsOffset(h.nMetrics);
            && |torn| == |image| && DecodeHeader(torn) == DecodeHeader(image)
            && torn[HEADER_BYTES..end] == EncodeIds(m) + EncodeIds(ids[|m|..])
            && Slots(torn, h.nMetrics, h.capacity) == Slots(image, h.nMetrics, h.capacity)
  {
    hide Splice, Slots, EncodeIds, DecodeHeader, IsText;
    SlotInside(h.nMetrics, h.capacity, 0);
    SlotsUntouched(image, h.nMetrics, h.capacity, HEADER_BYTES, EncodeIds(m));
    TableKeepsHeader(image, EncodeIds(m));
    TableSplits(ids, |m|);
    TableOver(image, RecordsOffset(h.nMetrics), EncodeIds(ids[..|m|]), EncodeIds(ids[|m|..]), EncodeIds(m));
  }

  /** A crash in the layout of a file that was ours, after the id table and before the
      header: if the new table is no longer than the old one, the old records are loaded
      under the new ids, column by column, and under the old ids from there on. So the next
      load is right exactly as far as the two tables agree. */
  lemma {:induction false} TornTableLoads(
    image: Image, ids: seq<string>, h: Header, m: seq<string>, current: seq<string>)
    requires LaidOut(image, ids, h) && |m| <= |ids|
    requires AllText(m) && forall i :: 0 <= i < |m| ==> |m[i]| < METRIC_ID_MAX
    requires Dated(Denote(Ring(Slots(image, h.nMetrics, h.capacity), h.head, h.count)))
    ensures var held := Denote(Ring(Slots(image, h.nMetrics, h.capacity), h.head, h.count));
            var mixed := m + ids[|m|..];
            Rows(held, |mixed|) &&
            Load(Splice(image, HEADER_BYTES, EncodeIds(m)), h.interval, current) == RemapAll(held, mixed, current)
  {
    var mixed := m + ids[|m|..];
    TornTable(image, ids, h, m);
    EncodeIdsJoin(m, ids[|m|..]);
    hide Slots, Load, Denote, EncodeIds, Splice;
    LoadReadsIndex(Splice(image, HEADER_BYTES, EncodeIds(m)), mixed, h, current);
  }

  /** How many bytes of a slot lie before the end of what was written over the records. */
  function Covered(n: nat, slot: nat, over: nat): (k: nat)
    ensures k <= RecordBytes(n)
    ensures slot * RecordBytes(n) >= over ==> k == 0
    ensures slot * RecordBytes(n) < over ==> slot * RecordBytes(n) + k <= over
    ensures k < RecordBytes(n) ==> over <= slot * RecordBytes(n) + k
  {
    var o := slot * RecordBytes(n);
    if o >= over then 0 else if over - o >= RecordBytes(n) then RecordBytes(n) else over - o
  }

  /** A slot with the front of it written over by text. */
  function Scribbled(image: Image, n: nat, capacity: nat, slot: nat, text: Image): (raw: Image)
    requires FileBytes(n, capacity) <= |image| && slot < capacity
    ensures |raw| == RecordBytes(n)
  {
    var o, k := slot * RecordBytes(n), Covered(n, slot, |text|);
    (if k == 0 then [] else text[o..o + k]) + SlotBytes(image, n, capacity, slot)[k..]
  }

  /** Text written from the first record on, slot by slot. */
  lemma {:induction false} SlotScribbled(image: Image, n: nat, capacity: nat, slot: nat, table: Image, text: Image)
    requires FileBytes(n, capacity) <= |image| && slot < capacity && |table| == IdTableBytes(n)
    ensures var torn := Splice(image, HEADER_BYTES, table + text);
            FileBytes(n, capacity) <= |torn| &&
            SlotBytes(torn, n, capacity, slot) == Scribbled(image, n, capacity, slot, text)
  {
    var from, k := slot * RecordBytes(n), Covered(n, slot, |text|);
    SlotInside(n, capacity, slot);
    assert SlotOffset(n, slot) == HEADER_BYTES + |table| + from;
    hide Splice, Covered, RecordBytes, FileBytes;
    OverText(image, table, text, from, k, RecordBytes(n));
  }

  /** A record's bytes after text was written from the first record on: k bytes of text, and
      what was behind them. */
  lemma {:induction false} OverText(image: Image, table: Image, text: Image, from: nat, k: nat, b: nat)
    requires HEADER_BYTES + |table| + from + b <= |image| && k <= b
    requires k > 0 ==> from + k <= |text|
    requires k < b ==> |text| <= from + k
    ensures var torn, o := Splice(image, HEADER_BYTES, table + text), HEADER_BYTES + |table| + from;
            && |image| <= |torn|
            && torn[o..o + b] == (if k == 0 then [] else text[from..from + k]) + image[o..o + b][k..]
  {
    hide Splice;
    var o := HEADER_BYTES + |table| + from;
    SplicedOver(image, HEADER_BYTES, table + text, o, o + k, o + b);
    assert image[o + k..o + b] == image[o..o + b][k..];
    if k > 0 {
      assert (table + text)[|table| + from..|table| + from + k] == text[from..from + k];
    }
  }

  /** A range that starts inside or behind what is written, up to its end, and the rest. */
  lemma {:induction false} SplicedOver(image: Image, offset: nat, data: Image, lo: nat, mid: nat, hi: nat)
    requires offset <= lo <= mid <= hi <= |image|
    requires mid < hi ==> offset + |data| <= mid
    requires lo < mid ==> mid <= offset + |data|
    ensures |image| <= |Splice(image, offset, data)|
    ensures Splice(image, offset, data)[lo..hi]
         == (if lo < mid then data[lo - offset..mid - offset] else []) + image[mid..hi]
  {
    var torn := Splice(image, offset, data);
    if lo < mid {
      assert torn[offset..offset + |data|] == data;
      assert torn[lo..mid] == data[lo - offset..mid - offset];
    }
    assert torn[mid..hi] == image[mid..hi];
    assert torn[lo..hi] == torn[lo..mid] + torn[mid..hi];
  }

  /** The same crash with a table that is longer than the old one: it runs into the records.
      The load takes the first names of the new table for the columns. Every slot behind the
      end of the table still is the sample it was; of the slots before, the bytes written
      over are read as the letters of the ids they are, and a slot is restored as a sample if
      the time it then shows is positive. */
  lemma {:induction false} LongTableLoads(
    image: Image, ids: seq<string>, h: Header, m: seq<string>, current: seq<string>)
    requires LaidOut(image, ids, h) && |ids| < |m|
    requires AllText(m) && forall i :: 0 <= i < |m| ==> |m[i]| < METRIC_ID_MAX
    ensures var torn, n, text := Splice(image, HEADER_BYTES, EncodeIds(m)), |ids|, EncodeIds(m[|ids|..]);
            && Framed(torn, h) && Framed(image, h)
            && (forall s :: 0 <= s < h.capacity ==>
                  Slots(torn, n, h.capacity)[s] == DecodeRecord(Scribbled(image, n, h.capacity, s, text), n))
            && (forall s :: 0 <= s < h.capacity && s * RecordBytes(n) >= |text| ==>
                  Slots(torn, n, h.capacity)[s] == Slots(image, n, h.capacity)[s])
            && Rows(Timed(Indexed(torn, h)), n)
            && Load(torn, h.interval, current) == RemapAll(Timed(Indexed(torn, h)), m[..n], current)
  {
    var n, table, text := |ids|, EncodeIds(m[..|ids|]), EncodeIds(m[|ids|..]);
    var torn := Splice(image, HEADER_BYTES, EncodeIds(m));
    TableSplits(m, n);
    SlotScribbled(image, n, h.capacity, 0, table, text);
    assert Framed(torn, h) && Framed(image, h);
    forall s | 0 <= s < h.capacity
      ensures Slots(torn, n, h.capacity)[s] == DecodeRecord(Scribbled(image, n, h.capacity, s, text), n)
      ensures s * RecordBytes(n) >= |text| ==> Slots(torn, n, h.capacity)[s] == Slots(image, n, h.capacity)[s]
    {
      SlotScribbled(image, n, h.capacity, s, table, text);
      if s * RecordBytes(n) >= |text| {
        assert Scribbled(image, n, h.capacity, s, text) == SlotBytes(image, n, h.capacity, s);
      }
    }
    LongTableNames(image, h, m);
    IndexedRows(torn, h);
    TimedRows(Indexed(torn, h), n);
    var held := Indexed(torn, h);
    assert held[0..] == held;
    LoadFromReadsIndex(torn, h, m[..n], current, held, 0);
  }

  lemma {:induction false} LongTableNames(image: Image, h: Header, m: seq<string>)
    requires HEADER_SIZE <= |image| && h.nMetrics < |m|
    requires AllText(m) && forall i :: 0 <= i < |m| ==> |m[i]| < METRIC_ID_MAX
    ensures var torn := Splice(image, HEADER_BYTES, EncodeIds(m));
            && RecordsOffset(h.nMetrics) <= |torn| && SavedIds(torn, h.nMetrics) == m[..h.nMetrics]
            && HEADER_SIZE <= |torn| && DecodeHeader(torn) == DecodeHeader(image)
  {
    var torn, n := Splice(image, HEADER_BYTES, EncodeIds(m)), h.nMetrics;
    TableSplits(m, n);
    TableKeepsHeader(image, EncodeIds(m));
    assert torn[HEADER_BYTES..HEADER_BYTES + |EncodeIds(m)|] == EncodeIds(m);
    assert torn[HEADER_BYTES..RecordsOffset(n)] == EncodeIds(m)[..IdTableBytes(n)] == EncodeIds(m[..n]);
    forall i | 0 <= i < n ensures SavedIds(torn, n)[i] == m[i] {
      DecodeEncodeIds(m[..n], i);
    }
  }

  /** The record in the first slot then shows a time made of the first eight letters of the
      first id past the old table. It is positive, and the record restored wherever the index
      covers it, exactly when the id is not empty and has plain ASCII there. */
  lemma {:induction false} FirstRecordShowsId(image: Image, ids: seq<string>, h: Header, m: seq<string>)
    requires LaidOut(image, ids, h) && |ids| < |m|
    requires AllText(m) && forall i :: 0 <= i < |m| ==> |m[i]| < METRIC_ID_MAX
    ensures var torn, id := Splice(image, HEADER_BYTES, EncodeIds(m)), m[|ids|];
            && Framed(torn, h)
            && (Slots(torn, |ids|, h.capacity)[0].ts > 0 <==> id != "" && (|id| < 8 || id[7] as int < 128))
  {
    var n, rest := |ids|, m[|ids|..];
    var text := EncodeIds(rest);
    LongTableLoads(image, ids, h, m, []);
    assert rest[0] == m[n];
    EncodeIdsAt(rest, 0);
    var raw := Scribbled(image, n, h.capacity, 0, text);
    ScribbledFront(image, n, h.capacity, text);
    assert raw[0..8] == text[0..METRIC_ID_MAX][0..8] == EncodeId(m[n])[0..8];
    IdReadAsTime(m[n]);
  }

  lemma {:induction false} ScribbledFront(image: Image, n: nat, capacity: nat, text: Image)
    requires FileBytes(n, capacity) <= |image| && 0 < capacity && 8 <= |text|
    ensures Scribbled(image, n, capacity, 0, text)[0..8] == text[0..8]
  {
  }

  lemma {:induction false} IdReadAsTime(id: string)
    requires IsText(id)
    ensures DecodeI64(EncodeId(id)[0..8]) > 0 <==> id != "" && (|id| < 8 || id[7] as int < 128)
  {
    var s := EncodeId(id)[0..8];
    assert IsText(Truncated(id, METRIC_ID_MAX));
    assert s[0] == Raw(if id == "" then 0 else id[0] as int) && s[7] == Raw(if |id| < 8 then 0 else id[7] as int);
    assert id != "" ==> IsTextChar(id[0]);
    assert s == s[..7] + [s[7]];
    TopByte(s[..7], s[7]);
    Pow256Values();
    assert Pow256(7) * 128 == TWO63;
    if id == "" {
      assert s == Zeros(8);
      ZerosAreZero(8);
    }
  }

  lemma {:induction false} ZerosAreZero(n: nat)
    ensures DecodeLE(Zeros(n)) == 0
    decreases n
  {
    if n > 0 {
      ZerosAreZero(n - 1);
      assert Zeros(n)[1..] == Zeros(n - 1);
    }
  }

  lemma {:induction false} Times256(p: nat, v: nat)
    ensures 256 * (p * v) == (256 * p) * v
  {
  }

  lemma {:induction false} TopByte(s: Image, b: FileByte)
    ensures DecodeLE(s + [b]) == DecodeLE(s) + Pow256(|s|) * ByteValue(b)
    ensures DecodeLE(s) < Pow256(|s|)
    decreases |s|
  {
    if s == [] {
      assert [b][1..] == [];
    } else {
      var p := Pow256(|s| - 1);
      TopByte(s[1..], b);
      assert (s + [b])[1..] == s[1..] + [b];
      assert Pow256(|s|) == 256 * p;
      hide Pow256, ByteValue;
      Times256(p, ByteValue(b));
    }
  }

  /** After the header and before the size is set, the index is empty and nothing loads. */
  lemma {:induction false} EmptyIndexLoadsNothing(image: Image, interval: nat, current: seq<string>)
    requires DiskHeader(image).count == 0
    ensures Load(image, interval, current) == []
  {
  }

  // ------------------------------------------------------- crash recovery

  /** How many of n appends the disk index covers. */
  function Flushed(n: nat): (f: nat)
    ensures f <= n < f + 60
  {
    60 * (n / 60)
  }

  lemma {:induction false} FlushedNext(n: nat)
    ensures if n - Flushed(n) + 1 < 60
            then Flushed(n + 1) == Flushed(n)
            else Flushed(n + 1) == n + 1
  {
    var q, c := n / 60, n % 60;
    if c + 1 < 60 {
      ModUnique(n + 1, q, c + 1, 60);
    } else {
      ModUnique(n + 1, q + 1, 0, 60);
    }
  }

  /** The two lists before and after one more append. */
  lemma {:induction false} FlushLists<T>(front: seq<T>, x: T, capacity: nat)
    ensures var f, xs := Flushed(|front|), front + [x];
            if |front| - f + 1 < 60
            then Flushed(|xs|) == f && xs[..f] == front[..f] && xs[f..] == front[f..] + [x]
            else Flushed(|xs|) == |xs| && xs[|xs|..] == [] &&
                 LastN(xs[..|xs|], capacity) == LastN(LastN(front[..f], capacity) + front[f..] + [x], capacity)
  {
    var f, xs := Flushed(|front|), front + [x];
    FlushedNext(|front|);
    LastNOfTrimmed(front[..f], front[f..] + [x], capacity);
    assert LastN(front[..f], capacity) + front[f..] + [x] == LastN(front[..f], capacity) + (front[f..] + [x]);
    assert front[..f] + (front[f..] + [x]) == xs == xs[..|xs|];
  }

  lemma {:induction false} AppendRun(p: State, ids: seq<string>, front: seq<Sample>, x: Sample)
    requires Mirrors(p, ids, LastN(front[..Flushed(|front|)], p.capacity), front[Flushed(|front|)..])
    requires |x.row| == p.n && IsInt64(x.ts)
    ensures var xs := front + [x];
            Mirrors(AppendRecord(p, x), ids, LastN(xs[..Flushed(|xs|)], p.capacity), xs[Flushed(|xs|)..])
  {
    hide Mirrors, AppendRecord;
    AppendMirrors(p, ids, LastN(front[..Flushed(|front|)], p.capacity), front[Flushed(|front|)..], x);
    FlushLists(front, x, p.capacity);
  }

  lemma {:induction false} NothingFlushed(capacity: nat)
    ensures Flushed(0) == 0 && LastN<Sample>([], capacity) == []
  {
  }

  /** After any number of appends to a freshly laid-out file. */
  lemma {:induction false} RunMirrors(p: State, ids: seq<string>, xs: seq<Sample>)
    requires Fits(p.n, p.capacity, p.interval, ids) && Rows(xs, p.n) && Dated(xs)
    ensures var f := Flushed(|xs|);
            Mirrors(AppendRecords(Initialise(p, ids), xs), ids, LastN(xs[..f], p.capacity), xs[f..])
    decreases |xs|
  {
    hide Mirrors, AppendRecord, Initialise, Flushed, LastN;
    if xs == [] {
      InitialiseMirrors(p, ids);
      NothingFlushed(p.capacity);
    } else {
      var front, x := xs[..|xs| - 1], xs[|xs| - 1];
      RunMirrors(p, ids, front);
      AppendRun(AppendRecords(Initialise(p, ids), front), ids, front, x);
      assert xs == front + [x];
    }
  }

  /** A crash after any number of appends: the load returns the stale view, exactly. */
  lemma {:induction false} CrashRecoveryExact(p: State, ids: seq<string>, xs: seq<Sample>, current: seq<string>)
    requires Fits(p.n, p.capacity, p.interval, ids) && Rows(xs, p.n) && Dated(xs)
    ensures var f := Flushed(|xs|);
            var held := Recovered(LastN(xs[..f], p.capacity), xs[f..], p.capacity);
            Rows(held, |ids|) &&
            Load(AppendRecords(Initialise(p, ids), xs).image, p.interval, current) == RemapAll(held, ids, current)
  {
    hide Mirrors, AppendRecord, Initialise, Load;
    var f := Flushed(|xs|);
    RunMirrors(p, ids, xs);
    LoadMirrored(AppendRecords(Initialise(p, ids), xs), ids, LastN(xs[..f], p.capacity), xs[f..], current);
  }

  lemma {:induction false} RunHead(p: State, ids: seq<string>, xs: seq<Sample>)
    requires Fits(p.n, p.capacity, p.interval, ids) && Dated(xs)
    ensures AppendRecords(Initialise(p, ids), xs).head == |xs| % p.capacity
    decreases |xs|
  {
    if xs == [] {
      SmallMod(0, p.capacity);
    } else {
      hide Initialise;
      RunHead(p, ids, xs[..|xs| - 1]);
      ModStep(|xs| - 1, p.capacity);
    }
  }

  lemma {:induction false} SameBehind(a: nat, b: nat, k: nat, n: nat)
    requires a < n && b < n && k < n && (a + k) % n == (b + k) % n
    ensures a == b
  {
    WrapOnce(a + k, n);
    WrapOnce(b + k, n);
  }

  lemma {:induction false} HeadBehind(f: nat, k: nat, n: nat)
    requires n > 0
    ensures (f % n + k) % n == (f + k) % n
    decreases k
  {
    if k == 0 {
      SmallMod(f % n, n);
    } else {
      HeadBehind(f, k - 1, n);
      ModStep(f % n + k - 1, n);
      ModStep(f + k - 1, n);
    }
  }

  lemma {:induction false} IndexOfMirror(q: State, ids: seq<string>, flushed: seq<Sample>, pending: seq<Sample>)
    requires Mirrors(q, ids, flushed, pending)
    ensures var h := DiskHeader(q.image);
            && h == Header(q.n, q.capacity, q.interval, h.head, |flushed|) && h.head < q.capacity
            && q.head == (h.head + |pending|) % q.capacity
  {
    hide Slots, Denote, Recovered;
  }

  /** When the index reaches the disk. Of n records written since the layout, with no close
      in between, the header covers the first 60 * (n / 60), in a ring of the file's
      capacity. */
  lemma {:induction false} IndexEverySixty(p: State, ids: seq<string>, xs: seq<Sample>)
    requires Fits(p.n, p.capacity, p.interval, ids) && Rows(xs, p.n) && Dated(xs)
    ensures var h := DiskHeader(AppendRecords(Initialise(p, ids), xs).image);
            && h == Header(p.n, p.capacity, p.interval, h.head, h.count)
            && h.head == 60 * (|xs| / 60) % p.capacity
            && h.count == if 60 * (|xs| / 60) < p.capacity then 60 * (|xs| / 60) else p.capacity
  {
    hide AppendRecords, Initialise, Mirrors, DiskHeader;
    var f := Flushed(|xs|);
    var q := AppendRecords(Initialise(p, ids), xs);
    RunMirrors(p, ids, xs);
    IndexOfMirror(q, ids, LastN(xs[..f], p.capacity), xs[f..]);
    RunHead(p, ids, xs);
    HeadBehind(f, |xs| - f, p.capacity);
    SameBehind(DiskHeader(q.image).head, f % p.capacity, |xs| - f, p.capacity);
  }

  /** So a load after a crash, of a file that has not wrapped past its index, gives exactly
      the newest `capacity` of those. */
  lemma {:induction false} LoadEverySixty(p: State, ids: seq<string>, xs: seq<Sample>, current: seq<string>)
    requires Fits(p.n, p.capacity, p.interval, ids) && Rows(xs, p.n) && Dated(xs)
    requires |xs| <= p.capacity || 60 * (|xs| / 60) == |xs|
    ensures var held := LastN(xs[..60 * (|xs| / 60)], p.capacity);
            Rows(held, |ids|) &&
            Load(AppendRecords(Initialise(p, ids), xs).image, p.interval, current) == RemapAll(held, ids, current)
  {
    hide AppendRecords, Initialise, Load;
    CrashRecoveryExact(p, ids, xs, current);
    CrashLosesTail(xs, p.capacity);
  }

  /** After 59 records nothing comes back, after 60 all of them. */
  lemma {:induction false} SixtiethRecord(p: State, ids: seq<string>, xs: seq<Sample>, current: seq<string>)
    requires Fits(p.n, p.capacity, p.interval, ids) && Rows(xs, p.n) && Dated(xs)
    ensures var loaded := Load(AppendRecords(Initialise(p, ids), xs).image, p.interval, current);
            && (|xs| == 59 ==> loaded == [])
            && (|xs| == 60 ==> Rows(xs, |ids|) && loaded == RemapAll(xs, ids, current))
  {
    hide AppendRecords, Initialise, Load;
    if |xs| == 59 || |xs| == 60 {
      LoadEverySixty(p, ids, xs, current);
      assert xs[..60 * (|xs| / 60)] == if |xs| == 60 then xs else [];
    }
  }

  /** While the file has not wrapped past its index, a crash loses only the appends
      since the last flush, of which there are fewer than 60. */
  lemma {:induction false} CrashLosesTail<T>(xs: seq<T>, capacity: nat)
    requires 60 <= capacity
    requires |xs| <= capacity || Flushed(|xs|) == |xs|
    ensures var f := Flushed(|xs|);
            |xs| - f < 60 &&
            Recovered(LastN(xs[..f], capacity), xs[f..], capacity) == LastN(xs[..f], capacity)
  {
  }

  lemma {:induction false} SlicesJoin<T>(xs: seq<T>, a: nat, b: nat, c: nat)
    requires a <= b <= c <= |xs|
    ensures xs[a..b] + xs[b..c] == xs[a..c]
  {
  }

  lemma {:induction false} LastIsSlice<T>(xs: seq<T>, f: nat, capacity: nat)
    requires capacity <= f <= |xs|
    ensures LastN(xs[..f], capacity) == xs[f - capacity..f]
  {
  }

  lemma {:induction false} Halves<T>(a: seq<T>, b: seq<T>)
    ensures (a + b)[..|a|] == a && (a + b)[|a|..] == b
  {
  }

  lemma {:induction false} RecoveredOfFull<T>(a: seq<T>, b: seq<T>, pending: seq<T>)
    requires |a| == |pending|
    ensures Recovered(a + b, pending, |a + b|) == pending + b
  {
    Halves(a, b);
  }

  /** The two parts that a crash of a full file brings back, cut out of the whole run: f
      appends are covered, k pending. */
  lemma {:induction false} FullFileParts<T>(xs: seq<T>, capacity: nat, f: nat)
    requires capacity <= f <= |xs| && |xs| - f <= capacity
    ensures var k, newest := |xs| - f, LastN(xs, capacity);
            Recovered(LastN(xs[..f], capacity), xs[f..], capacity) == newest[capacity - k..] + newest[..capacity - k]
  {
    hide LastN, Recovered;
    var n := |xs|;
    var lo := n - capacity;
    LastIsSlice(xs, f, capacity);
    LastIsSlice(xs, n, capacity);
    assert xs[..n] == xs && xs[f..] == xs[f..n];
    SlicesJoin(xs, f - capacity, lo, f);
    SlicesJoin(xs, lo, f, n);
    Halves(xs[lo..f], xs[f..n]);
    RecoveredOfFull(xs[f - capacity..lo], xs[lo..f], xs[f..n]);
  }

  /** Once the index says full, what comes back is the newest samples rotated by the
      number of appends since the flush. */
  lemma {:induction false} CrashRotatesFullFile<T>(xs: seq<T>, capacity: nat)
    requires 60 <= capacity <= Flushed(|xs|)
    ensures var f := Flushed(|xs|);
            var k := |xs| - f;
            var newest := LastN(xs, capacity);
            Recovered(LastN(xs[..f], capacity), xs[f..], capacity)
            == newest[capacity - k..] + newest[..capacity - k]
  {
    hide LastN, Recovered, Flushed;
    FullFileParts(xs, capacity, Flushed(|xs|));
  }

  /** What the rotation costs: the appends that follow push out the newest samples from
      before the crash, the first of them first, and keep all of the older ones. */
  lemma {:induction false} RotationEvictsNewest<T>(xs: seq<T>, ys: seq<T>, capacity: nat)
    requires 60 <= capacity <= Flushed(|xs|)
    requires |ys| <= |xs| - Flushed(|xs|)
    ensures var f := Flushed(|xs|);
            var older := capacity - (|xs| - f);
            var newest := LastN(xs, capacity);
            LastN(Recovered(LastN(xs[..f], capacity), xs[f..], capacity) + ys, capacity)
            == newest[older + |ys|..] + newest[..older] + ys
  {
    hide Recovered, Flushed;
    CrashRotatesFullFile(xs, capacity);
    var newest := LastN(xs, capacity);
    PushedOut(newest, capacity - (|xs| - Flushed(|xs|)), ys);
  }

  lemma {:induction false} PushedOut<T>(newest: seq<T>, older: nat, ys: seq<T>)
    requires older + |ys| <= |newest|
    ensures LastN(newest[older..] + newest[..older] + ys, |newest|) == newest[older + |ys|..] + newest[..older] + ys
  {
    var a, b := newest[older..], newest[..older];
    assert (a + b + ys)[|ys|..] == a[|ys|..] + b + ys;
    assert a[|ys|..] == newest[older + |ys|..];
  }

  /** So a crash of a full file loses none of the newest samples, only their order. */
  lemma {:induction false} CrashOfFullFileLosesNothing<T>(xs: seq<T>, capacity: nat)
    requires 60 <= capacity <= Flushed(|xs|)
    ensures var f := Flushed(|xs|);
            multiset(Recovered(LastN(xs[..f], capacity), xs[f..], capacity)) == multiset(LastN(xs, capacity))
  {
    CrashRotatesFullFile(xs, capacity);
    var newest := LastN(xs, capacity);
    var cut := capacity - (|xs| - Flushed(|xs|));
    assert newest == newest[..cut] + newest[cut..];
  }

  ghost predicate InOrder(xs: seq<Sample>)
  {
    forall i, j :: 0 <= i < j < |xs| ==> xs[i].ts < xs[j].ts
  }

  /** The recovered samples are in time order exactly when no pending append had to
      overwrite an entry the index still covers. */
  lemma {:induction false} CrashKeepsOrderIff(flushed: seq<Sample>, pending: seq<Sample>, capacity: nat)
    requires |flushed| <= capacity && |pending| < capacity
    requires InOrder(flushed + pending)
    ensures InOrder(Recovered(flushed, pending, capacity)) <==> |flushed| + |pending| <= capacity
  {
    var all := flushed + pending;
    var over := |flushed| + |pending| - capacity;
    assert forall i | 0 <= i < |flushed| :: all[i] == flushed[i];
    if over > 0 {
      var held := Recovered(flushed, pending, capacity);
      assert held[over - 1] == all[|all| - 1];
      assert held[over] == all[over];
    }
  }

  // ------------------------------------------------- clean close and reload

  lemma {:induction false} CloseMirrors(p: State, ids: seq<string>, flushed: seq<Sample>, pending: seq<Sample>)
    requires Mirrors(p, ids, flushed, pending)
    ensures CloseImage(p) == WriteHeader(p).image
    ensures Mirrors(WriteHeader(p), ids, LastN(flushed + pending, p.capacity), [])
  {
    WriteHeaderMirrors(p, ids);
  }

  /** A clean close makes the whole tier readable. */
  lemma {:induction false} CloseThenLoad(
    p: State, ids: seq<string>, flushed: seq<Sample>, pending: seq<Sample>, current: seq<string>)
    requires Mirrors(p, ids, flushed, pending) && Dated(flushed) && Dated(pending)
    ensures var held := LastN(flushed + pending, p.capacity);
            Rows(held, |ids|) && Load(CloseImage(p), p.interval, current) == RemapAll(held, ids, current)
  {
    hide Mirrors, Load;
    CloseMirrors(p, ids, flushed, pending);
    LoadMirrored(WriteHeader(p), ids, LastN(flushed + pending, p.capacity), [], current);
  }

  /** The image a process leaves behind after laying out a file, appending and closing. */
  lemma {:induction false} SavedThenLoad(p: State, ids: seq<string>, xs: seq<Sample>, current: seq<string>)
    requires Fits(p.n, p.capacity, p.interval, ids) && Rows(xs, p.n) && Dated(xs)
    ensures var held := LastN(xs, p.capacity);
            Rows(held, |ids|) &&
            Load(CloseImage(AppendRecords(Initialise(p, ids), xs)), p.interval, current)
            == RemapAll(held, ids, current)
  {
    hide Mirrors, AppendRecord, Initialise, Load, CloseImage;
    var f := Flushed(|xs|);
    RunMirrors(p, ids, xs);
    CloseThenLoad(AppendRecords(Initialise(p, ids), xs), ids, LastN(xs[..f], p.capacity), xs[f..], current);
    LastNOfTrimmed(xs[..f], xs[f..], p.capacity);
    assert xs[..f] + xs[f..] == xs;
  }

  lemma {:induction false} RestoreIntoEmpty<T>(ring: Ring<T>, xs: seq<T>)
    requires Valid(ring) && ring.count == 0
    ensures Denote(Rings.AppendAll(ring, xs)) == LastN(xs, |ring.slots|)
  {
    AppendAllDenotes(ring, xs);
    assert Denote(ring) + xs == xs;
  }

  /** Saving with one registry and capacity and loading with another gives the newest
      samples that fit, in order, each id with the value it was saved with. */
  lemma {:induction false} ReloadUnderLayoutChange(
    p: State, ids: seq<string>, xs: seq<Sample>, current: seq<string>, ring: Ring<Sample>, i: nat, j: nat)
    requires Fits(p.n, p.capacity, p.interval, ids) && Rows(xs, p.n) && Dated(xs)
    requires Valid(ring) && ring.count == 0
    requires Registry.Distinct(ids) && Registry.Distinct(current)
    requires j < |current|
    ensures var image := CloseImage(AppendRecords(Initialise(p, ids), xs));
            var back := Denote(Rings.AppendAll(ring, Load(image, p.interval, current)));
            var kept := LastN(LastN(xs, p.capacity), |ring.slots|);
            |back| == |kept| &&
            (i < |back| ==>
               back[i].ts == kept[i].ts && |back[i].row| == |current| && |kept[i].row| == |ids| &&
               back[i].row[j] == var k := Registry.Find(ids, current[j]);
                                 if k >= 0 then kept[i].row[k] else Absent)
  {
    hide AppendRecord, AppendRecords, Initialise, Load, CloseImage, Rings.AppendAll, Scatter;
    SavedThenLoad(p, ids, xs, current);
    var held := LastN(xs, p.capacity);
    var loaded := RemapAll(held, ids, current);
    RestoreIntoEmpty(ring, loaded);
    var back := LastN(loaded, |ring.slots|);
    var kept := LastN(held, |ring.slots|);
    if i < |back| {
      assert back[i] == Remap(kept[i], ids, current);
      RemapById(kept[i], ids, current, j);
    }
  }

  /** With the metric set and the capacity unchanged the reload is the identity. */
  lemma {:induction false} ReloadIdentity(p: State, ids: seq<string>, xs: seq<Sample>, ring: Ring<Sample>)
    requires Fits(p.n, p.capacity, p.interval, ids) && Rows(xs, p.n) && Dated(xs)
    requires Valid(ring) && ring.count == 0 && |ring.slots| == p.capacity
    requires Registry.Distinct(ids)
    ensures var image := CloseImage(AppendRecords(Initialise(p, ids), xs));
            Denote(Rings.AppendAll(ring, Load(image, p.interval, ids))) == LastN(xs, p.capacity)
  {
    hide AppendRecord, AppendRecords, Initialise, Load, CloseImage, Rings.AppendAll, Scatter;
    SavedThenLoad(p, ids, xs, ids);
    RemapIdentity(LastN(xs, p.capacity), ids);
    RestoreIntoEmpty(ring, LastN(xs, p.capacity));
  }
}

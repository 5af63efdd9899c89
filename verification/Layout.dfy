/** Where things live in a history file: a 36-byte header at offset 0, the metric ids
    from byte 4096, then the record slots. */
module Layout {
  import opened Samples
  import opened Bytes

  const HEADER_BYTES: nat := 4096
  const METRIC_ID_MAX: nat := 64
  const HEADER_SIZE: nat := 36
  const VERSION: nat := 1
  const MAX_SAVED_METRICS: nat := 100000

  // "AXMETRIC"
  const MAGIC: Image :=
    [Raw(65), Raw(88), Raw(77), Raw(69), Raw(84), Raw(82), Raw(73), Raw(67)]

  function RecordBytes(n: nat): nat { 8 + 4 * n }

  function IdTableBytes(n: nat): nat { n * METRIC_ID_MAX }

  function RecordsOffset(n: nat): nat { HEADER_BYTES + IdTableBytes(n) }

  function SlotOffset(n: nat, slot: nat): nat { RecordsOffset(n) + slot * RecordBytes(n) }

  function FileBytes(n: nat, capacity: nat): nat { RecordsOffset(n) + capacity * RecordBytes(n) }

  // -------------------------------------------------------------- header

  datatype Header = Header(nMetrics: nat, capacity: nat, interval: nat, head: nat, count: nat)

  ghost predicate HeaderFits(h: Header)
  {
    h.nMetrics < TWO32 && h.capacity < TWO32 && h.interval < TWO32 && h.head < TWO32 && h.count < TWO32
  }

  function EncodeHeader(h: Header): (s: Image)
    ensures |s| == HEADER_SIZE
  {
    MAGIC + EncodeU32(VERSION) + EncodeU32(h.nMetrics) + EncodeU32(h.capacity) + EncodeU32(h.interval)
    + EncodeU32(h.head) + EncodeU32(h.count) + EncodeU32(0)
  }

  datatype HeaderRead = Foreign | Known(header: Header)

  /** A short file, a different magic or a different version is not ours to read. */
  function DecodeHeader(image: Image): HeaderRead
  {
    if |image| < HEADER_SIZE || image[0..8] != MAGIC || DecodeLE(image[8..12]) != VERSION then Foreign
    else Known(Header(DecodeLE(image[12..16]), DecodeLE(image[16..20]), DecodeLE(image[20..24]),
                      DecodeLE(image[24..28]), DecodeLE(image[28..32])))
  }

  lemma {:induction false} DecodeEncodeHeader(image: Image, h: Header)
    requires HeaderFits(h)
    requires HEADER_SIZE <= |image| && image[..HEADER_SIZE] == EncodeHeader(h)
    ensures DecodeHeader(image) == Known(h)
  {
    var e := EncodeHeader(h);
    assert forall i, j | 0 <= i <= j <= HEADER_SIZE :: image[i..j] == e[i..j];
    assert image[0..8] == MAGIC;
    assert image[8..12] == EncodeU32(VERSION);
    assert image[12..16] == EncodeU32(h.nMetrics);
    assert image[16..20] == EncodeU32(h.capacity);
    assert image[20..24] == EncodeU32(h.interval);
    assert image[24..28] == EncodeU32(h.head);
    assert image[28..32] == EncodeU32(h.count);
    DecodeEncodeU32(VERSION);
    DecodeEncodeU32(h.nMetrics);
    DecodeEncodeU32(h.capacity);
    DecodeEncodeU32(h.interval);
    DecodeEncodeU32(h.head);
    DecodeEncodeU32(h.count);
  }

  // ------------------------------------------------------------ id table

  predicate IsTextChar(c: char) { 0 < c as int < 256 }

  /** A C string: no NUL inside and every character one byte. */
  predicate IsText(s: string) { forall i :: 0 <= i < |s| ==> IsTextChar(s[i]) }

  /** What g_strlcpy into a field of the given size keeps. */
  function Truncated(s: string, size: nat): (t: string)
    requires size > 0
    ensures |t| < size
  {
    if |s| < size then s else s[..size - 1]
  }

  function TextBytes(s: string): (t: Image)
    requires IsText(s)
    ensures |t| == |s| && forall i :: 0 <= i < |s| ==> t[i] == Raw(s[i] as int)
  {
    seq(|s|, i requires 0 <= i < |s| => Raw(s[i] as int))
  }

  /** One zero-filled 64-byte entry. */
  function EncodeId(id: string): (e: Image)
    requires IsText(id)
    ensures |e| == METRIC_ID_MAX
  {
    var t := Truncated(id, METRIC_ID_MAX);
    TextBytes(t) + Zeros(METRIC_ID_MAX - |t|)
  }

  ghost predicate AllText(ids: seq<string>) { forall i :: 0 <= i < |ids| ==> IsText(ids[i]) }

  function EncodeIds(ids: seq<string>): (e: Image)
    requires forall i :: 0 <= i < |ids| ==> IsText(ids[i])
    ensures |e| == IdTableBytes(|ids|)
  {
    if ids == [] then [] else EncodeId(ids[0]) + EncodeIds(ids[1..])
  }

  lemma {:induction false} EncodeIdsNext(ids: seq<string>, i: nat)
    requires AllText(ids) && i < |ids|
    ensures EncodeIds(ids[..i + 1]) == EncodeIds(ids[..i]) + EncodeId(ids[i])
    decreases i
  {
    if i == 0 {
      assert ids[..1] == [ids[0]];
    } else {
      EncodeIdsNext(ids[1..], i - 1);
      assert ids[..i + 1][1..] == ids[1..][..i];
      assert ids[..i][1..] == ids[1..][..i - 1];
      assert ids[1..][i - 1] == ids[i];
    }
  }

  /** The string starting at a position: everything up to a NUL or the end of the table. */
  function TextAt(table: Image, pos: nat): (s: string)
    decreases |table| - pos
  {
    if pos >= |table| || ByteValue(table[pos]) == 0 then ""
    else [ByteValue(table[pos]) as char] + TextAt(table, pos + 1)
  }

  function DecodeIds(table: Image, n: nat): (ids: seq<string>)
    ensures |ids| == n
    ensures forall i :: 0 <= i < n ==> ids[i] == TextAt(table, i * METRIC_ID_MAX)
  {
    seq(n, i requires 0 <= i < n => TextAt(table, i * METRIC_ID_MAX))
  }

  lemma {:induction false} TextAtPrefix(table: Image, pos: nat, t: string)
    requires IsText(t) && pos + |t| < |table|
    requires forall i :: 0 <= i < |t| ==> table[pos + i] == Raw(t[i] as int)
    requires table[pos + |t|] == Raw(0)
    ensures TextAt(table, pos) == t
    decreases |t|
  {
    if t != "" {
      assert table[pos + 0] == Raw(t[0] as int);
      assert IsTextChar(t[0]);
      forall i | 0 <= i < |t[1..]| ensures table[pos + 1 + i] == Raw(t[1..][i] as int) {
        assert table[pos + (i + 1)] == Raw(t[i + 1] as int);
      }
      TextAtPrefix(table, pos + 1, t[1..]);
      assert t == [t[0]] + t[1..];
    }
  }

  lemma {:induction false} EncodeIdsJoin(a: seq<string>, b: seq<string>)
    requires AllText(a) && AllText(b)
    ensures AllText(a + b) && EncodeIds(a + b) == EncodeIds(a) + EncodeIds(b)
    decreases |a|
  {
    hide EncodeId, IsText;
    if a == [] {
      assert a + b == b;
    } else {
      EncodeIdsJoin(a[1..], b);
      assert (a + b)[1..] == a[1..] + b;
      Grouped(EncodeId(a[0]), EncodeIds(a[1..]), EncodeIds(b));
    }
  }

  lemma {:induction false} Grouped(a: Image, b: Image, c: Image)
    ensures a + b + c == a + (b + c)
  {
  }

  lemma {:induction false} EncodeIdsAt(ids: seq<string>, i: nat)
    requires AllText(ids) && i < |ids|
    ensures i * METRIC_ID_MAX + METRIC_ID_MAX <= IdTableBytes(|ids|)
    ensures EncodeIds(ids)[i * METRIC_ID_MAX..i * METRIC_ID_MAX + METRIC_ID_MAX] == EncodeId(ids[i])
    decreases i
  {
    var e := EncodeIds(ids);
    if i == 0 {
      assert e[0..METRIC_ID_MAX] == EncodeId(ids[0]);
    } else {
      EncodeIdsAt(ids[1..], i - 1);
      assert e[METRIC_ID_MAX..] == EncodeIds(ids[1..]);
      var o := (i - 1) * METRIC_ID_MAX;
      assert i * METRIC_ID_MAX == o + METRIC_ID_MAX;
      assert e[i * METRIC_ID_MAX..i * METRIC_ID_MAX + METRIC_ID_MAX] == e[METRIC_ID_MAX..][o..o + METRIC_ID_MAX];
    }
  }

  /** Ids come back as they were, cut to 63 characters. */
  lemma {:induction false} DecodeEncodeIds(ids: seq<string>, i: nat)
    requires AllText(ids) && i < |ids|
    ensures DecodeIds(EncodeIds(ids), |ids|)[i] == Truncated(ids[i], METRIC_ID_MAX)
  {
    var e := EncodeIds(ids);
    var t := Truncated(ids[i], METRIC_ID_MAX);
    var o := i * METRIC_ID_MAX;
    EncodeIdsAt(ids, i);
    var entry := e[o..o + METRIC_ID_MAX];
    assert entry == TextBytes(t) + Zeros(METRIC_ID_MAX - |t|);
    forall k | 0 <= k < |t| ensures e[o + k] == Raw(t[k] as int) {
      assert entry[k] == e[o + k];
    }
    assert entry[|t|] == e[o + |t|];
    TextAtPrefix(e, o, t);
  }

  // ------------------------------------------------------------- records

  function EncodeRecord(x: Sample): (s: Image)
    requires IsInt64(x.ts)
    ensures |s| == RecordBytes(|x.row|)
  {
    EncodeI64(x.ts) + EncodeFloats(x.row)
  }

  function DecodeRecord(raw: Image, n: nat): (x: Sample)
    requires |raw| == RecordBytes(n)
    ensures |x.row| == n && IsInt64(x.ts)
  {
    Sample(DecodeI64(raw[0..8]),
           seq(n, m requires 0 <= m < n => DecodeFloat(raw[8 + 4 * m..8 + 4 * m + 4])))
  }

  lemma {:induction false} DecodeEncodeRecord(x: Sample)
    requires IsInt64(x.ts)
    ensures DecodeRecord(EncodeRecord(x), |x.row|) == x
  {
    var s := EncodeRecord(x);
    assert s[0..8] == EncodeI64(x.ts);
    DecodeEncodeI64(x.ts);
    var y := DecodeRecord(s, |x.row|);
    forall m | 0 <= m < |x.row| ensures y.row[m] == x.row[m] {
      EncodeFloatsAt(x.row, m);
      assert s[8..] == EncodeFloats(x.row);
      assert s[8 + 4 * m..8 + 4 * m + 4] == s[8..][4 * m..4 * m + 4];
    }
  }

  // ------------------------------------------------- separation of ranges

  /** A slot lies behind the id table, inside the file. */
  lemma {:induction false} SlotInside(n: nat, capacity: nat, slot: nat)
    requires slot < capacity
    ensures HEADER_SIZE <= HEADER_BYTES <= RecordsOffset(n) <= SlotOffset(n, slot)
    ensures SlotOffset(n, slot) + RecordBytes(n) <= FileBytes(n, capacity)
  {
    SlotsOrdered(n, slot, capacity);
  }

  lemma {:induction false} SlotsOrdered(n: nat, s: nat, t: nat)
    requires s < t
    ensures SlotOffset(n, s) + RecordBytes(n) <= SlotOffset(n, t)
    decreases t
  {
    var b := RecordBytes(n);
    assert t * b == (t - 1) * b + b;
    if s < t - 1 {
      SlotsOrdered(n, s, t - 1);
    }
  }

  /** The bytes of one record slot of a laid-out file. */
  function SlotBytes(image: Image, n: nat, capacity: nat, slot: nat): (raw: Image)
    requires FileBytes(n, capacity) <= |image| && slot < capacity
    ensures |raw| == RecordBytes(n)
  {
    SlotInside(n, capacity, slot);
    var o := SlotOffset(n, slot);
    image[o..o + RecordBytes(n)]
  }

  /** The records of a laid-out file, slot by slot. */
  function Slots(image: Image, n: nat, capacity: nat): (s: seq<Sample>)
    requires FileBytes(n, capacity) <= |image|
    ensures |s| == capacity
    ensures forall i :: 0 <= i < capacity ==> s[i] == DecodeRecord(SlotBytes(image, n, capacity, i), n)
  {
    seq(capacity, i requires 0 <= i < capacity => DecodeRecord(SlotBytes(image, n, capacity, i), n))
  }

  /** A record write changes its own slot to the sample written, and nothing else:
      no other slot, no id, no header byte, and not the size of the file. */
  lemma {:induction false} RecordWrite(image: Image, n: nat, capacity: nat, slot: nat, x: Sample)
    requires |image| == FileBytes(n, capacity) && slot < capacity && |x.row| == n && IsInt64(x.ts)
    ensures var w := Splice(image, SlotOffset(n, slot), EncodeRecord(x));
            |w| == |image| &&
            w[..RecordsOffset(n)] == image[..RecordsOffset(n)] &&
            Slots(w, n, capacity) == Slots(image, n, capacity)[slot := x]
  {
    var o, b := SlotOffset(n, slot), RecordBytes(n);
    SlotInside(n, capacity, slot);
    var data := EncodeRecord(x);
    var w := Splice(image, o, data);
    DecodeEncodeRecord(x);
    SpliceElsewhere(image, o, data, 0, RecordsOffset(n));
    forall t | 0 <= t < capacity
      ensures Slots(w, n, capacity)[t] == Slots(image, n, capacity)[slot := x][t]
    {
      SlotInside(n, capacity, t);
      if t == slot {
        assert w[o..o + b] == data;
      } else {
        if t < slot { SlotsOrdered(n, t, slot); } else { SlotsOrdered(n, slot, t); }
        SpliceElsewhere(image, o, data, SlotOffset(n, t), SlotOffset(n, t) + b);
      }
    }
  }

  /** Bytes written in front of the slots leave every record as it was. */
  lemma {:induction false} SlotsUntouched(image: Image, n: nat, capacity: nat, offset: nat, data: Image)
    requires |image| == FileBytes(n, capacity) && offset + |data| <= RecordsOffset(n)
    ensures |Splice(image, offset, data)| == |image|
    ensures Slots(Splice(image, offset, data), n, capacity) == Slots(image, n, capacity)
  {
    var w := Splice(image, offset, data);
    if capacity > 0 {
      SlotInside(n, capacity, 0);
    }
    forall t | 0 <= t < capacity
      ensures Slots(w, n, capacity)[t] == Slots(image, n, capacity)[t]
    {
      SlotInside(n, capacity, t);
      SpliceElsewhere(image, offset, data, SlotOffset(n, t), SlotOffset(n, t) + RecordBytes(n));
    }
  }

  /** A header write changes the index and leaves the ids and every slot alone. */
  lemma {:induction false} HeaderWrite(image: Image, n: nat, capacity: nat, h: Header)
    requires |image| == FileBytes(n, capacity) && HeaderFits(h)
    ensures var w := Splice(image, 0, EncodeHeader(h));
            |w| == |image| && DecodeHeader(w) == Known(h) &&
            w[HEADER_BYTES..RecordsOffset(n)] == image[HEADER_BYTES..RecordsOffset(n)] &&
            Slots(w, n, capacity) == Slots(image, n, capacity)
  {
    var data := EncodeHeader(h);
    var w := Splice(image, 0, data);
    assert w[..HEADER_SIZE] == w[0..HEADER_SIZE] == data;
    DecodeEncodeHeader(w, h);
    SlotsUntouched(image, n, capacity, 0, data);
    SpliceElsewhere(image, 0, data, HEADER_BYTES, RecordsOffset(n));
  }
}

/** One history file over the life of a process, on values: what persist.c keeps in
    memory, the bytes on disk, and what a later load makes of those bytes. */
module Mirror {
  import opened Samples
  import opened Bytes
  import opened Layout
  import opened Rings
  import Registry

  const HEADER_FLUSH_EVERY: nat := 60

  datatype State = State(
    n: nat, capacity: nat, interval: nat, head: nat, count: nat, since: nat, owns: bool, image: Image)

  // ----------------------------------------------------------- operations

  function HeaderOf(p: State): Header
  {
    Header(p.n, p.capacity, p.interval, p.head, p.count)
  }

  function WriteHeader(p: State): (q: State)
    ensures q.n == p.n && q.capacity == p.capacity && q.interval == p.interval
  {
    p.(image := Splice(p.image, 0, EncodeHeader(HeaderOf(p))), since := 0)
  }

  function WriteRecord(p: State, x: Sample): State
    requires p.capacity > 0 && IsInt64(x.ts)
  {
    p.(image := Splice(p.image, SlotOffset(p.n, p.head), EncodeRecord(x)),
       head := (p.head + 1) % p.capacity,
       count := if p.count < p.capacity then p.count + 1 else p.count,
       since := p.since + 1)
  }

  /** A record is written at once; the index in the header only every 60 appends. */
  function AppendRecord(p: State, x: Sample): State
    requires p.capacity > 0 && IsInt64(x.ts)
  {
    var q := WriteRecord(p, x);
    if q.since >= HEADER_FLUSH_EVERY then WriteHeader(q) else q
  }

  function AppendRecords(p: State, xs: seq<Sample>): (q: State)
    requires p.capacity > 0 && forall i :: 0 <= i < |xs| ==> IsInt64(xs[i].ts)
    ensures q.capacity == p.capacity && q.n == p.n && q.interval == p.interval
    decreases |xs|
  {
    if xs == [] then p else AppendRecord(AppendRecords(p, xs[..|xs| - 1]), xs[|xs| - 1])
  }

  lemma {:induction false} AppendRecordsNone(p: State)
    requires p.capacity > 0
    ensures AppendRecords(p, []) == p
  {
  }

  lemma {:induction false} AppendRecordsNext(p: State, xs: seq<Sample>, i: nat)
    requires p.capacity > 0 && i < |xs| && forall k :: 0 <= k < |xs| ==> IsInt64(xs[k].ts)
    ensures AppendRecords(p, xs[..i + 1]) == AppendRecord(AppendRecords(p, xs[..i]), xs[i])
  {
    assert xs[..i + 1][..i] == xs[..i];
  }

  /** Lays the file out for a metric set: ids, an empty index, and the full size. */
  function Initialise(p: State, ids: seq<string>): (q: State)
    requires forall i :: 0 <= i < |ids| ==> IsText(ids[i])
    ensures q.n == p.n && q.capacity == p.capacity && q.interval == p.interval
  {
    var q := WriteHeader(p.(head := 0, count := 0, owns := true,
                            image := Splice(p.image, HEADER_BYTES, EncodeIds(ids))));
    q.(image := Resize(q.image, FileBytes(q.n, q.capacity)))
  }

  /** Only a file that was laid out gets its header rewritten on close. */
  function CloseImage(p: State): Image
  {
    if p.owns then WriteHeader(p).image else p.image
  }

  // ----------------------------------------------------------------- load

  /** Readings moved to the columns their ids have now; later duplicates win. */
  function Scatter(row: Row, saved: seq<string>, current: seq<string>, m: nat): (r: Row)
    requires |row| == |saved| && m <= |saved|
    ensures |r| == |current|
    decreases m
  {
    if m == 0 then seq(|current|, _ => Absent)
    else
      var before := Scatter(row, saved, current, m - 1);
      var k := Registry.Find(current, saved[m - 1]);
      if k >= 0 then before[k := row[m - 1]] else before
  }

  function Remap(x: Sample, saved: seq<string>, current: seq<string>): (y: Sample)
    requires |x.row| == |saved|
    ensures |y.row| == |current| && y.ts == x.ts
  {
    Sample(x.ts, Scatter(x.row, saved, current, |saved|))
  }

  ghost predicate Rows(xs: seq<Sample>, n: nat)
  {
    forall i :: 0 <= i < |xs| ==> |xs[i].row| == n
  }

  /** Positive clock readings that fit the record's 64-bit field. */
  ghost predicate Dated(xs: seq<Sample>)
  {
    forall i :: 0 <= i < |xs| ==> 0 < xs[i].ts < TWO63
  }

  function RemapAll(xs: seq<Sample>, saved: seq<string>, current: seq<string>): (ys: seq<Sample>)
    requires forall i :: 0 <= i < |xs| ==> |xs[i].row| == |saved|
    ensures |ys| == |xs|
    ensures forall i :: 0 <= i < |xs| ==> ys[i] == Remap(xs[i], saved, current)
  {
    seq(|xs|, i requires 0 <= i < |xs| => Remap(xs[i], saved, current))
  }

  /** Slot read at step i of a load, with the index taken from the header as it stands
      and the program's 32-bit unsigned arithmetic. */
  function LoadSlot(h: Header, i: nat): (slot: nat)
    requires h.capacity > 0
    ensures slot < h.capacity
  {
    var count := if h.count < h.capacity then h.count else h.capacity;
    var start := (h.head + h.capacity - count) % TWO32 % h.capacity;
    (start + i) % TWO32 % h.capacity
  }

  function LoadFrom(image: Image, h: Header, saved: seq<string>, current: seq<string>, i: nat): (xs: seq<Sample>)
    requires h.capacity > 0 && |saved| == h.nMetrics
    ensures forall k :: 0 <= k < |xs| ==> |xs[k].row| == |current| && 0 < xs[k].ts < TWO63
    decreases h.capacity - i
  {
    if i >= h.count || i >= h.capacity then []
    else
      var offset := SlotOffset(h.nMetrics, LoadSlot(h, i));
      if offset + RecordBytes(h.nMetrics) > |image| then []
      else
        var x := DecodeRecord(image[offset..offset + RecordBytes(h.nMetrics)], h.nMetrics);
        var rest := LoadFrom(image, h, saved, current, i + 1);
        if x.ts <= 0 then rest else [Remap(x, saved, current)] + rest
  }

  predicate Readable(image: Image, interval: nat)
  {
    match DecodeHeader(image)
    case Foreign => false
    case Known(h) =>
      h.interval == interval && 0 < h.nMetrics <= MAX_SAVED_METRICS && h.capacity > 0 &&
      RecordsOffset(h.nMetrics) <= |image|
  }

  function SavedIds(image: Image, n: nat): (ids: seq<string>)
    requires RecordsOffset(n) <= |image|
    ensures |ids| == n
  {
    DecodeIds(image[HEADER_BYTES..RecordsOffset(n)], n)
  }

  /** The samples a load restores, in order, for the metric set of today. */
  function Load(image: Image, interval: nat, current: seq<string>): (xs: seq<Sample>)
    ensures forall k :: 0 <= k < |xs| ==> |xs[k].row| == |current| && 0 < xs[k].ts < TWO63
  {
    if !Readable(image, interval) then []
    else
      var h := DecodeHeader(image).header;
      LoadFrom(image, h, SavedIds(image, h.nMetrics), current, 0)
  }

  // ---------------------------------------------------- remapping by id

  lemma {:induction false} FindOwn(ids: seq<string>, j: nat)
    requires Registry.Distinct(ids) && j < |ids|
    ensures Registry.Find(ids, ids[j]) == j
  {
    assert ids[j] in ids;
  }

  lemma {:induction false} ScatterByIdUpTo(
    row: Row, saved: seq<string>, current: seq<string>, m: nat, j: nat)
    requires |row| == |saved| && m <= |saved| && j < |current|
    requires Registry.Distinct(saved) && Registry.Distinct(current)
    ensures var r := Scatter(row, saved, current, m)[j];
            (forall k :: 0 <= k < m && saved[k] == current[j] ==> r == row[k]) &&
            ((forall k :: 0 <= k < m ==> saved[k] != current[j]) ==> r == Absent)
    decreases m
  {
    if m > 0 {
      ScatterByIdUpTo(row, saved, current, m - 1, j);
      FindOwn(current, j);
    }
  }

  /** Each current id carries the value it was saved with, and is absent if it was not saved. */
  lemma {:induction false} RemapById(x: Sample, saved: seq<string>, current: seq<string>, j: nat)
    requires |x.row| == |saved| && j < |current|
    requires Registry.Distinct(saved) && Registry.Distinct(current)
    ensures var k := Registry.Find(saved, current[j]);
            Remap(x, saved, current).row[j] == if k >= 0 then x.row[k] else Absent
  {
    ScatterByIdUpTo(x.row, saved, current, |saved|, j);
  }

  lemma {:induction false} RemapIdentity(xs: seq<Sample>, ids: seq<string>)
    requires Registry.Distinct(ids) && Rows(xs, |ids|)
    ensures RemapAll(xs, ids, ids) == xs
  {
    forall i | 0 <= i < |xs| ensures Remap(xs[i], ids, ids) == xs[i] {
      forall j | 0 <= j < |ids| ensures Remap(xs[i], ids, ids).row[j] == xs[i].row[j] {
        RemapById(xs[i], ids, ids, j);
        FindOwn(ids, j);
      }
    }
  }

  // ------------------------------------------------- the stale-index view

  /** What a load finds when the index dates from before the pending appends: those
      appends have overwritten the oldest flushed entries where they had to. */
  function Recovered<T>(flushed: seq<T>, pending: seq<T>, capacity: nat): (r: seq<T>)
    requires |flushed| <= capacity && |pending| <= capacity
    ensures |r| == |flushed|
  {
    var over := |flushed| + |pending| - capacity;
    if over <= 0 then flushed else pending[|pending| - over..] + flushed[over..]
  }

  /** Entry by entry: the newest pending ones where they have overwritten the oldest that
      the index covers, the covered ones elsewhere. */
  lemma {:induction false} RecoveredAt<T>(flushed: seq<T>, pending: seq<T>, capacity: nat, i: nat)
    requires |flushed| <= capacity && |pending| <= capacity && i < |flushed|
    ensures Recovered(flushed, pending, capacity)[i]
         == if capacity + i < |flushed| + |pending| then pending[capacity + i - |flushed|] else flushed[i]
  {
  }

  /** A ring in memory, a stale index over the same slots, and two plain lists agree. */
  ghost predicate Tracks<T>(r: Ring<T>, staleHead: nat, flushed: seq<T>, pending: seq<T>)
  {
    && Valid(r) && staleHead < |r.slots| && |flushed| <= |r.slots| && |pending| <= |r.slots|
    && r.head == (staleHead + |pending|) % |r.slots|
    && Denote(r) == LastN(flushed + pending, |r.slots|)
    && Denote(Ring(r.slots, staleHead, |flushed|)) == Recovered(flushed, pending, |r.slots|)
  }

  /** One more record behind the back of a stale index. */
  lemma {:induction false} StaleAppend<T>(slots: seq<T>, head: nat, count: nat, flushed: seq<T>, pending: seq<T>, x: T)
    requires |slots| > 0 && head < |slots| && count <= |slots| && |pending| < |slots|
    requires |flushed| == count
    requires Denote(Ring(slots, head, count)) == Recovered(flushed, pending, |slots|)
    ensures Denote(Ring(slots[(head + |pending|) % |slots| := x], head, count))
         == Recovered(flushed, pending + [x], |slots|)
  {
    var n, k := |slots|, |pending|;
    var w := (head + k) % n;
    WrapOnce(head + k, n);
    var before := Denote(Ring(slots, head, count));
    var after := Denote(Ring(slots[w := x], head, count));
    var goal := Recovered(flushed, pending + [x], n);
    forall i | 0 <= i < count ensures after[i] == goal[i] {
      SlotOfCases(head, count, n, i);
      assert SlotOf(head, count, n, i) == w <==> i == count + k - n;
      if i != count + k - n {
        assert after[i] == before[i];
      }
    }
  }

  lemma {:induction false} TracksAppend<T>(r: Ring<T>, staleHead: nat, flushed: seq<T>, pending: seq<T>, x: T)
    requires Tracks(r, staleHead, flushed, pending) && |pending| < |r.slots|
    ensures Tracks(Rings.Append(r, x), staleHead, flushed, pending + [x])
  {
    hide Denote, Recovered, LastN;
    AppendDenotes(r, x);
    LastNOfTrimmed(flushed + pending, [x], |r.slots|);
    assert flushed + (pending + [x]) == flushed + pending + [x];
    StaleAppend(r.slots, staleHead, |flushed|, flushed, pending, x);
    ModStep(staleHead + |pending|, |r.slots|);
  }

  /** A fresh index covers everything. */
  lemma {:induction false} TracksFlush<T>(r: Ring<T>)
    requires Valid(r)
    ensures Tracks(r, r.head, Denote(r), [])
  {
    WrapOnce(r.head, |r.slots|);
    assert Denote(r) + [] == Denote(r);
  }

  // ------------------------------------------------- the mirror invariant

  /** What the process needs of its configuration: a registry the load accepts, ids the
      table can hold, and a capacity of at least one flush period (the smallest tier
      has 300 slots). */
  ghost predicate Fits(n: nat, capacity: nat, interval: nat, ids: seq<string>)
  {
    n == |ids| && 0 < n <= 100_000 && 60 <= capacity < TWO32 / 2 && interval < TWO32 &&
    AllText(ids) && forall i :: 0 <= i < |ids| ==> |ids[i]| < 64
  }

  /** The file has its full size, the given ids and a header that is ours. */
  ghost predicate LaidOut(image: Image, ids: seq<string>, h: Header)
  {
    Fits(h.nMetrics, h.capacity, h.interval, ids) &&
    h.head < h.capacity && h.count <= h.capacity &&
    |image| == FileBytes(h.nMetrics, h.capacity) &&
    DecodeHeader(image) == Known(h) &&
    RecordsOffset(h.nMetrics) <= |image| &&
    image[HEADER_BYTES..RecordsOffset(h.nMetrics)] == EncodeIds(ids)
  }

  function FileRing(p: State): (r: Ring<Sample>)
    requires FileBytes(p.n, p.capacity) <= |p.image|
    ensures |r.slots| == p.capacity
  {
    Ring(Slots(p.image, p.n, p.capacity), p.head, p.count)
  }

  function DiskHeader(image: Image): Header
  {
    match DecodeHeader(image)
    case Known(h) => h
    case Foreign => Header(0, 0, 0, 0, 0)
  }

  /** The file on disk, the index in memory and two plain lists agree: flushed is what
      the disk index last covered and pending is what was appended since. */
  ghost predicate Mirrors(p: State, ids: seq<string>, flushed: seq<Sample>, pending: seq<Sample>)
  {
    var h := DiskHeader(p.image);
    && p.owns && p.since == |pending| < 60
    && h == Header(p.n, p.capacity, p.interval, h.head, |flushed|)
    && LaidOut(p.image, ids, h)
    && Tracks(FileRing(p), h.head, flushed, pending)
  }
}

/** The history file as persist.c handles it: a file object that outlives the process
    and the handle that reads, lays out and appends to it. */
module PersistFiles {
  import opened Samples
  import opened Bytes
  import opened Layout
  import opened Rings
  import M = Mirror
  import H = History
  import R = Registry
  import S = Stores
  import Recovery

  /** A file on the storage. Writes succeed and each one is atomic. */
  class File {
    var bytes: Image

    constructor ()
      ensures bytes == []
    {
      bytes := [];
    }

    /** read_at: all of the range, or failure when the file ends before it. */
    method ReadAt(length: nat, offset: nat) returns (ok: bool, data: Image)
      ensures ok <==> length == 0 || offset + length <= |bytes|
      ensures ok ==> |data| == length
      ensures ok && length > 0 ==> data == bytes[offset..offset + length]
    {
      ok := length == 0 || offset + length <= |bytes|;
      data := if ok && length > 0 then bytes[offset..offset + length] else [];
    }

    method WriteAt(data: Image, offset: nat)
      modifies this
      ensures bytes == Splice(old(bytes), offset, data)
    {
      bytes := Splice(bytes, offset, data);
    }

    method Truncate(size: nat)
      modifies this
      ensures bytes == Resize(old(bytes), size)
    {
      bytes := Resize(bytes, size);
    }
  }

  class Persist {
    const file: File
    const nMetrics: nat
    const capacity: nat
    const intervalS: nat
    const recordsOffset: nat
    const recordBytes: nat
    var head: nat
    var count: nat
    var appendsSinceHeader: nat
    var ownsFile: bool

    ghost predicate Valid()
      reads this
    {
      capacity > 0 && recordBytes == RecordBytes(nMetrics) && recordsOffset == RecordsOffset(nMetrics)
    }

    ghost function State(): M.State
      reads this, file
    {
      M.State(nMetrics, capacity, intervalS, head, count, appendsSinceHeader, ownsFile, file.bytes)
    }

    /** persist_open, for storage that is there: the layout of the current tier, and an
        index of zero that is not the file's yet. */
    constructor (file: File, nMetrics: nat, capacity: nat, intervalS: nat)
      requires capacity > 0
      ensures Valid() && this.file == file
      ensures State() == M.State(nMetrics, capacity, intervalS, 0, 0, 0, false, file.bytes)
    {
      this.file := file;
      this.nMetrics := nMetrics;
      this.capacity := capacity;
      this.intervalS := intervalS;
      recordBytes := RecordBytes(nMetrics);
      recordsOffset := RecordsOffset(nMetrics);
      head, count, appendsSinceHeader, ownsFile := 0, 0, 0, false;
    }

    method WriteHeader()
      requires Valid()
      modifies this`appendsSinceHeader, file
      ensures Valid() && State() == M.WriteHeader(old(State()))
    {
      file.WriteAt(EncodeHeader(Header(nMetrics, capacity, intervalS, head, count)), 0);
      appendsSinceHeader := 0;
    }

    /** persist_close: the header is only this handle's to write once the file was laid out. */
    method Close()
      requires Valid()
      modifies this`appendsSinceHeader, file
      ensures file.bytes == M.CloseImage(old(State()))
    {
      if ownsFile {
        WriteHeader();
      }
    }

    method IdTable(registry: R.MetricRegistry) returns (table: Image)
      requires registry.Valid() && AllText(registry.Ids())
      ensures table == EncodeIds(registry.Ids())
    {
      ghost var ids := registry.Ids();
      table := [];
      var i := 0;
      while i < registry.count
        invariant i <= registry.count == |ids| && AllText(ids[..i])
        invariant table == EncodeIds(ids[..i])
      {
        assert registry.defs[i].id == ids[i];
        EncodeIdsNext(ids, i);
        table := table + EncodeId(registry.defs[i].id);
        i := i + 1;
      }
      assert ids[..i] == ids;
    }

    /** initialise_file. */
    method Initialise(registry: R.MetricRegistry)
      requires Valid() && registry.Valid() && AllText(registry.Ids())
      modifies this, file
      ensures Valid() && State() == M.Initialise(old(State()), registry.Ids())
    {
      hide Splice, EncodeHeader, EncodeIds, Resize;
      head, count, ownsFile := 0, 0, true;
      var table := IdTable(registry);
      file.WriteAt(table, HEADER_BYTES);
      WriteHeader();
      file.Truncate(recordsOffset + capacity * recordBytes);
    }

    /** persist_append: the record at once, the header every 60 records. */
    method Append(values: Row, timestamp: int)
      requires Valid() && |values| == nMetrics && IsInt64(timestamp)
      modifies this, file
      ensures Valid() && State() == M.AppendRecord(old(State()), Sample(timestamp, values))
    {
      hide EncodeRecord, EncodeHeader, Splice;
      file.WriteAt(EncodeRecord(Sample(timestamp, values)), recordsOffset + head * recordBytes);
      head := (head + 1) % capacity;
      if count < capacity {
        count := count + 1;
      }
      appendsSinceHeader := appendsSinceHeader + 1;
      if appendsSinceHeader >= M.HEADER_FLUSH_EVERY {
        WriteHeader();
      }
    }

    /** persist_sync: rewrites the file for the current metric set and replays the tier. */
    method Sync(registry: R.MetricRegistry, tier: S.Tier)
      requires Valid() && registry.Valid() && AllText(registry.Ids())
      requires tier.Valid() && tier.nMetrics == nMetrics && M.Dated(Denote(tier.RingOf()))
      modifies this, file
      ensures Valid()
      ensures State() == H.Sync(old(State()), registry.Ids(), Denote(tier.RingOf()))
    {
      hide M.Initialise, M.AppendRecord, M.AppendRecords, Denote, S.Tier.RingOf, R.MetricRegistry.Ids, AllText;
      hide Rings.Valid;
      ghost var held := Denote(tier.RingOf());
      ghost var ids := registry.Ids();
      Initialise(registry);
      ghost var start := State();
      M.AppendRecordsNone(start);
      var i := 0;
      var ok, values, timestamp := tier.SampleAt(i);
      while ok
        invariant Valid() && registry.Valid() && tier.Valid() && registry.Ids() == ids && Denote(tier.RingOf()) == held
        invariant i <= |held| && (ok <==> i < |held|) && (ok ==> Sample(timestamp, values) == held[i])
        invariant State() == M.AppendRecords(start, held[..i])
        modifies this, file
        decreases |held| - i
      {
        Append(values, timestamp);
        M.AppendRecordsNext(start, held, i);
        i := i + 1;
        ok, values, timestamp := tier.SampleAt(i);
      }
      assert held[..i] == held;
    }
  
    /** The header, if the file starts with one of ours. */
    method ReadHeader() returns (r: HeaderRead)
      ensures r == DecodeHeader(file.bytes)
    {
      var ok, raw := file.ReadAt(HEADER_SIZE, 0);
      if !ok {
        return Foreign;
      }
      assert raw[..HEADER_SIZE] == raw == file.bytes[..HEADER_SIZE];
      Recovery.SameHeader(raw, file.bytes);
      r := DecodeHeader(raw);
    }

    /** Column of each saved id in the current metric set, or -1. */
    method MapIds(registry: R.MetricRegistry, table: Image, n: nat) returns (mapping: array<int>)
      requires registry.Valid()
      ensures fresh(mapping) && mapping.Length == n
      ensures forall i :: 0 <= i < n ==> mapping[i] == R.Find(registry.Ids(), DecodeIds(table, n)[i])
    {
      mapping := new int[n](_ => -1);
      var i := 0;
      while i < n
        invariant i <= n
        invariant forall k :: 0 <= k < i ==> mapping[k] == R.Find(registry.Ids(), DecodeIds(table, n)[k])
        modifies mapping
      {
        var column := registry.MetricsFind(TextAt(table, i * METRIC_ID_MAX));
        mapping[i] := column;
        i := i + 1;
      }
    }

    /** One saved row in today's columns; what was not saved is absent. */
    static method Remapped(
      width: nat, mapping: array<int>, row: Row, ghost saved: seq<string>, ghost current: seq<string>)
      returns (values: Row)
      requires mapping.Length == |row| == |saved|
      requires forall i :: 0 <= i < |saved| ==> mapping[i] == R.Find(current, saved[i])
      requires width == |current|
      ensures values == M.Scatter(row, saved, current, |saved|)
    {
      values := seq(width, _ => Absent);
      var m := 0;
      while m < |row|
        invariant m <= |row|
        invariant values == M.Scatter(row, saved, current, m)
      {
        if mapping[m] >= 0 {
          values := values[mapping[m] := row[m]];
        }
        m := m + 1;
      }
    }

    /** One record slot of a file laid out with n metrics; none if the file ends first. */
    method ReadSlot(n: nat, slot: nat) returns (complete: bool, x: Sample)
      ensures complete <==> SlotOffset(n, slot) + RecordBytes(n) <= |file.bytes|
      ensures complete ==> |x.row| == n
      ensures complete ==> x == DecodeRecord(file.bytes[SlotOffset(n, slot)..SlotOffset(n, slot) + RecordBytes(n)], n)
    {
      var ok, raw := file.ReadAt(RecordBytes(n), SlotOffset(n, slot));
      complete := ok;
      x := if ok then DecodeRecord(raw, n) else Sample(0, []);
    }

    /** The replay loop of persist_load. */
    method Replay(h: Header, mapping: array<int>, tier: S.Tier, ghost saved: seq<string>, ghost current: seq<string>)
      returns (restored: nat)
      requires h.capacity > 0 && |saved| == h.nMetrics == mapping.Length
      requires forall i :: 0 <= i < |saved| ==> mapping[i] == R.Find(current, saved[i])
      requires tier.Valid() && tier.nMetrics == |current| && mapping as object !in tier.Repr
      modifies tier`head, tier`count, tier.timestamps, tier.data
      ensures tier.Valid()
      ensures var xs := M.LoadFrom(file.bytes, h, saved, current, 0);
              restored == |xs| && tier.RingOf() == Rings.AppendAll(old(tier.RingOf()), xs)
    {
      hide M.LoadFrom, Rings.AppendAll, Rings.Append, M.Scatter, S.Tier.RingOf, R.Find;
      restored := 0;
      var total := if h.count < h.capacity then h.count else h.capacity;
      var start := (h.head + h.capacity - total) % TWO32 % h.capacity;
      ghost var done: seq<Sample> := [];
      ghost var all := M.LoadFrom(file.bytes, h, saved, current, 0);
      NothingDone(old(tier.RingOf()));
      var i := 0;
      while i < total
        invariant i <= total && tier.Valid()
        invariant restored == |done| && done + M.LoadFrom(file.bytes, h, saved, current, i) == all
        invariant tier.RingOf() == Rings.AppendAll(old(tier.RingOf()), done)
        modifies tier`head, tier`count, tier.timestamps, tier.data
      {
        var slot := (start + i) % TWO32 % h.capacity;
        var complete, x := ReadSlot(h.nMetrics, slot);
        LoadFromStep(file.bytes, h, saved, current, i);
        if !complete {
          assert done + [] == done;
          return;
        }
        i := i + 1;
        if x.ts > 0 {
          var values := Remapped(tier.nMetrics, mapping, x.row, saved, current);
          Rings.AppendAllNext(old(tier.RingOf()), done, M.Remap(x, saved, current));
          tier.Append(values, x.ts);
          done := done + [M.Remap(x, saved, current)];
          restored := restored + 1;
        }
      }
      LoadFromEnd(file.bytes, h, saved, current, i);
      assert done + [] == done;
    }

    /** persist_load: replays what the header's index covers into the tier, remapped by
        id, and says how many samples that was. */
    method Load(registry: R.MetricRegistry, tier: S.Tier) returns (restored: nat)
      requires Valid() && registry.Valid()
      requires tier.Valid() && tier.nMetrics == registry.count
      modifies tier`head, tier`count, tier.timestamps, tier.data
      ensures tier.Valid()
      ensures var saved := M.Load(file.bytes, intervalS, registry.Ids());
              restored == |saved| && tier.RingOf() == Rings.AppendAll(old(tier.RingOf()), saved)
    {
      hide M.LoadFrom, S.Tier.RingOf, R.MetricRegistry.Ids, Rings.AppendAll, DecodeHeader;
      restored := 0;
      NothingDone(tier.RingOf());
      var read := ReadHeader();
      if read.Foreign? {
        return;
      }
      var h := read.header;
      if h.interval != intervalS || h.nMetrics == 0 || h.nMetrics > MAX_SAVED_METRICS || h.capacity == 0 {
        return;
      }
      var ok, table := file.ReadAt(IdTableBytes(h.nMetrics), HEADER_BYTES);
      if !ok {
        return;
      }
      var mapping := MapIds(registry, table, h.nMetrics);
      restored := Replay(h, mapping, tier, M.SavedIds(file.bytes, h.nMetrics), registry.Ids());
    }
  }

  lemma {:induction false} NothingDone(r: Ring<Sample>)
    requires Rings.Valid(r)
    ensures Rings.AppendAll(r, []) == r
  {
  }

  /** One turn of the replay loop. */
  lemma {:induction false} LoadFromStep(image: Image, h: Header, saved: seq<string>, current: seq<string>, i: nat)
    requires h.capacity > 0 && |saved| == h.nMetrics && i < h.count && i < h.capacity
    ensures var offset := SlotOffset(h.nMetrics, M.LoadSlot(h, i));
            var rest := M.LoadFrom(image, h, saved, current, i + 1);
            M.LoadFrom(image, h, saved, current, i) ==
            if offset + RecordBytes(h.nMetrics) > |image| then []
            else
              var x := DecodeRecord(image[offset..offset + RecordBytes(h.nMetrics)], h.nMetrics);
              if x.ts <= 0 then rest else [M.Remap(x, saved, current)] + rest
  {
  }

  lemma {:induction false} LoadFromEnd(image: Image, h: Header, saved: seq<string>, current: seq<string>, i: nat)
    requires h.capacity > 0 && |saved| == h.nMetrics && (i >= h.count || i >= h.capacity)
    ensures M.LoadFrom(image, h, saved, current, i) == []
  {
  }
}

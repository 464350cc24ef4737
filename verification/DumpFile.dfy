/** pkg/storage/lru/dumper.go: the record framing of a dump file, its write loop and its read loop. */
module DumpFile {
  import opened ByteCompare
  import opened Wire
  import opened EntryCodec
  import opened Wrappers

  type U32 = n: nat | n < TWO_32
  type Checksum = Bytes -> U32

  const META: nat := 8

  /** What loading one file comes to: the entries handed to the storage in order, and the failures
      counted. `crashed` is a panic inside a decoder, which nothing recovers. */
  datatype Report = Report(entries: seq<Record>, failures: nat, crashed: bool)

  function Sum(control: bool, crc: Checksum, data: Bytes): U32 {
    if control then crc(data) else 0
  }

  function Framed(sum: U32, data: Bytes): Bytes {
    PutU32(|data|) + PutU32(sum) + data
  }

  ghost predicate Writable(rs: seq<Record>) {
    forall r <- rs :: Fits(r) && |EntryBytes(r)| < TWO_32
  }

  /** Every record's rule is still configured. */
  ghost predicate Known(rs: seq<Record>, rules: set<Bytes>) {
    forall r <- rs :: r.rule in rules
  }

  ghost predicate Filled(rs: seq<Record>) {
    forall r <- rs :: r.payload.Some?
  }

  function Frame(control: bool, crc: Checksum, r: Record): Bytes
    requires Fits(r)
  {
    Framed(Sum(control, crc, EntryBytes(r)), EntryBytes(r))
  }

  ghost function FileBytes(control: bool, crc: Checksum, rs: seq<Record>): Bytes
    requires Writable(rs)
  {
    if rs == [] then [] else Frame(control, crc, rs[0]) + FileBytes(control, crc, rs[1..])
  }

  /** The failure that ends a file, or nothing at a clean end. */
  function Ending(failures: nat, crashed: bool): Report {
    Report([], failures, crashed)
  }

  function Lost(rest: Report): Report {
    rest.(failures := rest.failures + 1)
  }

  function Gained(r: Record, rest: Report): Report {
    rest.(entries := [r] + rest.entries)
  }

  /** What becomes of one complete record in front of a rest already judged. */
  function Judged(sum: U32, data: Bytes, control: bool, crc: Checksum, rules: set<Bytes>, rest: Report): Report {
    var entry := ReadEntry(data, rules);
    if control && crc(data) != sum then Lost(rest)
    else if entry.OutOfRange? then Ending(0, true)
    else if entry.value.None? then Lost(rest)
    else Gained(entry.value.value, rest)
  }

  function SizeOf(file: Bytes): nat
    requires |file| >= META
  {
    GetU32(file[..4])
  }

  function SumOf(file: Bytes): U32
    requires |file| >= META
  {
    GetU32(file[4..META])
  }

  /** The file starts with a complete record. */
  predicate Complete(file: Bytes) {
    |file| >= META && |file| >= META + SizeOf(file)
  }

  function DataOf(file: Bytes): Bytes
    requires Complete(file)
  {
    file[META..META + SizeOf(file)]
  }

  function RestOf(file: Bytes): (rest: Bytes)
    requires Complete(file)
    ensures |rest| < |file|
  {
    file[META + SizeOf(file)..]
  }

  /** What the read loop makes of the bytes it has not read yet. */
  function Loaded(file: Bytes, control: bool, crc: Checksum, rules: set<Bytes>): Report
    decreases |file|
  {
    if file == [] then Ending(0, false)
    else if !Complete(file) then Ending(1, false)
    else Judged(SumOf(file), DataOf(file), control, crc, rules, Loaded(RestOf(file), control, crc, rules))
  }

  /** The records come back in order, then whatever the rest of the file gives. */
  function Prefixed(rs: seq<Record>, rest: Report): Report {
    Report(rs + rest.entries, rest.failures, rest.crashed)
  }

  function Restoreds(rs: seq<Record>): seq<Record> {
    if rs == [] then [] else [Restored(rs[0])] + Restoreds(rs[1..])
  }

  // ---------------------------------------------------------------------------------------------
  // The loops

  lemma {:induction false} FileGrows(control: bool, crc: Checksum, rs: seq<Record>, tail: seq<Record>)
    requires Writable(rs) && Writable(tail)
    ensures Writable(rs + tail)
    ensures FileBytes(control, crc, rs + tail) == FileBytes(control, crc, rs) + FileBytes(control, crc, tail)
  {
    hide Frame, EntryCodec.Fits, EntryBytes;
    if rs == [] {
      assert [] + tail == tail;
      assert [] + FileBytes(control, crc, tail) == FileBytes(control, crc, tail);
    } else {
      FileGrows(control, crc, rs[1..], tail);
      assert (rs + tail)[1..] == rs[1..] + tail && (rs + tail)[0] == rs[0];
      var first, others, last := Frame(control, crc, rs[0]), FileBytes(control, crc, rs[1..]),
        FileBytes(control, crc, tail);
      assert first + (others + last) == first + others + last;
    }
  }

  lemma FileSplits(control: bool, crc: Checksum, rs: seq<Record>, n: nat)
    requires Writable(rs) && n <= |rs|
    ensures FileBytes(control, crc, rs) == FileBytes(control, crc, rs[..n]) + FileBytes(control, crc, rs[n..])
  {
    hide FileBytes, EntryCodec.Fits, EntryBytes;
    FileGrows(control, crc, rs[..n], rs[n..]);
    assert rs[..n] + rs[n..] == rs;
  }

  lemma FileOfOne(control: bool, crc: Checksum, rs: seq<Record>, n: nat)
    requires Writable(rs) && n < |rs|
    ensures FileBytes(control, crc, rs[..n + 1]) == FileBytes(control, crc, rs[..n]) + Frame(control, crc, rs[n])
    ensures FileBytes(control, crc, rs[n..]) == Frame(control, crc, rs[n]) + FileBytes(control, crc, rs[n + 1..])
  {
    hide Frame, EntryCodec.Fits, EntryBytes;
    FileGrows(control, crc, rs[..n], [rs[n]]);
    assert rs[..n + 1] == rs[..n] + [rs[n]];
    assert FileBytes(control, crc, [rs[n]]) == Frame(control, crc, rs[n]) + [] == Frame(control, crc, rs[n]);
    assert rs[n..][1..] == rs[n + 1..];
  }

  method DumpShard(rs: seq<Record>, control: bool, crc: Checksum) returns (file: Bytes, success: nat)
    requires Writable(rs)
    ensures file == FileBytes(control, crc, rs)
    ensures success == |rs|
  {
    hide EntryBytes, EntryCodec.Fits, PutU32;
    file, success := [], 0;
    for i := 0 to |rs|
      invariant file == FileBytes(control, crc, rs[..i])
      invariant success == i
    {
      var data := ToBytes(rs[i]);
      var sum: U32 := 0;
      if control { sum := crc(data); }
      FileOfOne(control, crc, rs, i);
      file := file + (PutU32(|data|) + PutU32(sum));
      file := file + data;
      success := success + 1;
    }
    assert rs[..|rs|] == rs;
  }

  /** A report that continues what was gathered so far. */
  function Continued(entries: seq<Record>, failures: nat, rest: Report): Report {
    Report(entries + rest.entries, failures + rest.failures, rest.crashed)
  }

  /** The parts of an unread rest as slices of the whole file. */
  lemma PartsAt(file: Bytes, offset: nat)
    requires offset + META <= |file|
    ensures SizeOf(file[offset..]) == GetU32(file[offset..offset + 4])
    ensures SumOf(file[offset..]) == GetU32(file[offset + 4..offset + META])
    ensures Complete(file[offset..]) <==> SizeOf(file[offset..]) <= |file| - offset - META
    ensures Complete(file[offset..]) ==> var end := offset + META + SizeOf(file[offset..]);
      && DataOf(file[offset..]) == file[offset + META..end]
      && RestOf(file[offset..]) == file[end..]
  {
    hide GetU32;
    var unread := file[offset..];
    assert unread[..4] == file[offset..offset + 4] && unread[4..META] == file[offset + 4..offset + META];
  }

  method LoadFile(file: Bytes, control: bool, crc: Checksum, rules: set<Bytes>) returns (report: Report)
    ensures report == Loaded(file, control, crc, rules)
  {
    hide SizeOf, SumOf, DataOf, RestOf, GetU32, ReadEntry;
    var entries: seq<Record>, failures, offset := [], 0, 0;
    assert file[0..] == file && [] + Loaded(file, control, crc, rules).entries
      == Loaded(file, control, crc, rules).entries;
    while offset < |file|
      invariant offset <= |file|
      invariant Loaded(file, control, crc, rules)
             == Continued(entries, failures, Loaded(file[offset..], control, crc, rules))
    {
      if |file| - offset < META {
        assert entries + [] == entries;
        return Report(entries, failures + 1, false);
      }
      PartsAt(file, offset);
      var size, sum := GetU32(file[offset..offset + 4]), GetU32(file[offset + 4..offset + META]);
      offset := offset + META;
      if |file| - offset < size {
        assert entries + [] == entries;
        return Report(entries, failures + 1, false);
      }
      var data := file[offset..offset + size];
      offset := offset + size;
      if control && crc(data) != sum {
        failures := failures + 1;
        continue;
      }
      var entry := EntryFromBytes(data, rules);
      if entry.OutOfRange? {
        assert entries + [] == entries;
        return Report(entries, failures, true);
      }
      if entry.value.None? {
        failures := failures + 1;
        continue;
      }
      ghost var rest := Loaded(file[offset..], control, crc, rules).entries;
      assert entries + ([entry.value.value] + rest) == entries + [entry.value.value] + rest;
      entries := entries + [entry.value.value];
    }
    assert entries + [] == entries;
    return Report(entries, failures, false);
  }

  // ---------------------------------------------------------------------------------------------
  // Dump, then load

  lemma FrameParts(sum: U32, data: Bytes, tail: Bytes)
    requires |data| < TWO_32
    ensures var file := Framed(sum, data) + tail;
      Complete(file) && SumOf(file) == sum && DataOf(file) == data && RestOf(file) == tail
  {
    U32Back(|data|);
    U32Back(sum);
    hide GetU32, PutU32;
    var file := Framed(sum, data) + tail;
    assert file[..4] == PutU32(|data|) && file[4..META] == PutU32(sum);
    assert file[META..META + |data|] == data && file[META + |data|..] == tail;
  }

  /** One intact frame: its data is judged, the loop goes on behind it. */
  lemma OneFrame(sum: U32, data: Bytes, tail: Bytes, control: bool, crc: Checksum, rules: set<Bytes>)
    requires |data| < TWO_32
    ensures Loaded(Framed(sum, data) + tail, control, crc, rules)
         == Judged(sum, data, control, crc, rules, Loaded(tail, control, crc, rules))
  {
    hide Framed, Complete, SumOf, DataOf, RestOf, Judged;
    FrameParts(sum, data, tail);
    assert Framed(sum, data) + tail != [] by { assert !Complete([]) by { NothingComplete(); } }
  }

  lemma NothingComplete()
    ensures !Complete([])
  {
  }

  /** Whole records in front of any tail are restored in order; the tail is read as if alone. The
      loader may leave the checksums unchecked, but must not ask for them if none were written. */
  lemma {:induction false} RecordsFirst(rs: seq<Record>, tail: Bytes, written: bool, control: bool,
    crc: Checksum, rules: set<Bytes>)
    requires Writable(rs) && (control ==> written) && Known(rs, rules)
    ensures Loaded(FileBytes(written, crc, rs) + tail, control, crc, rules)
         == Prefixed(Restoreds(rs), Loaded(tail, control, crc, rules))
  {
    if rs == [] {
      assert [] + tail == tail;
      assert [] + Loaded(tail, control, crc, rules).entries == Loaded(tail, control, crc, rules).entries;
    } else {
      var data, others := EntryBytes(rs[0]), FileBytes(written, crc, rs[1..]) + tail;
      assert FileBytes(written, crc, rs) + tail == Frame(written, crc, rs[0]) + others;
      OneFrame(Sum(written, crc, data), data, others, control, crc, rules);
      EntryCodec.RoundTrip(rs[0], data, rules);
      RecordsFirst(rs[1..], tail, written, control, crc, rules);
      hide EntryBytes, ReadEntry, Loaded;
      var rest := Loaded(tail, control, crc, rules).entries;
      assert [Restored(rs[0])] + (Restoreds(rs[1..]) + rest) == [Restored(rs[0])] + Restoreds(rs[1..]) + rest;
    }
  }

  /** Dump then load is the identity on records, up to missing payloads, without a failure. */
  lemma LoadOfDump(rs: seq<Record>, written: bool, control: bool, crc: Checksum, rules: set<Bytes>)
    requires Writable(rs) && (control ==> written) && Known(rs, rules)
    ensures Loaded(FileBytes(written, crc, rs), control, crc, rules) == Report(Restoreds(rs), 0, false)
    ensures Filled(rs) ==> Restoreds(rs) == rs
  {
    RecordsFirst(rs, [], written, control, crc, rules);
    assert FileBytes(written, crc, rs) + [] == FileBytes(written, crc, rs);
    assert Restoreds(rs) + [] == Restoreds(rs);
    if Filled(rs) { NothingMissing(rs); }
  }

  lemma {:induction false} NothingMissing(rs: seq<Record>)
    requires Filled(rs)
    ensures Restoreds(rs) == rs
  {
    if rs != [] { NothingMissing(rs[1..]); }
  }

  lemma PartIncomplete(sum: U32, data: Bytes, n: nat)
    requires |data| < TWO_32 && 0 < n < |Framed(sum, data)|
    ensures Framed(sum, data)[..n] != [] && !Complete(Framed(sum, data)[..n])
  {
    U32Back(|data|);
    hide GetU32, PutU32;
    var part := Framed(sum, data)[..n];
    assert n >= 4 ==> part[..4] == PutU32(|data|);
  }

  /** A part of a frame, not empty, is one failure and nothing else. */
  lemma PartOfFrame(sum: U32, data: Bytes, n: nat, control: bool, crc: Checksum, rules: set<Bytes>)
    requires |data| < TWO_32 && 0 < n < |Framed(sum, data)|
    ensures Loaded(Framed(sum, data)[..n], control, crc, rules) == Report([], 1, false)
  {
    hide Framed, Complete;
    PartIncomplete(sum, data, n);
  }

  lemma PartOfRecord(r: Record, file: Bytes, n: nat, written: bool, control: bool, crc: Checksum, rules: set<Bytes>)
    requires Fits(r) && |EntryBytes(r)| < TWO_32 && Frame(written, crc, r) <= file
    requires 0 < n < |Frame(written, crc, r)|
    ensures Loaded(file[..n], control, crc, rules) == Report([], 1, false)
  {
    hide Loaded, EntryBytes, Framed, EntryCodec.Fits;
    var data := EntryBytes(r);
    assert file[..n] == Frame(written, crc, r)[..n];
    PartOfFrame(Sum(written, crc, data), data, n, control, crc, rules);
  }

  lemma PartsWritable(rs: seq<Record>, n: nat)
    requires Writable(rs) && n <= |rs|
    ensures Writable(rs[..n]) && Writable(rs[n..])
    ensures n < |rs| ==> Writable(rs[..n + 1]) && Fits(rs[n]) && |EntryBytes(rs[n])| < TWO_32
  {
  }

  /** What is left of the records from `whole` on when not even the first of them is complete. */
  lemma TailCut(rs: seq<Record>, whole: nat, n: nat, written: bool, control: bool, crc: Checksum, rules: set<Bytes>)
    requires Writable(rs) && whole <= |rs| && Writable(rs[whole..]) && n <= |FileBytes(written, crc, rs[whole..])|
    requires whole < |rs| ==> n < |Frame(written, crc, rs[whole])|
    ensures Loaded(FileBytes(written, crc, rs[whole..])[..n], control, crc, rules)
      == Report([], if n == 0 then 0 else 1, false)
  {
    assert Loaded([], control, crc, rules) == Ending(0, false)
      && (whole == |rs| ==> FileBytes(written, crc, rs[whole..]) == []);
    PartsWritable(rs, whole);
    if n > 0 { FileOfOne(written, crc, rs, whole); }
    hide Loaded, FileBytes, Frame, Writable, EntryCodec.Fits, EntryBytes;
    if n > 0 {
      PartOfRecord(rs[whole], FileBytes(written, crc, rs[whole..]), n, written, control, crc, rules);
    }
  }

  lemma CutBehind(kept: Bytes, tail: Bytes, n: nat)
    requires |kept| <= n <= |kept| + |tail|
    ensures (kept + tail)[..n] == kept + tail[..n - |kept|]
  {
  }

  /** A file cut anywhere gives exactly the records that are whole before the cut, and one failure
      unless the cut falls between two records. */
  lemma Truncated(rs: seq<Record>, n: nat, written: bool, control: bool, crc: Checksum, rules: set<Bytes>)
    returns (whole: nat)
    requires Writable(rs) && (control ==> written) && Known(rs, rules)
    requires n <= |FileBytes(written, crc, rs)|
    ensures whole <= |rs| && |FileBytes(written, crc, rs[..whole])| <= n
    ensures whole < |rs| ==> n < |FileBytes(written, crc, rs[..whole + 1])|
    ensures Loaded(FileBytes(written, crc, rs)[..n], control, crc, rules)
         == Report(Restoreds(rs[..whole]), if n == |FileBytes(written, crc, rs[..whole])| then 0 else 1, false)
  {
    hide EntryBytes, EntryCodec.Fits, FileBytes, Frame, Loaded, Restoreds;
    whole := WholeRecords(rs, n, written, crc);
    PartsWritable(rs, whole);
    assert Known(rs[..whole], rules);
    hide Writable, Known;
    FileSplits(written, crc, rs, whole);
    if whole < |rs| { FileOfOne(written, crc, rs, whole); }
    var kept, tail := FileBytes(written, crc, rs[..whole]), FileBytes(written, crc, rs[whole..]);
    CutBehind(kept, tail, n);
    TailCut(rs, whole, n - |kept|, written, control, crc, rules);
    RecordsFirst(rs[..whole], tail[..n - |kept|], written, control, crc, rules);
    assert Restoreds(rs[..whole]) + [] == Restoreds(rs[..whole]);
  }

  lemma {:induction false} WholeRecords(rs: seq<Record>, n: nat, written: bool, crc: Checksum) returns (whole: nat)
    requires Writable(rs)
    ensures whole <= |rs| && |FileBytes(written, crc, rs[..whole])| <= n
    ensures whole < |rs| ==> n < |FileBytes(written, crc, rs[..whole + 1])|
  {
    hide Frame;
    whole := 0;
    while whole < |rs| && |FileBytes(written, crc, rs[..whole + 1])| <= n
      invariant whole <= |rs| && |FileBytes(written, crc, rs[..whole])| <= n
    {
      whole := whole + 1;
    }
  }

  /** A record whose bytes no longer match its checksum is lost alone: everything before and after it
      is restored. */
  lemma DamageStaysLocal(before: seq<Record>, sum: U32, data: Bytes, after: seq<Record>, crc: Checksum,
    rules: set<Bytes>)
    requires Writable(before) && Writable(after) && |data| < TWO_32 && crc(data) != sum
    requires Known(before, rules) && Known(after, rules)
    ensures Loaded(FileBytes(true, crc, before) + (Framed(sum, data) + FileBytes(true, crc, after)), true, crc, rules)
         == Report(Restoreds(before) + Restoreds(after), 1, false)
  {
    RecordsFirst(before, Framed(sum, data) + FileBytes(true, crc, after), true, true, crc, rules);
    OneFrame(sum, data, FileBytes(true, crc, after), true, crc, rules);
    LoadOfDump(after, true, true, crc, rules);
  }

  /** A record crashes the load exactly when it gets past the checksum, or none is asked for, and its
      contents are too short for their own lengths; otherwise the rest of the file decides. */
  lemma CrashIff(sum: U32, data: Bytes, tail: Bytes, control: bool, crc: Checksum, rules: set<Bytes>)
    requires |data| < TWO_32
    ensures Loaded(Framed(sum, data) + tail, control, crc, rules).crashed <==>
      || ((control ==> crc(data) == sum) && Short(data, rules))
      || Loaded(tail, control, crc, rules).crashed
  {
    OneFrame(sum, data, tail, control, crc, rules);
    PanicsIffShort(data, rules);
    hide Loaded, Framed, ReadEntry, Short;
  }

  /** Without the check such a record takes the rest of the file with it: the records before it are
      restored and the whole load ends in a panic. */
  lemma UncheckedDamageCrashes(before: seq<Record>, data: Bytes, tail: Bytes, crc: Checksum, rules: set<Bytes>)
    requires Writable(before) && Known(before, rules) && |data| < TWO_32 && Short(data, rules)
    ensures Loaded(FileBytes(false, crc, before) + (Framed(0, data) + tail), false, crc, rules)
         == Report(Restoreds(before), 0, true)
  {
    RecordsFirst(before, Framed(0, data) + tail, false, false, crc, rules);
    OneFrame(0, data, tail, false, crc, rules);
    PanicsIffShort(data, rules);
    assert Restoreds(before) + [] == Restoreds(before);
    hide Loaded, Framed, ReadEntry, Short;
  }

  /** A frame is the length of its contents, their checksum and the contents. */
  lemma FrameLayout(sum: U32, data: Bytes)
    ensures var b := Framed(sum, data);
      |b| == 8 + |data| && b[..4] == PutU32(|data|) && b[4..8] == PutU32(sum) && b[8..] == data
  {
    hide PutU32;
  }

  /** A record is framed with the checksum of its bytes, or with zero where none are written. */
  lemma RecordFramed(r: Record, crc: Checksum)
    requires Fits(r)
    ensures Frame(true, crc, r) == Framed(crc(EntryBytes(r)), EntryBytes(r))
    ensures Frame(false, crc, r) == Framed(0, EntryBytes(r))
  {
    hide Framed, EntryBytes;
  }

  /** The records whose rule is still configured. */
  function StillKnown(rs: seq<Record>, rules: set<Bytes>): seq<Record> {
    if rs == [] then []
    else (if rs[0].rule in rules then [rs[0]] else []) + StillKnown(rs[1..], rules)
  }

  /** Rules may have gone since the dump: their records are one failure each, all others are restored in
      order. */
  lemma {:induction false} LoadOfAnyDump(rs: seq<Record>, written: bool, control: bool,
    crc: Checksum, rules: set<Bytes>)
    requires Writable(rs) && (control ==> written)
    ensures |StillKnown(rs, rules)| <= |rs|
    ensures Loaded(FileBytes(written, crc, rs), control, crc, rules)
         == Report(Restoreds(StillKnown(rs, rules)), |rs| - |StillKnown(rs, rules)|, false)
  {
    hide EntryBytes, Frame, Loaded, EntryCodec.Fits;
    if rs == [] {
      NothingLoaded(control, crc, rules);
    } else {
      var others := FileBytes(written, crc, rs[1..]);
      OneRecord(rs[0], others, written, control, crc, rules);
      LoadOfAnyDump(rs[1..], written, control, crc, rules);
      assert FileBytes(written, crc, rs) == Frame(written, crc, rs[0]) + others;
      var known := StillKnown(rs[1..], rules);
      RestoredsOfOne(rs[0], known);
      assert [] + known == known;
      assert StillKnown(rs, rules) == if rs[0].rule in rules then [rs[0]] + known else known;
    }
  }

  lemma NothingLoaded(control: bool, crc: Checksum, rules: set<Bytes>)
    ensures Loaded([], control, crc, rules) == Report([], 0, false)
  {
  }

  lemma RestoredsOfOne(r: Record, rs: seq<Record>)
    ensures Restoreds([r] + rs) == [Restored(r)] + Restoreds(rs)
  {
    assert ([r] + rs)[1..] == rs;
  }

  lemma OneRecord(r: Record, tail: Bytes, written: bool, control: bool, crc: Checksum, rules: set<Bytes>)
    requires Fits(r) && |EntryBytes(r)| < TWO_32 && (control ==> written)
    ensures var rest := Loaded(tail, control, crc, rules);
      Loaded(Frame(written, crc, r) + tail, control, crc, rules)
      == if r.rule in rules then Gained(Restored(r), rest) else Lost(rest)
  {
    var data := EntryBytes(r);
    EntryCodec.RoundTrip(r, data, rules);
    OneFrame(Sum(written, crc, data), data, tail, control, crc, rules);
    hide EntryBytes, ReadEntry, Loaded, Framed, Field;
  }
}

/** The manifest: every version is logged as an edit before it is installed, and reading the
    manifest back rebuilds the last version. */
module VersionSets {
  import opened DbFormat
  import opened Coding
  import opened TableFiles
  import opened Versions
  import opened VersionBuilder
  import opened EditCoding
  import opened Logs
  import opened LogReaders
  import opened LogRoundTrip
  import opened Snapshots

  // ---------------------------------------------------------------- what a run of edits leaves

  datatype Number = LogNumber | PrevLogNumber | NextFile | LastSequence

  function Get(edit: VersionEdit, n: Number): Option<nat> {
    match n
    case LogNumber => edit.logNumber
    case PrevLogNumber => edit.prevLogNumber
    case NextFile => edit.nextFileNumber
    case LastSequence => edit.lastSequence
  }

  /** The number that was set last. */
  function Latest(edits: seq<VersionEdit>, n: Number): Option<nat> {
    if edits == [] then None
    else if Get(edits[|edits| - 1], n).Some? then Get(edits[|edits| - 1], n)
    else Latest(edits[..|edits| - 1], n)
  }

  function PointersOf(edits: seq<VersionEdit>): map<nat, InternalKey> {
    if edits == [] then map[] else SetPointers(PointersOf(edits[..|edits| - 1]), edits[|edits| - 1].compactPointers)
  }

  // ---------------------------------------------------------------- records

  predicate Readable(c: Context, comparator: bytes, record: bytes) {
    var r := Decode(c, record, EMPTY_EDIT);
    r.Some? && (r.value.comparator == None || r.value.comparator == Some(comparator))
  }

  predicate AllReadable(c: Context, comparator: bytes, records: seq<bytes>) {
    forall r :: r in records ==> Readable(c, comparator, r)
  }

  /** The edits that records decode to. */
  function Decoded(c: Context, comparator: bytes, records: seq<bytes>): (edits: seq<VersionEdit>)
    requires AllReadable(c, comparator, records)
    ensures |edits| == |records|
  {
    if records == [] then []
    else
      var n := |records| - 1;
      assert records[n] in records;
      Decoded(c, comparator, records[..n]) + [Decode(c, records[n], EMPTY_EDIT).value]
  }

  lemma {:induction false} DecodedPrefix(c: Context, comparator: bytes, records: seq<bytes>, k: nat)
    requires AllReadable(c, comparator, records) && k <= |records|
    ensures AllReadable(c, comparator, records[..k]) && Decoded(c, comparator, records[..k]) == Decoded(c, comparator, records)[..k]
    decreases |records|
  {
    hide Decode;
    if k < |records| {
      var n := |records| - 1;
      DecodedPrefix(c, comparator, records[..n], k);
      assert records[..n][..k] == records[..k];
    } else {
      assert records[..k] == records;
    }
  }

  lemma {:induction false} DecodedLevels(c: Context, s: bytes, edit: VersionEdit)
    requires forall p :: p in edit.deletedFiles ==> p.0 < NUM_LEVELS
    requires forall p :: p in edit.newFiles ==> p.0 < NUM_LEVELS
    requires Decode(c, s, edit).Some?
    ensures forall p :: p in Decode(c, s, edit).value.deletedFiles ==> p.0 < NUM_LEVELS
    ensures forall p :: p in Decode(c, s, edit).value.newFiles ==> p.0 < NUM_LEVELS
    decreases |s|
  {
    var tag := GetVarint32(s);
    if tag.Some? {
      var p := GetField(c, tag.value.value, tag.value.rest, edit);
      FieldLevels(c, tag.value.value, tag.value.rest, edit);
      hide GetVarint32, GetField;
      DecodedLevels(c, p.value.rest, p.value.value);
    }
  }

  lemma FieldLevels(c: Context, tag: nat, s: bytes, edit: VersionEdit)
    requires forall p :: p in edit.deletedFiles ==> p.0 < NUM_LEVELS
    requires forall p :: p in edit.newFiles ==> p.0 < NUM_LEVELS
    requires GetField(c, tag, s, edit).Some?
    ensures forall p :: p in GetField(c, tag, s, edit).value.value.deletedFiles ==> p.0 < NUM_LEVELS
    ensures forall p :: p in GetField(c, tag, s, edit).value.value.newFiles ==> p.0 < NUM_LEVELS
  {
    hide GetLevel, GetFile, GetKey, GetVarint64, GetLengthPrefixed;
  }

  // ---------------------------------------------------------------- fresh numbers over a run

  ghost predicate AllFresh(edits: seq<VersionEdit>) {
    forall l :: 0 <= l < NUM_LEVELS ==> FreshRun({}, l, edits)
  }

  /** Nothing is in the files of a level that no edit added. */
  lemma {:induction false} ReplayIsAdded(l: nat, edits: seq<VersionEdit>)
    ensures ReplayFiles({}, l, edits) <= EverAdded(l, edits)
  {
    hide AddedAt;
    if edits != [] {
      ReplayIsAdded(l, edits[..|edits| - 1]);
    }
  }

  /** A version's files, as the builder sees them. */
  ghost predicate IsReplay(v: Version, edits: seq<VersionEdit>) {
    && ValidBase(v)
    && forall l :: 0 <= l < NUM_LEVELS ==> FileSet(v.files[l]) == ReplayFiles({}, l, edits)
  }

  /** The same edits give the same version. */
  lemma ReplayIsUnique(v: Version, w: Version, edits: seq<VersionEdit>)
    requires IsReplay(v, edits) && IsReplay(w, edits)
    ensures v == w
  {
    hide SortedBySmallest, ReplayFiles;
    forall l | 0 <= l < NUM_LEVELS ensures v.files[l] == w.files[l] {
      SortedIsUnique(v.files[l], w.files[l]);
    }
    assert v.files == w.files;
  }

  // ---------------------------------------------------------------- recovery

  /** The records of a manifest file and what reading it reports as corrupt. */
  ghost function ManifestRecords(crc: Crc, file: bytes): (seq<bytes>, seq<nat>) {
    ReadAll(crc, true, file, Cursor(0, 0, false))
  }

  /** What recovery accepts. */
  ghost predicate Recoverable(c: Context, crc: Crc, comparator: bytes, file: bytes) {
    var (records, drops) := ManifestRecords(crc, file);
    && drops == [] && AllReadable(c, comparator, records)
    && var edits := Decoded(c, comparator, records);
    Latest(edits, NextFile).Some? && Latest(edits, LogNumber).Some? && Latest(edits, LastSequence).Some?
  }

  ghost function ManifestEdits(c: Context, crc: Crc, comparator: bytes, file: bytes): seq<VersionEdit>
    requires AllReadable(c, comparator, ManifestRecords(crc, file).0)
  {
    Decoded(c, comparator, ManifestRecords(crc, file).0)
  }

  /** The log's reader has read `seen`; what it reads from here on makes up the rest. */
  ghost predicate HasRead(crc: Crc, file: bytes, seen: seq<bytes>, drops: seq<nat>, at: Cursor) {
    && Fits(file, at)
    && ManifestRecords(crc, file) == (seen + ReadAll(crc, true, file, at).0, drops + ReadAll(crc, true, file, at).1)
  }

  lemma HasReadStep(crc: Crc, file: bytes, seen: seq<bytes>, drops: seq<nat>, at: Cursor)
    requires HasRead(crc, file, seen, drops, at)
    ensures var o := NextRecord(crc, true, file, at, None);
      if o.record == None then ManifestRecords(crc, file) == (seen, drops + o.drops)
      else HasRead(crc, file, seen + [o.record.value], drops + o.drops, o.next)
  {
    hide NextRecord, ManifestRecords;
    var o := NextRecord(crc, true, file, at, None);
    if o.record.Some? {
      var more := ReadAll(crc, true, file, o.next);
      assert seen + ([o.record.value] + more.0) == seen + [o.record.value] + more.0;
      assert drops + (o.drops + more.1) == drops + o.drops + more.1;
    } else {
      assert seen + [] == seen;
    }
  }

  lemma StartRead(crc: Crc, file: bytes)
    ensures HasRead(crc, file, [], [], Cursor(0, 0, false))
  {
    hide ReadAll;
    var all := ReadAll(crc, true, file, Cursor(0, 0, false));
    assert [] + all.0 == all.0 && [] + all.1 == all.1;
  }

  lemma NotReadable(c: Context, comparator: bytes, record: bytes)
    requires var edit := Decode(c, record, Cleared(EMPTY_EDIT));
      edit == None || (edit.value.comparator.Some? && edit.value.comparator.value != comparator)
    ensures !Readable(c, comparator, record)
  {
    hide Decode;
    assert Cleared(EMPTY_EDIT) == EMPTY_EDIT;
  }

  lemma IsReadable(c: Context, comparator: bytes, record: bytes)
    requires var edit := Decode(c, record, Cleared(EMPTY_EDIT));
      edit.Some? && (edit.value.comparator.Some? ==> edit.value.comparator.value == comparator)
    ensures Readable(c, comparator, record) && Cleared(EMPTY_EDIT) == EMPTY_EDIT
  {
    hide Decode;
    assert Cleared(EMPTY_EDIT) == EMPTY_EDIT;
  }

  /** A record that was read and cannot be used makes the manifest unrecoverable. */
  lemma UnreadableRecord(c: Context, crc: Crc, comparator: bytes, file: bytes, seen: seq<bytes>, drops: seq<nat>, at: Cursor)
    requires HasRead(crc, file, seen, drops, at)
    requires drops != [] || (seen != [] && !Readable(c, comparator, seen[|seen| - 1]))
    ensures ManifestRecords(crc, file).1 == [] ==> !AllReadable(c, comparator, ManifestRecords(crc, file).0)
  {
    hide ReadAll, Readable, Decoded, Latest, ManifestRecords;
    if seen != [] {
      assert seen[|seen| - 1] in seen + ReadAll(crc, true, file, at).0;
    }
  }

  lemma DecodedSnoc(c: Context, comparator: bytes, records: seq<bytes>, record: bytes)
    requires AllReadable(c, comparator, records) && Readable(c, comparator, record)
    ensures AllReadable(c, comparator, records + [record])
    ensures Decoded(c, comparator, records + [record]) == Decoded(c, comparator, records) + [Decode(c, record, EMPTY_EDIT).value]
  {
    hide Decode;
    assert (records + [record])[..|records|] == records;
  }

  lemma LatestSnoc(edits: seq<VersionEdit>, edit: VersionEdit, n: Number)
    ensures Latest(edits + [edit], n) == if Get(edit, n).Some? then Get(edit, n) else Latest(edits, n)
  {
    assert (edits + [edit])[..|edits|] == edits;
  }

  lemma PointersSnoc(edits: seq<VersionEdit>, edit: VersionEdit)
    ensures PointersOf(edits + [edit]) == SetPointers(PointersOf(edits), edit.compactPointers)
  {
    assert (edits + [edit])[..|edits|] == edits;
  }

  function Or(a: Option<nat>, b: Option<nat>): Option<nat> { if a.Some? then a else b }

  /** A version whose files can be logged. */
  ghost predicate Loggable(c: Context, v: Version) {
    && ValidBase(v)
    && forall l :: 0 <= l < NUM_LEVELS ==> DistinctNumbers(v.files[l]) && forall f :: f in v.files[l] ==> FileFits(c, f)
  }

  ghost predicate PointersFit(c: Context, m: map<nat, InternalKey>) {
    forall l :: l in m ==> l < NUM_LEVELS && KeyFits(c, m[l])
  }

  /** The numbers a level's new files must not have. */
  ghost function UsedNumbers(logged: bool, v: Version, edits: seq<VersionEdit>, l: nat): set<nat>
    requires |v.files| == NUM_LEVELS && l < NUM_LEVELS
  {
    Numbers(if logged then EverAdded(l, edits) else FileSet(v.files[l]))
  }

  ghost predicate FreshEdit(logged: bool, v: Version, edits: seq<VersionEdit>, edit: VersionEdit)
    requires |v.files| == NUM_LEVELS
  {
    forall l :: 0 <= l < NUM_LEVELS ==> FreshNumbers(edit.newFiles, l, UsedNumbers(logged, v, edits, l))
  }

  /** The edit as it is logged: every number is set. */
  function Completed(edit: VersionEdit, logNumber: nat, prevLogNumber: nat, next: nat, last: nat): VersionEdit {
    edit.(logNumber := Or(edit.logNumber, Some(logNumber)), prevLogNumber := Or(edit.prevLogNumber, Some(prevLogNumber)),
          nextFileNumber := Some(next), lastSequence := Some(last))
  }

  /** A manifest's records, their edits, and the state they rebuild. */
  ghost predicate Rebuilds(c: Context, comparator: bytes, records: seq<bytes>, edits: seq<VersionEdit>,
                           v: Version, pointers: map<nat, InternalKey>) {
    && AllReadable(c, comparator, records) && edits == Decoded(c, comparator, records)
    && AllFresh(edits) && IsReplay(v, edits) && PointersOf(edits) == pointers
  }

  class VersionSet {
    const context: Context
    const crc: Crc
    const comparator: bytes
    var current: Version
    var logNumber: nat
    var prevLogNumber: nat
    var nextFileNumber: nat
    var lastSequence: nat
    var manifestFileNumber: nat
    var compactPointers: map<nat, InternalKey>
    var descriptorLog: Writer?
    /** The edits the manifest holds, and their records. */
    ghost var edits: seq<VersionEdit>
    ghost var records: seq<bytes>

    constructor (context: Context, crc: Crc, comparator: bytes)
      ensures current == EMPTY_VERSION && descriptorLog == null && edits == [] && compactPointers == map[]
      ensures logNumber == prevLogNumber == lastSequence == manifestFileNumber == 0 && nextFileNumber == 2
      ensures this.context == context && this.crc == crc && this.comparator == comparator
    {
      this.context, this.crc, this.comparator := context, crc, comparator;
      current, descriptorLog, edits, records, compactPointers := EMPTY_VERSION, null, [], [], map[];
      logNumber, prevLogNumber, lastSequence, manifestFileNumber, nextFileNumber := 0, 0, 0, 0, 2;
    }

    /** The manifest rebuilds this version and these pointers. */
    ghost predicate Logged(v: Version, pointers: map<nat, InternalKey>)
      reads `descriptorLog, `records, `edits, descriptorLog
    {
      && descriptorLog != null && descriptorLog.Valid() && descriptorLog.crc == crc
      && descriptorLog.dest == EncodeAll(crc, 0, records)
      && Rebuilds(context, comparator, records, edits, v, pointers)
    }

    ghost predicate Valid()
      reads this, descriptorLog
    {
      && Loggable(context, current) && PointersFit(context, compactPointers) && |comparator| < MAX_UINT32
      && logNumber < MAX_UINT64 && prevLogNumber < MAX_UINT64
      && (descriptorLog != null ==>
            && Logged(current, compactPointers)
            && Latest(edits, LogNumber) == Some(logNumber) && Latest(edits, PrevLogNumber) == Some(prevLogNumber)
            && Latest(edits, NextFile).Some? && Latest(edits, LastSequence).Some?)
    }

    method MarkFileNumberUsed(number: nat)
      modifies `nextFileNumber
      ensures nextFileNumber == if old(nextFileNumber) <= number then number + 1 else old(nextFileNumber)
    {
      if nextFileNumber <= number {
        nextFileNumber := number + 1;
      }
    }

    /** Reads all records of a manifest: the edits they hold, applied to one builder. */
    method ReadManifest(file: bytes, builder: Builder)
      returns (ok: bool, log: Option<nat>, prev: Option<nat>, next: Option<nat>, last: Option<nat>)
      requires builder.Valid() && builder.base == EMPTY_VERSION && builder.applied == [] && builder.compactPointers == map[]
      modifies builder`compactPointers, builder`applied, builder.levels
      ensures builder.Valid() && builder.levels == old(builder.levels)
      ensures ok <==> ManifestRecords(crc, file).1 == [] && AllReadable(context, comparator, ManifestRecords(crc, file).0)
      ensures ok ==>
                && builder.applied == ManifestEdits(context, crc, comparator, file)
                && builder.compactPointers == PointersOf(builder.applied)
                && log == Latest(builder.applied, LogNumber) && prev == Latest(builder.applied, PrevLogNumber)
                && next == Latest(builder.applied, NextFile) && last == Latest(builder.applied, LastSequence)
    {
      hide ReadAll, NextRecord, Decode, HasRead, ManifestRecords, ApplyAll, Readable, Decoded, AllReadable, Latest, PointersOf, SetPointers;
      var reader := new Reader(crc, true, file);
      ghost var seen: seq<bytes> := [];
      ok := true;
      log, prev, next, last := None, None, None, None;
      StartRead(crc, file);
      NothingRead(context, comparator);
      while true
        invariant reader.Valid() && reader.drops == [] && reader.file == file && reader.crc == crc && reader.checksum
        invariant fresh(reader) && ok
        invariant HasRead(crc, file, seen, [], reader.At())
        invariant builder.Valid() && builder.levels == old(builder.levels)
        invariant AllReadable(context, comparator, seen) && builder.applied == Decoded(context, comparator, seen)
        invariant builder.compactPointers == PointersOf(builder.applied)
        invariant log == Latest(builder.applied, LogNumber) && prev == Latest(builder.applied, PrevLogNumber)
        invariant next == Latest(builder.applied, NextFile) && last == Latest(builder.applied, LastSequence)
        decreases |file| - reader.At().at
      {
        HasReadStep(crc, file, seen, [], reader.At());
        var record := reader.ReadRecord();
        if record == None {
          ok := reader.drops == [];
          return;
        }
        ghost var had := seen;
        seen := seen + [record.value];
        if reader.drops != [] {
          UnreadableRecord(context, crc, comparator, file, seen, reader.drops, reader.At());
          ok := false;
          return;
        }
        var edit := DecodeFrom(context, record.value, EMPTY_EDIT);
        if edit == None || (edit.value.comparator.Some? && edit.value.comparator.value != comparator) {
          NotReadable(context, comparator, record.value);
          UnreadableRecord(context, crc, comparator, file, seen, [], reader.At());
          ok := false;
          return;
        }
        IsReadable(context, comparator, record.value);
        DecodedLevels(context, record.value, EMPTY_EDIT);
        DecodedSnoc(context, comparator, had, record.value);
        LatestSnoc(builder.applied, edit.value, LogNumber);
        LatestSnoc(builder.applied, edit.value, PrevLogNumber);
        LatestSnoc(builder.applied, edit.value, NextFile);
        LatestSnoc(builder.applied, edit.value, LastSequence);
        PointersSnoc(builder.applied, edit.value);
        builder.Apply(edit.value);
        log, prev := Or(edit.value.logNumber, log), Or(edit.value.prevLogNumber, prev);
        next, last := Or(edit.value.nextFileNumber, next), Or(edit.value.lastSequence, last);
      }
    }

    method ListPointers() returns (pointers: seq<(nat, InternalKey)>)
      ensures pointers == PointerList(compactPointers, NUM_LEVELS)
    {
      pointers := [];
      for level := 0 to NUM_LEVELS
        invariant pointers == PointerList(compactPointers, level)
      {
        if level in compactPointers {
          pointers := pointers + [(level, compactPointers[level])];
        }
      }
    }

    method ListFiles(v: Version) returns (files: seq<(nat, File)>)
      requires |v.files| == NUM_LEVELS
      ensures files == AllFiles(v, NUM_LEVELS)
    {
      files := [];
      for level := 0 to NUM_LEVELS
        invariant files == AllFiles(v, level)
      {
        ghost var before := files;
        var fs := v.files[level];
        for i := 0 to |fs|
          invariant files == before + LevelFiles(level, fs[..i])
        {
          assert fs[..i + 1][..i] == fs[..i];
          files := files + [(level, fs[i])];
        }
        assert fs[..|fs|] == fs;
      }
    }

    /** Starts a manifest with a record of everything in `v`. */
    method WriteSnapshot(log: Writer, v: Version) returns (ghost record: bytes)
      requires log.Valid() && Loggable(context, v) && PointersFit(context, compactPointers) && |comparator| < MAX_UINT32
      modifies log
      ensures log.Valid() && log.dest == old(log.dest) + Encode(log.crc, |old(log.dest)|, record, true)
      ensures Decode(context, record, EMPTY_EDIT) == Some(SnapshotEdit(comparator, compactPointers, v))
    {
      hide Decode, Encode, FileFits, KeyFits, Loggable, PointersFit, EncodeEdit, Writer.Valid, PointerList, AllFiles;
      var pointers := ListPointers();
      LoggableIsBase(context, v);
      var files := ListFiles(v);
      var edit := EMPTY_EDIT.(comparator := Some(comparator), compactPointers := pointers, newFiles := files);
      SnapshotFits(context, comparator, compactPointers, v);
      var dst, deleted := EncodeTo(context, edit);
      RoundTripIffFresh(context, edit, deleted, EMPTY_EDIT);
      assert Cleared(EMPTY_EDIT) == EMPTY_EDIT;
      record := dst;
      log.AddRecord(dst);
    }

    /** The version an edit leads to. */
    method NextVersion(e: VersionEdit) returns (v: Version)
      requires ValidBase(current) && forall l :: 0 <= l < NUM_LEVELS ==> FreshRun(FileSet(current.files[l]), l, [e])
      requires forall p :: p in e.deletedFiles ==> p.0 < NUM_LEVELS
      requires forall p :: p in e.newFiles ==> p.0 < NUM_LEVELS
      ensures ValidBase(v) && forall l :: 0 <= l < NUM_LEVELS ==>
                FileSet(v.files[l]) == EditFiles(FileSet(current.files[l]), e, l)
    {
      hide FreshRun, EditFiles, ApplyAll, SetPointers, NoTies, IsSaved, SortedBySmallest;
      var builder := new Builder(current);
      builder.Apply(e);
      assert builder.applied == [e];
      forall l | 0 <= l < NUM_LEVELS ensures NoTies(current.files[l], ApplyAll(l, [e]).added) {
        FreshIsSaved(current.files[l], l, [e]);
      }
      v := builder.SaveTo();
      forall l | 0 <= l < NUM_LEVELS
        ensures SortedBySmallest(v.files[l]) && FileSet(v.files[l]) == EditFiles(FileSet(current.files[l]), e, l)
      {
        FreshIsSaved(current.files[l], l, [e]);
        ReplayOne(FileSet(current.files[l]), l, e);
      }
    }

    /** Starts a manifest. The edit that is about to be logged stays fresh. */
    method StartManifest(ghost e: VersionEdit)
      requires descriptorLog == null && Loggable(context, current) && PointersFit(context, compactPointers)
      requires |comparator| < MAX_UINT32 && |current.files| == NUM_LEVELS && FreshEdit(false, current, edits, e)
      modifies `descriptorLog, `records, `edits
      ensures Logged(current, compactPointers) && fresh(descriptorLog) && FreshEdit(true, current, edits, e)
      ensures edits == [SnapshotEdit(comparator, compactPointers, current)]
    {
      hide Decode, EncodeEdit, Encode, EncodeAll, Loggable, Rebuilds, FreshEdit, PointersFit;
      LoggableIsBase(context, current);
      var log := new Writer(crc, []);
      ghost var record := WriteSnapshot(log, current);
      descriptorLog := log;
      SnapshotRebuilds(context, comparator, record, current, compactPointers, edits, e);
      LogGrows(crc, 0, [], record);
      NoRecords(crc);
      assert [] + [record] == [record];
      records, edits := [record], [SnapshotEdit(comparator, compactPointers, current)];
    }

    /** Adds an edit, and the version it leads to, to the manifest. */
    method LogEdit(e: VersionEdit, ghost v: Version, ghost pointers: map<nat, InternalKey>)
      requires Logged(current, pointers) && ValidBase(current) && FreshEdit(true, current, edits, e) && EditFits(context, e)
      requires e.comparator.Some? ==> e.comparator.value == comparator
      requires ValidBase(v) && forall l :: 0 <= l < NUM_LEVELS ==> FileSet(v.files[l]) == EditFiles(FileSet(current.files[l]), e, l)
      modifies descriptorLog, `records, `edits
      ensures Logged(v, SetPointers(pointers, e.compactPointers)) && edits == old(edits) + [e]
      ensures forall n :: Latest(edits, n) == if Get(e, n).Some? then Get(e, n) else Latest(old(edits), n)
    {
      hide Decode, EncodeEdit, Encode, EncodeAll, EditFits, Rebuilds, FreshEdit, Latest, SetPointers, EditFiles, SortedBySmallest;
      var dst, deleted := EncodeTo(context, e);
      RoundTripIffFresh(context, e, deleted, EMPTY_EDIT);
      EditRebuilds(context, comparator, records, edits, current, pointers, dst, e, v);
      LogGrows(crc, 0, records, dst);
      descriptorLog.AddRecord(dst);
      records, edits := records + [dst], edits + [e];
    }

    /** Logs an edit and installs the version it leads to. */
    method LogAndApply(edit: VersionEdit)
      requires Valid() && EditFits(context, edit) && (edit.comparator.Some? ==> edit.comparator.value == comparator)
      requires edit.logNumber.Some? ==> logNumber <= edit.logNumber.value < nextFileNumber
      requires nextFileNumber < MAX_UINT64 && lastSequence < MAX_UINT64
      requires FreshEdit(descriptorLog != null, current, edits, edit)
      modifies this, descriptorLog
      ensures Valid() && descriptorLog != null && if old(descriptorLog) == null then fresh(descriptorLog) else descriptorLog == old(descriptorLog)
      ensures forall l :: 0 <= l < NUM_LEVELS ==>
                FileSet(current.files[l]) == EditFiles(FileSet(old(current).files[l]), edit, l)
      ensures Some(logNumber) == Or(edit.logNumber, Some(old(logNumber)))
      ensures Some(prevLogNumber) == Or(edit.prevLogNumber, Some(old(prevLogNumber)))
      ensures compactPointers == SetPointers(old(compactPointers), edit.compactPointers)
      ensures nextFileNumber == old(nextFileNumber) && lastSequence == old(lastSequence)
      ensures manifestFileNumber == old(manifestFileNumber)
      ensures Latest(edits, NextFile) == Some(nextFileNumber) && Latest(edits, LastSequence) == Some(lastSequence)
      ensures |edits| == (if old(descriptorLog) == null then 1 else |old(edits)|) + 1
      ensures old(descriptorLog) != null ==> edits[..|edits| - 1] == old(edits)
    {
      hide EditFits, Loggable, Rebuilds, FreshEdit, Latest, PointersFit, SetPointers, EditFiles, EncodeAll, Logged, SnapshotEdit;
      ghost var pointers := compactPointers;
      var e, v := Prepare(edit);
      compactPointers := SetPointers(compactPointers, e.compactPointers);
      if descriptorLog == null {
        StartManifest(e);
        SetPointersTwice(pointers, e.compactPointers);
        pointers := compactPointers;
      }
      LogEdit(e, v, pointers);
      current := v;
      logNumber := e.logNumber.value;
      prevLogNumber := e.prevLogNumber.value;
      assert Latest(edits, LogNumber) == Get(e, LogNumber) && Latest(edits, PrevLogNumber) == Get(e, PrevLogNumber);
      assert Latest(edits, NextFile) == Get(e, NextFile) && Latest(edits, LastSequence) == Get(e, LastSequence);
    }

    /** The edit with all its numbers, and the version it leads to. */
    method Prepare(edit: VersionEdit) returns (e: VersionEdit, v: Version)
      requires Valid() && EditFits(context, edit) && nextFileNumber < MAX_UINT64 && lastSequence < MAX_UINT64
      requires FreshEdit(descriptorLog != null, current, edits, edit)
      ensures e.compactPointers == edit.compactPointers && e.comparator == edit.comparator
      ensures e.nextFileNumber == Some(nextFileNumber) && e.lastSequence == Some(lastSequence)
      ensures e.logNumber == Or(edit.logNumber, Some(logNumber)) && e.prevLogNumber == Or(edit.prevLogNumber, Some(prevLogNumber))
      ensures e.logNumber.value < MAX_UINT64 && e.prevLogNumber.value < MAX_UINT64
      ensures EditFits(context, e) && FreshEdit(descriptorLog != null, current, edits, e)
      ensures ValidBase(current) && Loggable(context, v) && ValidBase(v)
      ensures PointersFit(context, SetPointers(compactPointers, e.compactPointers))
      ensures forall l :: 0 <= l < NUM_LEVELS ==> FileSet(v.files[l]) == EditFiles(FileSet(current.files[l]), e, l)
      ensures forall l :: 0 <= l < NUM_LEVELS ==> FileSet(v.files[l]) == EditFiles(FileSet(current.files[l]), edit, l)
    {
      hide EditFits, FileFits, KeyFits, Loggable, Rebuilds, Completed, FreshNumbers, UsedNumbers, Latest, PointersFit, SetPointers,
        EditFiles, FreshRun, EncodeAll, SortedBySmallest;
      e := Completed(edit, logNumber, prevLogNumber, nextFileNumber, lastSequence);
      CompletedEdit(context, edit, logNumber, prevLogNumber, nextFileNumber, lastSequence);
      LoggableIsBase(context, current);
      OneEditIsFresh(context, comparator, records, edits, current, compactPointers, descriptorLog != null, e);
      v := NextVersion(e);
      StillLoggable(context, current, e, v);
      SetPointersFit(context, compactPointers, e.compactPointers);
      SameFiles(current, v, edit, e);
    }

    /** Rebuilds the last version from a manifest. Afterwards file numbers are handed out from
        above the recorded one, and a new manifest will be started. */
    method Recover(file: bytes) returns (ok: bool)
      requires current == EMPTY_VERSION && descriptorLog == null && compactPointers == map[]
      modifies this
      ensures descriptorLog == null
      ensures ok <==> Recoverable(context, crc, comparator, file)
      ensures !ok ==> current == old(current) && logNumber == old(logNumber) && prevLogNumber == old(prevLogNumber)
                      && lastSequence == old(lastSequence) && manifestFileNumber == old(manifestFileNumber)
      ensures ok ==>
                var run := ManifestEdits(context, crc, comparator, file);
                && |current.files| == NUM_LEVELS
                && (forall l :: 0 <= l < NUM_LEVELS ==> IsSaved([], ApplyAll(l, run), current.files[l]))
                && (AllFresh(run) ==> IsReplay(current, run))
                && compactPointers == PointersOf(run) && Some(logNumber) == Latest(run, LogNumber) && Some(lastSequence) == Latest(run, LastSequence)
                && Some(prevLogNumber) == Or(Latest(run, PrevLogNumber), Some(0))
                && Some(manifestFileNumber) == Latest(run, NextFile) && nextFileNumber == manifestFileNumber + 1
    {
      hide ReadAll, Decode, ManifestRecords, ApplyAll, Readable, Decoded, AllReadable, AllFresh, IsReplay, IsSaved, PointersOf, Latest, SortedBySmallest;
      EmptyIsBase();
      var builder := new Builder(current);
      var log, prev, next, last;
      ok, log, prev, next, last := ReadManifest(file, builder);
      if ok {
        ok := next.Some? && log.Some? && last.Some?;
        compactPointers := builder.compactPointers;
        MarkFileNumberUsed(if prev.Some? then prev.value else 0);
        MarkFileNumberUsed(if log.Some? then log.value else 0);
      }
      if ok {
        assert forall l :: 0 <= l < NUM_LEVELS ==> EMPTY_VERSION.files[l] == [];
        var v := builder.SaveTo();
        current := v;
        FreshIsReplay(v, builder.applied);
        manifestFileNumber := next.value;
        nextFileNumber := next.value + 1;
        lastSequence := last.value;
        logNumber := log.value;
        prevLogNumber := if prev.Some? then prev.value else 0;
      }
    }
  }

  /** What is saved of edits that use no number twice on a level is what they leave. */
  lemma FreshIsReplay(v: Version, edits: seq<VersionEdit>)
    requires |v.files| == NUM_LEVELS && forall l :: 0 <= l < NUM_LEVELS ==> IsSaved([], ApplyAll(l, edits), v.files[l])
    ensures AllFresh(edits) ==> IsReplay(v, edits)
  {
    hide IsSaved, ApplyAll, ReplayFiles, SortedBySmallest, FreshRun;
    if AllFresh(edits) {
      assert FileSet([]) == {};
      forall l | 0 <= l < NUM_LEVELS ensures SortedBySmallest(v.files[l]) && FileSet(v.files[l]) == ReplayFiles({}, l, edits) {
        FreshIsSaved([], l, edits);
      }
    }
  }

  lemma SnapshotFits(c: Context, comparator: bytes, m: map<nat, InternalKey>, v: Version)
    requires Loggable(c, v) && PointersFit(c, m) && |comparator| < MAX_UINT32
    ensures EditFits(c, SnapshotEdit(comparator, m, v))
  {
    hide FileFits, KeyFits;
    AllFilesAre(v, NUM_LEVELS);
    PointerListLevels(m, NUM_LEVELS);
  }

  lemma LoggableIsBase(c: Context, v: Version)
    requires Loggable(c, v)
    ensures ValidBase(v)
  {
  }

  lemma ReplayOne(base: set<File>, l: nat, e: VersionEdit)
    ensures ReplayFiles(base, l, [e]) == EditFiles(base, e, l) && EverAdded(l, [e]) == AddedAt(e, l)
    ensures FreshRun(base, l, [e]) <==> FreshNumbers(e.newFiles, l, Numbers(base))
  {
    hide EditFiles, AddedAt, FreshNumbers, Numbers;
    assert [e][..|[e]| - 1] == [];
    assert base + EverAdded(l, []) == base;
  }

  lemma CompletedEdit(c: Context, edit: VersionEdit, logNumber: nat, prevLogNumber: nat, next: nat, last: nat)
    requires EditFits(c, edit) && logNumber < MAX_UINT64 && prevLogNumber < MAX_UINT64 && next < MAX_UINT64 && last < MAX_UINT64
    ensures var e := Completed(edit, logNumber, prevLogNumber, next, last);
      && EditFits(c, e) && e.comparator == edit.comparator && e.newFiles == edit.newFiles && e.deletedFiles == edit.deletedFiles
      && e.compactPointers == edit.compactPointers && e.nextFileNumber == Some(next) && e.lastSequence == Some(last)
      && e.logNumber == Or(edit.logNumber, Some(logNumber)) && e.prevLogNumber == Or(edit.prevLogNumber, Some(prevLogNumber))
      && e.logNumber.value < MAX_UINT64 && e.prevLogNumber.value < MAX_UINT64
      && (forall p :: p in e.compactPointers ==> p.0 < NUM_LEVELS && KeyFits(c, p.1))
      && (forall p :: p in e.deletedFiles ==> p.0 < NUM_LEVELS)
      && (forall p :: p in e.newFiles ==> p.0 < NUM_LEVELS && FileFits(c, p.1))
  {
    hide FileFits, KeyFits;
  }

  lemma {:induction false} SetPointersFit(c: Context, m: map<nat, InternalKey>, ps: seq<(nat, InternalKey)>)
    requires PointersFit(c, m) && forall p :: p in ps ==> p.0 < NUM_LEVELS && KeyFits(c, p.1)
    ensures PointersFit(c, SetPointers(m, ps))
  {
    hide KeyFits;
    if ps != [] { SetPointersFit(c, m, ps[..|ps| - 1]); }
  }

  /** A fresh edit is fresh with respect to the files a level has now. */
  lemma OneEditIsFresh(c: Context, comparator: bytes, records: seq<bytes>, edits: seq<VersionEdit>, v: Version,
                       pointers: map<nat, InternalKey>, logged: bool, e: VersionEdit)
    requires ValidBase(v) && FreshEdit(logged, v, edits, e)
    requires logged ==> Rebuilds(c, comparator, records, edits, v, pointers)
    ensures forall l :: 0 <= l < NUM_LEVELS ==> FreshRun(FileSet(v.files[l]), l, [e])
  {
    hide FreshNumbers, AllReadable, Decoded, ReplayFiles, EverAdded, SortedBySmallest;
    forall l | 0 <= l < NUM_LEVELS ensures FreshRun(FileSet(v.files[l]), l, [e]) {
      var files := FileSet(v.files[l]);
      assert FreshNumbers(e.newFiles, l, UsedNumbers(logged, v, edits, l));
      if logged {
        ReplayIsAdded(l, edits);
        StillFresh(e.newFiles, l, files, EverAdded(l, edits));
      }
      assert files + FileSet([]) == files;
      ReplayOne(files, l, e);
    }
  }

  /** A manifest that holds just the snapshot of `v` rebuilds `v`. */
  lemma SnapshotRebuilds(c: Context, comparator: bytes, record: bytes, v: Version, pointers: map<nat, InternalKey>,
                         edits: seq<VersionEdit>, e: VersionEdit)
    requires Loggable(c, v) && PointersFit(c, pointers)
    requires Decode(c, record, EMPTY_EDIT) == Some(SnapshotEdit(comparator, pointers, v))
    ensures var s := SnapshotEdit(comparator, pointers, v);
      && Rebuilds(c, comparator, [record], [s], v, pointers)
      && (FreshEdit(false, v, edits, e) ==> FreshEdit(true, v, [s], e))
  {
    hide Decode, FileFits, KeyFits, SortedBySmallest, FreshNumbers;
    var s := SnapshotEdit(comparator, pointers, v);
    assert [record][..|[record]| - 1] == [] && [s][..|[s]| - 1] == [];
    forall l | 0 <= l < NUM_LEVELS
      ensures FreshRun({}, l, [s]) && ReplayFiles({}, l, [s]) == FileSet(v.files[l]) == EverAdded(l, [s])
    {
      SnapshotLevel(comparator, v, pointers, l);
    }
    if FreshEdit(false, v, edits, e) {
      forall l | 0 <= l < NUM_LEVELS ensures FreshNumbers(e.newFiles, l, UsedNumbers(true, v, [s], l)) {
        assert FreshNumbers(e.newFiles, l, UsedNumbers(false, v, edits, l));
      }
    }
    PointerListSets(pointers, NUM_LEVELS);
    assert PointersOf([s]) == pointers;
  }

  lemma SnapshotLevel(comparator: bytes, v: Version, pointers: map<nat, InternalKey>, l: nat)
    requires ValidBase(v) && l < NUM_LEVELS && forall m :: 0 <= m < NUM_LEVELS ==> DistinctNumbers(v.files[m])
    ensures var s := SnapshotEdit(comparator, pointers, v);
      FreshRun({}, l, [s]) && ReplayFiles({}, l, [s]) == FileSet(v.files[l]) == EverAdded(l, [s])
  {
    hide SortedBySmallest, AllFiles;
    var s := SnapshotEdit(comparator, pointers, v);
    ReplayOne({}, l, s);
    SnapshotAdds(v, l);
    SnapshotIsFresh(v, NUM_LEVELS);
    assert EditFiles({}, s, l) == AddedAt(s, l);
  }

  lemma SameFiles(v: Version, w: Version, edit: VersionEdit, e: VersionEdit)
    requires |v.files| == |w.files| == NUM_LEVELS && e.newFiles == edit.newFiles && e.deletedFiles == edit.deletedFiles
    requires forall l :: 0 <= l < NUM_LEVELS ==> FileSet(w.files[l]) == EditFiles(FileSet(v.files[l]), e, l)
    ensures forall l :: 0 <= l < NUM_LEVELS ==> FileSet(w.files[l]) == EditFiles(FileSet(v.files[l]), edit, l)
  {
  }

  lemma NoRecords(crc: Crc)
    ensures EncodeAll(crc, 0, []) == [] && [] + Encode(crc, 0, [], true) == Encode(crc, 0, [], true)
  {
  }

  lemma RunGrows(v: Version, l: nat, edits: seq<VersionEdit>, e: VersionEdit)
    requires l < |v.files| == NUM_LEVELS && FreshRun({}, l, edits) && FreshNumbers(e.newFiles, l, UsedNumbers(true, v, edits, l))
    ensures FreshRun({}, l, edits + [e])
    ensures ReplayFiles({}, l, edits + [e]) == EditFiles(ReplayFiles({}, l, edits), e, l)
  {
    hide FreshNumbers, EditFiles;
    assert (edits + [e])[..|edits + [e]| - 1] == edits;
    assert {} + EverAdded(l, edits) == EverAdded(l, edits);
  }

  /** A manifest that is extended by one edit rebuilds the version the edit leads to. */
  lemma EditRebuilds(c: Context, comparator: bytes, records: seq<bytes>, edits: seq<VersionEdit>, v: Version,
                     pointers: map<nat, InternalKey>, record: bytes, e: VersionEdit, w: Version)
    requires Rebuilds(c, comparator, records, edits, v, pointers) && FreshEdit(true, v, edits, e)
    requires Decode(c, record, EMPTY_EDIT) == Some(e) && (e.comparator.Some? ==> e.comparator.value == comparator)
    requires ValidBase(w) && forall l :: 0 <= l < NUM_LEVELS ==> FileSet(w.files[l]) == EditFiles(FileSet(v.files[l]), e, l)
    ensures Rebuilds(c, comparator, records + [record], edits + [e], w, SetPointers(pointers, e.compactPointers))
    ensures forall n :: Latest(edits + [e], n) == if Get(e, n).Some? then Get(e, n) else Latest(edits, n)
  {
    hide Decode, AllReadable, Decoded, SortedBySmallest, FreshNumbers, EditFiles, SetPointers, FreshRun, ReplayFiles,
      EverAdded, UsedNumbers, Latest, PointersOf;
    DecodedSnoc(c, comparator, records, record);
    PointersSnoc(edits, e);
    forall l | 0 <= l < NUM_LEVELS
      ensures FreshRun({}, l, edits + [e])
      ensures ReplayFiles({}, l, edits + [e]) == EditFiles(ReplayFiles({}, l, edits), e, l)
    {
      RunGrows(v, l, edits, e);
    }
    forall n ensures Latest(edits + [e], n) == if Get(e, n).Some? then Get(e, n) else Latest(edits, n) {
      LatestSnoc(edits, e, n);
    }
  }

  /** File numbers of a level stay distinct, and files stay fit to be logged. */
  lemma StillLoggable(c: Context, v: Version, e: VersionEdit, w: Version)
    requires Loggable(c, v) && ValidBase(w)
    requires forall l :: 0 <= l < NUM_LEVELS ==> FileSet(w.files[l]) == EditFiles(FileSet(v.files[l]), e, l)
    requires forall l :: 0 <= l < NUM_LEVELS ==> FreshRun(FileSet(v.files[l]), l, [e])
    requires forall p :: p in e.newFiles ==> FileFits(c, p.1)
    ensures Loggable(c, w)
  {
    hide FileFits, SortedBySmallest, FreshRun;
    forall l | 0 <= l < NUM_LEVELS ensures DistinctNumbers(w.files[l]) && forall f :: f in w.files[l] ==> FileFits(c, f) {
      ReplayOne(FileSet(v.files[l]), l, e);
      LevelStillLoggable(c, v.files[l], e, l, w.files[l]);
    }
  }

  lemma LevelStillLoggable(c: Context, fs: seq<File>, e: VersionEdit, l: nat, gs: seq<File>)
    requires DistinctNumbers(fs) && SortedBySmallest(gs) && FileSet(gs) == EditFiles(FileSet(fs), e, l)
    requires FreshNumbers(e.newFiles, l, Numbers(FileSet(fs)))
    requires (forall f :: f in fs ==> FileFits(c, f)) && forall p :: p in e.newFiles ==> FileFits(c, p.1)
    ensures DistinctNumbers(gs) && forall f :: f in gs ==> FileFits(c, f)
  {
    hide FileFits;
    forall f | f in gs ensures FileFits(c, f) {
      assert f in EditFiles(FileSet(fs), e, l);
    }
    forall i, j | 0 <= i < j < |gs| ensures gs[i].number != gs[j].number {
      assert gs[i] in FileSet(gs) && gs[j] in FileSet(gs);
      assert gs[i] != gs[j] by { BySmallestIsOrder(gs[i], gs[j], gs[i]); }
      SameNumberSameFile(fs, e, l, gs[i], gs[j]);
    }
  }

  lemma SameNumberSameFile(fs: seq<File>, e: VersionEdit, l: nat, f: File, g: File)
    requires DistinctNumbers(fs) && FreshNumbers(e.newFiles, l, Numbers(FileSet(fs)))
    requires f in EditFiles(FileSet(fs), e, l) && g in EditFiles(FileSet(fs), e, l)
    ensures f.number == g.number ==> f == g
  {
    assert f in FileSet(fs) ==> f.number in Numbers(FileSet(fs));
    assert g in FileSet(fs) ==> g.number in Numbers(FileSet(fs));
  }

  lemma EmptyIsBase()
    ensures ValidBase(EMPTY_VERSION) && forall l :: 0 <= l < NUM_LEVELS ==> FileSet(EMPTY_VERSION.files[l]) == {}
  {
  }

  lemma NothingRead(c: Context, comparator: bytes)
    ensures AllReadable(c, comparator, []) && Decoded(c, comparator, []) == []
    ensures PointersOf([]) == map[] && forall n :: Latest([], n) == None
  {
  }

  // ---------------------------------------------------------------- replay

  /** The first `k` edits of a manifest are all that a crash may leave of it: the rest of the
      file, cut off at `cut`, is not read, and nothing is reported. */
  lemma CutManifest(c: Context, crc: Crc, comparator: bytes, records: seq<bytes>, edits: seq<VersionEdit>, cut: nat) returns (k: nat)
    requires AllReadable(c, comparator, records) && edits == Decoded(c, comparator, records)
    requires cut <= |EncodeAll(crc, 0, records)|
    ensures k <= |edits| && (cut == |EncodeAll(crc, 0, records)| ==> k == |edits|)
    ensures |EncodeAll(crc, 0, records[..k])| <= cut
    ensures k < |edits| ==> cut < |EncodeAll(crc, 0, records[..k + 1])|
    ensures var file := EncodeAll(crc, 0, records)[..cut];
      && ManifestRecords(crc, file) == (records[..k], [])
      && AllReadable(c, comparator, records[..k]) && Decoded(c, comparator, records[..k]) == edits[..k]
  {
    hide Decode, Readable, ReadAll, EncodeAll, Decoded, AllReadable;
    CutLogReadsBack(crc, true, records, cut);
    k := CompleteIsPrefix(crc, 0, records, cut);
    DecodedPrefix(c, comparator, records, k);
  }

  lemma {:induction false} CompleteIsPrefix(crc: Crc, a: nat, records: seq<bytes>, size: nat) returns (k: nat)
    requires a <= size
    ensures k <= |records| && Complete(crc, a, records, size) == records[..k]
    ensures a + |EncodeAll(crc, a, records[..k])| <= size
    ensures k < |records| ==> size < a + |EncodeAll(crc, a, records[..k + 1])|
    ensures a + |EncodeAll(crc, a, records)| <= size ==> k == |records|
    decreases records
  {
    hide Encode;
    k := 0;
    if records != [] {
      var e := a + |Encode(crc, a, records[0], true)|;
      var first := records[..1];
      assert first[1..] == [] && first[0] == records[0];
      assert EncodeAll(crc, a, first) == Encode(crc, a, records[0], true) + EncodeAll(crc, e, []);
      if e <= size {
        var n := CompleteIsPrefix(crc, e, records[1..], size);
        k := n + 1;
        assert records[..k] == [records[0]] + records[1..][..n];
        assert records[..k][1..] == records[1..][..n];
        if k < |records| {
          assert records[..k + 1][1..] == records[1..][..n + 1];
        }
      }
    }
  }

  lemma {:induction false} FreshPrefix(l: nat, edits: seq<VersionEdit>, k: nat)
    requires FreshRun({}, l, edits) && k <= |edits|
    ensures FreshRun({}, l, edits[..k])
    decreases |edits|
  {
    hide FreshNumbers;
    if k < |edits| {
      var n := |edits| - 1;
      FreshPrefix(l, edits[..n], k);
      assert edits[..n][..k] == edits[..k];
    } else {
      assert edits[..k] == edits;
    }
  }

  /** Reads a manifest of which a crash left the first `cut` bytes. The `k` edits that were
      logged completely are applied, whatever the cut. */
  method RecoverCut(vs: VersionSet, cut: nat) returns (again: VersionSet, ok: bool, ghost k: nat)
    requires vs.Valid() && vs.descriptorLog != null && cut <= |vs.descriptorLog.dest|
    ensures fresh(again) && again.descriptorLog == null && again.comparator == vs.comparator && again.context == vs.context
    ensures k <= |vs.edits| && |EncodeAll(vs.crc, 0, vs.records[..k])| <= cut
    ensures k < |vs.edits| ==> cut < |EncodeAll(vs.crc, 0, vs.records[..k + 1])|
    ensures cut == |vs.descriptorLog.dest| ==> k == |vs.edits|
    ensures var run := vs.edits[..k];
      && (ok <==> Latest(run, NextFile).Some? && Latest(run, LogNumber).Some? && Latest(run, LastSequence).Some?)
      && (ok ==>
            && IsReplay(again.current, run) && again.compactPointers == PointersOf(run)
            && Some(again.logNumber) == Latest(run, LogNumber)
            && Some(again.prevLogNumber) == Or(Latest(run, PrevLogNumber), Some(0))
            && Some(again.lastSequence) == Latest(run, LastSequence)
            && Some(again.manifestFileNumber) == Latest(run, NextFile) && again.nextFileNumber == again.manifestFileNumber + 1)
  {
    hide Decoded, AllReadable, ManifestRecords, EncodeAll, Latest, IsReplay, PointersOf, Loggable, PointersFit, FreshRun;
    k := CutManifest(vs.context, vs.crc, vs.comparator, vs.records, vs.edits, cut);
    forall l | 0 <= l < NUM_LEVELS ensures FreshRun({}, l, vs.edits[..k]) {
      FreshPrefix(l, vs.edits, k);
    }
    again := new VersionSet(vs.context, vs.crc, vs.comparator);
    ok := again.Recover(vs.descriptorLog.dest[..cut]);
  }

  /** Manifest replay: opening the manifest again gives the version that was installed last,
      with its log numbers, its compaction pointers and its last sequence number, and hands
      out file numbers above the recorded one. */
  method Reopen(vs: VersionSet) returns (again: VersionSet, ok: bool)
    requires vs.Valid() && vs.descriptorLog != null
    ensures ok && again.current == vs.current && again.compactPointers == vs.compactPointers
    ensures again.logNumber == vs.logNumber && again.prevLogNumber == vs.prevLogNumber
    ensures Some(again.lastSequence) == Latest(vs.edits, LastSequence)
    ensures Some(again.manifestFileNumber) == Latest(vs.edits, NextFile) && again.nextFileNumber == again.manifestFileNumber + 1
    ensures again.Valid()
  {
    hide Decoded, AllReadable, EncodeAll, Latest, IsReplay, PointersOf, Loggable, PointersFit, FreshRun;
    ghost var k;
    again, ok, k := RecoverCut(vs, |vs.descriptorLog.dest|);
    assert vs.edits[..k] == vs.edits;
    ReplayIsUnique(vs.current, again.current, vs.edits);
  }
}

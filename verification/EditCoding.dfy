/** Manifest records: a version edit as a run of tagged fields. */
module EditCoding {
  import opened DbFormat
  import opened Coding
  import opened TableFiles
  import opened Versions
  import opened VersionBuilder

  const COMPARATOR := 1
  const LOG_NUMBER := 2
  const NEXT_FILE_NUMBER := 3
  const LAST_SEQUENCE := 4
  const COMPACT_POINTER := 5
  const DELETED_FILE := 6
  const NEW_FILE := 7
  const PREV_LOG_NUMBER := 9

  /** What an edit's bytes leave to their reader: which user key some bytes stand for, and
      what the table file with some number holds. */
  datatype Context = Context(put: UserKey -> bytes, get: bytes -> UserKey, disk: nat -> seq<Entry>)

  // ---------------------------------------------------------------- internal keys

  function EncodeKey(c: Context, k: InternalKey): bytes {
    c.put(k.user) + Fixed(PackSequenceAndType(k.sn, k.typ), 8)
  }

  /** The last eight bytes hold the sequence number and, in the lowest one, the type. */
  function DecodeKey(c: Context, b: bytes): Option<InternalKey> {
    if |b| < 8 then None
    else
      var tag := ReadFixed(b[|b| - 8..]);
      if tag / 256 > MAX_SEQUENCE || tag % 256 > 1 then None
      else Some(InternalKey(c.get(b[..|b| - 8]), tag / 256, if tag % 256 == 0 then Deletion else Value))
  }

  predicate KeyFits(c: Context, k: InternalKey) {
    c.get(c.put(k.user)) == k.user && |c.put(k.user)| + 8 < MAX_UINT32
  }

  lemma KeyRoundTrip(c: Context, k: InternalKey)
    requires KeyFits(c, k)
    ensures DecodeKey(c, EncodeKey(c, k)) == Some(k)
  {
    var tag := PackSequenceAndType(k.sn, k.typ);
    var b := EncodeKey(c, k);
    Fixed32Fits();
    FixedRoundTrip(tag, 8);
    assert b[|b| - 8..] == Fixed(tag, 8) && b[..|b| - 8] == c.put(k.user);
    assert tag / 256 == k.sn && tag % 256 == TypeCode(k.typ);
  }

  // ---------------------------------------------------------------- encoding

  function PutNumber(tag: nat, v: Option<nat>): bytes {
    if v == None then [] else Varint(tag) + Varint(v.value)
  }

  function PutKey(c: Context, k: InternalKey): bytes {
    PutLengthPrefixed(EncodeKey(c, k))
  }

  function PutComparator(name: Option<bytes>): bytes {
    if name == None then [] else Varint(COMPARATOR) + PutLengthPrefixed(name.value)
  }

  function PutPointer(c: Context, p: (nat, InternalKey)): bytes {
    Varint(COMPACT_POINTER) + Varint(p.0) + PutKey(c, p.1)
  }

  function PutDeleted(p: (nat, nat)): bytes {
    Varint(DELETED_FILE) + Varint(p.0) + Varint(p.1)
  }

  function PutNew(c: Context, p: (nat, File)): bytes {
    Varint(NEW_FILE) + Varint(p.0) + Varint(p.1.number) + Varint(p.1.size) + PutKey(c, p.1.smallest) + PutKey(c, p.1.largest)
  }

  function PutPointers(c: Context, ps: seq<(nat, InternalKey)>): bytes {
    if ps == [] then [] else PutPointer(c, ps[0]) + PutPointers(c, ps[1..])
  }

  function PutDeletions(ps: seq<(nat, nat)>): bytes {
    if ps == [] then [] else PutDeleted(ps[0]) + PutDeletions(ps[1..])
  }

  function PutNewFiles(c: Context, ps: seq<(nat, File)>): bytes {
    if ps == [] then [] else PutNew(c, ps[0]) + PutNewFiles(c, ps[1..])
  }

  function PutNumbers(edit: VersionEdit): bytes {
    PutNumber(LOG_NUMBER, edit.logNumber) + PutNumber(PREV_LOG_NUMBER, edit.prevLogNumber)
    + PutNumber(NEXT_FILE_NUMBER, edit.nextFileNumber) + PutNumber(LAST_SEQUENCE, edit.lastSequence)
  }

  /** The record of an edit whose deleted files are listed as `deleted`. */
  function EncodeEdit(c: Context, edit: VersionEdit, deleted: seq<(nat, nat)>): bytes {
    PutComparator(edit.comparator) + PutNumbers(edit) + PutPointers(c, edit.compactPointers)
    + PutDeletions(deleted) + PutNewFiles(c, edit.newFiles)
  }

  // ---------------------------------------------------------------- decoding

  /** A field's value put into the edit, and what follows the field. */
  type Step = Option<Parsed<VersionEdit>>

  function GetKey(c: Context, s: bytes): (r: Option<Parsed<InternalKey>>)
    ensures r.Some? ==> |r.value.rest| < |s|
  {
    match GetLengthPrefixed(s)
    case None => None
    case Some(p) => match DecodeKey(c, p.value) case None => None case Some(k) => Some(Parsed(k, p.rest))
  }

  function GetLevel(s: bytes): (r: Option<Parsed<nat>>)
    ensures r.Some? ==> r.value.value < NUM_LEVELS && |r.value.rest| < |s|
  {
    match GetVarint32(s)
    case None => None
    case Some(p) => if p.value < NUM_LEVELS then Some(p) else None
  }

  function WithNumber(tag: nat, v: nat, edit: VersionEdit): VersionEdit {
    if tag == LOG_NUMBER then edit.(logNumber := Some(v))
    else if tag == PREV_LOG_NUMBER then edit.(prevLogNumber := Some(v))
    else if tag == NEXT_FILE_NUMBER then edit.(nextFileNumber := Some(v))
    else edit.(lastSequence := Some(v))
  }

  function GetNumber(tag: nat, s: bytes, edit: VersionEdit): (r: Step)
    ensures r.Some? ==> |r.value.rest| < |s|
  {
    match GetVarint64(s) case None => None case Some(p) => Some(Parsed(WithNumber(tag, p.value, edit), p.rest))
  }

  function GetPointer(c: Context, s: bytes, edit: VersionEdit): (r: Step)
    ensures r.Some? ==> |r.value.rest| < |s|
  {
    match GetLevel(s)
    case None => None
    case Some(l) =>
      match GetKey(c, l.rest)
      case None => None
      case Some(k) => Some(Parsed(edit.(compactPointers := edit.compactPointers + [(l.value, k.value)]), k.rest))
  }

  function GetDeleted(s: bytes, edit: VersionEdit): (r: Step)
    ensures r.Some? ==> |r.value.rest| < |s|
  {
    match GetLevel(s)
    case None => None
    case Some(l) =>
      match GetVarint64(l.rest)
      case None => None
      case Some(n) => Some(Parsed(edit.(deletedFiles := edit.deletedFiles + {(l.value, n.value)}), n.rest))
  }

  function GetFile(c: Context, s: bytes): (r: Option<Parsed<File>>)
    ensures r.Some? ==> |r.value.rest| < |s|
  {
    match GetVarint64(s)
    case None => None
    case Some(number) =>
      match GetVarint64(number.rest)
      case None => None
      case Some(size) =>
        match GetKey(c, size.rest)
        case None => None
        case Some(smallest) =>
          match GetKey(c, smallest.rest)
          case None => None
          case Some(largest) =>
            Some(Parsed(File(number.value, size.value, smallest.value, largest.value, c.disk(number.value)), largest.rest))
  }

  function GetNew(c: Context, s: bytes, edit: VersionEdit): (r: Step)
    ensures r.Some? ==> |r.value.rest| < |s|
  {
    match GetLevel(s)
    case None => None
    case Some(l) =>
      match GetFile(c, l.rest)
      case None => None
      case Some(f) => Some(Parsed(edit.(newFiles := edit.newFiles + [(l.value, f.value)]), f.rest))
  }

  function GetField(c: Context, tag: nat, s: bytes, edit: VersionEdit): (r: Step)
    ensures r.Some? ==> |r.value.rest| < |s|
  {
    if tag == COMPARATOR then
      match GetLengthPrefixed(s) case None => None case Some(p) => Some(Parsed(edit.(comparator := Some(p.value)), p.rest))
    else if tag in {LOG_NUMBER, PREV_LOG_NUMBER, NEXT_FILE_NUMBER, LAST_SEQUENCE} then GetNumber(tag, s, edit)
    else if tag == COMPACT_POINTER then GetPointer(c, s, edit)
    else if tag == DELETED_FILE then GetDeleted(s, edit)
    else if tag == NEW_FILE then GetNew(c, s, edit)
    else None
  }

  /** All fields of a record, put into `edit` one after the other. */
  function Decode(c: Context, s: bytes, edit: VersionEdit): Option<VersionEdit>
    decreases |s|
  {
    match GetVarint32(s)
    case None => if s == [] then Some(edit) else None
    case Some(tag) =>
      match GetField(c, tag.value, tag.rest, edit)
      case None => None
      case Some(p) => Decode(c, p.rest, p.value)
  }

  /** Decoding into an edit first clears it, but for its compaction pointers. */
  function Cleared(edit: VersionEdit): VersionEdit {
    EMPTY_EDIT.(compactPointers := edit.compactPointers)
  }

  method DecodeFrom(c: Context, src: bytes, edit: VersionEdit) returns (r: Option<VersionEdit>)
    ensures r == Decode(c, src, Cleared(edit))
  {
    var input, e := src, Cleared(edit);
    while true
      invariant Decode(c, input, e) == Decode(c, src, Cleared(edit))
      decreases |input|
    {
      var tag := GetVarint32(input);
      if tag == None {
        if input != [] {
          return None;
        }
        return Some(e);
      }
      var p := GetField(c, tag.value.value, tag.value.rest, e);
      if p == None {
        return None;
      }
      input, e := p.value.rest, p.value.value;
    }
  }

  // ---------------------------------------------------------------- round trip

  predicate NumberFits(v: Option<nat>) {
    v.Some? ==> v.value < MAX_UINT64
  }

  /** The file's numbers fit their words, and its contents are those of the table with its number. */
  predicate FileFits(c: Context, f: File) {
    f.number < MAX_UINT64 && f.size < MAX_UINT64 && KeyFits(c, f.smallest) && KeyFits(c, f.largest) && f.entries == c.disk(f.number)
  }

  /** The edit's numbers fit their words and its levels exist. */
  ghost predicate EditFits(c: Context, e: VersionEdit) {
    && (e.comparator.Some? ==> |e.comparator.value| < MAX_UINT32)
    && NumberFits(e.logNumber) && NumberFits(e.prevLogNumber) && NumberFits(e.nextFileNumber) && NumberFits(e.lastSequence)
    && (forall p :: p in e.compactPointers ==> p.0 < NUM_LEVELS && KeyFits(c, p.1))
    && (forall p :: p in e.deletedFiles ==> p.0 < NUM_LEVELS && p.1 < MAX_UINT64)
    && forall p :: p in e.newFiles ==> p.0 < NUM_LEVELS && FileFits(c, p.1)
  }

  lemma PutKeyRoundTrip(c: Context, k: InternalKey, rest: bytes)
    requires KeyFits(c, k)
    ensures GetKey(c, PutKey(c, k) + rest) == Some(Parsed(k, rest))
  {
    KeyRoundTrip(c, k);
    LengthPrefixedRoundTrip(EncodeKey(c, k), rest);
    hide GetLengthPrefixed, PutLengthPrefixed, EncodeKey, DecodeKey;
  }

  lemma LevelRoundTrip(l: nat, rest: bytes)
    requires l < NUM_LEVELS
    ensures GetLevel(Varint(l) + rest) == Some(Parsed(l, rest))
  {
    Varint32RoundTrip(l, rest);
    hide GetVarint32, Varint;
  }

  /** A tag at the front is decoded, then its field. */
  lemma DecodeTag(c: Context, tag: nat, field: bytes, e: VersionEdit)
    requires tag < MAX_UINT32
    ensures Decode(c, Varint(tag) + field, e) ==
            match GetField(c, tag, field, e) case None => None case Some(p) => Decode(c, p.rest, p.value)
  {
    Varint32RoundTrip(tag, field);
    hide GetVarint32, Varint, GetField;
  }

  lemma DecodeNumber(c: Context, tag: nat, v: Option<nat>, rest: bytes, e: VersionEdit)
    requires NumberFits(v) && tag in {LOG_NUMBER, PREV_LOG_NUMBER, NEXT_FILE_NUMBER, LAST_SEQUENCE}
    ensures v == None ==> PutNumber(tag, v) + rest == rest
    ensures v.Some? ==> Decode(c, PutNumber(tag, v) + rest, e) == Decode(c, rest, WithNumber(tag, v.value, e))
  {
    hide GetVarint64, Varint, Decode, WithNumber;
    if v.Some? {
      assert PutNumber(tag, v) + rest == Varint(tag) + (Varint(v.value) + rest);
      DecodeTag(c, tag, Varint(v.value) + rest, e);
      Varint64RoundTrip(v.value, rest);
    }
  }

  lemma DecodeComparator(c: Context, name: Option<bytes>, rest: bytes, e: VersionEdit)
    requires name.Some? ==> |name.value| < MAX_UINT32
    ensures name == None ==> PutComparator(name) + rest == rest
    ensures name.Some? ==> Decode(c, PutComparator(name) + rest, e) == Decode(c, rest, e.(comparator := name))
  {
    hide GetLengthPrefixed, PutLengthPrefixed, Varint, Decode;
    if name.Some? {
      var field := PutLengthPrefixed(name.value) + rest;
      assert PutComparator(name) + rest == Varint(COMPARATOR) + field;
      DecodeTag(c, COMPARATOR, field, e);
      LengthPrefixedRoundTrip(name.value, rest);
    }
  }

  lemma DecodePointer(c: Context, p: (nat, InternalKey), rest: bytes, e: VersionEdit)
    requires p.0 < NUM_LEVELS && KeyFits(c, p.1)
    ensures Decode(c, PutPointer(c, p) + rest, e) == Decode(c, rest, e.(compactPointers := e.compactPointers + [p]))
  {
    hide GetLevel, GetKey, PutKey, Varint, Decode, KeyFits;
    var field := Varint(p.0) + (PutKey(c, p.1) + rest);
    assert PutPointer(c, p) + rest == Varint(COMPACT_POINTER) + field;
    DecodeTag(c, COMPACT_POINTER, field, e);
    LevelRoundTrip(p.0, PutKey(c, p.1) + rest);
    PutKeyRoundTrip(c, p.1, rest);
  }

  lemma DecodeDeleted(c: Context, p: (nat, nat), rest: bytes, e: VersionEdit)
    requires p.0 < NUM_LEVELS && p.1 < MAX_UINT64
    ensures Decode(c, PutDeleted(p) + rest, e) == Decode(c, rest, e.(deletedFiles := e.deletedFiles + {p}))
  {
    hide GetLevel, GetVarint64, Varint, Decode;
    var field := Varint(p.0) + (Varint(p.1) + rest);
    assert PutDeleted(p) + rest == Varint(DELETED_FILE) + field;
    DecodeTag(c, DELETED_FILE, field, e);
    LevelRoundTrip(p.0, Varint(p.1) + rest);
    Varint64RoundTrip(p.1, rest);
  }

  lemma FileRoundTrip(c: Context, f: File, rest: bytes)
    requires FileFits(c, f)
    ensures GetFile(c, Varint(f.number) + (Varint(f.size) + (PutKey(c, f.smallest) + (PutKey(c, f.largest) + rest)))) == Some(Parsed(f, rest))
  {
    hide GetKey, PutKey, GetVarint64, Varint;
    var largest := PutKey(c, f.largest) + rest;
    var smallest := PutKey(c, f.smallest) + largest;
    Varint64RoundTrip(f.number, Varint(f.size) + smallest);
    Varint64RoundTrip(f.size, smallest);
    PutKeyRoundTrip(c, f.smallest, largest);
    PutKeyRoundTrip(c, f.largest, rest);
  }

  lemma DecodeNew(c: Context, p: (nat, File), rest: bytes, e: VersionEdit)
    requires p.0 < NUM_LEVELS && FileFits(c, p.1)
    ensures Decode(c, PutNew(c, p) + rest, e) == Decode(c, rest, e.(newFiles := e.newFiles + [p]))
  {
    hide GetLevel, GetFile, PutKey, Varint, Decode, FileFits;
    var f := p.1;
    var file := Varint(f.number) + (Varint(f.size) + (PutKey(c, f.smallest) + (PutKey(c, f.largest) + rest)));
    FileRoundTrip(c, f, rest);
    LevelRoundTrip(p.0, file);
    DecodeTag(c, NEW_FILE, Varint(p.0) + file, e);
    assert PutNew(c, p) + rest == Varint(NEW_FILE) + (Varint(p.0) + file);
  }

  lemma {:induction false} DecodePointers(c: Context, ps: seq<(nat, InternalKey)>, rest: bytes, e: VersionEdit)
    requires forall p :: p in ps ==> p.0 < NUM_LEVELS && KeyFits(c, p.1)
    ensures Decode(c, PutPointers(c, ps) + rest, e) == Decode(c, rest, e.(compactPointers := e.compactPointers + ps))
  {
    hide Decode, PutPointer, KeyFits;
    if ps == [] {
      assert PutPointers(c, ps) + rest == rest && e.(compactPointers := e.compactPointers + []) == e;
    } else {
      var more := PutPointers(c, ps[1..]) + rest;
      assert PutPointers(c, ps) + rest == PutPointer(c, ps[0]) + more;
      DecodePointer(c, ps[0], more, e);
      DecodePointers(c, ps[1..], rest, e.(compactPointers := e.compactPointers + [ps[0]]));
      assert e.compactPointers + [ps[0]] + ps[1..] == e.compactPointers + ps;
    }
  }

  ghost function SetOf<T>(s: seq<T>): set<T> { set t | t in s }

  lemma {:induction false} DecodeDeletions(c: Context, ps: seq<(nat, nat)>, rest: bytes, e: VersionEdit)
    requires forall p :: p in ps ==> p.0 < NUM_LEVELS && p.1 < MAX_UINT64
    ensures Decode(c, PutDeletions(ps) + rest, e) == Decode(c, rest, e.(deletedFiles := e.deletedFiles + SetOf(ps)))
  {
    hide Decode, PutDeleted;
    if ps == [] {
      assert PutDeletions(ps) + rest == rest && e.(deletedFiles := e.deletedFiles + SetOf(ps)) == e;
    } else {
      var more := PutDeletions(ps[1..]) + rest;
      assert PutDeletions(ps) + rest == PutDeleted(ps[0]) + more;
      DecodeDeleted(c, ps[0], more, e);
      DecodeDeletions(c, ps[1..], rest, e.(deletedFiles := e.deletedFiles + {ps[0]}));
      assert e.deletedFiles + {ps[0]} + SetOf(ps[1..]) == e.deletedFiles + SetOf(ps);
    }
  }

  lemma {:induction false} DecodeNewFiles(c: Context, ps: seq<(nat, File)>, rest: bytes, e: VersionEdit)
    requires forall p :: p in ps ==> p.0 < NUM_LEVELS && FileFits(c, p.1)
    ensures Decode(c, PutNewFiles(c, ps) + rest, e) == Decode(c, rest, e.(newFiles := e.newFiles + ps))
  {
    hide Decode, PutNew, FileFits;
    if ps == [] {
      assert PutNewFiles(c, ps) + rest == rest && e.(newFiles := e.newFiles + []) == e;
    } else {
      var more := PutNewFiles(c, ps[1..]) + rest;
      assert PutNewFiles(c, ps) + rest == PutNew(c, ps[0]) + more;
      DecodeNew(c, ps[0], more, e);
      DecodeNewFiles(c, ps[1..], rest, e.(newFiles := e.newFiles + [ps[0]]));
      assert e.newFiles + [ps[0]] + ps[1..] == e.newFiles + ps;
    }
  }

  ghost function WithNumbers(edit: VersionEdit, e: VersionEdit): VersionEdit {
    e.(logNumber := if edit.logNumber.Some? then edit.logNumber else e.logNumber,
       prevLogNumber := if edit.prevLogNumber.Some? then edit.prevLogNumber else e.prevLogNumber,
       nextFileNumber := if edit.nextFileNumber.Some? then edit.nextFileNumber else e.nextFileNumber,
       lastSequence := if edit.lastSequence.Some? then edit.lastSequence else e.lastSequence)
  }

  lemma DecodeNumbers(c: Context, edit: VersionEdit, rest: bytes, e: VersionEdit)
    requires EditFits(c, edit)
    ensures Decode(c, PutNumbers(edit) + rest, e) == Decode(c, rest, WithNumbers(edit, e))
  {
    hide Decode, PutNumber;
    var last := PutNumber(LAST_SEQUENCE, edit.lastSequence) + rest;
    var next := PutNumber(NEXT_FILE_NUMBER, edit.nextFileNumber) + last;
    var prev := PutNumber(PREV_LOG_NUMBER, edit.prevLogNumber) + next;
    assert PutNumbers(edit) + rest == PutNumber(LOG_NUMBER, edit.logNumber) + prev;
    DecodeNumber(c, LOG_NUMBER, edit.logNumber, prev, e);
    var e1 := if edit.logNumber.Some? then e.(logNumber := edit.logNumber) else e;
    DecodeNumber(c, PREV_LOG_NUMBER, edit.prevLogNumber, next, e1);
    var e2 := if edit.prevLogNumber.Some? then e1.(prevLogNumber := edit.prevLogNumber) else e1;
    DecodeNumber(c, NEXT_FILE_NUMBER, edit.nextFileNumber, last, e2);
    var e3 := if edit.nextFileNumber.Some? then e2.(nextFileNumber := edit.nextFileNumber) else e2;
    DecodeNumber(c, LAST_SEQUENCE, edit.lastSequence, rest, e3);
  }

  /** What an edit makes of the one it is decoded into: of the single fields the later stand,
      the lists and the set grow. */
  ghost function Absorbed(e: VersionEdit, edit: VersionEdit): VersionEdit {
    WithNumbers(edit, e).(
      comparator := if edit.comparator.Some? then edit.comparator else e.comparator,
      compactPointers := e.compactPointers + edit.compactPointers,
      deletedFiles := e.deletedFiles + edit.deletedFiles,
      newFiles := e.newFiles + edit.newFiles)
  }

  /** The record of an edit, whatever the order the deleted files are listed in, is taken up
      and what follows it left. */
  lemma EditIsAbsorbed(c: Context, edit: VersionEdit, deleted: seq<(nat, nat)>, rest: bytes, e: VersionEdit)
    requires EditFits(c, edit) && SetOf(deleted) == edit.deletedFiles
    ensures Decode(c, EncodeEdit(c, edit, deleted) + rest, e) == Decode(c, rest, Absorbed(e, edit))
  {
    hide Decode, PutPointer, PutNew, PutDeleted, PutNumbers, KeyFits, FileFits;
    assert forall p :: p in deleted ==> p in SetOf(deleted);
    var news := PutNewFiles(c, edit.newFiles) + rest;
    var deletions := PutDeletions(deleted) + news;
    var pointers := PutPointers(c, edit.compactPointers) + deletions;
    var numbers := PutNumbers(edit) + pointers;
    EncodedInTurn(c, edit, deleted, rest);
    DecodeComparator(c, edit.comparator, numbers, e);
    var e1 := if edit.comparator.Some? then e.(comparator := edit.comparator) else e;
    DecodeNumbers(c, edit, pointers, e1);
    var e2 := WithNumbers(edit, e1);
    DecodePointers(c, edit.compactPointers, deletions, e2);
    var e3 := e2.(compactPointers := e2.compactPointers + edit.compactPointers);
    DecodeDeletions(c, deleted, news, e3);
    var e4 := e3.(deletedFiles := e3.deletedFiles + SetOf(deleted));
    DecodeNewFiles(c, edit.newFiles, rest, e4);
  }

  lemma EncodedInTurn(c: Context, edit: VersionEdit, deleted: seq<(nat, nat)>, rest: bytes)
    ensures EncodeEdit(c, edit, deleted) + rest ==
            PutComparator(edit.comparator) + (PutNumbers(edit) + (PutPointers(c, edit.compactPointers)
            + (PutDeletions(deleted) + (PutNewFiles(c, edit.newFiles) + rest))))
  {
    hide PutComparator, PutNumbers, PutPointers, PutDeletions, PutNewFiles;
  }

  /** Round trip. An edit decoded into one that was used before differs in its compaction
      pointers, which are not cleared. */
  lemma EditRoundTrip(c: Context, edit: VersionEdit, deleted: seq<(nat, nat)>, used: VersionEdit)
    requires EditFits(c, edit) && SetOf(deleted) == edit.deletedFiles
    ensures Decode(c, EncodeEdit(c, edit, deleted), Cleared(used)) ==
            Some(edit.(compactPointers := used.compactPointers + edit.compactPointers))
  {
    hide Decode, EncodeEdit, EditFits;
    assert EncodeEdit(c, edit, deleted) + [] == EncodeEdit(c, edit, deleted);
    EditIsAbsorbed(c, edit, deleted, [], Cleared(used));
    DecodeEnd(c, Absorbed(Cleared(used), edit));
    assert Absorbed(Cleared(used), edit) == edit.(compactPointers := used.compactPointers + edit.compactPointers);
  }

  /** Behind a whole edit, a field with an unknown tag fails the record, and so does a pointer, a
      deletion or a new file of a level that there is not, or a byte that ends no varint. */
  lemma WrongFieldFails(c: Context, edit: VersionEdit, deleted: seq<(nat, nat)>, e: VersionEdit, tag: nat, level: nat, s: bytes)
    requires EditFits(c, edit) && SetOf(deleted) == edit.deletedFiles && tag < MAX_UINT32 && level < MAX_UINT32
    ensures tag !in {1, 2, 3, 4, 5, 6, 7, 9} ==> Decode(c, EncodeEdit(c, edit, deleted) + (Varint(tag) + s), e) == None
    ensures tag in {5, 6, 7} && level >= 7 ==> Decode(c, EncodeEdit(c, edit, deleted) + (Varint(tag) + (Varint(level) + s)), e) == None
    ensures Decode(c, EncodeEdit(c, edit, deleted) + [128], e) == None
  {
    EditIsAbsorbed(c, edit, deleted, Varint(tag) + s, e);
    EditIsAbsorbed(c, edit, deleted, Varint(tag) + (Varint(level) + s), e);
    EditIsAbsorbed(c, edit, deleted, [128], e);
    hide *;
    var f := Absorbed(e, edit);
    UnknownTagFails(c, tag, s, f);
    NoSuchLevelFails(c, tag, level, s, f);
    UnfinishedFails(c, f);
  }

  lemma UnknownTagFails(c: Context, tag: nat, s: bytes, e: VersionEdit)
    requires tag < MAX_UINT32
    ensures tag !in {1, 2, 3, 4, 5, 6, 7, 9} ==> Decode(c, Varint(tag) + s, e) == None
  {
    DecodeTag(c, tag, s, e);
    hide Varint, Decode;
  }

  lemma NoSuchLevelFails(c: Context, tag: nat, level: nat, s: bytes, e: VersionEdit)
    requires tag < MAX_UINT32 && level < MAX_UINT32
    ensures tag in {5, 6, 7} && level >= 7 ==> Decode(c, Varint(tag) + (Varint(level) + s), e) == None
  {
    DecodeTag(c, tag, Varint(level) + s, e);
    Varint32RoundTrip(level, s);
    hide Varint, Decode, GetVarint32, GetVarint64, GetKey, GetFile;
  }

  lemma UnfinishedFails(c: Context, e: VersionEdit)
    ensures Decode(c, [128], e) == None
  {
    Unfinished();
    hide GetVarint32;
  }

  lemma Unfinished()
    ensures GetVarint32([128]) == None
  {
  }

  lemma DecodeEnd(c: Context, e: VersionEdit)
    ensures Decode(c, [], e) == Some(e)
  {
  }

  /** Decoding gives back the edit if and only if the edit decoded into had no pointers. */
  lemma RoundTripIffFresh(c: Context, edit: VersionEdit, deleted: seq<(nat, nat)>, used: VersionEdit)
    requires EditFits(c, edit) && SetOf(deleted) == edit.deletedFiles
    ensures Decode(c, EncodeEdit(c, edit, deleted), Cleared(used)) == Some(edit) <==> used.compactPointers == []
  {
    hide *;
    EditRoundTrip(c, edit, deleted, used);
    SameIfNoMore(used.compactPointers, edit.compactPointers);
  }

  lemma SameIfNoMore<T>(front: seq<T>, s: seq<T>)
    ensures front + s == s <==> front == []
  {
    assert |front + s| == |front| + |s|;
  }

  /** Deleted files are kept in an ordered set, so that is the order they are written in. */
  predicate PairBefore(p: (nat, nat), q: (nat, nat)) {
    p.0 < q.0 || (p.0 == q.0 && p.1 < q.1)
  }

  lemma PairEither(p: (nat, nat), q: (nat, nat))
    requires p != q
    ensures PairBefore(p, q) || PairBefore(q, p)
  {
    var (a, b) := p;
    var (x, y) := q;
    assert p == (a, b) && q == (x, y);
  }

  lemma {:induction false} LeastPair(ps: set<(nat, nat)>) returns (least: (nat, nat))
    requires ps != {}
    ensures least in ps && forall q :: q in ps ==> !PairBefore(q, least)
    decreases |ps|
  {
    var p :| p in ps;
    if ps == {p} {
      least := p;
    } else {
      assert ps - {p} != {};
      SubsetSize(ps - {p}, ps);
      var rest := LeastPair(ps - {p});
      least := if PairBefore(rest, p) then rest else p;
      forall q | q in ps ensures !PairBefore(q, least) {
        assert q != p ==> !PairBefore(q, rest);
      }
    }
  }

  method EncodeTo(c: Context, edit: VersionEdit) returns (dst: bytes, ghost deleted: seq<(nat, nat)>)
    ensures SetOf(deleted) == edit.deletedFiles && dst == EncodeEdit(c, edit, deleted)
    ensures forall i, j :: 0 <= i < j < |deleted| ==> PairBefore(deleted[i], deleted[j])
  {
    hide PutDeleted, PutPointers, PutNewFiles, PutNumbers, PutComparator, PairBefore;
    dst := PutComparator(edit.comparator) + PutNumbers(edit) + PutPointers(c, edit.compactPointers);
    ghost var start := dst;
    deleted := [];
    var pending := edit.deletedFiles;
    while pending != {}
      invariant SetOf(deleted) + pending == edit.deletedFiles && dst == start + PutDeletions(deleted)
      invariant forall i, j :: 0 <= i < j < |deleted| ==> PairBefore(deleted[i], deleted[j])
      invariant forall p, q :: p in deleted && q in pending ==> PairBefore(p, q)
      decreases pending
    {
      ghost var least := LeastPair(pending);
      var p :| p in pending && forall q :: q in pending ==> !PairBefore(q, p);
      PutDeletionsSnoc(deleted, p);
      NextPair(deleted, pending, p);
      deleted := deleted + [p];
      dst := dst + PutDeleted(p);
      pending := pending - {p};
    }
    dst := dst + PutNewFiles(c, edit.newFiles);
  }

  lemma NextPair(done: seq<(nat, nat)>, pending: set<(nat, nat)>, p: (nat, nat))
    requires (forall i, j :: 0 <= i < j < |done| ==> PairBefore(done[i], done[j])) && forall a, q :: a in done && q in pending ==> PairBefore(a, q)
    requires p in pending && forall q :: q in pending ==> !PairBefore(q, p)
    ensures SetOf(done + [p]) + (pending - {p}) == SetOf(done) + pending
    ensures forall i, j :: 0 <= i < j < |done + [p]| ==> PairBefore((done + [p])[i], (done + [p])[j])
    ensures forall a, q :: a in done + [p] && q in pending - {p} ==> PairBefore(a, q)
  {
    forall q | q in pending && q != p ensures PairBefore(p, q) {
      PairEither(p, q);
    }
    hide PairBefore;
    assert SetOf(done + [p]) == SetOf(done) + {p};
  }

  lemma {:induction false} PutDeletionsSnoc(ps: seq<(nat, nat)>, p: (nat, nat))
    ensures PutDeletions(ps + [p]) == PutDeletions(ps) + PutDeleted(p)
  {
    hide PutDeleted;
    if ps == [] {
      assert ([] + [p])[1..] == [];
    } else {
      assert (ps + [p])[1..] == ps[1..] + [p];
      PutDeletionsSnoc(ps[1..], p);
    }
  }
}

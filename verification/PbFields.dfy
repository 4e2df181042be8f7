/** Walking the field descriptors of a message, and the check for required fields. */
module PbFields {
  datatype Presence = Required | Optional | Repeated | Oneof
  datatype Storage = Static | Pointer | Callback

  /** A field descriptor. A tag of zero ends the descriptors of a message. */
  datatype Descriptor = Descriptor(tag: nat, presence: Presence, storage: Storage, extension: bool,
                                   dataOffset: nat, sizeOffset: int, dataSize: nat, arraySize: nat)

  const POINTER_SIZE := 8
  const SIZE_MAX := 0xffff

  /** Zero ends the list and occurs nowhere else. */
  ghost predicate Terminated(fields: seq<Descriptor>) {
    && |fields| > 0 && fields[|fields| - 1].tag == 0
    && forall i :: 0 <= i < |fields| - 1 ==> fields[i].tag != 0
  }

  /** How many of the first `n` fields are required. */
  function RequiredBefore(fields: seq<Descriptor>, n: nat): (count: nat)
    requires n <= |fields|
    ensures count <= n
  {
    if n == 0 then 0 else RequiredBefore(fields, n - 1) + if fields[n - 1].presence == Required then 1 else 0
  }

  /** The room a field takes in the message structure. */
  function StructSize(f: Descriptor): nat {
    if f.storage == Static && f.presence == Repeated then f.dataSize * f.arraySize
    else if f.storage == Pointer then POINTER_SIZE
    else f.dataSize
  }

  /** The further members of a union start where the first one does. */
  predicate InUnion(prev: Descriptor, f: Descriptor) {
    prev.presence == Oneof && f.presence == Oneof && f.dataOffset == SIZE_MAX
  }

  /** Where the data and the size of a field are, from the start of the structure. */
  function DataAt(fields: seq<Descriptor>, i: nat): int
    requires i < |fields|
  {
    if i == 0 then fields[0].dataOffset
    else if InUnion(fields[i - 1], fields[i]) then DataAt(fields, i - 1)
    else DataAt(fields, i - 1) + StructSize(fields[i - 1]) + fields[i].dataOffset
  }

  function SizeAt(fields: seq<Descriptor>, i: nat): int
    requires i < |fields|
  {
    if i > 0 && InUnion(fields[i - 1], fields[i]) then SizeAt(fields, i - 1)
    else DataAt(fields, i) + fields[i].sizeOffset
  }

  /** The position after `pos`, which follows the last field with the first. */
  function Following(fields: seq<Descriptor>, pos: nat): nat
    requires |fields| > 0 && pos < |fields|
  {
    if pos + 1 < |fields| - 1 then pos + 1 else 0
  }

  predicate Matches(f: Descriptor, tag: nat) {
    f.tag == tag && !f.extension
  }

  class FieldIter {
    const fields: seq<Descriptor>
    var pos: nat
    var requiredFieldIndex: nat
    var pData: int
    var pSize: int

    constructor (fields: seq<Descriptor>)
      requires Terminated(fields)
      ensures Valid() && pos == 0 && this.fields == fields
    {
      this.fields := fields;
      pos, requiredFieldIndex, pData, pSize := 0, 0, fields[0].dataOffset, fields[0].dataOffset + fields[0].sizeOffset;
    }

    /** Whatever way the iterator came to a field, everything in it belongs to that field. */
    ghost predicate Valid()
      reads this
    {
      && Terminated(fields) && (if |fields| == 1 then pos == 0 else pos < |fields| - 1)
      && requiredFieldIndex == RequiredBefore(fields, pos) && pData == DataAt(fields, pos) && pSize == SizeAt(fields, pos)
    }

    method Begin() returns (more: bool)
      requires Terminated(fields)
      modifies this
      ensures Valid() && pos == 0 && (more <==> |fields| > 1)
    {
      pos, requiredFieldIndex := 0, 0;
      pData := fields[0].dataOffset;
      pSize := pData + fields[0].sizeOffset;
      more := fields[0].tag != 0;
    }

    method Next() returns (more: bool)
      requires Valid()
      modifies this
      ensures Valid() && pos == Following(fields, old(pos)) && (more <==> old(pos) + 1 < |fields| - 1)
    {
      var prev := fields[pos];
      if prev.tag == 0 {
        return false;
      }
      pos := pos + 1;
      if fields[pos].tag == 0 {
        var begun := Begin();
        return false;
      }
      var f := fields[pos];
      var prevSize := prev.dataSize;
      if prev.presence == Oneof && f.presence == Oneof && f.dataOffset == SIZE_MAX {
        return true;
      } else if prev.storage == Static && prev.presence == Repeated {
        prevSize := prevSize * prev.arraySize;
      } else if prev.storage == Pointer {
        prevSize := POINTER_SIZE;
      }
      if prev.presence == Required {
        requiredFieldIndex := requiredFieldIndex + 1;
      }
      pData := pData + prevSize + f.dataOffset;
      pSize := pData + f.sizeOffset;
      return true;
    }

    /** Looks at every field once, starting with the current one. */
    method Find(tag: nat) returns (found: bool)
      requires Valid()
      modifies this
      ensures Valid() && (found <==> exists i :: 0 <= i < |fields| && IsField(fields, i) && Matches(fields[i], tag))
      ensures found ==> Matches(fields[pos], tag) && FirstFrom(fields, old(pos), pos, tag)
      ensures !found ==> pos == old(pos)
    {
      ghost var n: nat := 0;
      var start := pos;
      while true
        invariant 0 <= n < Count(fields) && start < Count(fields)
        invariant Valid() && pos == Around(fields, start, n)
        invariant forall k :: 0 <= k < n ==> !Matches(fields[Around(fields, start, k)], tag)
        decreases Count(fields) - n
      {
        if Matches(fields[pos], tag) {
          ReachesField(fields, start, n);
          return true;
        }
        var more := Next();
        n := n + 1;
        if pos == start {
          CoversAll(fields, start, n, tag);
          return false;
        }
      }
    }
  }

  /** The positions an iterator can be at: all fields, or the end mark of an empty message. */
  predicate IsField(fields: seq<Descriptor>, i: nat) {
    i < |fields| - 1 || (|fields| == 1 && i == 0)
  }

  function Count(fields: seq<Descriptor>): nat
    requires |fields| > 0
  {
    if |fields| == 1 then 1 else |fields| - 1
  }

  /** The `n`-th position after `start`. */
  function Around(fields: seq<Descriptor>, start: nat, n: nat): (p: nat)
    requires |fields| > 0 && start < Count(fields) && n <= Count(fields)
    ensures p < Count(fields)
  {
    if start + n < Count(fields) then start + n else start + n - Count(fields)
  }

  /** `pos` is the first matching position from `start` on, going around. */
  ghost predicate FirstFrom(fields: seq<Descriptor>, start: nat, pos: nat, tag: nat)
    requires |fields| > 0 && start < Count(fields)
  {
    exists n :: 0 <= n < Count(fields) && pos == Around(fields, start, n)
                && forall k :: 0 <= k < n ==> !Matches(fields[Around(fields, start, k)], tag)
  }

  lemma CoversAll(fields: seq<Descriptor>, start: nat, n: nat, tag: nat)
    requires |fields| > 0 && start < Count(fields) && n == Count(fields)
    requires forall k :: 0 <= k < n ==> !Matches(fields[Around(fields, start, k)], tag)
    ensures forall i :: 0 <= i < |fields| && IsField(fields, i) ==> !Matches(fields[i], tag)
  {
    forall i | 0 <= i < |fields| && IsField(fields, i) ensures !Matches(fields[i], tag) {
      var k := if i >= start then i - start else i - start + Count(fields);
      assert Around(fields, start, k) == i;
    }
  }

  /** Only the end mark of an empty message makes a difference between positions and fields:
      tag zero is found there. */
  lemma FoundIffField(fields: seq<Descriptor>, tag: nat)
    requires Terminated(fields)
    ensures (exists i :: 0 <= i < |fields| && IsField(fields, i) && Matches(fields[i], tag)) <==>
            || (exists i :: 0 <= i < |fields| - 1 && Matches(fields[i], tag))
            || (|fields| == 1 && tag == 0 && !fields[0].extension)
  {
    if |fields| == 1 {
      assert IsField(fields, 0);
    } else {
      forall i | 0 <= i < |fields| - 1 ensures IsField(fields, i) {}
    }
  }

  lemma ReachesField(fields: seq<Descriptor>, start: nat, n: nat)
    requires |fields| > 0 && start < Count(fields) && n < Count(fields)
    ensures IsField(fields, Around(fields, start, n))
  {
  }

  // ---------------------------------------------------------------- the bitmap of required fields

  const MAX_REQUIRED_FIELDS := 64
  const ALL_BITS := 0xffff_ffff

  /** The word whose bit `b`, for `b < n`, says whether `base + b` is in the set. */
  ghost function WordOf(seen: set<nat>, base: nat, n: nat): nat
    decreases n
  {
    if n == 0 then 0 else (if base in seen then 1 else 0) + 2 * WordOf(seen, base + 1, n - 1)
  }

  /** `w | 1 << b`. */
  function SetBit(w: nat, b: nat): nat {
    if b == 0 then (if w % 2 == 1 then w else w + 1) else w % 2 + 2 * SetBit(w / 2, b - 1)
  }

  /** The word of `r` ones, `allbits >> (32 - r)`. */
  function LowBits(r: nat): nat {
    if r == 0 then 0 else 1 + 2 * LowBits(r - 1)
  }

  lemma WordSize()
    ensures LowBits(32) == ALL_BITS
  {
    assert LowBits(4) == 0xf && LowBits(8) == 0xff && LowBits(12) == 0xfff && LowBits(16) == 0xffff;
    assert LowBits(20) == 0xf_ffff && LowBits(24) == 0xff_ffff && LowBits(28) == 0xfff_ffff;
  }

  lemma {:induction false} SameWord(a: set<nat>, c: set<nat>, base: nat, n: nat)
    requires forall k :: base <= k < base + n ==> (k in a <==> k in c)
    ensures WordOf(a, base, n) == WordOf(c, base, n)
    decreases n
  {
    if n > 0 { SameWord(a, c, base + 1, n - 1); }
  }

  /** Marking a field sets its bit and no other. */
  lemma {:induction false} MarkOne(seen: set<nat>, base: nat, n: nat, b: nat)
    requires b < n
    ensures WordOf(seen + {base + b}, base, n) == SetBit(WordOf(seen, base, n), b)
    decreases n
  {
    var w := WordOf(seen, base + 1, n - 1);
    assert WordOf(seen, base, n) / 2 == w;
    if b == 0 {
      SameWord(seen, seen + {base}, base + 1, n - 1);
    } else {
      MarkOne(seen, base + 1, n - 1, b - 1);
    }
  }

  /** A word is `r` ones and nothing above them exactly if it stands for the first `r`. */
  lemma {:induction false} WordIsOnes(seen: set<nat>, base: nat, n: nat, r: nat)
    requires r <= n
    ensures WordOf(seen, base, n) == LowBits(r) <==> forall k :: base <= k < base + n ==> (k in seen <==> k < base + r)
    decreases n
  {
    if n > 0 {
      WordIsOnes(seen, base + 1, n - 1, if r == 0 then 0 else r - 1);
    }
  }

  /** The fields seen, as words: only required fields among the first 64 are recorded. */
  ghost predicate Records(words: seq<nat>, seen: set<nat>) {
    |words| == 2 && words[0] == WordOf(seen, 0, 32) && words[1] == WordOf(seen, 32, 32)
  }

  /** What the decoder does when it meets a field. */
  method MarkSeen(words: seq<nat>, index: nat, required: bool, ghost seen: set<nat>) returns (marked: seq<nat>)
    requires Records(words, seen)
    ensures Records(marked, if required && index < MAX_REQUIRED_FIELDS then seen + {index} else seen)
  {
    hide WordOf, SetBit;
    marked := words;
    if required && index < MAX_REQUIRED_FIELDS {
      var word, bit := index / 32, index % 32;
      marked := words[word := SetBit(words[word], bit)];
      if word == 0 {
        MarkOne(seen, 0, 32, bit);
        SameWord(seen, seen + {index}, 32, 32);
        assert 0 + bit == index;
      } else {
        MarkOne(seen, 32, 32, bit);
        SameWord(seen, seen + {index}, 0, 32);
        assert 32 + bit == index;
      }
    }
  }

  /** The check at the end of decoding: goes to the end of the descriptors to count the
      required ones, then compares whole words and the bits that remain. */
  method AllSeen(iter: FieldIter, words: seq<nat>, ghost seen: set<nat>) returns (ok: bool)
    requires iter.Valid() && Records(words, seen)
    requires |iter.fields| > 1 ==> forall i :: i in seen ==> i < RequiredBefore(iter.fields, |iter.fields| - 1) && i < MAX_REQUIRED_FIELDS
    modifies iter
    ensures iter.Valid()
    ensures ok <==> forall i :: 0 <= i < RequiredBefore(iter.fields, |iter.fields| - 1) && i < MAX_REQUIRED_FIELDS ==> i in seen
  {
    hide DataAt, SizeAt, Records;
    var count := iter.requiredFieldIndex;
    var last := iter.fields[iter.pos].presence;
    ghost var at := iter.pos;
    var more := iter.Next();
    while more
      invariant iter.Valid() && at < |iter.fields|
      invariant count == RequiredBefore(iter.fields, at) && last == iter.fields[at].presence
      invariant at <= |iter.fields| - 1 && (|iter.fields| > 1 ==> at < |iter.fields| - 1)
      invariant iter.pos == Following(iter.fields, at)
      invariant more <==> at + 1 < |iter.fields| - 1
      decreases |iter.fields| - at
    {
      count := iter.requiredFieldIndex;
      last := iter.fields[iter.pos].presence;
      at := iter.pos;
      more := iter.Next();
    }
    if last == Required && iter.fields[iter.pos].tag != 0 {
      count := count + 1;
    }
    assert count == RequiredBefore(iter.fields, |iter.fields| - 1);
    if count > MAX_REQUIRED_FIELDS {
      count := MAX_REQUIRED_FIELDS;
    }
    ok := WordsFull(words, count, seen);
  }

  method WordsFull(words: seq<nat>, count: nat, ghost seen: set<nat>) returns (ok: bool)
    requires Records(words, seen) && count <= MAX_REQUIRED_FIELDS && (count > 0 ==> forall i :: i in seen ==> i < count)
    ensures ok <==> forall i :: 0 <= i < count ==> i in seen
  {
    WordSize();
    hide WordOf, LowBits;
    ok := true;
    var i := 0;
    while i < count / 32
      invariant 0 <= i <= count / 32 <= 2
      invariant ok && forall k :: 0 <= k < 32 * i ==> k in seen
    {
      WordIsOnes(seen, 32 * i, 32, 32);
      if words[i] != ALL_BITS {
        return false;
      }
      i := i + 1;
    }
    var r := count % 32;
    if r != 0 {
      WordIsOnes(seen, 32 * i, 32, r);
      if words[i] != LowBits(r) {
        ok := false;
      }
    }
  }
}

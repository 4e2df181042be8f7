/** The skip list under one writer and any number of lock-free readers. Each atomic load or
    store of a link is one step, and steps of different threads interleave in any order. */
module SkipListReaders {
  import opened DbFormat
  import opened SkipLists

  /** Only the order of keys matters: a real stands for the position of a key in it. */
  type Key = real

  /** The nodes that arena memory holds are numbered; the head is node 0. The links of a
      new node are unset memory until the writer stores them. */
  datatype Link = Unset | Null | To(id: nat)
  datatype Node = Node(key: Key, height: nat, next: seq<Link>)

  /** Where the writer is in `Insert`. */
  datatype Writer =
    | Idle
    | Search(key: Key, height: nat, at: nat, level: nat, prev: seq<nat>)
    | Found(key: Key, height: nat, prev: seq<nat>)
    | Ready(key: Key, height: nat, prev: seq<nat>)
    | Linking(x: nat, level: nat, own: bool, prev: seq<nat>)

  /** Where a reader is in `FindGreaterOrEqual`. `top`, `hops` and `atStart` are history:
      the height it read, the links it moved along, and the keys that were in the list
      when it started. */
  datatype Reader =
    | Reading(target: Key, at: nat, level: nat, top: nat, hops: nat, atStart: set<Key>)
    | Done(target: Key, result: Option<nat>, top: nat, hops: nat, atStart: set<Key>)

  datatype State = State(mem: seq<Node>, maxHeight: nat, writer: Writer, readers: map<nat, Reader>)

  datatype Action =
    | BeginInsert(newKey: Key, newHeight: nat)
    | SearchLoad
    | RaiseHeight
    | Allocate
    | StoreOwn
    | Publish
    | BeginRead(reader: nat, target: Key, height: nat)
    | ReadLoad(reader: nat)

  // ---------------------------------------------------------------- the list

  /** The node the writer has allocated but not yet published on the lowest level. */
  function Hidden(w: Writer): Option<nat> {
    if w.Linking? && w.level == 0 then Some(w.x) else None
  }

  predicate Listed(mem: seq<Node>, hid: Option<nat>, i: nat) {
    0 < i < |mem| && hid != Some(i)
  }

  ghost function Keys(mem: seq<Node>, hid: Option<nat>): set<Key> {
    set i | 0 <= i < |mem| && Listed(mem, hid, i) :: mem[i].key
  }

  predicate Precedes(mem: seq<Node>, z: nat, key: Key)
    requires z < |mem|
  {
    z == 0 || mem[z].key < key
  }

  /** The links of `z` are set from level `l` down. */
  ghost predicate SetUpTo(mem: seq<Node>, z: nat, l: nat)
    requires z < |mem|
  {
    forall m :: 0 <= m <= l && m < |mem[z].next| ==> mem[z].next[m] != Unset
  }

  ghost predicate Sized(mem: seq<Node>, maxHeight: nat) {
    && |mem| > 0 && mem[0].height == MAX_HEIGHT && 1 <= maxHeight <= MAX_HEIGHT
    && (forall i :: 0 <= i < |mem| ==> |mem[i].next| == mem[i].height)
    && forall i :: 0 < i < |mem| ==> 1 <= mem[i].height <= maxHeight
  }

  ghost predicate Distinct(mem: seq<Node>) {
    forall i, j :: 0 < i < j < |mem| ==> mem[i].key != mem[j].key
  }

  /** A link goes up in key order, to a listed node of its level whose own links are set
      from that level down. */
  ghost predicate LinkOk(mem: seq<Node>, hid: Option<nat>, z: nat, l: nat)
    requires z < |mem| && l < |mem[z].next|
  {
    var link := mem[z].next[l];
    link.To? ==>
      && Listed(mem, hid, link.id) && l < |mem[link.id].next|
      && Precedes(mem, z, mem[link.id].key) && SetUpTo(mem, link.id, l)
  }

  ghost predicate LinksOk(mem: seq<Node>, hid: Option<nat>) {
    forall z, l {:trigger mem[z].next[l]} :: 0 <= z < |mem| && 0 <= l < |mem[z].next| ==> LinkOk(mem, hid, z, l)
  }

  /** On the lowest level `z` links to the next listed node. */
  ghost predicate BottomOk(mem: seq<Node>, hid: Option<nat>, z: nat)
    requires z < |mem| && |mem[z].next| > 0
  {
    match mem[z].next[0]
    case Unset => false
    case Null => forall u: nat :: Listed(mem, hid, u) ==> !Precedes(mem, z, mem[u].key)
    case To(y) => y < |mem| && forall u: nat :: Listed(mem, hid, u) && Precedes(mem, z, mem[u].key) ==> mem[y].key <= mem[u].key
  }

  ghost predicate Bottom(mem: seq<Node>, hid: Option<nat>) {
    && |mem| > 0 && |mem[0].next| > 0 && BottomOk(mem, hid, 0)
    && forall z: nat :: Listed(mem, hid, z) ==> |mem[z].next| > 0 && BottomOk(mem, hid, z)
  }

  /** Every link of every node is set, but for those the writer has yet to store in `x`. */
  ghost predicate AllSet(mem: seq<Node>, w: Writer) {
    forall z :: 0 <= z < |mem| && !(w.Linking? && z == w.x) ==> SetUpTo(mem, z, MAX_HEIGHT)
  }

  // ---------------------------------------------------------------- the writer

  /** `p` is where a node with this key is to be linked in on level `l`. */
  ghost predicate PrevOk(mem: seq<Node>, hid: Option<nat>, key: Key, l: nat, p: nat) {
    && p < |mem| && l < |mem[p].next| && (p == 0 || Listed(mem, hid, p)) && Precedes(mem, p, key)
    && match mem[p].next[l]
       case Unset => false
       case Null => true
       case To(y) => y < |mem| && key < mem[y].key
  }

  ghost predicate PrevsOk(mem: seq<Node>, hid: Option<nat>, key: Key, prev: seq<nat>, lo: nat, hi: nat) {
    |prev| == MAX_HEIGHT && hi <= MAX_HEIGHT && forall l :: lo <= l < hi ==> PrevOk(mem, hid, key, l, prev[l])
  }

  ghost predicate WriterOk(s: State) {
    match s.writer
    case Idle => true
    case Search(key, height, at, level, prev) =>
      && 1 <= height <= MAX_HEIGHT && key !in Keys(s.mem, None)
      && at < |s.mem| && Precedes(s.mem, at, key) && level < |s.mem[at].next| && level < s.maxHeight
      && PrevsOk(s.mem, None, key, prev, level + 1, s.maxHeight)
    case Found(key, height, prev) =>
      && 1 <= height <= MAX_HEIGHT && key !in Keys(s.mem, None) && PrevsOk(s.mem, None, key, prev, 0, s.maxHeight)
    case Ready(key, height, prev) =>
      && 1 <= height <= s.maxHeight && key !in Keys(s.mem, None) && PrevsOk(s.mem, None, key, prev, 0, s.maxHeight)
    case Linking(x, level, own, prev) =>
      && 0 < x < |s.mem| && level < |s.mem[x].next|
      && PrevsOk(s.mem, Some(x), s.mem[x].key, prev, level, |s.mem[x].next|)
      && (forall m :: 0 <= m < level ==> s.mem[x].next[m] != Unset)
      && (own ==> prev[level] < |s.mem| && level < |s.mem[prev[level]].next|
                  && s.mem[x].next[level] == s.mem[prev[level]].next[level])
      && forall m :: level < m < |s.mem[x].next| || (m == level && !own) ==> s.mem[x].next[m] == Unset
  }

  // ---------------------------------------------------------------- the readers

  ghost predicate ReaderOk(mem: seq<Node>, hid: Option<nat>, r: Reader) {
    && r.atStart <= Keys(mem, hid)
    && match r
       case Reading(target, at, level, top, hops, _) =>
         && at < |mem| && (at == 0 || Listed(mem, hid, at)) && Precedes(mem, at, target)
         && level < top && level < |mem[at].next| && SetUpTo(mem, at, level)
         && hops <= |Passed(mem, hid, at)|
       case Done(target, result, top, hops, atStart) =>
         && hops <= |Below(mem, hid, target)|
         && if result == None then forall k :: k in atStart ==> k < target
            else && Listed(mem, hid, result.value) && target <= mem[result.value].key
                 && forall k :: k in atStart && target <= k ==> mem[result.value].key <= k
  }

  /** The listed nodes up to `at`. */
  ghost function Passed(mem: seq<Node>, hid: Option<nat>, at: nat): set<nat>
    requires at < |mem|
  {
    set i | 0 <= i < |mem| && Listed(mem, hid, i) && at != 0 && mem[i].key <= mem[at].key
  }

  /** The listed nodes before `target`. */
  ghost function Below(mem: seq<Node>, hid: Option<nat>, target: Key): set<nat> {
    set i | 0 <= i < |mem| && Listed(mem, hid, i) && mem[i].key < target
  }

  ghost predicate MemOk(s: State) {
    && Sized(s.mem, s.maxHeight) && Distinct(s.mem)
    && LinksOk(s.mem, Hidden(s.writer)) && Bottom(s.mem, Hidden(s.writer)) && AllSet(s.mem, s.writer)
  }

  ghost predicate Inv(s: State) {
    && MemOk(s) && WriterOk(s)
    && forall r :: r in s.readers ==> ReaderOk(s.mem, Hidden(s.writer), s.readers[r])
  }

  // ---------------------------------------------------------------- steps

  function SetLink(mem: seq<Node>, z: nat, l: nat, link: Link): seq<Node>
    requires z < |mem| && l < |mem[z].next|
  {
    mem[z := mem[z].(next := mem[z].next[l := link])]
  }

  /** The key of a link's target is after the null link, which sorts after all keys. */
  predicate IsBefore(mem: seq<Node>, link: Link, key: Key) {
    link.To? && link.id < |mem| && mem[link.id].key < key
  }

  /** Loading a link that is unset is not a step: `ReaderCanLoad` shows that no reader
      ever comes to one. */
  ghost predicate LoadStep(mem: seq<Node>, r: Reader, r': Reader) {
    && r.Reading? && r.at < |mem| && r.level < |mem[r.at].next|
    && var link := mem[r.at].next[r.level];
    && link != Unset
    && r' == if IsBefore(mem, link, r.target) then r.(at := link.id, hops := r.hops + 1)
             else if r.level > 0 then r.(level := r.level - 1)
             else Done(r.target, if link.To? then Some(link.id) else None, r.top, r.hops, r.atStart)
  }

  ghost predicate Step(s: State, a: Action, s': State) {
    match a
    case BeginInsert(key, height) =>
      && s.writer.Idle? && key !in Keys(s.mem, None) && 1 <= height <= MAX_HEIGHT
      && s' == s.(writer := Search(key, height, 0, if s.maxHeight > 0 then s.maxHeight - 1 else 0, seq(MAX_HEIGHT, _ => 0)))
    case SearchLoad =>
      && s.writer.Search? && s.writer.at < |s.mem| && s.writer.level < |s.mem[s.writer.at].next|
      && s.writer.level < |s.writer.prev|
      && var w := s.writer;
      && var link := s.mem[w.at].next[w.level];
      && var prev := w.prev[w.level := w.at];
      && s' == s.(writer := if IsBefore(s.mem, link, w.key) then w.(at := link.id)
                            else if w.level > 0 then Search(w.key, w.height, w.at, w.level - 1, prev)
                            else Found(w.key, w.height, prev))
    case RaiseHeight =>
      && s.writer.Found? && |s.writer.prev| == MAX_HEIGHT
      && var w := s.writer;
      && var prev := seq(MAX_HEIGHT, l requires 0 <= l < MAX_HEIGHT => if s.maxHeight <= l then 0 else w.prev[l]);
      && s' == if w.height > s.maxHeight then s.(maxHeight := w.height, writer := Ready(w.key, w.height, prev))
               else s.(writer := Ready(w.key, w.height, w.prev))
    case Allocate =>
      && s.writer.Ready?
      && var w := s.writer;
      && s' == s.(mem := s.mem + [Node(w.key, w.height, seq(w.height, _ => Unset))],
                  writer := Linking(|s.mem|, 0, false, w.prev))
    case StoreOwn =>
      && s.writer.Linking? && !s.writer.own && CanLink(s)
      && var w := s.writer;
      && s' == s.(mem := SetLink(s.mem, w.x, w.level, s.mem[w.prev[w.level]].next[w.level]),
                  writer := w.(own := true))
    case Publish =>
      && s.writer.Linking? && s.writer.own && CanLink(s)
      && var w := s.writer;
      && s' == s.(mem := SetLink(s.mem, w.prev[w.level], w.level, To(w.x)),
                  writer := if w.level + 1 < s.mem[w.x].height then w.(level := w.level + 1, own := false) else Idle)
    case BeginRead(r, target, height) =>
      // The height may be any that the list has had: the load is not ordered.
      && r !in s.readers && 1 <= height <= s.maxHeight
      && s' == s.(readers := s.readers[r := Reading(target, 0, height - 1, height, 0, Keys(s.mem, Hidden(s.writer)))])
    case ReadLoad(r) =>
      && r in s.readers && r in s'.readers && LoadStep(s.mem, s.readers[r], s'.readers[r])
      && s' == s.(readers := s.readers[r := s'.readers[r]])
  }

  ghost predicate CanLink(s: State)
    requires s.writer.Linking?
  {
    var w := s.writer;
    && w.x < |s.mem| && w.level < |s.mem[w.x].next| && w.level < |w.prev|
    && w.prev[w.level] < |s.mem| && w.level < |s.mem[w.prev[w.level]].next|
  }

  function Init(): State {
    State([Node(0.0, MAX_HEIGHT, seq(MAX_HEIGHT, _ => Null))], 1, Idle, map[])
  }

  lemma InitOk()
    ensures Inv(Init())
  {
    NoLinks(Init().mem);
  }

  lemma NoLinks(mem: seq<Node>)
    requires forall z, l {:trigger mem[z].next[l]} :: 0 <= z < |mem| && 0 <= l < |mem[z].next| ==> mem[z].next[l].Null?
    ensures LinksOk(mem, None)
  {
    forall z: nat, l: nat {:trigger LinkOk(mem, None, z, l)} | z < |mem| && l < |mem[z].next| ensures LinkOk(mem, None, z, l) {
      var link := mem[z].next[l];
    }
  }

  // ---------------------------------------------------------------- what the list keeps for readers

  /** Nodes stay where they are, listed nodes stay listed, and set links stay set. */
  ghost predicate Grows(mem: seq<Node>, hid: Option<nat>, mem': seq<Node>, hid': Option<nat>) {
    && |mem| <= |mem'|
    && (forall i :: 0 <= i < |mem| ==> mem'[i].key == mem[i].key && |mem'[i].next| == |mem[i].next|)
    && (forall i: nat :: Listed(mem, hid, i) ==> Listed(mem', hid', i))
    && forall i, m {:trigger mem'[i].next[m]} :: 0 <= i < |mem| && 0 <= m < |mem[i].next| && mem[i].next[m] != Unset
         ==> mem'[i].next[m] != Unset
  }

  lemma GrowsKeepsKeys(mem: seq<Node>, hid: Option<nat>, mem': seq<Node>, hid': Option<nat>)
    requires Grows(mem, hid, mem', hid')
    ensures Keys(mem, hid) <= Keys(mem', hid')
  {
    forall k | k in Keys(mem, hid) ensures k in Keys(mem', hid') {
      var i :| 0 <= i < |mem| && Listed(mem, hid, i) && mem[i].key == k;
      assert Listed(mem', hid', i) && mem'[i].key == k;
    }
  }

  lemma GrowsKeepsReader(mem: seq<Node>, hid: Option<nat>, mem': seq<Node>, hid': Option<nat>, r: Reader)
    requires Grows(mem, hid, mem', hid') && ReaderOk(mem, hid, r)
    ensures ReaderOk(mem', hid', r)
  {
    GrowsKeepsKeys(mem, hid, mem', hid');
    hide Keys;
    match r
    case Reading(target, at, level, top, hops, _) =>
      GrowsKeepsPassed(mem, hid, mem', hid', at);
    case Done(target, result, top, hops, atStart) =>
      GrowsKeepsBelow(mem, hid, mem', hid', target);
  }

  lemma SizeIsMonotone<T>(a: set<T>, b: set<T>)
    requires a <= b
    ensures |a| <= |b|
  {
    if a != b { SubsetSize(a, b); }
  }

  lemma GrowsKeepsPassed(mem: seq<Node>, hid: Option<nat>, mem': seq<Node>, hid': Option<nat>, at: nat)
    requires Grows(mem, hid, mem', hid') && at < |mem|
    ensures |Passed(mem, hid, at)| <= |Passed(mem', hid', at)|
  {
    SizeIsMonotone(Passed(mem, hid, at), Passed(mem', hid', at));
  }

  lemma GrowsKeepsBelow(mem: seq<Node>, hid: Option<nat>, mem': seq<Node>, hid': Option<nat>, target: Key)
    requires Grows(mem, hid, mem', hid')
    ensures |Below(mem, hid, target)| <= |Below(mem', hid', target)|
  {
    SizeIsMonotone(Below(mem, hid, target), Below(mem', hid', target));
  }

  // ---------------------------------------------------------------- a reader's load

  lemma LinkAt(mem: seq<Node>, hid: Option<nat>, z: nat, l: nat)
    requires LinksOk(mem, hid) && z < |mem| && l < |mem[z].next|
    ensures LinkOk(mem, hid, z, l)
  {
    var link := mem[z].next[l];
  }

  /** No reader ever comes to an unset link: it can always take its next step. */
  lemma ReaderCanLoad(s: State, r: nat)
    requires Inv(s) && r in s.readers && s.readers[r].Reading?
    ensures exists r' :: LoadStep(s.mem, s.readers[r], r')
  {
    var reader := s.readers[r];
    assert ReaderOk(s.mem, Hidden(s.writer), reader);
    var link := s.mem[reader.at].next[reader.level];
    var r' := if IsBefore(s.mem, link, reader.target) then reader.(at := link.id, hops := reader.hops + 1)
              else if reader.level > 0 then reader.(level := reader.level - 1)
              else Done(reader.target, if link.To? then Some(link.id) else None, reader.top, reader.hops, reader.atStart);
    assert LoadStep(s.mem, reader, r');
  }

  /** `r` is the first listed node at or after `key`, if there is one. */
  ghost predicate IsCeiling(mem: seq<Node>, hid: Option<nat>, key: Key, r: Option<nat>) {
    if r == None then forall k :: k in Keys(mem, hid) ==> k < key
    else && Listed(mem, hid, r.value) && key <= mem[r.value].key
         && forall k :: k in Keys(mem, hid) && key <= k ==> mem[r.value].key <= k
  }

  lemma BottomIsCeiling(mem: seq<Node>, hid: Option<nat>, at: nat, target: Key)
    requires at < |mem| && |mem[at].next| > 0 && BottomOk(mem, hid, at) && LinksOk(mem, hid)
    requires Precedes(mem, at, target) && !IsBefore(mem, mem[at].next[0], target)
    ensures IsCeiling(mem, hid, target, if mem[at].next[0].To? then Some(mem[at].next[0].id) else None)
  {
    LinkAt(mem, hid, at, 0);
    hide LinksOk;
    forall k | k in Keys(mem, hid) && target <= k
      ensures mem[at].next[0].To? && mem[mem[at].next[0].id].key <= k
    {
      var u :| 0 <= u < |mem| && Listed(mem, hid, u) && mem[u].key == k;
      assert Precedes(mem, at, k);
    }
  }

  /** The load that ends a search finds exactly what the list holds at that moment, whatever
      the height the reader started from and whatever was inserted since. */
  lemma SearchEndsAtCeiling(s: State, r: nat, r': Reader)
    requires Inv(s) && r in s.readers && LoadStep(s.mem, s.readers[r], r') && r'.Done?
    ensures IsCeiling(s.mem, Hidden(s.writer), r'.target, r'.result)
    ensures r'.target == s.readers[r].target
  {
    hide Keys, LinksOk, Sized, Distinct, AllSet, Bottom, WriterOk, IsCeiling, LoadStep, ReaderOk;
    LastLoadIsCeiling(s.mem, Hidden(s.writer), s.readers[r], r');
  }

  lemma LastLoadIsCeiling(mem: seq<Node>, hid: Option<nat>, r: Reader, r': Reader)
    requires ReaderOk(mem, hid, r) && LinksOk(mem, hid) && Bottom(mem, hid) && LoadStep(mem, r, r') && r'.Done?
    ensures IsCeiling(mem, hid, r'.target, r'.result) && r'.target == r.target
  {
    hide Keys, LinksOk, IsCeiling, SetUpTo, Passed, BottomOk;
    BottomIsCeiling(mem, hid, r.at, r.target);
  }

  lemma HopPasses(mem: seq<Node>, hid: Option<nat>, at: nat, next: nat)
    requires at < |mem| && Listed(mem, hid, next) && Precedes(mem, at, mem[next].key)
    ensures |Passed(mem, hid, at)| < |Passed(mem, hid, next)|
  {
    var a, b := Passed(mem, hid, at), Passed(mem, hid, next);
    assert next in b && next !in a;
    SubsetSize(a, b);
  }

  lemma PassedIsBelow(mem: seq<Node>, hid: Option<nat>, at: nat, target: Key)
    requires at < |mem| && Precedes(mem, at, target)
    ensures |Passed(mem, hid, at)| <= |Below(mem, hid, target)|
  {
    SizeIsMonotone(Passed(mem, hid, at), Below(mem, hid, target));
  }

  lemma HopKeepsReader(mem: seq<Node>, hid: Option<nat>, r: Reader, next: nat)
    requires r.Reading? && ReaderOk(mem, hid, r) && LinkOk(mem, hid, r.at, r.level)
    requires mem[r.at].next[r.level] == To(next) && IsBefore(mem, To(next), r.target)
    ensures ReaderOk(mem, hid, r.(at := next, hops := r.hops + 1))
  {
    HopPasses(mem, hid, r.at, next);
    hide Keys, Passed, SetUpTo, Below;
  }

  lemma DropKeepsReader(mem: seq<Node>, hid: Option<nat>, r: Reader)
    requires r.Reading? && ReaderOk(mem, hid, r) && r.level > 0
    ensures ReaderOk(mem, hid, r.(level := r.level - 1))
  {
    hide Keys, Passed, Below;
  }

  lemma EndKeepsReader(mem: seq<Node>, hid: Option<nat>, r: Reader, result: Option<nat>)
    requires r.Reading? && ReaderOk(mem, hid, r) && IsCeiling(mem, hid, r.target, result)
    ensures ReaderOk(mem, hid, Done(r.target, result, r.top, r.hops, r.atStart))
  {
    PassedIsBelow(mem, hid, r.at, r.target);
    hide Keys, Passed, SetUpTo, Below;
  }

  lemma LoadKeepsReader(s: State, r: nat, r': Reader)
    requires Inv(s) && r in s.readers && LoadStep(s.mem, s.readers[r], r')
    ensures ReaderOk(s.mem, Hidden(s.writer), r')
  {
    var reader, mem, hid := s.readers[r], s.mem, Hidden(s.writer);
    assert ReaderOk(mem, hid, reader);
    LinkAt(mem, hid, reader.at, reader.level);
    if r'.Done? {
      SearchEndsAtCeiling(s, r, r');
    }
    hide Inv, ReaderOk, IsCeiling, LinkOk, Hidden;
    var link := mem[reader.at].next[reader.level];
    if IsBefore(mem, link, reader.target) {
      HopKeepsReader(mem, hid, reader, link.id);
    } else if reader.level > 0 {
      DropKeepsReader(mem, hid, reader);
    } else {
      EndKeepsReader(mem, hid, reader, r'.result);
    }
  }

  // ---------------------------------------------------------------- the writer's steps

  lemma SearchLoadKeepsInv(s: State, s': State)
    requires Inv(s) && Step(s, SearchLoad, s')
    ensures Inv(s')
  {
    SearchLoadKeepsWriter(s, s');
    hide MemOk, ReaderOk, WriterOk;
  }

  lemma SearchLoadKeepsWriter(s: State, s': State)
    requires Inv(s) && Step(s, SearchLoad, s')
    ensures WriterOk(s')
  {
    var w := s.writer;
    LinkAt(s.mem, None, w.at, w.level);
    SetAt(s, w.at, w.level);
    hide Keys, MemOk, ReaderOk, SetUpTo;
    var link := s.mem[w.at].next[w.level];
    if !IsBefore(s.mem, link, w.key) {
      KeyIsNew(s.mem, w.key, link);
      assert PrevOk(s.mem, None, w.key, w.level, w.at);
    }
  }

  /** A key that is not listed differs from that of every node a link leads to. */
  lemma KeyIsNew(mem: seq<Node>, key: Key, link: Link)
    requires key !in Keys(mem, None)
    ensures link.To? && Listed(mem, None, link.id) ==> mem[link.id].key != key
  {
  }

  lemma SetAt(s: State, z: nat, l: nat)
    requires MemOk(s) && z < |s.mem| && !(s.writer.Linking? && z == s.writer.x) && l < |s.mem[z].next|
    ensures s.mem[z].next[l] != Unset && l < MAX_HEIGHT
  {
    assert SetUpTo(s.mem, z, MAX_HEIGHT);
  }

  /** Above the height in use the head links to nothing. */
  lemma HeadIsBare(s: State, l: nat)
    requires MemOk(s) && !s.writer.Linking? && s.maxHeight <= l < MAX_HEIGHT
    ensures l < |s.mem[0].next| && s.mem[0].next[l] == Null
  {
    LinkAt(s.mem, None, 0, l);
    SetAt(s, 0, l);
  }

  lemma RaiseKeepsInv(s: State, s': State)
    requires Inv(s) && Step(s, RaiseHeight, s')
    ensures Inv(s')
  {
    var key := s.writer.key;
    forall l | s.maxHeight <= l < MAX_HEIGHT ensures PrevOk(s.mem, None, key, l, 0) {
      HeadIsBare(s, l);
    }
    hide Keys, LinksOk, Distinct, AllSet, Bottom, ReaderOk, PrevOk;
  }

  /** A link that was in order stays so while the list grows. */
  lemma GrowsKeepsLink(mem: seq<Node>, hid: Option<nat>, mem': seq<Node>, hid': Option<nat>, z: nat, l: nat)
    requires Grows(mem, hid, mem', hid') && z < |mem| && l < |mem[z].next| && LinkOk(mem, hid, z, l)
    requires l < |mem'[z].next| && mem'[z].next[l] == mem[z].next[l]
    ensures LinkOk(mem', hid', z, l)
  {
  }

  lemma GrowsKeepsPrevs(mem: seq<Node>, hid: Option<nat>, mem': seq<Node>, hid': Option<nat>, key: Key, prev: seq<nat>,
                        lo: nat, lo': nat, hi: nat)
    requires Grows(mem, hid, mem', hid') && PrevsOk(mem, hid, key, prev, lo, hi) && lo <= lo' && |prev| == MAX_HEIGHT
    requires forall l :: lo' <= l < hi && prev[l] < |mem| && l < |mem[prev[l]].next| ==>
               l < |mem'[prev[l]].next| && mem'[prev[l]].next[l] == mem[prev[l]].next[l]
    ensures PrevsOk(mem', hid', key, prev, lo', hi)
  {
    forall l | lo' <= l < hi ensures PrevOk(mem', hid', key, l, prev[l]) {
      assert PrevOk(mem, hid, key, l, prev[l]);
    }
  }

  lemma ReadersKept(s: State, s': State)
    requires Inv(s) && s'.readers == s.readers && Grows(s.mem, Hidden(s.writer), s'.mem, Hidden(s'.writer))
    ensures forall r :: r in s'.readers ==> ReaderOk(s'.mem, Hidden(s'.writer), s'.readers[r])
  {
    hide MemOk, WriterOk, ReaderOk, Grows;
    forall r | r in s'.readers ensures ReaderOk(s'.mem, Hidden(s'.writer), s'.readers[r]) {
      GrowsKeepsReader(s.mem, Hidden(s.writer), s'.mem, Hidden(s'.writer), s.readers[r]);
    }
  }

  /** The list after appending a node nobody links to. */
  lemma AppendKeepsList(mem: seq<Node>, node: Node)
    requires LinksOk(mem, None) && Bottom(mem, None) && forall m :: 0 <= m < |node.next| ==> node.next[m].Unset?
    ensures Grows(mem, None, mem + [node], Some(|mem|))
    ensures LinksOk(mem + [node], Some(|mem|)) && Bottom(mem + [node], Some(|mem|))
  {
    var mem', hid' := mem + [node], Some(|mem|);
    forall z: nat, l: nat {:trigger LinkOk(mem', hid', z, l)} | z < |mem'| && l < |mem'[z].next|
      ensures LinkOk(mem', hid', z, l)
    {
      if z < |mem| {
        LinkAt(mem, None, z, l);
        GrowsKeepsLink(mem, None, mem', hid', z, l);
      }
    }
    AppendKeepsBottom(mem, node);
  }

  lemma AppendKeepsBottom(mem: seq<Node>, node: Node)
    requires Bottom(mem, None)
    ensures Bottom(mem + [node], Some(|mem|))
  {
    var mem', hid' := mem + [node], Some(|mem|);
    forall z: nat | z == 0 || Listed(mem', hid', z) ensures |mem'[z].next| > 0 && BottomOk(mem', hid', z) {
      assert BottomOk(mem, None, z);
      assert forall u: nat :: Listed(mem', hid', u) ==> Listed(mem, None, u) && mem'[u] == mem[u];
    }
  }

  lemma AllocateKeepsShape(s: State, s': State)
    requires Inv(s) && Step(s, Allocate, s')
    ensures Sized(s'.mem, s'.maxHeight) && Distinct(s'.mem) && AllSet(s'.mem, s'.writer)
  {
    hide LinksOk, Bottom, ReaderOk, PrevsOk;
    forall i | 0 < i < |s.mem| ensures s.mem[i].key != s.writer.key {
      assert Listed(s.mem, None, i);
    }
    forall z | 0 <= z < |s'.mem| && z != s'.writer.x ensures SetUpTo(s'.mem, z, MAX_HEIGHT) {
      assert SetUpTo(s.mem, z, MAX_HEIGHT) && s'.mem[z] == s.mem[z];
    }
  }

  lemma AllocateKeepsInv(s: State, s': State)
    requires Inv(s) && Step(s, Allocate, s')
    ensures Inv(s')
  {
    AllocateKeepsShape(s, s');
    var w := s.writer;
    AppendKeepsList(s.mem, Node(w.key, w.height, seq(w.height, _ => Unset)));
    ReadersKept(s, s');
    hide LinksOk, Bottom, Sized, Distinct, AllSet, ReaderOk, Keys, PrevsOk;
    GrowsKeepsPrevs(s.mem, None, s'.mem, Hidden(s'.writer), w.key, w.prev, 0, 0, s.maxHeight);
    PrevsUpTo(s'.mem, Hidden(s'.writer), w.key, w.prev, 0, s.maxHeight, w.height);
  }

  lemma PrevsUpTo(mem: seq<Node>, hid: Option<nat>, key: Key, prev: seq<nat>, lo: nat, hi: nat, hi': nat)
    requires PrevsOk(mem, hid, key, prev, lo, hi) && hi' <= hi
    ensures PrevsOk(mem, hid, key, prev, lo, hi')
  {
  }

  // Storing the new node's own link.

  /** The facts the writer's stores rest on: `w.prev[w.level]` is where `w.x` belongs. */
  lemma LinkingPlace(s: State)
    requires Inv(s) && s.writer.Linking?
    ensures CanLink(s) && s.writer.x != s.writer.prev[s.writer.level]
    ensures PrevOk(s.mem, Some(s.writer.x), s.mem[s.writer.x].key, s.writer.level, s.writer.prev[s.writer.level])
  {
    var w := s.writer;
    assert PrevOk(s.mem, Some(w.x), s.mem[w.x].key, w.level, w.prev[w.level]);
  }

  lemma StoreGrows(mem: seq<Node>, hid: Option<nat>, z: nat, l: nat, link: Link, hid': Option<nat>)
    requires z < |mem| && l < |mem[z].next| && link != Unset
    requires hid' == hid || hid' == None
    ensures Grows(mem, hid, SetLink(mem, z, l, link), hid')
    ensures forall i, m {:trigger SetLink(mem, z, l, link)[i].next[m]} ::
              0 <= i < |mem| && 0 <= m < |mem[i].next| && (i != z || m != l) ==> SetLink(mem, z, l, link)[i].next[m] == mem[i].next[m]
  {
  }

  lemma StoreKeepsLinks(mem: seq<Node>, hid: Option<nat>, z: nat, l: nat, link: Link, hid': Option<nat>)
    requires z < |mem| && l < |mem[z].next| && link != Unset && LinksOk(mem, hid)
    requires hid' == hid || hid' == None
    requires LinkOk(SetLink(mem, z, l, link), hid', z, l)
    ensures LinksOk(SetLink(mem, z, l, link), hid')
  {
    var mem' := SetLink(mem, z, l, link);
    StoreGrows(mem, hid, z, l, link, hid');
    hide Grows, SetLink;
    forall i: nat, m: nat {:trigger LinkOk(mem', hid', i, m)} | i < |mem'| && m < |mem'[i].next|
      ensures LinkOk(mem', hid', i, m)
    {
      if i != z || m != l {
        GrowsLength(mem, hid, mem', hid', i);
        LinkAt(mem, hid, i, m);
        GrowsKeepsLink(mem, hid, mem', hid', i, m);
      }
    }
  }

  lemma GrowsLength(mem: seq<Node>, hid: Option<nat>, mem': seq<Node>, hid': Option<nat>, i: nat)
    requires Grows(mem, hid, mem', hid')
    ensures |mem| <= |mem'| && (i < |mem| ==> mem'[i].key == mem[i].key && |mem'[i].next| == |mem[i].next|)
  {
  }

  lemma OwnLinkOk(s: State, link: Link)
    requires Inv(s) && s.writer.Linking? && !s.writer.own && CanLink(s)
    requires link == s.mem[s.writer.prev[s.writer.level]].next[s.writer.level]
    ensures link != Unset
    ensures LinkOk(SetLink(s.mem, s.writer.x, s.writer.level, link), Hidden(s.writer), s.writer.x, s.writer.level)
  {
    var w := s.writer;
    LinkingPlace(s);
    LinkAt(s.mem, Hidden(w), w.prev[w.level], w.level);
    hide LinksOk, Bottom, Sized, Distinct, AllSet, ReaderOk, Keys, PrevsOk;
  }

  lemma StoreKeepsBottom(mem: seq<Node>, hid: Option<nat>, z: nat, l: nat, link: Link)
    requires z < |mem| && l < |mem[z].next| && Bottom(mem, hid) && (l > 0 || (hid == Some(z) && z > 0))
    ensures Bottom(SetLink(mem, z, l, link), hid)
  {
    var mem' := SetLink(mem, z, l, link);
    forall i: nat | i == 0 || Listed(mem', hid, i) ensures |mem'[i].next| > 0 && BottomOk(mem', hid, i) {
      assert BottomOk(mem, hid, i);
      assert mem'[i].next[0] == mem[i].next[0];
    }
  }

  lemma StoreKeepsShape(mem: seq<Node>, z: nat, l: nat, link: Link, maxHeight: nat)
    requires z < |mem| && l < |mem[z].next| && Sized(mem, maxHeight) && Distinct(mem)
    ensures Sized(SetLink(mem, z, l, link), maxHeight) && Distinct(SetLink(mem, z, l, link))
  {
  }

  lemma StoreOwnKeepsAllSet(s: State, s': State)
    requires Inv(s) && Step(s, StoreOwn, s')
    ensures AllSet(s'.mem, s'.writer)
  {
    hide LinksOk, Bottom, ReaderOk, PrevsOk, Distinct, Keys;
    forall z | 0 <= z < |s'.mem| && z != s'.writer.x ensures SetUpTo(s'.mem, z, MAX_HEIGHT) {
      assert SetUpTo(s.mem, z, MAX_HEIGHT) && s'.mem[z] == s.mem[z];
    }
  }

  lemma StoreOwnKeepsMem(s: State, s': State)
    requires Inv(s) && Step(s, StoreOwn, s')
    ensures MemOk(s') && Grows(s.mem, Hidden(s.writer), s'.mem, Hidden(s'.writer))
  {
    var w := s.writer;
    var link := s.mem[w.prev[w.level]].next[w.level];
    OwnLinkOk(s, link);
    StoreOwnKeepsAllSet(s, s');
    hide WriterOk, ReaderOk, AllSet, LinkOk, PrevsOk;
    StoreKeepsShape(s.mem, w.x, w.level, link, s.maxHeight);
    StoreGrows(s.mem, Hidden(w), w.x, w.level, link, Hidden(w));
    StoreKeepsLinks(s.mem, Hidden(w), w.x, w.level, link, Hidden(w));
    StoreKeepsBottom(s.mem, Hidden(w), w.x, w.level, link);
  }

  lemma StoreOwnKeepsWriter(s: State, s': State)
    requires Inv(s) && Step(s, StoreOwn, s')
    ensures WriterOk(s')
  {
    hide PrevOk, LinkOk, SetLink;
    var w := s.writer;
    LinkingPlace(s);
    LinkingProgress(s);
    var link := s.mem[w.prev[w.level]].next[w.level];
    OwnLinkOk(s, link);
    hide Inv;
    StoreChanges(s.mem, w.x, w.level, link);
    StoreKeepsPrevs(s.mem, w.x, w.x, w.level, link, w.prev, w.level, |s.mem[w.x].next|);
    hide PrevsOk;
  }

  lemma StoreChanges(mem: seq<Node>, z: nat, l: nat, link: Link)
    requires z < |mem| && l < |mem[z].next|
    ensures var mem' := SetLink(mem, z, l, link);
      && |mem'| == |mem| && mem'[z].key == mem[z].key && mem'[z].height == mem[z].height
      && |mem'[z].next| == |mem[z].next| && mem'[z].next[l] == link
      && (forall m :: 0 <= m < |mem[z].next| && m != l ==> mem'[z].next[m] == mem[z].next[m])
      && forall j :: 0 <= j < |mem| && j != z ==> mem'[j] == mem[j]
  {
  }

  lemma StoreKeepsPrevs(mem: seq<Node>, x: nat, z: nat, l: nat, link: Link, prev: seq<nat>, lo: nat, hi: nat)
    requires x < |mem| && z < |mem| && l < |mem[z].next| && PrevsOk(mem, Some(x), mem[x].key, prev, lo, hi)
    requires (x == z && z > 0) || l < lo
    ensures PrevsOk(SetLink(mem, z, l, link), Some(x), mem[x].key, prev, lo, hi)
  {
    hide PrevOk;
    forall m | lo <= m < hi ensures PrevOk(SetLink(mem, z, l, link), Some(x), mem[x].key, m, prev[m]) {
      assert PrevOk(mem, Some(x), mem[x].key, m, prev[m]);
      OtherPrevOk(mem, x, mem[x].key, z, l, link, m, prev[m]);
    }
  }

  /** A store leaves the places on other levels, and at other nodes, as they were. */
  lemma OtherPrevOk(mem: seq<Node>, x: nat, key: Key, z: nat, l: nat, link: Link, m: nat, p: nat)
    requires z < |mem| && l < |mem[z].next| && PrevOk(mem, Some(x), key, m, p)
    requires (x == z && mem[x].key == key && z > 0) || m != l
    ensures PrevOk(SetLink(mem, z, l, link), Some(x), key, m, p)
  {
  }

  lemma StoreOwnKeepsInv(s: State, s': State)
    requires Inv(s) && Step(s, StoreOwn, s')
    ensures Inv(s')
  {
    StoreOwnKeepsMem(s, s');
    ReadersKept(s, s');
    StoreOwnKeepsWriter(s, s');
    hide MemOk, WriterOk, ReaderOk;
  }

  lemma OtherNodeKept(mem: seq<Node>, z: nat, l: nat, link: Link, i: nat)
    requires z < |mem| && l < |mem[z].next| && i < |mem| && i != z
    ensures SetLink(mem, z, l, link)[i] == mem[i]
    ensures forall j :: 0 <= j < |mem| ==> SetLink(mem, z, l, link)[j].key == mem[j].key
  {
  }

  // Publishing the new node on one level.

  lemma PublishedLinkOk(s: State)
    requires Inv(s) && s.writer.Linking? && s.writer.own && CanLink(s)
    ensures LinkOk(SetLink(s.mem, s.writer.prev[s.writer.level], s.writer.level, To(s.writer.x)), None,
                   s.writer.prev[s.writer.level], s.writer.level)
  {
    hide LinkOk, SetLink;
    LinkingPlace(s);
    LinkingProgress(s);
    LinkingIsNode(s);
    PlaceIsSet(s.mem, s.writer.x, s.mem[s.writer.x].key, s.writer.level, s.writer.prev[s.writer.level]);
    hide Inv, PrevsOk, PrevOk;
    LinkToNode(s.mem, s.writer.x, s.writer.prev[s.writer.level], s.writer.level);
  }

  lemma PlaceIsSet(mem: seq<Node>, x: nat, key: Key, l: nat, p: nat)
    requires PrevOk(mem, Some(x), key, l, p)
    ensures mem[p].next[l] != Unset && Precedes(mem, p, key)
  {
  }

  /** Linking to a node whose own links are set up to that level is in order. */
  lemma LinkToNode(mem: seq<Node>, x: nat, p: nat, l: nat)
    requires 0 < x < |mem| && p < |mem| && x != p && l < |mem[p].next| && l < |mem[x].next|
    requires Precedes(mem, p, mem[x].key) && forall m :: 0 <= m <= l ==> mem[x].next[m] != Unset
    ensures LinkOk(SetLink(mem, p, l, To(x)), None, p, l)
  {
  }

  /** On a higher level publishing leaves the lowest one alone. */
  lemma PublishKeepsBottom(s: State)
    requires Inv(s) && s.writer.Linking? && s.writer.own && CanLink(s)
    ensures Bottom(SetLink(s.mem, s.writer.prev[s.writer.level], s.writer.level, To(s.writer.x)), None)
  {
    var w := s.writer;
    LinkingPlace(s);
    hide ReaderOk, AllSet, PrevsOk, Keys;
    if w.level > 0 {
      StoreKeepsBottom(s.mem, None, w.prev[w.level], w.level, To(w.x));
    } else {
      BottomLinkedIn(s.mem, w.x, w.prev[0]);
    }
  }

  /** On the lowest level the new node comes between its predecessor and what followed it. */
  lemma BottomLinkedIn(mem: seq<Node>, x: nat, p: nat)
    requires Distinct(mem)
    requires Bottom(mem, Some(x)) && LinksOk(mem, Some(x)) && 0 < x < |mem| && |mem[x].next| > 0 && p != x
    requires PrevOk(mem, Some(x), mem[x].key, 0, p) && mem[x].next[0] == mem[p].next[0]
    ensures Bottom(SetLink(mem, p, 0, To(x)), None)
  {
    var mem' := SetLink(mem, p, 0, To(x));
    forall i: nat | i == 0 || Listed(mem', None, i) ensures |mem'[i].next| > 0 && BottomOk(mem', None, i) {
      if i == x {
        NewNodeBottom(mem, x, p);
      } else if i == p {
        PredecessorBottom(mem, x, p);
      } else {
        OtherBottom(mem, x, p, i);
      }
    }
  }

  lemma NewNodeBottom(mem: seq<Node>, x: nat, p: nat)
    requires Bottom(mem, Some(x)) && 0 < x < |mem| && |mem[x].next| > 0 && p != x
    requires PrevOk(mem, Some(x), mem[x].key, 0, p) && mem[x].next[0] == mem[p].next[0]
    ensures BottomOk(SetLink(mem, p, 0, To(x)), None, x)
  {
    var mem' := SetLink(mem, p, 0, To(x));
    assert BottomOk(mem, Some(x), p);
    forall u: nat | Listed(mem', None, u) && mem[x].key < mem[u].key
      ensures Listed(mem, Some(x), u) && Precedes(mem, p, mem[u].key) && mem'[u].key == mem[u].key
    {
    }
  }

  lemma PredecessorBottom(mem: seq<Node>, x: nat, p: nat)
    requires Bottom(mem, Some(x)) && 0 < x < |mem| && p != x && PrevOk(mem, Some(x), mem[x].key, 0, p)
    ensures BottomOk(SetLink(mem, p, 0, To(x)), None, p)
  {
    var mem' := SetLink(mem, p, 0, To(x));
    assert BottomOk(mem, Some(x), p);
    forall u: nat | Listed(mem', None, u) && Precedes(mem', p, mem'[u].key) ensures mem'[x].key <= mem'[u].key {
      assert u != x ==> Listed(mem, Some(x), u) && Precedes(mem, p, mem[u].key);
    }
  }

  lemma OtherBottom(mem: seq<Node>, x: nat, p: nat, i: nat)
    requires Distinct(mem) && Bottom(mem, Some(x)) && LinksOk(mem, Some(x)) && 0 < x < |mem| && p != x
    requires PrevOk(mem, Some(x), mem[x].key, 0, p)
    requires i != x && i != p && (i == 0 || Listed(mem, Some(x), i))
    ensures |mem[i].next| > 0 && BottomOk(SetLink(mem, p, 0, To(x)), None, i)
  {
    var mem' := SetLink(mem, p, 0, To(x));
    assert BottomOk(mem, Some(x), i) && BottomOk(mem, Some(x), p);
    LinkAt(mem, Some(x), i, 0);
    LinkAt(mem, Some(x), p, 0);
    hide LinksOk, Bottom;
    // Whatever comes before the new node comes before its predecessor too.
    assert Precedes(mem, i, mem[x].key) ==> p != 0 && Precedes(mem, i, mem[p].key) by {
      assert i != 0 ==> Precedes(mem, p, mem[i].key) || (p != 0 && mem[i].key < mem[p].key);
    }
    forall u: nat | Listed(mem', None, u) ensures u == x || (Listed(mem, Some(x), u) && mem'[u].key == mem[u].key) {
    }
  }

  lemma PublishKeepsAllSet(s: State, s': State)
    requires Inv(s) && Step(s, Publish, s')
    ensures AllSet(s'.mem, s'.writer)
  {
    var w := s.writer;
    var p := w.prev[w.level];
    hide LinksOk, Bottom, ReaderOk, PrevsOk, Distinct, Keys, AllSet;
    forall z | 0 <= z < |s'.mem| && !(s'.writer.Linking? && z == s'.writer.x) ensures SetUpTo(s'.mem, z, MAX_HEIGHT) {
      if z == w.x { NewNodeSet(s); } else { OldNodeSet(s, z); }
      StoreKeepsSet(s.mem, p, w.level, To(w.x), z);
    }
    AllSetIs(s'.mem, s'.writer);
  }

  lemma AllSetIs(mem: seq<Node>, w: Writer)
    requires forall z :: 0 <= z < |mem| && !(w.Linking? && z == w.x) ==> SetUpTo(mem, z, MAX_HEIGHT)
    ensures AllSet(mem, w)
  {
  }

  lemma OldNodeSet(s: State, z: nat)
    requires Inv(s) && z < |s.mem| && s.writer.Linking? && z != s.writer.x
    ensures SetUpTo(s.mem, z, MAX_HEIGHT)
  {
  }

  /** Once its last own link is stored all links of the new node are set. */
  lemma NewNodeSet(s: State)
    requires Inv(s) && s.writer.Linking? && s.writer.own && s.writer.level + 1 >= s.mem[s.writer.x].height
    ensures SetUpTo(s.mem, s.writer.x, MAX_HEIGHT)
  {
    LinkingPlace(s);
    NewNodeLength(s);
    LinkingProgress(s);
    hide Inv, PrevsOk, WriterOk;
  }

  lemma LinkingProgress(s: State)
    requires Inv(s) && s.writer.Linking?
    ensures var w := s.writer;
      && w.x < |s.mem| && w.level < |s.mem[w.x].next|
      && (forall m :: 0 <= m < w.level ==> s.mem[w.x].next[m] != Unset)
      && (forall m :: w.level < m < |s.mem[w.x].next| || (m == w.level && !w.own) ==> s.mem[w.x].next[m] == Unset)
      && (w.own ==> w.level < |w.prev| && w.prev[w.level] < |s.mem| && w.level < |s.mem[w.prev[w.level]].next|
                    && s.mem[w.x].next[w.level] == s.mem[w.prev[w.level]].next[w.level])
      && PrevsOk(s.mem, Some(w.x), s.mem[w.x].key, w.prev, w.level, |s.mem[w.x].next|)
  {
    hide MemOk, ReaderOk, PrevOk, Keys;
  }

  lemma StoreKeepsSet(mem: seq<Node>, z: nat, l: nat, link: Link, i: nat)
    requires z < |mem| && l < |mem[z].next| && link != Unset && i < |mem| && SetUpTo(mem, i, MAX_HEIGHT)
    ensures SetUpTo(SetLink(mem, z, l, link), i, MAX_HEIGHT)
  {
  }

  lemma PublishKeepsMem(s: State, s': State)
    requires Inv(s) && Step(s, Publish, s')
    ensures MemOk(s') && Grows(s.mem, Hidden(s.writer), s'.mem, Hidden(s'.writer)) && Hidden(s'.writer) == None
  {
    var w := s.writer;
    PublishedLinkOk(s);
    PublishKeepsAllSet(s, s');
    PublishKeepsBottom(s);
    hide WriterOk, ReaderOk, AllSet, LinkOk, PrevsOk, Bottom;
    StoreKeepsShape(s.mem, w.prev[w.level], w.level, To(w.x), s.maxHeight);
    StoreGrows(s.mem, Hidden(w), w.prev[w.level], w.level, To(w.x), None);
    StoreKeepsLinks(s.mem, Hidden(w), w.prev[w.level], w.level, To(w.x), None);
  }

  lemma PublishKeepsWriter(s: State, s': State)
    requires Inv(s) && Step(s, Publish, s')
    ensures WriterOk(s')
  {
    var w := s.writer;
    LinkingPlace(s);
    hide LinksOk, Bottom, ReaderOk, Distinct, Sized, AllSet, Keys, PrevOk;
    OtherNodeKept(s.mem, w.prev[w.level], w.level, To(w.x), w.x);
    forall l | w.level < l < |s.mem[w.x].next| ensures PrevOk(s'.mem, Some(w.x), s.mem[w.x].key, l, w.prev[l]) {
      assert PrevOk(s.mem, Some(w.x), s.mem[w.x].key, l, w.prev[l]);
      OtherPrevOk(s.mem, w.x, s.mem[w.x].key, w.prev[w.level], w.level, To(w.x), l, w.prev[l]);
    }
    assert |s.mem[w.x].next| == s.mem[w.x].height by { NewNodeLength(s); }
  }

  lemma NewNodeLength(s: State)
    requires Inv(s) && s.writer.Linking?
    ensures |s.mem[s.writer.x].next| == s.mem[s.writer.x].height
  {
  }

  lemma PublishKeepsInv(s: State, s': State)
    requires Inv(s) && Step(s, Publish, s')
    ensures Inv(s')
  {
    PublishKeepsMem(s, s');
    ReadersKept(s, s');
    PublishKeepsWriter(s, s');
    hide MemOk, WriterOk, ReaderOk;
  }

  lemma ReadersStepsKeepInv(s: State, a: Action, s': State)
    requires Inv(s) && (a.BeginRead? || a.ReadLoad?) && Step(s, a, s')
    ensures Inv(s')
  {
    if a.ReadLoad? {
      LoadKeepsReader(s, a.reader, s'.readers[a.reader]);
    } else {
      NewReaderOk(s, a.target, a.height);
    }
    hide MemOk, WriterOk, ReaderOk, Keys, LoadStep;
  }

  lemma NewReaderOk(s: State, target: Key, height: nat)
    requires Inv(s) && 1 <= height <= s.maxHeight
    ensures ReaderOk(s.mem, Hidden(s.writer), Reading(target, 0, height - 1, height, 0, Keys(s.mem, Hidden(s.writer))))
  {
    SetFromHead(s, height - 1);
    hide LinksOk, Bottom, Distinct, Keys, WriterOk, AllSet, SetUpTo;
  }

  lemma SetFromHead(s: State, level: nat)
    requires Inv(s)
    ensures SetUpTo(s.mem, 0, level)
  {
    hide LinksOk, Bottom, Distinct, Keys, PrevsOk, ReaderOk;
    assert SetUpTo(s.mem, 0, MAX_HEIGHT);
  }

  /** Every step of every thread keeps the invariant. */
  lemma StepKeepsInv(s: State, a: Action, s': State)
    requires Inv(s) && Step(s, a, s')
    ensures Inv(s')
  {
    hide Inv, Step;
    match a
    case BeginInsert(key, height) => BeginInsertKeepsInv(s, key, height, s');
    case SearchLoad => SearchLoadKeepsInv(s, s');
    case RaiseHeight => RaiseKeepsInv(s, s');
    case Allocate => AllocateKeepsInv(s, s');
    case StoreOwn => StoreOwnKeepsInv(s, s');
    case Publish => PublishKeepsInv(s, s');
    case BeginRead(_, _, _) => ReadersStepsKeepInv(s, a, s');
    case ReadLoad(_) => ReadersStepsKeepInv(s, a, s');
  }

  lemma BeginInsertKeepsInv(s: State, key: Key, height: nat, s': State)
    requires Inv(s) && Step(s, BeginInsert(key, height), s')
    ensures Inv(s')
  {
    hide LinksOk, Bottom, ReaderOk, Distinct, Keys;
  }

  // ---------------------------------------------------------------- whole runs

  /** A run: states and the steps between them, from the empty list on. */
  ghost predicate IsRun(states: seq<State>, actions: seq<Action>) {
    && |states| == |actions| + 1 && states[0] == Init()
    && forall i :: 0 <= i < |actions| ==> Step(states[i], actions[i], states[i + 1])
  }

  lemma {:induction false} RunKeepsInv(states: seq<State>, actions: seq<Action>, n: nat)
    requires IsRun(states, actions) && n < |states|
    ensures Inv(states[n])
  {
    hide Inv, Step, Init;
    if n == 0 {
      InitOk();
    } else {
      RunKeepsInv(states, actions, n - 1);
      StepKeepsInv(states[n - 1], actions[n - 1], states[n]);
    }
  }

  /** In every interleaving, a finished search gave what the list held at one moment between
      its start and its end. */
  lemma {:induction false} SearchIsLinearizable(states: seq<State>, actions: seq<Action>, r: nat, n: nat) returns (m: nat)
    requires IsRun(states, actions) && n < |states| && r in states[n].readers && states[n].readers[r].Done?
    ensures m < n && r in states[m].readers && states[m].readers[r].Reading?
    ensures states[n].readers[r].target == states[m].readers[r].target
    ensures IsCeiling(states[m].mem, Hidden(states[m].writer), states[n].readers[r].target, states[n].readers[r].result)
  {
    hide IsCeiling, Inv, LoadStep, CanLink, Keys, SetLink;
    assert n > 0 by { assert states[0] == Init(); }
    assert Step(states[n - 1], actions[n - 1], states[n]);
    if actions[n - 1] == ReadLoad(r) {
      m := n - 1;
      RunKeepsInv(states, actions, m);
      SearchEndsAtCeiling(states[m], r, states[n].readers[r]);
      LoadIsOfReading(states[m].mem, states[m].readers[r], states[n].readers[r]);
    } else {
      m := SearchIsLinearizable(states, actions, r, n - 1);
    }
  }

  lemma LoadIsOfReading(mem: seq<Node>, r: Reader, r': Reader)
    requires LoadStep(mem, r, r')
    ensures r.Reading? && r.target == r'.target
  {
  }

  /** What a search found is in the list for good, and is no later than any key at or after
      the target that was there when the search began. */
  lemma FoundIsNoLaterThanPresent(states: seq<State>, actions: seq<Action>, r: nat, i: nat, target: Key, height: nat, n: nat)
    requires IsRun(states, actions) && i < n < |states| && actions[i] == BeginRead(r, target, height)
    requires r in states[n].readers && states[n].readers[r].Done?
    ensures states[n].readers[r].target == target
    ensures var result := states[n].readers[r].result;
      && (result == None ==> forall k :: k in Keys(states[i].mem, Hidden(states[i].writer)) ==> k < target)
      && (result.Some? ==>
            && Listed(states[n].mem, Hidden(states[n].writer), result.value) && target <= states[n].mem[result.value].key
            && forall k :: k in Keys(states[i].mem, Hidden(states[i].writer)) && target <= k ==> states[n].mem[result.value].key <= k)
  {
    RunKeepsInv(states, actions, n);
    ReaderKeepsStart(states, actions, r, i, target, height, n);
    assert ReaderOk(states[n].mem, Hidden(states[n].writer), states[n].readers[r]);
    hide Inv, IsRun, Keys, Below;
  }

  lemma {:induction false} ReaderKeepsStart(states: seq<State>, actions: seq<Action>, r: nat, i: nat, target: Key, height: nat, n: nat)
    requires IsRun(states, actions) && i < n < |states| && actions[i] == BeginRead(r, target, height)
    ensures r in states[n].readers && states[n].readers[r].target == target && states[n].readers[r].top == height
    ensures states[n].readers[r].atStart == Keys(states[i].mem, Hidden(states[i].writer))
  {
    hide CanLink, Keys, SetLink;
    assert Step(states[n - 1], actions[n - 1], states[n]);
    if i < n - 1 {
      ReaderKeepsStart(states, actions, r, i, target, height, n - 1);
    }
  }

  /** Each load of a reader goes one level down, ends the search, or moves to a later key
      that is still before the target; the moves are bounded by the listed keys before it. */
  lemma SearchIsBounded(s: State, r: nat, r': Reader)
    requires Inv(s) && r in s.readers && LoadStep(s.mem, s.readers[r], r')
    ensures r'.hops <= |Below(s.mem, Hidden(s.writer), r'.target)|
    ensures r'.Reading? ==>
              || (r'.level < s.readers[r].level && r'.hops == s.readers[r].hops)
              || (r'.level == s.readers[r].level && r'.hops == s.readers[r].hops + 1
                  && Precedes(s.mem, s.readers[r].at, s.mem[r'.at].key) && s.mem[r'.at].key < r'.target)
  {
    LoadKeepsReader(s, r, r');
    var reader, mem, hid := s.readers[r], s.mem, Hidden(s.writer);
    assert ReaderOk(mem, hid, reader);
    LinkAt(mem, hid, reader.at, reader.level);
    if r'.Reading? { PassedIsBelow(mem, hid, r'.at, r'.target); }
    hide Keys, LinksOk, Sized, Distinct, AllSet, Bottom, Passed, Below, WriterOk, SetUpTo;
  }

  /** The one step that changes what the list holds is publishing on the lowest level. */
  lemma StepChangesKeys(s: State, a: Action, s': State)
    requires Inv(s) && Step(s, a, s')
    ensures Keys(s'.mem, Hidden(s'.writer)) ==
            Keys(s.mem, Hidden(s.writer)) + if a.Publish? && s.writer.level == 0 then {s.mem[s.writer.x].key} else {}
  {
    if a.Publish? {
      PublishAddsKey(s, s');
    } else if a.StoreOwn? {
      StoreOwnKeepsKeys(s, s');
    } else if a.Allocate? {
      AllocateKeepsKeys(s, s');
    } else {
      hide Inv, Keys, LoadStep;
      assert s'.mem == s.mem && Hidden(s'.writer) == Hidden(s.writer);
    }
  }

  lemma SameKeys(mem: seq<Node>, hid: Option<nat>, mem': seq<Node>, hid': Option<nat>)
    requires forall i: nat :: Listed(mem, hid, i) <==> Listed(mem', hid', i)
    requires forall i: nat :: Listed(mem, hid, i) ==> i < |mem'| && mem'[i].key == mem[i].key
    ensures Keys(mem', hid') == Keys(mem, hid)
  {
    forall k | k in Keys(mem, hid) ensures k in Keys(mem', hid') {
      var i :| 0 <= i < |mem| && Listed(mem, hid, i) && mem[i].key == k;
      assert Listed(mem', hid', i);
    }
    forall k | k in Keys(mem', hid') ensures k in Keys(mem, hid) {
      var i :| 0 <= i < |mem'| && Listed(mem', hid', i) && mem'[i].key == k;
      assert Listed(mem, hid, i);
    }
  }

  lemma AllocateKeepsKeys(s: State, s': State)
    requires Inv(s) && Step(s, Allocate, s')
    ensures Keys(s'.mem, Hidden(s'.writer)) == Keys(s.mem, None)
  {
    hide Keys, Inv;
    SameKeys(s.mem, None, s'.mem, Hidden(s'.writer));
  }

  lemma StoreOwnKeepsKeys(s: State, s': State)
    requires Inv(s) && Step(s, StoreOwn, s')
    ensures Keys(s'.mem, Hidden(s'.writer)) == Keys(s.mem, Hidden(s.writer))
  {
    hide Keys, Inv;
    SameKeys(s.mem, Hidden(s.writer), s'.mem, Hidden(s'.writer));
  }

  lemma PublishAddsKey(s: State, s': State)
    requires Inv(s) && Step(s, Publish, s')
    ensures Keys(s'.mem, None) == Keys(s.mem, Hidden(s.writer)) + if s.writer.level == 0 then {s.mem[s.writer.x].key} else {}
  {
    LinkingIsNode(s);
    hide Inv, Keys;
    SameKeys(s.mem, None, s'.mem, None);
    if s.writer.level == 0 { HiddenKey(s.mem, s.writer.x); }
  }

  lemma LinkingIsNode(s: State)
    requires Inv(s) && s.writer.Linking?
    ensures 0 < s.writer.x < |s.mem|
  {
  }

  lemma HiddenKey(mem: seq<Node>, x: nat)
    requires 0 < x < |mem|
    ensures Keys(mem, None) == Keys(mem, Some(x)) + {mem[x].key}
  {
    forall k | k in Keys(mem, None) ensures k in Keys(mem, Some(x)) + {mem[x].key} {
      var i :| 0 <= i < |mem| && Listed(mem, None, i) && mem[i].key == k;
      assert i != x ==> Listed(mem, Some(x), i);
    }
    assert Listed(mem, None, x);
  }

  // ---------------------------------------------------------------- listed means linked

  lemma {:induction false} LastBefore(mem: seq<Node>, hid: Option<nat>, key: Key, n: nat) returns (p: nat)
    requires 0 < n <= |mem|
    ensures p < n && (p == 0 || Listed(mem, hid, p)) && Precedes(mem, p, key)
    ensures forall u: nat :: u < n && Listed(mem, hid, u) && mem[u].key < key ==> !Precedes(mem, p, mem[u].key)
  {
    p := 0;
    if n > 1 {
      p := LastBefore(mem, hid, key, n - 1);
      if Listed(mem, hid, n - 1) && mem[n - 1].key < key && Precedes(mem, p, mem[n - 1].key) {
        p := n - 1;
      }
    }
  }

  /** The listed nodes are exactly those the lowest level's links lead to. */
  lemma ListedIffLinked(s: State, i: nat)
    requires Inv(s)
    ensures Listed(s.mem, Hidden(s.writer), i) <==>
            exists z :: 0 <= z < |s.mem| && (z == 0 || Listed(s.mem, Hidden(s.writer), z)) && s.mem[z].next[0] == To(i)
  {
    var mem, hid := s.mem, Hidden(s.writer);
    forall z: nat | z < |mem| && mem[z].next[0] == To(i) ensures Listed(mem, hid, i) {
      LinkAt(mem, hid, z, 0);
    }
    if Listed(mem, hid, i) {
      var p := LastBefore(mem, hid, mem[i].key, |mem|);
      NextAfterLast(s, i, p);
    }
  }

  lemma NextAfterLast(s: State, i: nat, p: nat)
    requires Inv(s) && Listed(s.mem, Hidden(s.writer), i) && p < |s.mem| && (p == 0 || Listed(s.mem, Hidden(s.writer), p))
    requires Precedes(s.mem, p, s.mem[i].key)
    requires forall u: nat :: Listed(s.mem, Hidden(s.writer), u) && s.mem[u].key < s.mem[i].key ==> !Precedes(s.mem, p, s.mem[u].key)
    ensures |s.mem[p].next| > 0 && s.mem[p].next[0] == To(i)
  {
    var mem, hid := s.mem, Hidden(s.writer);
    assert BottomOk(mem, hid, p);
    LinkAt(mem, hid, p, 0);
    hide LinksOk, Bottom, AllSet, ReaderOk, WriterOk, Keys;
  }
}

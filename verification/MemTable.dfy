/** The memtable: a skip list of internal keys, each with its value behind it. It keeps what a
    sorted list of entries keeps, and answers what a search in one does. */
module MemTables {
  import opened DbFormat
  import opened TableFiles
  import opened Versions
  import opened SkipLists

  class MemTable {
    const table: SkipList
    /** The value that follows each key in its buffer. */
    var values: map<InternalKey, string>

    constructor ()
      ensures Valid() && fresh(table) && fresh(table.head) && table.nodes == [] && Contents() == []
    {
      table := new SkipList();
      values := map[];
    }

    ghost predicate Valid()
      reads this, table, table.head, table.nodes
    {
      table.Valid() && values.Keys == table.Keys()
    }

    /** The entries in the order of the list. */
    ghost function Contents(): seq<Entry>
      reads this, table, table.nodes
    {
      seq(|table.nodes|, i requires 0 <= i < |table.nodes| reads this, table, table.nodes => EntryAt(table.nodes[i].key))
    }

    ghost function EntryAt(key: InternalKey): Entry
      reads this
    {
      Entry(key.user, key.sn, key.typ, if key in values then values[key] else "")
    }

    lemma ContentsAreSorted()
      requires Valid()
      ensures SortedEntries(Contents())
      ensures forall e: Entry :: e in Contents() <==> e.Key() in values && e.value == values[e.Key()]
    {
      var es := Contents();
      hide Less;
      assert forall i :: 0 <= i < |es| ==> es[i].Key() == table.nodes[i].key;
      forall e: Entry | e.Key() in values && e.value == values[e.Key()] ensures e in es {
        var n :| n in table.nodes && n.key == e.Key();
        var i :| 0 <= i < |table.nodes| && table.nodes[i] == n;
        assert es[i] == e;
      }
    }

    lemma HeldKeys()
      requires Valid()
      ensures forall key :: key in values ==> exists o :: o in Contents() && o.Key() == key
    {
      ContentsAreSorted();
      hide SkipList.Valid, Contents;
      forall key | key in values ensures exists o :: o in Contents() && o.Key() == key {
        assert EntryAt(key).Key() == key;
      }
    }

    /** Adds an entry under a sequence number that is not in use. The random height of its node
        is a parameter. */
    method Add(e: Entry, height: nat)
      requires Valid() && 1 <= height <= MAX_HEIGHT && forall o :: o in Contents() ==> o.Key() != e.Key()
      modifies this, table, table.head, table.nodes
      ensures Valid() && SortedEntries(Contents()) && EntrySet(Contents()) == old(EntrySet(Contents())) + {e}
    {
      ContentsAreSorted();
      hide Less, SkipList.Valid, SortedEntries;
      HeldKeys();
      ghost var was := values;
      table.Insert(e.Key(), height);
      values := values[e.Key() := e.value];
      ContentsAreSorted();
    }

    /** Seeks the newest entry that the snapshot may see, and looks whether it is of the key. */
    method Get(k: UserKey, s: Sequence) returns (r: SaverState)
      requires Valid()
      ensures Answers(EntrySet(Contents()), k, s, r)
    {
      ContentsAreSorted();
      hide SkipList.Valid, SortedEntries;
      var iter := new Iterator(table);
      iter.Seek(LookupKey(k, s));
      if iter.node != null && iter.node.key.user == k {
        var key := iter.node.key;
        r := Saved(Entry(key.user, key.sn, key.typ, values[key]));
        FoundIsNewest(k, s, key);
      } else {
        r := SaverNotFound;
        NothingIsFound(k, s, if iter.node == null then None else Some(iter.node.key));
      }
    }

    lemma FoundIsNewest(k: UserKey, s: Sequence, key: InternalKey)
      requires Valid() && key in values && IsCeiling(values.Keys, LookupKey(k, s), key) && key.user == k
      ensures EntryAt(key) in Contents() && IsNewest(EntrySet(Contents()), k, s, EntryAt(key))
    {
      ContentsAreSorted();
      hide SkipList.Valid, SortedEntries, Contents;
      forall o | o in Contents() && o.user == k && o.sn <= s ensures o.sn <= key.sn {
        assert o.Key() in values && AtMost(LookupKey(k, s), o.Key());
      }
    }

    lemma NothingIsFound(k: UserKey, s: Sequence, at: Option<InternalKey>)
      requires Valid()
      requires match at
        case None => forall x :: x in values ==> Less(x, LookupKey(k, s))
        case Some(key) => IsCeiling(values.Keys, LookupKey(k, s), key) && key.user != k
      ensures NothingFor(EntrySet(Contents()), k, s)
    {
      ContentsAreSorted();
      hide SkipList.Valid, SortedEntries, Contents;
      forall o | o in Contents() && o.user == k ensures o.sn > s {
        assert o.Key() in values;
      }
    }
  }
}

/** The Memory type of cache/memory.go: a map from keys to entries and a recency list of the same
    entries, both updated in place. The list of container/list is a sequence of entry references;
    the clock reading of each call is a parameter. */
module CacheMemory {
  import opened Options
  import opened Utf8
  import opened CacheSpec
  import CacheRuns

  class Entry {
    const key: Key
    var value: Bytes
    var expiresAt: int

    constructor (key: Key, value: Bytes, expiresAt: int)
      ensures this.key == key && this.value == value && this.expiresAt == expiresAt
    {
      this.key := key;
      this.value := value;
      this.expiresAt := expiresAt;
    }
  }

  ghost function RowOf(e: Entry): Row
    reads e
  {
    Row(e.key, e.value, e.expiresAt)
  }

  /** The rows that a list of entries stands for. */
  ghost function RowsOf(es: seq<Entry>): (rows: seq<Row>)
    reads es
    ensures |rows| == |es|
    ensures forall i :: 0 <= i < |es| ==> rows[i] == RowOf(es[i])
  {
    if es == [] then [] else [RowOf(es[0])] + RowsOf(es[1..])
  }

  // ----- the map and the list

  /** The map that a list of entries stands for. */
  ghost function MapOf(es: seq<Entry>): map<Key, Entry> {
    if es == [] then map[] else MapOf(es[1..])[es[0].key := es[0]]
  }

  ghost predicate NoDuplicates(es: seq<Entry>) {
    es == [] || (es[0].key !in MapOf(es[1..]) && NoDuplicates(es[1..]))
  }

  /** The map holds exactly the entries of the list, under their own distinct keys. */
  ghost predicate Agree(items: map<Key, Entry>, es: seq<Entry>) {
    items == MapOf(es) && NoDuplicates(es)
  }

  /** `e` is an entry of the cache. */
  ghost predicate Holds(items: map<Key, Entry>, e: Entry) {
    e.key in items && items[e.key] == e
  }

  lemma {:induction false} ListedIsMapped(es: seq<Entry>, e: Entry)
    requires NoDuplicates(es)
    ensures e in es <==> Holds(MapOf(es), e)
  {
    if es != [] {
      ListedIsMapped(es[1..], e);
      assert es == [es[0]] + es[1..];
    }
  }

  lemma {:induction false} MappedUnderOwnKey(es: seq<Entry>, k: Key)
    requires k in MapOf(es)
    ensures MapOf(es)[k].key == k
  {
    if es[0].key != k {
      MappedUnderOwnKey(es[1..], k);
    }
  }

  /** Looking a key up in the map is looking it up in the rows of the list. */
  lemma {:induction false} LookupAgrees(es: seq<Entry>, key: Key)
    ensures Lookup(RowsOf(es), key) == if key in MapOf(es) then Some(RowOf(MapOf(es)[key])) else None
  {
    if es != [] {
      LookupAgrees(es[1..], key);
      assert RowsOf(es)[1..] == RowsOf(es[1..]);
    }
  }

  lemma {:induction false} RowsDistinct(es: seq<Entry>)
    requires NoDuplicates(es)
    ensures Distinct(RowsOf(es))
  {
    if es != [] {
      RowsDistinct(es[1..]);
      LookupAgrees(es[1..], es[0].key);
      PushDistinct(RowOf(es[0]), RowsOf(es[1..]));
    }
  }

  // ----- list.Remove

  /** list.Remove, by identity. */
  function Remove(es: seq<Entry>, e: Entry): (rest: seq<Entry>) {
    if es == [] then []
    else if es[0] == e then es[1..]
    else [es[0]] + Remove(es[1..], e)
  }

  lemma Cons(e: Entry, es: seq<Entry>)
    ensures MapOf([e] + es) == MapOf(es)[e.key := e]
    ensures NoDuplicates([e] + es) <==> e.key !in MapOf(es) && NoDuplicates(es)
    ensures RowsOf([e] + es) == [RowOf(e)] + RowsOf(es)
  {
    assert ([e] + es)[1..] == es;
  }

  lemma {:induction false} RemoveAgrees(es: seq<Entry>, e: Entry)
    requires NoDuplicates(es) && Holds(MapOf(es), e)
    ensures Agree(MapOf(es) - {e.key}, Remove(es, e))
    ensures |Remove(es, e)| == |es| - 1
  {
    var rest := es[1..];
    if es[0] == e {
      assert MapOf(es) - {e.key} == MapOf(rest);
    } else {
      RemoveAgrees(rest, e);
      Cons(es[0], Remove(rest, e));
      assert MapOf(es) - {e.key} == (MapOf(rest) - {e.key})[es[0].key := es[0]];
    }
  }

  lemma {:induction false} RemoveIsDrop(es: seq<Entry>, e: Entry)
    requires NoDuplicates(es) && Holds(MapOf(es), e)
    ensures RowsOf(Remove(es, e)) == Drop(RowsOf(es), {e.key})
  {
    var rest := es[1..];
    assert RowsOf(es)[1..] == RowsOf(rest);
    if es[0] == e {
      LookupAgrees(rest, e.key);
      DropNothing(RowsOf(rest), {e.key});
    } else {
      RemoveIsDrop(rest, e);
      Cons(es[0], Remove(rest, e));
    }
  }

  lemma {:induction false} RemoveKeepsEntries(es: seq<Entry>, e: Entry)
    ensures forall x :: x in Remove(es, e) ==> x in es
  {
    if es != [] && es[0] != e {
      RemoveKeepsEntries(es[1..], e);
    }
  }

  lemma {:induction false} RemoveLast(es: seq<Entry>)
    requires es != [] && NoDuplicates(es)
    ensures Remove(es, es[|es| - 1]) == es[..|es| - 1]
    ensures Holds(MapOf(es), es[|es| - 1])
  {
    ListedIsMapped(es, es[|es| - 1]);
    if 1 < |es| {
      ListedIsMapped(es[1..], es[|es| - 1]);
      RemoveLast(es[1..]);
    }
  }

  lemma MoveAgrees(es: seq<Entry>, e: Entry)
    requires NoDuplicates(es) && Holds(MapOf(es), e)
    ensures Agree(MapOf(es), [e] + Remove(es, e)) && |[e] + Remove(es, e)| == |es|
    ensures e !in Remove(es, e)
  {
    RemoveAgrees(es, e);
    Cons(e, Remove(es, e));
    assert MapOf(es) == (MapOf(es) - {e.key})[e.key := e];
    ListedIsMapped(Remove(es, e), e);
  }

  class Memory {
    var items: map<Key, Entry>
    var evictList: seq<Entry>
    const maxSize: int

    ghost predicate Valid()
      reads this
    {
      Agree(items, evictList) && (evictList != [] ==> |evictList| <= maxSize)
    }

    ghost function Rows(): seq<Row>
      reads this, evictList
    {
      RowsOf(evictList)
    }

    /** NewMemory. */
    constructor (maxEntries: int)
      ensures Valid() && Rows() == [] && maxSize == maxEntries
    {
      items := map[];
      evictList := [];
      maxSize := maxEntries;
    }

    method Get(key: Key, now: int) returns (answer: Option<Bytes>)
      requires Valid()
      modifies this`evictList
      ensures Valid() && forall e :: e in evictList ==> e in old(evictList)
      ensures answer == Answer(old(Rows()), key, now)
      ensures Rows() == Refresh(old(Rows()), key, now)
    {
      LookupAgrees(evictList, key);
      if key !in items {
        return None;
      }
      var elem := items[key];
      if now > elem.expiresAt {
        return None;
      }
      MappedUnderOwnKey(evictList, key);
      MoveToFront(elem);
      return Some(elem.value);
    }

    /** list.MoveToFront. */
    method MoveToFront(elem: Entry)
      requires Valid() && Holds(items, elem)
      modifies this`evictList
      ensures Valid() && forall e :: e in evictList ==> e in old(evictList)
      ensures evictList == [elem] + Remove(old(evictList), elem)
      ensures Rows() == [RowOf(elem)] + Drop(old(Rows()), {elem.key})
    {
      ghost var rest := Remove(evictList, elem);
      ListedIsMapped(evictList, elem);
      RemoveKeepsEntries(evictList, elem);
      MoveAgrees(evictList, elem);
      RemoveIsDrop(evictList, elem);
      Cons(elem, rest);
      evictList := [elem] + Remove(evictList, elem);
      assert RowsOf(rest) == old(RowsOf(rest));
    }

    /** With a capacity below one the eviction loop would never end: see EvictionEnds. */
    method Set(key: Key, val: Bytes, ttl: int, now: int)
      requires Valid() && 1 <= maxSize
      modifies this, evictList
      ensures Valid()
      ensures forall e :: e in evictList ==> e in old(evictList) || fresh(e)
      ensures Rows() == Put(old(Rows()), Row(key, val, now + ttl), maxSize)
    {
      if key in items {
        MappedUnderOwnKey(evictList, key);
        ListedIsMapped(evictList, items[key]);
        Overwrite(items[key], val, now + ttl);
      } else {
        MakeRoom(key);
        Insert(key, val, now + ttl);
      }
    }

    /** The rest of Set for a key that is absent. */
    method Insert(key: Key, val: Bytes, expiresAt: int)
      requires Valid() && |evictList| < maxSize && key !in items
      modifies this
      ensures Valid() && forall e :: e in evictList ==> e in old(evictList) || fresh(e)
      ensures Rows() == [Row(key, val, expiresAt)] + old(Rows())
    {
      var entry := new Entry(key, val, expiresAt);
      assert Rows() == old(Rows());
      PushFront(entry);
    }

    /** list.PushFront and the map update. */
    method PushFront(entry: Entry)
      requires Valid() && |evictList| < maxSize && entry.key !in items
      modifies this
      ensures Valid() && evictList == [entry] + old(evictList)
      ensures Rows() == [RowOf(entry)] + old(Rows())
    {
      ghost var rest := evictList;
      Cons(entry, rest);
      evictList := [entry] + evictList;
      items := items[entry.key := entry];
      assert RowsOf(rest) == old(RowsOf(rest));
    }

    /** Set of a key that is present. */
    method Overwrite(elem: Entry, val: Bytes, expiresAt: int)
      requires Valid() && Holds(items, elem)
      modifies this`evictList, elem
      ensures Valid()
      ensures forall e :: e in evictList ==> e in old(evictList)
      ensures Rows() == Put(old(Rows()), Row(elem.key, val, expiresAt), maxSize)
    {
      ghost var rest := Remove(evictList, elem);
      ghost var dropped := Drop(Rows(), {elem.key});
      LookupAgrees(evictList, elem.key);
      DropShrinks(Rows(), elem.key);
      ListedIsMapped(evictList, elem);
      MoveAgrees(evictList, elem);
      RemoveKeepsEntries(evictList, elem);
      RemoveIsDrop(evictList, elem);
      assert Put(Rows(), Row(elem.key, val, expiresAt), maxSize) == [Row(elem.key, val, expiresAt)] + dropped;
      MoveToFront(elem);
      elem.value := val;
      elem.expiresAt := expiresAt;
      assert RowsOf(rest) == dropped;
      Cons(elem, rest);
    }

    /** The eviction loop of Set for a key that is absent. */
    method MakeRoom(key: Key)
      requires Valid() && 1 <= maxSize && key !in items
      modifies this
      ensures Valid() && |evictList| < maxSize && key !in items
      ensures evictList <= old(evictList)
      ensures Rows() == Keep(Drop(old(Rows()), {key}), maxSize - 1)
    {
      LookupAgrees(evictList, key);
      DropNothing(Rows(), {key});
      while maxSize <= |evictList|
        invariant Valid() && key !in items
        invariant evictList <= old(evictList)
        invariant |evictList| == |old(evictList)| || |evictList| == maxSize - 1
        decreases |evictList|
      {
        EvictOldest();
      }
      assert Rows() == old(Rows())[..|evictList|];
    }

    method Delete(key: Key)
      requires Valid()
      modifies this
      ensures Valid() && forall e :: e in evictList ==> e in old(evictList)
      ensures Rows() == Drop(old(Rows()), {key})
    {
      LookupAgrees(evictList, key);
      if key !in items {
        DropNothing(Rows(), {key});
        return;
      }
      MappedUnderOwnKey(evictList, key);
      RemoveElement(items[key]);
    }

    method EvictOldest()
      requires Valid()
      modifies this
      ensures Valid() && items.Keys <= old(items.Keys)
      ensures evictList == if old(evictList) == [] then [] else old(evictList)[..|old(evictList)| - 1]
      ensures Rows() == Evict(old(Rows()), 1)
    {
      if evictList == [] {
        return;
      }
      var elem := evictList[|evictList| - 1];
      RemoveLast(evictList);
      RemoveElement(elem);
      assert Rows() == old(Rows())[..|old(Rows())| - 1];
      assert Evict(old(Rows()), 1) == Evict(old(Rows())[..|old(Rows())| - 1], 0);
    }

    method RemoveElement(elem: Entry)
      requires Valid() && Holds(items, elem)
      modifies this
      ensures Valid() && items == old(items) - {elem.key}
      ensures evictList == Remove(old(evictList), elem)
      ensures forall e :: e in evictList ==> e in old(evictList)
      ensures Rows() == Drop(old(Rows()), {elem.key})
    {
      RemoveIsDrop(evictList, elem);
      RemoveAgrees(evictList, elem);
      RemoveKeepsEntries(evictList, elem);
      evictList := Remove(evictList, elem);
      items := items - {elem.key};
    }

    /** removeExpired, whichever order the map is ranged over. */
    method RemoveExpired(now: int)
      requires Valid()
      modifies this
      ensures Valid() && forall e :: e in evictList ==> e in old(evictList)
      ensures Rows() == Unexpired(old(Rows()), now)
    {
      var todo := items.Keys;
      ghost var gone: set<Key> := {};
      ghost var rows := Rows();
      DropNothing(rows, gone);
      AllKeys(evictList, now);
      while todo != {}
        invariant Valid() && todo <= items.Keys
        invariant forall e :: e in evictList ==> e in old(evictList)
        invariant Rows() == Drop(rows, gone)
        invariant gone <= ExpiredKeys(rows, now)
        invariant ExpiredKeys(Rows(), now) <= todo
        decreases |todo|
      {
        var key :| key in todo;
        ghost var before := Rows();
        LookupAgrees(evictList, key);
        MappedUnderOwnKey(evictList, key);
        RowsDistinct(evictList);
        todo := todo - {key};
        var elem := items[key];
        if now > elem.expiresAt {
          DropOneMore(rows, gone, RowOf(elem), now);
          RemoveElement(elem);
          gone := gone + {key};
        } else {
          OnlyRow(before, RowOf(elem), now);
        }
      }
      AllGone(rows, gone, now);
    }

    /** One event of a history. */
    method Perform(e: Event) returns (answer: seq<Option<Bytes>>)
      requires Valid() && 1 <= maxSize
      modifies this, evictList
      ensures Valid() && forall x :: x in evictList ==> x in old(evictList) || fresh(x)
      ensures Rows() == Step(old(Rows()), e, maxSize)
      ensures answer == if e.op.Get? then [Answer(old(Rows()), e.op.key, e.now)] else []
    {
      answer := [];
      match e.op
      case Set(key, value, ttl) => Set(key, value, ttl, e.now);
      case Get(key) =>
        var value := Get(key, e.now);
        answer := [value];
      case Delete(key) => Delete(key);
      case Cleanup => RemoveExpired(e.now);
    }
  }

  /** Any history played on a new cache leaves the rows of the history and gives its answers. */
  method Replay(maxEntries: nat, h: seq<Event>) returns (m: Memory, answers: seq<Option<Bytes>>)
    requires 1 <= maxEntries
    ensures fresh(m) && m.Valid() && m.maxSize == maxEntries
    ensures m.Rows() == Run(h, maxEntries)
    ensures answers == Answers(h, maxEntries)
  {
    m := new Memory(maxEntries);
    answers := [];
    for i := 0 to |h|
      invariant fresh(m) && m.Valid() && m.maxSize == maxEntries
      invariant forall k :: 0 <= k < |m.evictList| ==> fresh(m.evictList[k])
      invariant m.Rows() == Run(h[..i], maxEntries)
      invariant answers == Answers(h[..i], maxEntries)
    {
      assert h[..i + 1][..i] == h[..i] && h[..i + 1][i] == h[i];
      assert forall e :: e in m.evictList ==> fresh(e);
      var answer := m.Perform(h[i]);
      assert forall k :: 0 <= k < |m.evictList| ==> m.evictList[k] in m.evictList;
      answers := answers + answer;
    }
    assert h[..|h|] == h;
  }

  // ----- steps of the cleanup

  lemma AllKeys(es: seq<Entry>, now: int)
    ensures ExpiredKeys(RowsOf(es), now) <= MapOf(es).Keys
  {
    forall k | k in ExpiredKeys(RowsOf(es), now)
      ensures k in MapOf(es)
    {
      LookupAgrees(es, k);
    }
  }

  lemma {:induction false} DropTwice(rows: seq<Row>, a: set<Key>, b: set<Key>)
    ensures Drop(Drop(rows, a), b) == Drop(rows, a + b)
  {
    if rows != [] {
      DropTwice(rows[1..], a, b);
      if rows[0].key !in a {
        CacheRuns.DropCons(rows[0], Drop(rows[1..], a), b);
      }
    }
  }

  /** Removing one more expired row. */
  lemma DropOneMore(rows: seq<Row>, gone: set<Key>, row: Row, now: int)
    requires row in Drop(rows, gone) && row.expiresAt < now
    ensures Drop(Drop(rows, gone), {row.key}) == Drop(rows, gone + {row.key})
    ensures row.key in ExpiredKeys(rows, now)
    ensures ExpiredKeys(Drop(rows, gone + {row.key}), now) <= ExpiredKeys(Drop(rows, gone), now) - {row.key}
  {
    DropTwice(rows, gone, {row.key});
    DropMembers(rows, gone);
    DropMembers(rows, gone + {row.key});
  }

  lemma OnlyRow(rows: seq<Row>, row: Row, now: int)
    requires Lookup(rows, row.key) == Some(row) && Distinct(rows) && now <= row.expiresAt
    ensures row.key !in ExpiredKeys(rows, now)
  {
    forall x | x in rows && x.key == row.key
      ensures x == row
    {
      LookupIn(rows, x);
    }
  }

  lemma AllGone(rows: seq<Row>, gone: set<Key>, now: int)
    requires gone <= ExpiredKeys(rows, now) && ExpiredKeys(Drop(rows, gone), now) == {}
    ensures gone == ExpiredKeys(rows, now)
  {
    DropMembers(rows, gone);
    forall r | r in rows && r.key !in gone
      ensures now <= r.expiresAt
    {
      assert r in Drop(rows, gone);
      assert r.key !in ExpiredKeys(Drop(rows, gone), now);
    }
  }
}

/** The in-memory cache of cache/memory.go as a list of rows, most recently touched first, and what
    every run of it guarantees. Every operation is one atomic step at an explicit time. */
module CacheSpec {
  import opened Options
  import opened Utf8

  type Key = string

  datatype Row = Row(key: Key, value: Bytes, expiresAt: int)

  function Keys(rows: seq<Row>): set<Key> {
    set r | r in rows :: r.key
  }

  /** The rows whose keys are not in `gone`, in the same order. */
  function Drop(rows: seq<Row>, gone: set<Key>): (kept: seq<Row>)
    ensures |kept| <= |rows|
  {
    if rows == [] then []
    else if rows[0].key in gone then Drop(rows[1..], gone)
    else [rows[0]] + Drop(rows[1..], gone)
  }

  function Lookup(rows: seq<Row>, key: Key): (r: Option<Row>)
    ensures r.Some? ==> r.value in rows && r.value.key == key
    ensures r.None? <==> key !in Keys(rows)
  {
    if rows == [] then None
    else if rows[0].key == key then Some(rows[0])
    else Lookup(rows[1..], key)
  }

  function Keep(rows: seq<Row>, n: nat): seq<Row> {
    if |rows| <= n then rows else rows[..n]
  }

  // ----- operations

  datatype Op = Set(key: Key, value: Bytes, ttl: int) | Get(key: Key) | Delete(key: Key) | Cleanup

  datatype Event = Event(op: Op, now: int)

  /** What a Get answers: the value, or a miss. */
  function Answer(rows: seq<Row>, key: Key, now: int): Option<Bytes> {
    match Lookup(rows, key)
    case None => None
    case Some(r) => if now <= r.expiresAt then Some(r.value) else None
  }

  function Put(rows: seq<Row>, r: Row, max: nat): seq<Row>
    requires 1 <= max
  {
    [r] + Keep(Drop(rows, {r.key}), max - 1)
  }

  function Refresh(rows: seq<Row>, key: Key, now: int): seq<Row> {
    if Answer(rows, key, now).None? then rows else [Lookup(rows, key).value] + Drop(rows, {key})
  }

  /** An entry has expired when `now` is strictly after its expiry. */
  function ExpiredKeys(rows: seq<Row>, now: int): set<Key> {
    set r | r in rows && r.expiresAt < now :: r.key
  }

  function Unexpired(rows: seq<Row>, now: int): seq<Row> {
    Drop(rows, ExpiredKeys(rows, now))
  }

  function Step(rows: seq<Row>, e: Event, max: nat): seq<Row>
    requires 1 <= max
  {
    match e.op
    case Set(key, value, ttl) => Put(rows, Row(key, value, e.now + ttl), max)
    case Get(key) => Refresh(rows, key, e.now)
    case Delete(key) => Drop(rows, {key})
    case Cleanup => Unexpired(rows, e.now)
  }

  /** The rows after a whole history. */
  function Run(h: seq<Event>, max: nat): seq<Row>
    requires 1 <= max
  {
    if h == [] then [] else Step(Run(h[..|h| - 1], max), h[|h| - 1], max)
  }

  /** What the Gets of a history answer, in order. */
  function Answers(h: seq<Event>, max: nat): seq<Option<Bytes>>
    requires 1 <= max
  {
    if h == [] then []
    else
      var before, e := h[..|h| - 1], h[|h| - 1];
      Answers(before, max) + if e.op.Get? then [Answer(Run(before, max), e.op.key, e.now)] else []
  }

  // ----- representation: distinct keys, bounded size

  ghost predicate Distinct(rows: seq<Row>) {
    forall i, j :: 0 <= i < j < |rows| ==> rows[i].key != rows[j].key
  }

  ghost predicate Valid(rows: seq<Row>, max: nat) {
    Distinct(rows) && |rows| <= max
  }

  lemma {:induction false} DropMembers(rows: seq<Row>, gone: set<Key>)
    ensures forall r :: r in Drop(rows, gone) <==> r in rows && r.key !in gone
  {
    if rows != [] {
      DropMembers(rows[1..], gone);
      assert rows == [rows[0]] + rows[1..];
    }
  }

  lemma {:induction false} DropDistinct(rows: seq<Row>, gone: set<Key>)
    requires Distinct(rows)
    ensures Distinct(Drop(rows, gone))
  {
    if rows != [] {
      DropDistinct(rows[1..], gone);
      DropMembers(rows[1..], gone);
      assert forall r :: r in rows[1..] ==> r.key != rows[0].key;
    }
  }

  lemma {:induction false} DropShrinks(rows: seq<Row>, key: Key)
    requires key in Keys(rows)
    ensures |Drop(rows, {key})| < |rows|
  {
    if rows[0].key != key {
      DropShrinks(rows[1..], key);
    }
  }

  lemma LookupIn(rows: seq<Row>, r: Row)
    requires Distinct(rows) && r in rows
    ensures Lookup(rows, r.key) == Some(r)
  {
    var found := Lookup(rows, r.key).value;
    assert r.key in Keys(rows);
    var i :| 0 <= i < |rows| && rows[i] == r;
    var j :| 0 <= j < |rows| && rows[j] == found;
    if i < j {
      assert rows[i].key != rows[j].key;
    } else if j < i {
      assert rows[j].key != rows[i].key;
    }
  }

  lemma UnexpiredMembers(rows: seq<Row>, now: int)
    requires Distinct(rows)
    ensures forall r :: r in Unexpired(rows, now) <==> r in rows && now <= r.expiresAt
  {
    DropMembers(rows, ExpiredKeys(rows, now));
    forall r | r in rows
      ensures r.key in ExpiredKeys(rows, now) <==> r.expiresAt < now
    {
      if r.key in ExpiredKeys(rows, now) {
        var x :| x in rows && x.expiresAt < now && x.key == r.key;
        LookupIn(rows, x);
        LookupIn(rows, r);
      }
    }
  }

  lemma PushDistinct(r: Row, rows: seq<Row>)
    requires Distinct(rows) && r.key !in Keys(rows)
    ensures Distinct([r] + rows)
  {
    assert forall i :: 0 <= i < |rows| ==> rows[i] in rows;
  }

  lemma PutValid(rows: seq<Row>, r: Row, max: nat)
    requires 1 <= max && Valid(rows, max)
    ensures Valid(Put(rows, r, max), max)
  {
    DropDistinct(rows, {r.key});
    DropMembers(rows, {r.key});
    var kept := Keep(Drop(rows, {r.key}), max - 1);
    assert forall x :: x in kept ==> x in Drop(rows, {r.key});
    PushDistinct(r, kept);
  }

  lemma StepValid(rows: seq<Row>, e: Event, max: nat)
    requires 1 <= max && Valid(rows, max)
    ensures Valid(Step(rows, e, max), max)
  {
    match e.op
    case Set(key, value, ttl) => PutValid(rows, Row(key, value, e.now + ttl), max);
    case Get(key) =>
      DropDistinct(rows, {key});
      if Answer(rows, key, e.now).Some? {
        DropShrinks(rows, key);
        DropMembers(rows, {key});
        PushDistinct(Lookup(rows, key).value, Drop(rows, {key}));
      }
    case Delete(key) => DropDistinct(rows, {key});
    case Cleanup => DropDistinct(rows, ExpiredKeys(rows, e.now));
  }

  lemma {:induction false} RunValid(h: seq<Event>, max: nat)
    requires 1 <= max
    ensures Valid(Run(h, max), max)
  {
    if h != [] {
      RunValid(h[..|h| - 1], max);
      StepValid(Run(h[..|h| - 1], max), h[|h| - 1], max);
    }
  }

  /** Setting a key evicts nothing unless the key is new and the cache is full; then it evicts
      exactly the last row. */
  lemma PutEvicts(rows: seq<Row>, r: Row, max: nat)
    requires 1 <= max && Valid(rows, max)
    ensures r.key in Keys(rows) || |rows| < max ==> Put(rows, r, max) == [r] + Drop(rows, {r.key})
    ensures r.key !in Keys(rows) && |rows| == max ==> Put(rows, r, max) == [r] + rows[..max - 1]
  {
    if r.key in Keys(rows) {
      DropShrinks(rows, r.key);
    } else {
      DropNothing(rows, {r.key});
    }
  }

  lemma {:induction false} DropNothing(rows: seq<Row>, gone: set<Key>)
    requires Keys(rows) !! gone
    ensures Drop(rows, gone) == rows
  {
    if rows != [] {
      assert rows[0].key in Keys(rows);
      assert Keys(rows[1..]) <= Keys(rows);
      DropNothing(rows[1..], gone);
    }
  }

  // ----- the eviction loop ends exactly for a positive capacity

  /** The list after `n` turns of the eviction loop. */
  function Evict(rows: seq<Row>, n: nat): seq<Row> {
    if n == 0 || rows == [] then rows else Evict(rows[..|rows| - 1], n - 1)
  }

  lemma {:induction false} EvictLength(rows: seq<Row>, n: nat)
    ensures |Evict(rows, n)| == if n <= |rows| then |rows| - n else 0
  {
    if n != 0 && rows != [] {
      EvictLength(rows[..|rows| - 1], n - 1);
    }
  }

  /** The loop guard ever becomes false exactly when the capacity is at least one. */
  lemma EvictionEnds(rows: seq<Row>, max: int)
    ensures (exists n: nat :: |Evict(rows, n)| < max) <==> 1 <= max
  {
    EvictLength(rows, |rows|);
    if 1 <= max {
      assert |Evict(rows, |rows|)| < max;
    }
  }
}

/** Properties of whole cache histories. */
module CacheRuns {
  import opened Options
  import opened Seqs
  import opened CacheSpec

  // ----- an unbounded TTL map as the reference

  /** The most recent Set of `key` that no Delete follows. */
  function LatestWrite(h: seq<Event>, key: Key): Option<Row> {
    if h == [] then None
    else
      var e := h[|h| - 1];
      match e.op
      case Set(k, value, ttl) => if k == key then Some(Row(key, value, e.now + ttl)) else LatestWrite(h[..|h| - 1], key)
      case Delete(k) => if k == key then None else LatestWrite(h[..|h| - 1], key)
      case Get(_) => LatestWrite(h[..|h| - 1], key)
      case Cleanup => LatestWrite(h[..|h| - 1], key)
  }

  /** A step brings in no row but the one it sets. */
  lemma StepMembers(rows: seq<Row>, e: Event, max: nat)
    requires 1 <= max
    ensures forall r :: r in Step(rows, e, max) && r !in rows ==>
                        e.op.Set? && r == Row(e.op.key, e.op.value, e.now + e.op.ttl)
    ensures forall r :: r in Step(rows, e, max) && e.op.Set? && r.key == e.op.key ==>
                        r == Row(e.op.key, e.op.value, e.now + e.op.ttl)
    ensures e.op.Delete? ==> forall r :: r in Step(rows, e, max) ==> r.key != e.op.key
  {
    DropMembers(rows, ExpiredKeys(rows, e.now));
    if !e.op.Cleanup? {
      DropMembers(rows, {e.op.key});
    }
    if e.op.Set? {
      var dropped := Drop(rows, {e.op.key});
      assert forall r :: r in Keep(dropped, max - 1) ==> r in dropped;
    }
  }

  lemma {:induction false} RowsAreLatest(h: seq<Event>, max: nat, r: Row)
    requires 1 <= max && r in Run(h, max)
    ensures LatestWrite(h, r.key) == Some(r)
  {
    var before, e := h[..|h| - 1], h[|h| - 1];
    StepMembers(Run(before, max), e, max);
    if e.op.Set? && r.key == e.op.key {
    } else {
      assert r in Run(before, max);
      RowsAreLatest(before, max, r);
    }
  }

  /** Every hit returns the value of the latest Set, undeleted and unexpired: a cache can forget,
      but it never answers what the unbounded TTL map would not. */
  lemma HitIsLatestWrite(h: seq<Event>, max: nat, key: Key, now: int)
    requires 1 <= max
    requires Answer(Run(h, max), key, now).Some?
    ensures LatestWrite(h, key).Some?
    ensures now <= LatestWrite(h, key).value.expiresAt
    ensures Answer(Run(h, max), key, now).value == LatestWrite(h, key).value.value
  {
    RowsAreLatest(h, max, Lookup(Run(h, max), key).value);
  }

  // ----- touches

  /** The key that an event moves to the front: a Set, or a Get that hits. */
  function Touched(rows: seq<Row>, e: Event): Option<Key> {
    match e.op
    case Set(key, _, _) => Some(key)
    case Get(key) => if Answer(rows, key, e.now).Some? then Some(key) else None
    case Delete(_) => None
    case Cleanup => None
  }

  /** The other keys touched since `key` was last touched. */
  function OthersSince(h: seq<Event>, key: Key, max: nat): set<Key>
    requires 1 <= max
  {
    if h == [] then {}
    else
      match Touched(Run(h[..|h| - 1], max), h[|h| - 1])
      case None => OthersSince(h[..|h| - 1], key, max)
      case Some(k) => if k == key then {} else OthersSince(h[..|h| - 1], key, max) + {k}
  }

  /** Since `key` was last touched, no cleanup ran after `deadline`. */
  ghost predicate NoLateCleanup(h: seq<Event>, key: Key, max: nat, deadline: int)
    requires 1 <= max
  {
    h == [] ||
    Touched(Run(h[..|h| - 1], max), h[|h| - 1]) == Some(key) ||
    ((h[|h| - 1].op.Cleanup? ==> h[|h| - 1].now <= deadline) && NoLateCleanup(h[..|h| - 1], key, max, deadline))
  }

  /** Since `key` was last touched, only Set and Get have run. */
  ghost predicate OnlySetsAndGets(h: seq<Event>, key: Key, max: nat)
    requires 1 <= max
  {
    h == [] ||
    Touched(Run(h[..|h| - 1], max), h[|h| - 1]) == Some(key) ||
    (!h[|h| - 1].op.Cleanup? && !h[|h| - 1].op.Delete? && OnlySetsAndGets(h[..|h| - 1], key, max))
  }

  // ----- where a row stands in the list

  /** `row` stands in `rows` with no keys but `others` before it. */
  ghost predicate StandsBehind(rows: seq<Row>, row: Row, others: set<Key>) {
    exists i :: 0 <= i < |rows| && rows[i] == row && Keys(rows[..i]) <= others
  }

  lemma DropCons(r: Row, rows: seq<Row>, gone: set<Key>)
    ensures Drop([r] + rows, gone) == if r.key in gone then Drop(rows, gone) else [r] + Drop(rows, gone)
  {
    assert ([r] + rows)[1..] == rows;
  }

  lemma {:induction false} DropAppend(a: seq<Row>, b: seq<Row>, gone: set<Key>)
    ensures Drop(a + b, gone) == Drop(a, gone) + Drop(b, gone)
  {
    if a == [] {
      assert a + b == b;
    } else {
      var r, rest := a[0], a[1..];
      DropAppend(rest, b, gone);
      assert Drop(a + b, gone) == if r.key in gone then Drop(rest + b, gone) else [r] + Drop(rest + b, gone) by {
        assert a + b == [r] + (rest + b);
        DropCons(r, rest + b, gone);
      }
      Assoc([r], Drop(rest, gone), Drop(b, gone));
    }
  }

  lemma Standing(rows: seq<Row>, a: seq<Row>, row: Row, b: seq<Row>, others: set<Key>)
    requires rows == a + [row] + b && Keys(a) <= others
    ensures StandsBehind(rows, row, others)
  {
    assert rows[|a|] == row && rows[..|a|] == a;
  }

  lemma DropAround(a: seq<Row>, row: Row, b: seq<Row>, gone: set<Key>)
    requires row.key !in gone
    ensures Drop(a + [row] + b, gone) == Drop(a, gone) + [row] + Drop(b, gone)
  {
    assert a + [row] + b == a + ([row] + b);
    DropAppend(a, [row] + b, gone);
    DropCons(row, b, gone);
  }

  lemma StandsAfterDrop(rows: seq<Row>, row: Row, others: set<Key>, gone: set<Key>)
    requires StandsBehind(rows, row, others) && row.key !in gone
    ensures StandsBehind(Drop(rows, gone), row, others - gone)
  {
    var i :| 0 <= i < |rows| && rows[i] == row && Keys(rows[..i]) <= others;
    var a, b := rows[..i], rows[i + 1..];
    assert rows == a + [row] + b;
    DropAround(a, row, b, gone);
    DropMembers(a, gone);
    Standing(Drop(rows, gone), Drop(a, gone), row, Drop(b, gone), others - gone);
  }

  lemma StandsAfterCleanup(rows: seq<Row>, row: Row, others: set<Key>, now: int)
    requires Distinct(rows) && StandsBehind(rows, row, others) && now <= row.expiresAt
    ensures StandsBehind(Unexpired(rows, now), row, others)
  {
    UnexpiredMembers(rows, now);
    var gone := ExpiredKeys(rows, now);
    DropMembers(rows, gone);
    StandsAfterDrop(rows, row, others, gone);
    Weaken(Drop(rows, gone), row, others - gone, others);
  }

  lemma StandsAfterPush(rows: seq<Row>, row: Row, others: set<Key>, r: Row)
    requires StandsBehind(rows, row, others)
    ensures StandsBehind([r] + rows, row, others + {r.key})
  {
    var i :| 0 <= i < |rows| && rows[i] == row && Keys(rows[..i]) <= others;
    var a, b := rows[..i], rows[i + 1..];
    assert [r] + rows == ([r] + a) + [row] + b;
    Standing([r] + rows, [r] + a, row, b, others + {r.key});
  }

  /** Rows with distinct keys are at most as many as their keys. */
  lemma {:induction false} KeyCount(rows: seq<Row>)
    requires Distinct(rows)
    ensures |Keys(rows)| == |rows|
  {
    if rows != [] {
      KeyCount(rows[1..]);
      assert rows == [rows[0]] + rows[1..];
      assert Keys(rows) == {rows[0].key} + Keys(rows[1..]);
      assert forall r :: r in rows[1..] ==> r.key != rows[0].key;
    }
  }

  lemma SubsetSize<T>(a: set<T>, b: set<T>)
    requires a <= b
    ensures |a| <= |b|
  {
    assert b == a + (b - a);
  }

  /** Few keys before it, so shortening the list does not reach it. */
  lemma StandsAfterKeep(rows: seq<Row>, row: Row, others: set<Key>, n: nat)
    requires Distinct(rows) && StandsBehind(rows, row, others) && |others| < n
    ensures StandsBehind(Keep(rows, n), row, others)
  {
    var i :| 0 <= i < |rows| && rows[i] == row && Keys(rows[..i]) <= others;
    KeyCount(rows[..i]);
    SubsetSize(Keys(rows[..i]), others);
    if n < |rows| {
      assert rows[..n][i] == row && rows[..n][..i] == rows[..i];
    }
  }

  // ----- retention

  lemma TouchPutsFirst(h: seq<Event>, max: nat, key: Key, row: Row)
    requires 1 <= max && h != []
    requires Touched(Run(h[..|h| - 1], max), h[|h| - 1]) == Some(key)
    requires LatestWrite(h, key) == Some(row)
    ensures StandsBehind(Run(h, max), row, {})
  {
    var rows := Run(h, max);
    assert rows[0].key == key;
    RowsAreLatest(h, max, rows[0]);
    assert rows[..0] == [];
  }

  lemma PutKeeps(rows: seq<Row>, max: nat, row: Row, others: set<Key>, r: Row)
    requires 1 <= max && Distinct(rows)
    requires StandsBehind(rows, row, others) && r.key != row.key && |others + {r.key}| < max
    ensures StandsBehind(Put(rows, r, max), row, others + {r.key})
  {
    var kept := Drop(rows, {r.key});
    StandsAfterDrop(rows, row, others, {r.key});
    DropDistinct(rows, {r.key});
    var ahead := others - {r.key};
    assert others + {r.key} == ahead + {r.key};
    StandsAfterKeep(kept, row, ahead, max - 1);
    StandsAfterPush(Keep(kept, max - 1), row, ahead, r);
  }

  lemma Weaken(rows: seq<Row>, row: Row, others: set<Key>, more: set<Key>)
    requires StandsBehind(rows, row, others) && others <= more
    ensures StandsBehind(rows, row, more)
  {
  }

  lemma RefreshKeeps(rows: seq<Row>, key: Key, now: int, row: Row, others: set<Key>)
    requires StandsBehind(rows, row, others) && key != row.key && Answer(rows, key, now).Some?
    ensures StandsBehind(Refresh(rows, key, now), row, others + {key})
  {
    StandsAfterDrop(rows, row, others, {key});
    StandsAfterPush(Drop(rows, {key}), row, others - {key}, Lookup(rows, key).value);
    assert others - {key} + {key} == others + {key};
  }

  /** `others`, and the key that `e` touches. */
  function WithTouched(rows: seq<Row>, e: Event, others: set<Key>): set<Key> {
    match Touched(rows, e)
    case None => others
    case Some(k) => others + {k}
  }

  /** One event that does not touch the key leaves its row standing behind the others. */
  lemma StepKeeps(rows: seq<Row>, e: Event, max: nat, row: Row, others: set<Key>)
    requires 1 <= max && Distinct(rows) && StandsBehind(rows, row, others)
    requires Touched(rows, e) != Some(row.key)
    requires e.op != Delete(row.key)
    requires e.op.Cleanup? ==> e.now <= row.expiresAt
    requires |WithTouched(rows, e, others)| < max
    ensures StandsBehind(Step(rows, e, max), row, WithTouched(rows, e, others))
  {
    match e.op
    case Set(key, value, ttl) => PutKeeps(rows, max, row, others, Row(key, value, e.now + ttl));
    case Get(key) =>
      if Answer(rows, key, e.now).Some? {
        RefreshKeeps(rows, key, e.now, row, others);
      }
    case Delete(key) =>
      StandsAfterDrop(rows, row, others, {key});
      Weaken(Drop(rows, {key}), row, others - {key}, others);
    case Cleanup =>
      StandsAfterCleanup(rows, row, others, e.now);
  }

  lemma {:induction false} StillStands(h: seq<Event>, max: nat, key: Key, row: Row)
    requires 1 <= max
    requires LatestWrite(h, key) == Some(row)
    requires NoLateCleanup(h, key, max, row.expiresAt)
    requires |OthersSince(h, key, max)| < max
    ensures StandsBehind(Run(h, max), row, OthersSince(h, key, max))
  {
    var before, e := h[..|h| - 1], h[|h| - 1];
    var rows := Run(before, max);
    if Touched(rows, e) == Some(key) {
      TouchPutsFirst(h, max, key, row);
    } else {
      var others := OthersSince(before, key, max);
      SubsetSize(others, OthersSince(h, key, max));
      LatestWriteKey(h, key);
      StillStands(before, max, key, row);
      RunValid(before, max);
      StepKeeps(rows, e, max, row, others);
    }
  }

  lemma {:induction false} LatestWriteKey(h: seq<Event>, key: Key)
    ensures LatestWrite(h, key).Some? ==> LatestWrite(h, key).value.key == key
  {
    if h != [] {
      LatestWriteKey(h[..|h| - 1], key);
    }
  }

  // ----- the clock

  ghost predicate ClockRises(h: seq<Event>, now: int) {
    && (forall i :: 0 <= i < |h| ==> h[i].now <= now)
    && forall i, j :: 0 <= i < j < |h| ==> h[i].now <= h[j].now
  }

  lemma {:induction false} ClockBoundsCleanups(h: seq<Event>, key: Key, max: nat, now: int, deadline: int)
    requires 1 <= max && ClockRises(h, now) && now <= deadline
    ensures NoLateCleanup(h, key, max, deadline)
  {
    if h != [] {
      ClockBoundsCleanups(h[..|h| - 1], key, max, now, deadline);
    }
  }

  /** LRU retention: a key that is set, not deleted and not expired is answered as long as fewer than
      `max` other keys have been set or hit since it was last set or hit. */
  lemma Retention(h: seq<Event>, max: nat, key: Key, now: int)
    requires 1 <= max && ClockRises(h, now)
    requires LatestWrite(h, key).Some? && now <= LatestWrite(h, key).value.expiresAt
    requires |OthersSince(h, key, max)| < max
    ensures Answer(Run(h, max), key, now) == Some(LatestWrite(h, key).value.value)
  {
    var row := LatestWrite(h, key).value;
    LatestWriteKey(h, key);
    ClockBoundsCleanups(h, key, max, now, row.expiresAt);
    StillStands(h, max, key, row);
    RunValid(h, max);
    LookupIn(Run(h, max), row);
  }

  // ----- exactness

  /** Every other key touched since stands before the row. */
  lemma {:induction false} OthersStandBefore(h: seq<Event>, max: nat, key: Key) returns (i: nat)
    requires 1 <= max && key in Keys(Run(h, max)) && OnlySetsAndGets(h, key, max)
    ensures i < |Run(h, max)| && Run(h, max)[i].key == key
    ensures OthersSince(h, key, max) <= Keys(Run(h, max)[..i])
  {
    var before, e := h[..|h| - 1], h[|h| - 1];
    var rows := Run(before, max);
    if Touched(rows, e) == Some(key) {
      return 0;
    }
    var r :| r in Run(h, max) && r.key == key;
    StepMembers(rows, e, max);
    assert r in rows;
    RunValid(before, max);
    var j := OthersStandBefore(before, max, key);
    match Touched(rows, e)
    case None => return j;
    case Some(k) =>
      TouchShape(rows, e, max);
      i := StepsBack(rows, k, Run(h, max), j, OthersSince(before, key, max));
  }

  lemma DropBefore(rows: seq<Row>, j: nat, k: Key) returns (i: nat)
    requires j < |rows| && rows[j].key != k
    ensures i < |Drop(rows, {k})| && Drop(rows, {k})[i] == rows[j]
    ensures Drop(rows, {k})[..i] == Drop(rows[..j], {k})
  {
    var a, b := rows[..j], rows[j + 1..];
    assert rows == a + [rows[j]] + b;
    DropAround(a, rows[j], b, {k});
    i := |Drop(a, {k})|;
  }

  /** A touch puts its key first, before the other rows in their old order, perhaps shortened. */
  lemma TouchShape(rows: seq<Row>, e: Event, max: nat)
    requires 1 <= max && Touched(rows, e).Some?
    ensures var k, after := Touched(rows, e).value, Step(rows, e, max);
            after != [] && after[0].key == k && after[1..] <= Drop(rows, {k})
  {
  }

  lemma DropKeys(rows: seq<Row>, others: set<Key>, k: Key)
    requires others <= Keys(rows)
    ensures others - {k} <= Keys(Drop(rows, {k}))
  {
    DropMembers(rows, {k});
    forall o | o in others - {k}
      ensures o in Keys(Drop(rows, {k}))
    {
      var r :| r in rows && r.key == o;
      assert r in Drop(rows, {k});
    }
  }

  lemma PositionOf(rows: seq<Row>, n: nat, d: nat)
    requires Distinct(rows) && n <= |rows| && d < |rows| && rows[d].key in Keys(rows[..n])
    ensures d < n
  {
    var x :| x in rows[..n] && x.key == rows[d].key;
    var m :| 0 <= m < n && rows[..n][m] == x;
    assert rows[m].key == rows[d].key;
  }

  lemma KeysOfCons(r: Row, rows: seq<Row>)
    ensures Keys([r] + rows) == {r.key} + Keys(rows)
  {
    forall o | o in {r.key} + Keys(rows)
      ensures o in Keys([r] + rows)
    {
      if o == r.key {
        assert r in [r] + rows;
      } else {
        var x :| x in rows && x.key == o;
        assert x in [r] + rows;
      }
    }
  }

  /** A touch of `k` puts that key before row `j` and keeps the rest before it. */
  lemma StepsBack(rows: seq<Row>, k: Key, after: seq<Row>, j: nat, others: set<Key>) returns (i: nat)
    requires j < |rows| && others <= Keys(rows[..j]) && Distinct(rows) && k != rows[j].key
    requires after != [] && after[0].key == k && after[1..] <= Drop(rows, {k})
    requires rows[j].key in Keys(after)
    ensures i < |after| && after[i].key == rows[j].key
    ensures others + {k} <= Keys(after[..i])
  {
    var dropped, n := Drop(rows, {k}), |after| - 1;
    var d := DropBefore(rows, j, k);
    DropDistinct(rows, {k});
    DropKeys(rows[..j], others, k);
    assert after == [after[0]] + dropped[..n];
    BehindFront(after[0], dropped, n, d, others - {k});
    return d + 1;
  }

  lemma BehindFront(r: Row, dropped: seq<Row>, n: nat, d: nat, others: set<Key>)
    requires Distinct(dropped) && n <= |dropped| && d < |dropped| && others <= Keys(dropped[..d])
    requires dropped[d].key != r.key && dropped[d].key in Keys([r] + dropped[..n])
    ensures d < n && others + {r.key} <= Keys(([r] + dropped[..n])[..d + 1])
  {
    KeysOfCons(r, dropped[..n]);
    PositionOf(dropped, n, d);
    assert ([r] + dropped[..n])[..d + 1] == [r] + dropped[..d];
    KeysOfCons(r, dropped[..d]);
  }

  /** While only Set and Get run, a key that was set is present exactly as long as fewer than `max`
      other keys have been touched since: the cache is LRU and nothing else. */
  lemma PresentExactly(h: seq<Event>, max: nat, key: Key)
    requires 1 <= max && LatestWrite(h, key).Some? && OnlySetsAndGets(h, key, max)
    ensures key in Keys(Run(h, max)) <==> |OthersSince(h, key, max)| < max
  {
    RunValid(h, max);
    var rows := Run(h, max);
    if key in Keys(rows) {
      var i := OthersStandBefore(h, max, key);
      KeyCount(rows[..i]);
      SubsetSize(OthersSince(h, key, max), Keys(rows[..i]));
    }
    if |OthersSince(h, key, max)| < max {
      var row := LatestWrite(h, key).value;
      LatestWriteKey(h, key);
      QuietHasNoLateCleanup(h, key, max, row.expiresAt);
      StillStands(h, max, key, row);
    }
  }

  lemma {:induction false} QuietHasNoLateCleanup(h: seq<Event>, key: Key, max: nat, deadline: int)
    requires 1 <= max && OnlySetsAndGets(h, key, max)
    ensures NoLateCleanup(h, key, max, deadline)
  {
    if h != [] && Touched(Run(h[..|h| - 1], max), h[|h| - 1]) != Some(key) {
      QuietHasNoLateCleanup(h[..|h| - 1], key, max, deadline);
    }
  }

  // ----- list order

  /** When `key` was last touched, counting events from one; 0 if never. */
  function LastTouch(h: seq<Event>, key: Key, max: nat): nat
    requires 1 <= max
  {
    if h == [] then 0
    else if Touched(Run(h[..|h| - 1], max), h[|h| - 1]) == Some(key) then |h|
    else LastTouch(h[..|h| - 1], key, max)
  }

  lemma {:induction false} LastTouchBound(h: seq<Event>, key: Key, max: nat)
    requires 1 <= max
    ensures LastTouch(h, key, max) <= |h|
  {
    if h != [] {
      LastTouchBound(h[..|h| - 1], key, max);
    }
  }

  ghost predicate ByRecency(rows: seq<Row>, h: seq<Event>, max: nat)
    requires 1 <= max
  {
    forall i, j :: 0 <= i < j < |rows| ==> LastTouch(h, rows[i].key, max) > LastTouch(h, rows[j].key, max)
  }

  lemma {:induction false} DropByRecency(rows: seq<Row>, gone: set<Key>, h: seq<Event>, max: nat)
    requires 1 <= max && ByRecency(rows, h, max)
    ensures ByRecency(Drop(rows, gone), h, max)
  {
    if rows != [] {
      DropByRecency(rows[1..], gone, h, max);
      DropMembers(rows[1..], gone);
      assert forall r :: r in rows[1..] ==> LastTouch(h, rows[0].key, max) > LastTouch(h, r.key, max);
    }
  }

  /** The list is sorted by last touch, latest first; with PutEvicts, the row a Set evicts is the one
      touched longest ago. */
  lemma {:induction false} ListIsByRecency(h: seq<Event>, max: nat)
    requires 1 <= max
    ensures ByRecency(Run(h, max), h, max)
  {
    if h != [] {
      var before, e := h[..|h| - 1], h[|h| - 1];
      var rows := Run(before, max);
      ListIsByRecency(before, max);
      match Touched(rows, e)
      case None =>
        match e.op {
          case Delete(k) => DropByRecency(rows, {k}, before, max);
          case _ => DropByRecency(rows, ExpiredKeys(rows, e.now), before, max);
        }
        SameTouches(Run(h, max), before, h, max);
      case Some(k) =>
        DropByRecency(rows, {k}, before, max);
        TouchShape(rows, e, max);
        TouchToFront(Run(h, max), rows, before, h, k, max);
    }
  }

  lemma SameTouches(rows: seq<Row>, before: seq<Event>, h: seq<Event>, max: nat)
    requires 1 <= max && h != [] && before == h[..|h| - 1]
    requires Touched(Run(before, max), h[|h| - 1]).None?
    requires ByRecency(rows, before, max)
    ensures ByRecency(rows, h, max)
  {
  }

  lemma TouchToFront(after: seq<Row>, rows: seq<Row>, before: seq<Event>, h: seq<Event>, k: Key, max: nat)
    requires 1 <= max && h != [] && before == h[..|h| - 1]
    requires Touched(Run(before, max), h[|h| - 1]) == Some(k)
    requires after != [] && after[0].key == k && after[1..] <= Drop(rows, {k})
    requires ByRecency(Drop(rows, {k}), before, max)
    ensures ByRecency(after, h, max)
  {
    DropMembers(rows, {k});
    forall i, j | 0 <= i < j < |after|
      ensures LastTouch(h, after[i].key, max) > LastTouch(h, after[j].key, max)
    {
      var dropped := Drop(rows, {k});
      assert after[j] == after[1..][j - 1] == dropped[j - 1];
      LastTouchBound(before, after[j].key, max);
      if 0 < i {
        assert after[i] == after[1..][i - 1] == dropped[i - 1];
      }
    }
  }

  // ----- cleanup

  /** Removing what has expired by `now` changes no answer from `now` on. */
  lemma {:induction false} CleanupInvisible(rows: seq<Row>, now: int, key: Key, later: int)
    requires Distinct(rows) && now <= later
    ensures Answer(Unexpired(rows, now), key, later) == Answer(rows, key, later)
  {
    DropDistinct(rows, ExpiredKeys(rows, now));
    UnexpiredMembers(rows, now);
    match Lookup(rows, key)
    case None => assert key !in Keys(Unexpired(rows, now));
    case Some(r) =>
      if now <= r.expiresAt {
        LookupIn(Unexpired(rows, now), r);
      } else if Lookup(Unexpired(rows, now), key).Some? {
        LookupIn(rows, Lookup(Unexpired(rows, now), key).value);
      }
  }

  // ----- single events of a history

  /** After a cleanup exactly the unexpired rows are left, in their order. */
  lemma CleanupLeaves(h: seq<Event>, now: int, max: nat)
    requires 1 <= max
    ensures var rows, after := Run(h, max), Run(h + [Event(Cleanup, now)], max);
            && (forall r :: r in after <==> r in rows && now <= r.expiresAt)
            && exists gone :: after == Drop(rows, gone)
  {
    var e := Event(Cleanup, now);
    assert (h + [e])[..|h|] == h;
    RunValid(h, max);
    UnexpiredMembers(Run(h, max), now);
    assert Run(h + [e], max) == Drop(Run(h, max), ExpiredKeys(Run(h, max), now));
  }

  /** A history that ends in a Get has one more answer: nothing, or the latest undeleted write if it has not
      expired; surely that write while fewer than capacity other keys were touched since. */
  lemma LastAnswer(h: seq<Event>, key: Key, now: int, max: nat)
    requires 1 <= max && ClockRises(h, now)
    ensures var answers, w := Answers(h + [Event(Get(key), now)], max), LatestWrite(h, key);
            && |answers| == |Answers(h, max)| + 1 && Answers(h, max) <= answers
            && var a := answers[|answers| - 1];
            && (a.Some? ==> w.Some? && now <= w.value.expiresAt && a == Some(w.value.value))
            && (w.Some? && now <= w.value.expiresAt && |OthersSince(h, key, max)| < max ==> a.Some?)
  {
    var e := Event(Get(key), now);
    assert (h + [e])[..|h|] == h;
    if Answer(Run(h, max), key, now).Some? {
      HitIsLatestWrite(h, max, key, now);
    }
    if LatestWrite(h, key).Some? && now <= LatestWrite(h, key).value.expiresAt && |OthersSince(h, key, max)| < max {
      Retention(h, max, key, now);
    }
  }

  /** Other events answer nothing. */
  lemma NoAnswer(h: seq<Event>, e: Event, max: nat)
    requires 1 <= max && !e.op.Get?
    ensures Answers(h + [e], max) == Answers(h, max)
  {
    assert (h + [e])[..|h|] == h;
  }
}

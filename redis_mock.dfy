/**
 * The in-memory Redis double the engine's tests run against (RedisClientMock).
 *
 * The double keeps four process-wide dictionaries: plain keys, sets, queues and
 * expiration deadlines. Db is their value; each command is first given as a
 * function from the old Db and its arguments to a Reply (the new Db and what
 * the command returns), and the class RedisClientMock then performs the same
 * command in place on its fields, proved against that function.
 */
module RedisMock {
  import opened Wrappers
  import opened JsText

  /** What the double stores under a plain key or pushes onto a queue. */
  datatype Value = Int(n: int) | Text(s: string)

  /** The four dictionaries of the double. */
  datatype Db = Db(
    keys: map<string, Value>,
    sets: map<string, seq<string>>,
    queues: map<string, seq<Value>>,
    expirations: map<string, int>)

  /** The new state after a command, and what the command returns. */
  datatype Reply<T> = Reply(db: Db, value: T)

  const EmptyDb := Db(map[], map[], map[], map[])

  /** setnx only ever writes keys with this suffix. */
  const LockSuffix := ":watch:lock"

  predicate IsLockKey(key: string) {
    |key| >= |LockSuffix| && key[|key| - |LockSuffix|..] == LockSuffix
  }

  /** String(value). */
  function Stringify(v: Value): string {
    match v
    case Int(n) => IntToString(n)
    case Text(s) => s
  }

  /** parseInt(value) || 0: the number incr reads from a stored value. */
  function NumberOrZero(v: Value): int {
    match ParseInt(Stringify(v))
    case Some(n) => n
    case None => 0
  }

  /** A key "exists" when any of the keys, sets or queues holds it. */
  predicate Present(db: Db, key: string) {
    key in db.keys || key in db.sets || key in db.queues
  }

  predicate Distinct(s: seq<string>) {
    forall i, j | 0 <= i < j < |s| :: s[i] != s[j]
  }

  /** Every set of the double holds each member once, as a JavaScript Set does. */
  ghost predicate SetsDistinct(db: Db) {
    forall key | key in db.sets :: Distinct(db.sets[key])
  }

  function Elems(s: seq<string>): set<string> {
    set x | x in s
  }

  function Members(db: Db, key: string): seq<string> {
    if key in db.sets then db.sets[key] else []
  }

  /**
   * The members of a set after adding values one after another, in insertion
   * order: a value already present is skipped.
   */
  function AddAll(members: seq<string>, values: seq<string>): seq<string>
    decreases |values|
  {
    if values == [] then members
    else AddAll(if values[0] in members then members else members + [values[0]], values[1..])
  }

  // ---------------------------------------------------------------------------
  // The commands, as functions of the old state.

  function SetReply(db: Db, key: string, val: Value): Reply<int> {
    Reply(db.(keys := db.keys[key := val]), 1)
  }

  function SetNxReply(db: Db, key: string, val: Value): Reply<int> {
    if IsLockKey(key) && key !in db.keys then Reply(db.(keys := db.keys[key := val]), 1)
    else Reply(db, 0)
  }

  function GetReply(db: Db, key: string): Option<string> {
    if key in db.keys then Some(Stringify(db.keys[key])) else None
  }

  function ExistsReply(db: Db, key: string): int {
    if Present(db, key) then 1 else 0
  }

  function SAddReply(db: Db, key: string, values: seq<string>): Reply<int> {
    var before := Members(db, key);
    var after := AddAll(before, values);
    Reply(db.(sets := db.sets[key := after]), |after| - |before|)
  }

  function SIsMemberReply(db: Db, key: string, member: string): int {
    if key in db.sets && member in db.sets[key] then 1 else 0
  }

  /** expire records the deadline now + seconds * 1000 (milliseconds) for a present key. */
  function ExpireReply(db: Db, key: string, seconds: int, now: int): Reply<int> {
    if Present(db, key) then Reply(db.(expirations := db.expirations[key := now + seconds * 1000]), 1)
    else Reply(db, 0)
  }

  function LPushReply(db: Db, key: string, val: Value): Reply<int> {
    var q := if key in db.queues then db.queues[key] else [];
    Reply(db.(queues := db.queues[key := q + [val]]), 1)
  }

  /** One key of del: it leaves all four dictionaries, counting one for each of keys, queues and sets that held it. */
  function DelKeyReply(db: Db, key: string): Reply<int> {
    Reply(EvictDb(db, key),
          (if key in db.keys then 1 else 0) + (if key in db.queues then 1 else 0) + (if key in db.sets then 1 else 0))
  }

  /** del: the keys are deleted one after another and their counts summed. */
  function DelReply(db: Db, ks: seq<string>): Reply<int>
    decreases |ks|
  {
    if ks == [] then Reply(db, 0)
    else
      var first := DelKeyReply(db, ks[0]);
      var rest := DelReply(first.db, ks[1..]);
      Reply(rest.db, first.value + rest.value)
  }

  /** The dictionaries once the keys in gone have been deleted. */
  function DelPartial(db: Db, gone: set<string>): Db {
    Db(db.keys - gone, db.sets - gone, db.queues - gone, db.expirations - gone)
  }

  /** The number of (storage kind, key) pairs among keys, queues and sets with the key in gone. */
  function DelCount(db: Db, gone: set<string>): int {
    |db.keys.Keys * gone| + |db.queues.Keys * gone| + |db.sets.Keys * gone|
  }

  /** What incr stores and returns: 1 for an absent key, else parseInt(value) || 0, plus one. */
  function IncrValue(db: Db, key: string): int {
    (if key in db.keys then NumberOrZero(db.keys[key]) else 0) + 1
  }

  function IncrReply(db: Db, key: string): Reply<int> {
    var n := IncrValue(db, key);
    Reply(db.(keys := db.keys[key := Int(n)]), n)
  }

  function SMembersReply(db: Db, key: string): seq<string> {
    Members(db, key)
  }

  /** The deletion that the timer scheduled by expire performs when it fires. */
  function EvictDb(db: Db, key: string): Db {
    Db(db.keys - {key}, db.sets - {key}, db.queues - {key}, db.expirations - {key})
  }

  // ---------------------------------------------------------------------------
  // set and get

  /** get after set returns the text of the stored value and leaves other keys alone. */
  lemma GetAfterSet(db: Db, key: string, val: Value, other: string)
    ensures GetReply(SetReply(db, key, val).db, key) == Some(Stringify(val))
    ensures other != key ==> GetReply(SetReply(db, key, val).db, other) == GetReply(db, other)
    ensures SetReply(db, key, val).value == 1
  {
  }

  /** A number written by set is read back as that number by incr's parseInt. */
  lemma NumberOrZeroOfInt(n: int)
    ensures NumberOrZero(Int(n)) == n
  {
    ParseIntOfIntToString(n);
  }

  // ---------------------------------------------------------------------------
  // setnx

  /** setnx succeeds exactly on an absent key ending in ":watch:lock"; otherwise nothing changes. */
  lemma SetNxOnlyWritesAbsentLocks(db: Db, key: string, val: Value)
    ensures SetNxReply(db, key, val).value == 1 <==> IsLockKey(key) && key !in db.keys
    ensures SetNxReply(db, key, val).value == 0 ==> SetNxReply(db, key, val).db == db
    ensures SetNxReply(db, key, val).value == 1 ==>
      GetReply(SetNxReply(db, key, val).db, key) == Some(Stringify(val))
  {
  }

  lemma LockKeysEndInK(key: string)
    ensures IsLockKey(key) ==> key != [] && key[|key| - 1] == 'k'
  {
    if IsLockKey(key) {
      assert key[|key| - 1] == key[|key| - |LockSuffix|..][|LockSuffix| - 1];
    }
  }

  /** A key whose last character is not 'k' is never written by setnx. */
  lemma SetNxFailsOffLocks(db: Db, key: string, val: Value)
    requires key == [] || key[|key| - 1] != 'k'
    ensures SetNxReply(db, key, val) == Reply(db, 0)
  {
    LockKeysEndInK(key);
  }

  // ---------------------------------------------------------------------------
  // incr

  /** incr on an absent key stores and returns 1; on Int(n) it stores and returns n + 1. */
  lemma IncrCounts(db: Db, key: string)
    ensures key !in db.keys ==> IncrReply(db, key).value == 1
    ensures key in db.keys && db.keys[key].Int? ==> IncrReply(db, key).value == db.keys[key].n + 1
    ensures IncrReply(db, key).db.keys[key] == Int(IncrReply(db, key).value)
  {
    if key in db.keys && db.keys[key].Int? {
      NumberOrZeroOfInt(db.keys[key].n);
    }
  }

  /** incr on a text with no numeric prefix treats it as 0. */
  lemma IncrOfNonNumeric(db: Db, key: string)
    requires key in db.keys && db.keys[key].Text? && ParseInt(db.keys[key].s) == None
    ensures IncrReply(db, key).value == 1
  {
  }

  /** incr on a text with a numeric prefix counts on from that prefix: "12abc" becomes 13. */
  lemma IncrOfNumericPrefix(db: Db, key: string, digits: string, rest: string)
    requires digits != [] && AllDigits(digits) && (rest == [] || !IsDigit(rest[0]))
    requires key in db.keys && db.keys[key] == Text(digits + rest)
    ensures IncrReply(db, key).value == DigitsValue(digits) + 1
  {
    ParseIntOfPrefix(digits, rest);
  }

  /** n increments of an absent key leave n stored, and the n-th returns n. */
  function IncrTimes(db: Db, key: string, n: nat): Db
    decreases n
  {
    if n == 0 then db else IncrReply(IncrTimes(db, key, n - 1), key).db
  }

  lemma {:induction false} IncrTimesCounts(db: Db, key: string, n: nat)
    requires key !in db.keys
    ensures n > 0 ==> IncrTimes(db, key, n).keys[key] == Int(n)
    ensures n > 0 ==> IncrReply(IncrTimes(db, key, n - 1), key).value == n
    decreases n
  {
    if n > 1 {
      IncrTimesCounts(db, key, n - 1);
      IncrCounts(IncrTimes(db, key, n - 1), key);
    }
  }

  /** incr then get returns the decimal text of the new count. */
  lemma GetAfterIncr(db: Db, key: string)
    ensures GetReply(IncrReply(db, key).db, key) == Some(IntToString(IncrReply(db, key).value))
  {
  }

  // ---------------------------------------------------------------------------
  // sadd, sismember, smembers

  lemma {:induction false} AddAllGrows(members: seq<string>, values: seq<string>)
    ensures members <= AddAll(members, values)
    ensures forall v | v in values :: v in AddAll(members, values)
    ensures forall x | x in AddAll(members, values) :: x in members || x in values
    decreases |values|
  {
    if values != [] {
      var next := if values[0] in members then members else members + [values[0]];
      AddAllGrows(next, values[1..]);
      var r := AddAll(next, values[1..]);
      assert values[0] in next;
      assert next == r[..|next|];
      assert values[0] in r;
      assert forall v | v in values :: v == values[0] || v in values[1..];
    }
  }

  /** Adding values is adding the first one, then the rest. */
  lemma AddAllFront(members: seq<string>, values: seq<string>)
    requires values != []
    ensures AddAll(members, values) == AddAll(if values[0] in members then members else members + [values[0]], values[1..])
  {
  }

  lemma DistinctAppend(members: seq<string>, value: string)
    requires Distinct(members) && value !in members
    ensures Distinct(members + [value])
  {
  }

  lemma {:induction false} AddAllKeepsDistinct(members: seq<string>, values: seq<string>)
    requires Distinct(members)
    ensures Distinct(AddAll(members, values))
    decreases |values|
  {
    if values != [] {
      var next := if values[0] in members then members else members + [values[0]];
      AddAllKeepsDistinct(next, values[1..]);
    }
  }

  lemma {:induction false} AddAllOfMembers(members: seq<string>, values: seq<string>)
    requires forall v | v in values :: v in members
    ensures AddAll(members, values) == members
    decreases |values|
  {
    if values != [] {
      AddAllOfMembers(members, values[1..]);
    }
  }

  lemma {:induction false} DistinctCard(s: seq<string>)
    requires Distinct(s)
    ensures |Elems(s)| == |s|
  {
    if s != [] {
      var last := s[|s| - 1];
      DistinctCard(s[..|s| - 1]);
      assert Elems(s) == Elems(s[..|s| - 1]) + {last};
      assert last !in Elems(s[..|s| - 1]);
    }
  }

  /** sadd's count is the number of distinct given values that were not yet members. */
  lemma {:induction false} AddAllCount(members: seq<string>, values: seq<string>)
    requires Distinct(members)
    ensures |AddAll(members, values)| - |members| == |Elems(values) - Elems(members)|
    decreases |values|
  {
    if values == [] {
      assert Elems(values) == {};
    } else {
      var v := values[0];
      var next := if v in members then members else members + [v];
      AddAllKeepsDistinct(members, [v]);
      assert AddAll(members, [v]) == next;
      AddAllCount(next, values[1..]);
      NewValuesStep(members, values);
    }
  }

  /** The first value adds one new member exactly when it is not yet a member. */
  lemma NewValuesStep(members: seq<string>, values: seq<string>)
    requires values != []
    ensures var v := values[0];
      var next := if v in members then members else members + [v];
      |Elems(values) - Elems(members)| == |Elems(values[1..]) - Elems(next)| + (if v in members then 0 else 1)
  {
    var v := values[0];
    ElemsFront(values);
    if v in members {
      assert Elems(values) - Elems(members) == Elems(values[1..]) - Elems(members);
    } else {
      var next := members + [v];
      assert Elems(next) == Elems(members) + {v};
      assert Elems(values) - Elems(members) == (Elems(values[1..]) - Elems(next)) + {v};
      assert v !in Elems(values[1..]) - Elems(next);
    }
  }

  /**
   * After sadd every given value is a member, the old members keep their
   * order at the front, the count is the number of new distinct values, and
   * no other set changes.
   */
  lemma SAddFacts(db: Db, key: string, values: seq<string>, other: string)
    requires SetsDistinct(db)
    ensures forall v | v in values :: SIsMemberReply(SAddReply(db, key, values).db, key, v) == 1
    ensures Members(db, key) <= Members(SAddReply(db, key, values).db, key)
    ensures SAddReply(db, key, values).value == |Elems(values) - Elems(Members(db, key))|
    ensures SetsDistinct(SAddReply(db, key, values).db)
    ensures other != key ==> Members(SAddReply(db, key, values).db, other) == Members(db, other)
  {
    SAddCount(db, key, values);
    SAddKeepsDistinct(db, key, values);
    SAddContains(db, key, values);
  }

  lemma SAddCount(db: Db, key: string, values: seq<string>)
    requires SetsDistinct(db)
    ensures SAddReply(db, key, values).value == |Elems(values) - Elems(Members(db, key))|
  {
    AddAllCount(Members(db, key), values);
  }

  lemma SAddKeepsDistinct(db: Db, key: string, values: seq<string>)
    requires SetsDistinct(db)
    ensures SetsDistinct(SAddReply(db, key, values).db)
  {
    var before := Members(db, key);
    AddAllKeepsDistinct(before, values);
    ReplaceSetKeepsDistinct(db, key, AddAll(before, values));
  }

  lemma SAddContains(db: Db, key: string, values: seq<string>)
    ensures forall v | v in values :: SIsMemberReply(SAddReply(db, key, values).db, key, v) == 1
    ensures Members(db, key) <= Members(SAddReply(db, key, values).db, key)
  {
    AddAllGrows(Members(db, key), values);
  }

  lemma ReplaceSetKeepsDistinct(db: Db, key: string, members: seq<string>)
    requires SetsDistinct(db) && Distinct(members)
    ensures SetsDistinct(db.(sets := db.sets[key := members]))
  {
  }

  /** Repeating the same sadd returns 0 and changes nothing. */
  lemma SAddIdempotent(db: Db, key: string, values: seq<string>)
    ensures var once := SAddReply(db, key, values).db;
      SAddReply(once, key, values) == Reply(once, 0)
  {
    var once := SAddReply(db, key, values).db;
    AddAllGrows(Members(db, key), values);
    AddAllOfMembers(Members(once, key), values);
    assert once.sets[key := Members(once, key)] == once.sets;
  }

  /** sismember is 1 exactly when the set exists and holds the member. */
  lemma SIsMemberMeansMember(db: Db, key: string, member: string)
    ensures SIsMemberReply(db, key, member) == 1 <==> member in SMembersReply(db, key)
    ensures SIsMemberReply(db, key, member) == 0 <==> member !in SMembersReply(db, key)
  {
  }

  // ---------------------------------------------------------------------------
  // exists and expire

  /** expire returns what exists returns, and on an absent key changes nothing. */
  lemma ExpireMatchesExists(db: Db, key: string, seconds: int, now: int)
    ensures ExpireReply(db, key, seconds, now).value == ExistsReply(db, key)
    ensures ExistsReply(db, key) == 0 ==> ExpireReply(db, key, seconds, now).db == db
    ensures ExistsReply(db, key) == 1 ==>
      ExpireReply(db, key, seconds, now).db.expirations[key] == now + seconds * 1000
    ensures ExpireReply(db, key, seconds, now).db.keys == db.keys
    ensures ExpireReply(db, key, seconds, now).db.sets == db.sets
    ensures ExpireReply(db, key, seconds, now).db.queues == db.queues
    ensures forall k :: k in db.expirations && k != key ==>
      k in ExpireReply(db, key, seconds, now).db.expirations &&
      ExpireReply(db, key, seconds, now).db.expirations[k] == db.expirations[k]
    ensures ExpireReply(db, key, seconds, now).db.expirations.Keys <= db.expirations.Keys + {key}
  {
  }

  // ---------------------------------------------------------------------------
  // lpush

  /** lpush appends at the end of the queue and touches no other dictionary. */
  lemma LPushAppends(db: Db, key: string, a: Value, b: Value)
    ensures var once := LPushReply(db, key, a).db;
      var twice := LPushReply(once, key, b).db;
      && twice.queues[key][|twice.queues[key]| - 2..] == [a, b]
      && twice.keys == db.keys && twice.sets == db.sets && twice.expirations == db.expirations
      && twice.queues.Keys == db.queues.Keys + {key}
    ensures var twice := LPushReply(LPushReply(db, key, a).db, key, b).db;
      twice.queues == db.queues[key := (if key in db.queues then db.queues[key] else []) + [a, b]]
  {
    var once := LPushReply(db, key, a).db;
    var twice := LPushReply(once, key, b).db;
    var q := if key in db.queues then db.queues[key] else [];
    assert twice.queues[key] == q + [a] + [b];
    assert q + [a] + [b] == q + [a, b];
  }

  /** One push: the queue grows by one element at its end, its earlier contents
      stay in front, every other queue and every other dictionary is unchanged. */
  lemma LPushAtEnd(db: Db, key: string, v: Value)
    ensures var after := LPushReply(db, key, v).db;
      var before := if key in db.queues then db.queues[key] else [];
      && key in after.queues
      && |after.queues[key]| == |before| + 1
      && after.queues[key][..|before|] == before
      && after.queues[key][|before|] == v
    ensures forall k :: k in db.queues && k != key ==>
      k in LPushReply(db, key, v).db.queues && LPushReply(db, key, v).db.queues[k] == db.queues[k]
    ensures LPushReply(db, key, v).db.queues.Keys == db.queues.Keys + {key}
    ensures LPushReply(db, key, v).db.keys == db.keys
    ensures LPushReply(db, key, v).db.sets == db.sets
    ensures LPushReply(db, key, v).db.expirations == db.expirations
    ensures LPushReply(db, key, v).value == 1
  {
    var before := if key in db.queues then db.queues[key] else [];
    assert (before + [v])[..|before|] == before;
  }

  // ---------------------------------------------------------------------------
  // del and the expiry timer

  /** del of one key counts one for each of keys, queues and sets that held it. */
  lemma DelOneKey(db: Db, key: string)
    ensures DelReply(db, [key]).value ==
      (if key in db.keys then 1 else 0) + (if key in db.queues then 1 else 0)
      + (if key in db.sets then 1 else 0)
    ensures !Present(DelReply(db, [key]).db, key) && key !in DelReply(db, [key]).db.expirations
  {
    assert [key][1..] == [];
  }

  lemma MinusAbsent<V>(m: map<string, V>, key: string)
    requires key !in m
    ensures m - {key} == m
  {
  }

  lemma MinusTwice<V>(m: map<string, V>, key: string, rest: set<string>)
    ensures (m - {key}) - rest == m - ({key} + rest)
  {
    assert ((m - {key}) - rest).Keys == (m - ({key} + rest)).Keys;
  }

  lemma CardMeetFront<V>(m: map<string, V>, key: string, rest: set<string>)
    ensures |m.Keys * ({key} + rest)| == (if key in m then 1 else 0) + |(m - {key}).Keys * rest|
  {
    var ks := m.Keys;
    assert (m - {key}).Keys == ks - {key};
    if key in ks {
      assert ks * ({key} + rest) == (ks - {key}) * rest + {key};
    } else {
      assert ks * ({key} + rest) == (ks - {key}) * rest;
    }
  }

  lemma DelPartialFront(db: Db, key: string, rest: set<string>)
    ensures DelPartial(EvictDb(db, key), rest) == DelPartial(db, {key} + rest)
  {
    MinusTwice(db.keys, key, rest);
    MinusTwice(db.sets, key, rest);
    MinusTwice(db.queues, key, rest);
    MinusTwice(db.expirations, key, rest);
  }

  lemma DelCountFront(db: Db, key: string, rest: set<string>)
    ensures DelCount(EvictDb(db, key), rest) + DelKeyReply(db, key).value == DelCount(db, {key} + rest)
  {
    CardMeetFront(db.keys, key, rest);
    CardMeetFront(db.queues, key, rest);
    CardMeetFront(db.sets, key, rest);
  }

  lemma DelPartialKeepsDistinct(db: Db, gone: set<string>)
    requires SetsDistinct(db)
    ensures SetsDistinct(DelPartial(db, gone))
  {
  }

  /**
   * del in closed form: every given key leaves all four dictionaries, and the
   * count is the number of (storage kind, key) pairs that were present among
   * keys, queues and sets; a key given twice counts once.
   */
  lemma {:induction false} DelClosedForm(db: Db, ks: seq<string>)
    ensures DelReply(db, ks) == Reply(DelPartial(db, Elems(ks)), DelCount(db, Elems(ks)))
    decreases |ks|
  {
    if ks == [] {
      DelNothing(db);
    } else {
      DelClosedForm(EvictDb(db, ks[0]), ks[1..]);
      DelFrontStep(db, ks);
    }
  }

  lemma DelNothing(db: Db)
    ensures DelReply(db, []) == Reply(DelPartial(db, Elems([])), DelCount(db, Elems([])))
  {
    assert Elems([]) == {};
    MinusDisjoint(db.keys, {});
    MinusDisjoint(db.sets, {});
    MinusDisjoint(db.queues, {});
    MinusDisjoint(db.expirations, {});
  }

  lemma DelFrontStep(db: Db, ks: seq<string>)
    requires ks != []
    requires var next := EvictDb(db, ks[0]);
      DelReply(next, ks[1..]) == Reply(DelPartial(next, Elems(ks[1..])), DelCount(next, Elems(ks[1..])))
    ensures DelReply(db, ks) == Reply(DelPartial(db, Elems(ks)), DelCount(db, Elems(ks)))
  {
    var key := ks[0];
    var next := EvictDb(db, key);
    var rest := Elems(ks[1..]);
    var all := Elems(ks);
    ElemsFront(ks);
    assert all == {key} + rest;
    var r := DelReply(next, ks[1..]);
    var first := DelKeyReply(db, key);
    DelUnfold(db, ks);
    DelPartialFront(db, key, rest);
    DelCountFront(db, key, rest);
    assert r.db == DelPartial(db, all);
    assert first.value + r.value == DelCount(db, all);
    assert DelReply(db, ks).db == DelPartial(db, all);
    assert DelReply(db, ks).value == DelCount(db, all);
  }

  lemma DelUnfold(db: Db, ks: seq<string>)
    requires ks != []
    ensures var r := DelReply(EvictDb(db, ks[0]), ks[1..]);
      DelReply(db, ks) == Reply(r.db, DelKeyReply(db, ks[0]).value + r.value)
  {
  }

  lemma ElemsFront(ks: seq<string>)
    requires ks != []
    ensures Elems(ks) == {ks[0]} + Elems(ks[1..])
  {
    assert ks == [ks[0]] + ks[1..];
  }

  /** del leaves every remaining set free of duplicates. */
  lemma DelKeepsDistinct(db: Db, ks: seq<string>)
    requires SetsDistinct(db)
    ensures SetsDistinct(DelReply(db, ks).db)
  {
    DelClosedForm(db, ks);
    DelPartialKeepsDistinct(db, Elems(ks));
  }

  /** Absent keys add nothing to del's count, and del of only absent keys changes no data. */
  lemma DelOfAbsent(db: Db, ks: seq<string>)
    requires forall k | k in ks :: !Present(db, k)
    ensures DelReply(db, ks).value == 0
    ensures var after := DelReply(db, ks).db;
      after.keys == db.keys && after.sets == db.sets && after.queues == db.queues
  {
    DelClosedForm(db, ks);
    var gone := Elems(ks);
    MinusDisjoint(db.keys, gone);
    MinusDisjoint(db.queues, gone);
    MinusDisjoint(db.sets, gone);
  }

  lemma MinusDisjoint<V>(m: map<string, V>, gone: set<string>)
    requires m.Keys !! gone
    ensures m - gone == m && m.Keys * gone == {}
  {
    assert (m - gone).Keys == m.Keys;
  }

  /** After del no given key exists, and get returns null for each. */
  lemma DelForgets(db: Db, ks: seq<string>, key: string)
    requires key in ks
    ensures ExistsReply(DelReply(db, ks).db, key) == 0 && GetReply(DelReply(db, ks).db, key) == None
    ensures key !in DelReply(db, ks).db.expirations
  {
    DelClosedForm(db, ks);
  }

  /** The expiry timer's deletion is del of that one key. */
  lemma EvictIsDel(db: Db, key: string)
    ensures EvictDb(db, key) == DelReply(db, [key]).db
  {
    assert [key][1..] == [];
  }

  /** After the timer fires the key no longer exists and get returns null; other keys keep their data. */
  lemma EvictForgets(db: Db, key: string, other: string)
    ensures ExistsReply(EvictDb(db, key), key) == 0 && GetReply(EvictDb(db, key), key) == None
    ensures other != key ==> Members(EvictDb(db, key), other) == Members(db, other)
    ensures other != key ==> GetReply(EvictDb(db, key), other) == GetReply(db, other)
  {
  }

  // ---------------------------------------------------------------------------
  // The double itself: the dictionaries are updated in place.

  /**
   * RedisClientMock. Its dictionaries are static in the double, shared by all
   * of its instances; here they are the fields of one store object that every
   * client holding it shares.
   */
  class RedisClientMock {
    var keys: map<string, Value>
    var sets: map<string, seq<string>>
    var queues: map<string, seq<Value>>
    var expirations: map<string, int>

    function View(): Db
      reads this
    {
      Db(keys, sets, queues, expirations)
    }

    ghost predicate Valid()
      reads this
    {
      SetsDistinct(View())
    }

    /** The dictionaries as the process starts: all empty. */
    constructor ()
      ensures Valid() && View() == EmptyDb
    {
      keys, sets, queues, expirations := map[], map[], map[], map[];
    }

    method Set(key: string, val: Value) returns (r: int)
      requires Valid()
      modifies this
      ensures Valid()
      ensures Reply(View(), r) == SetReply(old(View()), key, val)
    {
      keys := keys[key := val];
      r := 1;
    }

    method SetNx(key: string, val: Value) returns (r: int)
      requires Valid()
      modifies this
      ensures Valid()
      ensures Reply(View(), r) == SetNxReply(old(View()), key, val)
    {
      r := 0;
      if IsLockKey(key) {
        if key !in keys {
          keys := keys[key := val];
          r := 1;
        }
      }
    }

    method Get(key: string) returns (r: Option<string>)
      ensures r == GetReply(View(), key)
      ensures r.Some? <==> key in keys
    {
      r := if key in keys then Some(Stringify(keys[key])) else None;
    }

    method Exists(key: string) returns (r: int)
      ensures r == ExistsReply(View(), key)
      ensures r == 1 <==> key in keys || key in sets || key in queues
    {
      r := if key in keys || key in sets || key in queues then 1 else 0;
    }

    method SAdd(key: string, values: seq<string>) returns (added: int)
      requires Valid()
      modifies this
      ensures Valid()
      ensures Reply(View(), added) == SAddReply(old(View()), key, values)
    {
      added := 0;
      if key !in sets {
        sets := sets[key := []];
      }
      ghost var before := sets[key];
      assert before == Members(old(View()), key);
      var i := 0;
      while i < |values|
        invariant 0 <= i <= |values|
        invariant key in sets && Distinct(sets[key])
        invariant sets == old(sets)[key := sets[key]]
        invariant AddAll(sets[key], values[i..]) == AddAll(before, values)
        invariant added == |sets[key]| - |before|
        invariant keys == old(keys) && queues == old(queues) && expirations == old(expirations)
      {
        var value := values[i];
        var members := sets[key];
        AddAllFront(members, values[i..]);
        if value !in members {
          DistinctAppend(members, value);
          sets := sets[key := members + [value]];
          added := added + 1;
        }
        i := i + 1;
      }
      assert values[i..] == [];
      AddAllKeepsDistinct(before, values);
    }

    method SIsMember(key: string, member: string) returns (r: int)
      ensures r == SIsMemberReply(View(), key, member)
      ensures r == 1 <==> key in sets && member in sets[key]
    {
      r := if key in sets && member in sets[key] then 1 else 0;
    }

    /** expire records the deadline; the deletion its timer performs is Evict. */
    method Expire(key: string, seconds: int, now: int) returns (r: int)
      requires Valid()
      modifies this
      ensures Valid()
      ensures Reply(View(), r) == ExpireReply(old(View()), key, seconds, now)
    {
      r := 0;
      if key in keys || key in sets || key in queues {
        expirations := expirations[key := now + seconds * 1000];
        r := 1;
      }
    }

    method LPush(key: string, val: Value) returns (r: int)
      requires Valid()
      modifies this
      ensures Valid()
      ensures Reply(View(), r) == LPushReply(old(View()), key, val)
    {
      if key !in queues {
        queues := queues[key := []];
      }
      queues := queues[key := queues[key] + [val]];
      r := 1;
    }

    /** Each round is one DeleteKey, which keeps Valid(); DelKeepsDistinct is the same fact on Db. */
    method Del(ks: seq<string>) returns (count: int)
      requires Valid()
      modifies this
      ensures Valid()
      ensures Reply(View(), count) == DelReply(old(View()), ks)
    {
      ghost var goal := DelReply(View(), ks);
      count := 0;
      var i := 0;
      while i < |ks|
        invariant 0 <= i <= |ks|
        invariant Valid()
        invariant DelReply(View(), ks[i..]).db == goal.db
        invariant count + DelReply(View(), ks[i..]).value == goal.value
      {
        var key := ks[i];
        assert ks[i..][1..] == ks[i + 1..];
        var n := DeleteKey(key);
        count := count + n;
        i := i + 1;
      }
    }

    /** One round of del's loop. */
    method DeleteKey(key: string) returns (n: int)
      requires Valid()
      modifies this
      ensures Valid()
      ensures Reply(View(), n) == DelKeyReply(old(View()), key)
    {
      n := 0;
      if key in keys {
        keys := keys - {key};
        n := n + 1;
      } else {
        MinusAbsent(keys, key);
      }
      if key in queues {
        queues := queues - {key};
        n := n + 1;
      } else {
        MinusAbsent(queues, key);
      }
      if key in sets {
        sets := sets - {key};
        n := n + 1;
      } else {
        MinusAbsent(sets, key);
      }
      if key in expirations {
        expirations := expirations - {key};
      } else {
        MinusAbsent(expirations, key);
      }
    }

    method Incr(key: string) returns (r: int)
      requires Valid()
      modifies this
      ensures Valid()
      ensures Reply(View(), r) == IncrReply(old(View()), key)
    {
      // An absent key is first set to 0, which parseInt reads back as 0.
      ghost var before := View();
      var current := 0;
      if key in keys {
        current := NumberOrZero(keys[key]);
      }
      assert current + 1 == IncrValue(before, key);
      r := current + 1;
      keys := keys[key := Int(r)];
      assert View() == before.(keys := before.keys[key := Int(r)]);
    }

    method SMembers(key: string) returns (r: seq<string>)
      ensures r == SMembersReply(View(), key)
      ensures key !in sets ==> r == []
    {
      r := if key in sets then sets[key] else [];
    }

    /** The timer scheduled by expire firing: the key leaves every dictionary. */
    method Evict(key: string)
      requires Valid()
      modifies this
      ensures Valid()
      ensures View() == EvictDb(old(View()), key)
    {
      keys := keys - {key};
      sets := sets - {key};
      queues := queues - {key};
      expirations := expirations - {key};
    }
  }
}

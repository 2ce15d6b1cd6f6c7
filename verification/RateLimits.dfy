/** The receiver's flood guard, kept in memory and bounded by eviction. */
module RateLimits {
  import opened Common
  import opened Eviction

  // ----- One call -----

  datatype Limits = Limits(minInterval: real, maxEntries: nat)
  datatype Call = Call(key: Key, now: real, accepted: bool)

  ghost predicate Evicted(limits: Limits, m: map<Key, real>, key: Key, after: map<Key, real>) {
    if |m| >= limits.maxEntries && key !in m
    then exists s :: IsOldest(m, s, limits.maxEntries / 2) && after == m - s
    else after == m
  }

  /** What one call may do to the table of last accepted times. */
  ghost predicate Legal(limits: Limits, m: map<Key, real>, call: Call, after: map<Key, real>) {
    && (call.accepted <==> call.key !in m || call.now - m[call.key] >= limits.minInterval)
    && (!call.accepted ==> after == m)
    && (call.accepted ==> exists kept :: Evicted(limits, m, call.key, kept) && after == kept[call.key := call.now])
  }

  class RateLimiter {
    const limits: Limits
    var last: map<Key, real>

    constructor (minInterval: real, maxEntries: nat)
      ensures limits == Limits(minInterval, maxEntries) && last == map[]
    {
      limits := Limits(minInterval, maxEntries);
      last := map[];
    }

    method Allow(key: Key, now: real) returns (accepted: bool)
      modifies this
      ensures Legal(limits, old(last), Call(key, now, accepted), last)
    {
      if key in last && now - last[key] < limits.minInterval {
        return false;
      }
      if |last| >= limits.maxEntries && key !in last {
        var oldest := Oldest(last, limits.maxEntries / 2);
        last := last - oldest;
      }
      assert Evicted(limits, old(last), key, last);
      last := last[key := now];
      accepted := true;
    }
  }

  // ----- Histories -----

  ghost predicate LegalAt(limits: Limits, ms: seq<map<Key, real>>, calls: seq<Call>, i: nat)
    requires i < |calls| < |ms|
  {
    Legal(limits, ms[i], calls[i], ms[i + 1])
  }

  /** A limiter's tables ms around its calls, from an empty table, under a clock that never goes back. */
  ghost predicate History(limits: Limits, ms: seq<map<Key, real>>, calls: seq<Call>) {
    && |ms| == |calls| + 1
    && ms[0] == map[]
    && (forall i :: 0 <= i < |calls| ==> LegalAt(limits, ms, calls, i))
    && (forall i, j :: 0 <= i < j < |calls| ==> calls[i].now <= calls[j].now)
  }

  lemma EvictionKeepsSize(limits: Limits, m: map<Key, real>, key: Key, kept: map<Key, real>)
    requires limits.maxEntries >= 2 && |m| <= limits.maxEntries && Evicted(limits, m, key, kept)
    ensures key in kept || |kept| < limits.maxEntries
    ensures |kept| <= limits.maxEntries
  {
    if |m| >= limits.maxEntries && key !in m {
      var s :| IsOldest(m, s, limits.maxEntries / 2) && kept == m - s;
      assert kept.Keys == m.Keys - s;
      SubsetSize(s, m.Keys);
    }
  }

  lemma UpdatedSize(m: map<Key, real>, key: Key, now: real)
    ensures |m[key := now]| == if key in m then |m| else |m| + 1
  {
    assert m[key := now].Keys == m.Keys + {key};
  }

  lemma StepKeepsSize(limits: Limits, m: map<Key, real>, call: Call, after: map<Key, real>)
    requires limits.maxEntries >= 2 && |m| <= limits.maxEntries && Legal(limits, m, call, after)
    ensures |after| <= limits.maxEntries
  {
    if call.accepted {
      var kept :| Evicted(limits, m, call.key, kept) && after == kept[call.key := call.now];
      EvictionKeepsSize(limits, m, call.key, kept);
      UpdatedSize(kept, call.key, call.now);
    }
  }

  lemma {:induction false} SizeAt(limits: Limits, ms: seq<map<Key, real>>, calls: seq<Call>, n: nat)
    requires History(limits, ms, calls) && limits.maxEntries >= 2 && n < |ms|
    ensures |ms[n]| <= limits.maxEntries
  {
    if n == 0 {
    } else {
      SizeAt(limits, ms, calls, n - 1);
      assert LegalAt(limits, ms, calls, n - 1);
      StepKeepsSize(limits, ms[n - 1], calls[n - 1], ms[n]);
    }
  }

  ghost predicate Bounded(limits: Limits) {
    forall ms, calls :: History(limits, ms, calls) ==> forall n :: 0 <= n < |ms| ==> |ms[n]| <= limits.maxEntries
  }

  lemma Accepting(limits: Limits, m: map<Key, real>, s: set<Key>, key: Key, now: real)
    requires key !in m
    requires if |m| >= limits.maxEntries then IsOldest(m, s, limits.maxEntries / 2) else s == {}
    ensures Legal(limits, m, Call(key, now, true), (m - s)[key := now])
  {
    assert m - {} == m;
    assert Evicted(limits, m, key, m - s);
  }

  lemma OneByOne(limits: Limits, key: Key, other: Key)
    requires key != other && limits.maxEntries < 2
    ensures Legal(limits, map[], Call(key, 0.0, true), map[key := 0.0])
    ensures Legal(limits, map[key := 0.0], Call(other, 0.0, true), map[key := 0.0, other := 0.0])
  {
    var m0: map<Key, real> := map[];
    var m1: map<Key, real> := map[key := 0.0];
    assert m0 - {} == m0 && m1 - {} == m1;
    Accepting(limits, m0, {}, key, 0.0);
    Accepting(limits, m1, {}, other, 0.0);
  }

  lemma TwoSteps(limits: Limits, m1: map<Key, real>, m2: map<Key, real>, c0: Call, c1: Call)
    requires Legal(limits, map[], c0, m1) && Legal(limits, m1, c1, m2) && c0.now <= c1.now
    ensures History(limits, [map[], m1, m2], [c0, c1])
  {
    var (ms, calls) := ([map[], m1, m2], [c0, c1]);
    assert LegalAt(limits, ms, calls, 0) && LegalAt(limits, ms, calls, 1);
  }

  /** With a limit of 0 or 1 half of it rounds down to nothing and the table outgrows it. */
  lemma SmallLimitOverflows(limits: Limits)
    requires limits.maxEntries < 2
    ensures !Bounded(limits)
  {
    OneByOne(limits, "a", "b");
    var (m1, m2) := (map["a" := 0.0], map["a" := 0.0, "b" := 0.0]);
    assert m2.Keys == {"a", "b"};
    TwoSteps(limits, m1, m2, Call("a", 0.0, true), Call("b", 0.0, true));
    assert [map[], m1, m2][2] == m2;
  }

  /** The table never outgrows its limit, exactly when the limit is at least two. */
  lemma BoundedExactly(limits: Limits)
    ensures Bounded(limits) <==> limits.maxEntries >= 2
  {
    if limits.maxEntries >= 2 {
      forall ms, calls, n | History(limits, ms, calls) && 0 <= n < |ms| ensures |ms[n]| <= limits.maxEntries {
        SizeAt(limits, ms, calls, n);
      }
    } else {
      SmallLimitOverflows(limits);
    }
  }

  // ----- Spacing -----

  /** Keys with an accepted call in the closed span from one time to another. */
  function AcceptedKeys(calls: seq<Call>, from: real, to: real): set<Key> {
    set i | 0 <= i < |calls| && calls[i].accepted && from <= calls[i].now <= to :: calls[i].key
  }

  /** In every span shorter than the interval at most c other keys are accepted. */
  ghost predicate AtMost(limits: Limits, calls: seq<Call>, key: Key, c: int) {
    forall from, to :: from <= to < from + limits.minInterval ==> |AcceptedKeys(calls, from, to) - {key}| <= c
  }

  /** What is left of a full table after an eviction. */
  function Half(limits: Limits): int { limits.maxEntries - limits.maxEntries / 2 }

  /** No key is evicted before its interval has passed: none ever is, or the table is not crowded. */
  ghost predicate Safe(limits: Limits, calls: seq<Call>, key: Key) {
    limits.maxEntries < 2 || AtMost(limits, calls, key, Half(limits))
  }

  predicate Witnessed(calls: seq<Call>, n: nat, key: Key, at: real) {
    exists i :: 0 <= i < n <= |calls| && calls[i] == Call(key, at, true)
  }

  /** Every stored time is that of an accepted call. */
  lemma {:induction false} StoredIsAccepted(limits: Limits, ms: seq<map<Key, real>>, calls: seq<Call>, n: nat)
    requires History(limits, ms, calls) && n < |ms|
    ensures forall k <- ms[n] :: Witnessed(calls, n, k, ms[n][k])
  {
    if n == 0 {
    } else {
      StoredIsAccepted(limits, ms, calls, n - 1);
      assert LegalAt(limits, ms, calls, n - 1);
      var (m, call) := (ms[n - 1], calls[n - 1]);
      forall k | k in ms[n] ensures Witnessed(calls, n, k, ms[n][k]) {
        if call.accepted && k == call.key {
          assert calls[n - 1] == Call(k, ms[n][k], true);
        } else {
          StillStored(limits, m, call, ms[n], k);
          var i :| 0 <= i < n - 1 <= |calls| && calls[i] == Call(k, m[k], true);
          assert calls[i] == Call(k, ms[n][k], true);
        }
      }
    }
  }

  lemma StillStored(limits: Limits, m: map<Key, real>, call: Call, after: map<Key, real>, k: Key)
    requires Legal(limits, m, call, after) && k in after && !(call.accepted && k == call.key)
    ensures k in m && after[k] == m[k]
  {
    if call.accepted {
      var kept :| Evicted(limits, m, call.key, kept) && after == kept[call.key := call.now];
    }
  }

  /** Whatever evicts a key leaves at least half the table, all of it at least as recent. */
  lemma Survivors(limits: Limits, m: map<Key, real>, call: Call, after: map<Key, real>, key: Key)
      returns (others: set<Key>)
    requires Legal(limits, m, call, after) && call.accepted && key in m && key !in after
    ensures others <= m.Keys - {key} && call.key !in others
    ensures |others| >= Half(limits)
    ensures forall k <- others :: m[k] >= m[key]
  {
    var kept :| Evicted(limits, m, call.key, kept) && after == kept[call.key := call.now];
    var s :| IsOldest(m, s, limits.maxEntries / 2) && kept == m - s;
    others := m.Keys - s;
    SubsetSize(s, m.Keys);
  }

  lemma AcceptedSince(calls: seq<Call>, n: nat, key: Key, at: real, since: real)
    requires n < |calls| && Witnessed(calls, n, key, at) && since <= at
    requires forall i, j :: 0 <= i < j < |calls| ==> calls[i].now <= calls[j].now
    ensures key in AcceptedKeys(calls, since, calls[n].now) && at <= calls[n].now
  {
    var i :| 0 <= i < n <= |calls| && calls[i] == Call(key, at, true);
    assert calls[i].now <= calls[n].now;
    assert calls[i].key in AcceptedKeys(calls, since, calls[n].now);
  }

  /** A key evicted before its interval has passed was crowded out by others accepted since. */
  lemma EvictedIsCrowded(limits: Limits, ms: seq<map<Key, real>>, calls: seq<Call>, n: nat, key: Key)
    requires History(limits, ms, calls) && n < |calls| && calls[n].accepted
    requires key in ms[n] && key !in ms[n + 1]
    ensures ms[n][key] <= calls[n].now
    ensures |AcceptedKeys(calls, ms[n][key], calls[n].now) - {key}| > Half(limits)
  {
    assert LegalAt(limits, ms, calls, n);
    var (m, call) := (ms[n], calls[n]);
    var others := Survivors(limits, m, call, ms[n + 1], key);
    StoredIsAccepted(limits, ms, calls, n);
    AcceptedSince(calls, n, key, m[key], m[key]);
    var crowd := AcceptedKeys(calls, m[key], call.now) - {key};
    forall k | k in others ensures k in crowd {
      AcceptedSince(calls, n, k, m[k], m[key]);
    }
    assert call.key in crowd;
    SubsetSize(others + {call.key}, crowd);
  }

  lemma AcceptedIsStored(limits: Limits, m: map<Key, real>, call: Call, after: map<Key, real>)
    requires Legal(limits, m, call, after) && call.accepted
    ensures call.key in after && after[call.key] == call.now
  {
  }

  /** Half of 0 or 1 is nothing: such a table evicts no key. */
  lemma NotEvicted(limits: Limits, m: map<Key, real>, call: Call, after: map<Key, real>, key: Key)
    requires Legal(limits, m, call, after) && key in m && key !in after
    ensures limits.maxEntries >= 2
  {
    var kept :| Evicted(limits, m, call.key, kept) && after == kept[call.key := call.now];
    var s :| IsOldest(m, s, limits.maxEntries / 2) && kept == m - s;
    assert key in s;
  }

  lemma KeptOneMore(limits: Limits, ms: seq<map<Key, real>>, calls: seq<Call>, n: nat, key: Key)
    requires History(limits, ms, calls) && n < |calls| && Safe(limits, calls, key)
    requires key in ms[n] && calls[n].now < ms[n][key] + limits.minInterval
    ensures key in ms[n + 1] && ms[n + 1][key] == ms[n][key]
  {
    var call := calls[n];
    assert LegalAt(limits, ms, calls, n);
    if call.accepted {
      if key !in ms[n + 1] {
        NotEvicted(limits, ms[n], call, ms[n + 1], key);
        EvictedIsCrowded(limits, ms, calls, n, key);
        assert false;
      }
      StillStored(limits, ms[n], call, ms[n + 1], key);
    }
  }

  /** Until the interval has passed, an accepted key stays stored and all its calls are refused. */
  lemma {:induction false} KeptUntilDue(limits: Limits, ms: seq<map<Key, real>>, calls: seq<Call>, i: nat, n: nat)
    requires History(limits, ms, calls) && i < n <= |calls| && calls[i].accepted
    requires Safe(limits, calls, calls[i].key)
    requires calls[n - 1].now < calls[i].now + limits.minInterval
    ensures calls[i].key in ms[n] && ms[n][calls[i].key] == calls[i].now
  {
    if n == i + 1 {
      assert LegalAt(limits, ms, calls, i);
      AcceptedIsStored(limits, ms[i], calls[i], ms[n]);
    } else {
      assert calls[n - 2].now <= calls[n - 1].now;
      KeptUntilDue(limits, ms, calls, i, n - 1);
      KeptOneMore(limits, ms, calls, n - 1, calls[i].key);
    }
  }

  /** Two accepted calls of one key lie at least the interval apart, as long as the table is not crowded. */
  lemma AcceptedCallsAreSpaced(limits: Limits, ms: seq<map<Key, real>>, calls: seq<Call>, i: nat, j: nat)
    requires History(limits, ms, calls) && i < j < |calls|
    requires calls[i].accepted && calls[j].accepted && calls[i].key == calls[j].key
    requires Safe(limits, calls, calls[i].key)
    ensures calls[j].now - calls[i].now >= limits.minInterval
  {
    assert LegalAt(limits, ms, calls, j);
    if calls[j].now - calls[i].now < limits.minInterval {
      assert j - 1 > i ==> calls[j - 1].now <= calls[j].now;
      assert calls[i].now <= calls[j].now;
      KeptUntilDue(limits, ms, calls, i, j);
    }
  }

  /** Some call of the key less than the interval ago was accepted. */
  ghost predicate JustAccepted(limits: Limits, calls: seq<Call>, n: nat)
    requires n < |calls|
  {
    exists i :: 0 <= i < n && calls[i].accepted && calls[i].key == calls[n].key
                && calls[n].now - calls[i].now < limits.minInterval
  }

  /** A call is refused only when one of the key was accepted less than the interval ago. */
  lemma RefusedAfterAccepted(limits: Limits, ms: seq<map<Key, real>>, calls: seq<Call>, n: nat)
    requires History(limits, ms, calls) && n < |calls| && !calls[n].accepted
    ensures JustAccepted(limits, calls, n)
  {
    assert LegalAt(limits, ms, calls, n);
    StoredIsAccepted(limits, ms, calls, n);
    var key := calls[n].key;
    var i :| 0 <= i < n <= |calls| && calls[i] == Call(key, ms[n][key], true);
    assert calls[i].accepted && calls[n].now - calls[i].now < limits.minInterval;
  }

  /** So as long as the table is not crowded the answer to any call is told by the accepted calls before it. */
  lemma AcceptedExactly(limits: Limits, ms: seq<map<Key, real>>, calls: seq<Call>, n: nat)
    requires History(limits, ms, calls) && n < |calls| && Safe(limits, calls, calls[n].key)
    ensures calls[n].accepted <==> !JustAccepted(limits, calls, n)
  {
    if !calls[n].accepted {
      RefusedAfterAccepted(limits, ms, calls, n);
    } else if JustAccepted(limits, calls, n) {
      var i :| 0 <= i < n && calls[i].accepted && calls[i].key == calls[n].key
               && calls[n].now - calls[i].now < limits.minInterval;
      AcceptedCallsAreSpaced(limits, ms, calls, i, n);
    }
  }

  lemma NewKeyIsAccepted(limits: Limits, m: map<Key, real>, key: Key, now: real) returns (after: map<Key, real>)
    requires key !in m
    ensures Legal(limits, m, Call(key, now, true), after)
  {
    var s := {};
    if |m| >= limits.maxEntries {
      s := OldestExists(m, {}, limits.maxEntries / 2);
    }
    Accepting(limits, m, s, key, now);
    after := (m - s)[key := now];
  }

  // ----- How crowded is too crowded -----

  /** Two accepted calls of a key closer than the interval, with at most c other keys in any shorter span. */
  ghost predicate TooClose(limits: Limits, calls: seq<Call>, i: nat, j: nat, c: int) {
    && i < j < |calls|
    && calls[i].accepted && calls[j].accepted && calls[i].key == calls[j].key
    && AtMost(limits, calls, calls[i].key, c)
    && calls[j].now - calls[i].now < limits.minInterval
  }

  /** Every history with at most c other keys in any shorter span keeps the interval. */
  ghost predicate Spaced(limits: Limits, c: int) {
    forall ms: seq<map<Key, real>>, calls: seq<Call>, i: nat, j: nat ::
      History(limits, ms, calls) ==> !TooClose(limits, calls, i, j, c)
  }

  /** In a full table a key with fewer than half the entries before it may be evicted by the next new key,
      and is then accepted again without any wait. */
  lemma EvictedAndBack(limits: Limits, m: map<Key, real>, key: Key, other: Key, now: real)
      returns (after: map<Key, real>, again: map<Key, real>)
    requires |m| >= limits.maxEntries && key in m && other !in m
    requires |set j | j in m && m[j] < m[key]| < limits.maxEntries / 2
    ensures Legal(limits, m, Call(other, now, true), after)
    ensures Legal(limits, after, Call(key, now, true), again)
  {
    var older := set j | j in m && m[j] < m[key];
    var s := OldestExists(m, older + {key}, limits.maxEntries / 2);
    Accepting(limits, m, s, other, now);
    after := (m - s)[other := now];
    again := NewKeyIsAccepted(limits, after, key, now);
  }

  /** One less than half the keys come first, the others an interval later. */
  function Elders(limits: Limits): int { limits.maxEntries / 2 - 1 }

  function CalledAt(limits: Limits, i: nat): real { if i < Elders(limits) then 0.0 else limits.minInterval }

  /** The table after the first i names. */
  function Table(limits: Limits, i: nat): map<Key, real> {
    if i == 0 then map[] else Table(limits, i - 1)[Name(i - 1) := CalledAt(limits, i - 1)]
  }

  lemma {:induction false} TableAt(limits: Limits, i: nat, k: Key)
    ensures k in Table(limits, i) <==> |k| < i && k == Name(|k|)
    ensures k in Table(limits, i) ==> Table(limits, i)[k] == CalledAt(limits, |k|)
  {
    if i == 0 {
    } else {
      TableAt(limits, i - 1, k);
    }
  }

  lemma {:induction false} TableSize(limits: Limits, i: nat)
    ensures |Table(limits, i)| == i
  {
    if i == 0 {
    } else {
      TableSize(limits, i - 1);
      TableAt(limits, i - 1, Name(i - 1));
      UpdatedSize(Table(limits, i - 1), Name(i - 1), CalledAt(limits, i - 1));
    }
  }

  /** All names up to the limit, one more, and then the first of the later ones again. */
  function Crush(limits: Limits): seq<Call>
    requires limits.maxEntries >= 2
  {
    seq(limits.maxEntries + 1, (n: nat) => Call(Name(n), CalledAt(limits, n), true))
    + [Call(Name(Elders(limits)), limits.minInterval, true)]
  }

  function Tables(limits: Limits): seq<map<Key, real>> { seq(limits.maxEntries + 1, (n: nat) => Table(limits, n)) }

  lemma EldersAreFew(limits: Limits)
    requires limits.maxEntries >= 2 && limits.minInterval > 0.0
    ensures var (m, key) := (Table(limits, limits.maxEntries), Name(Elders(limits)));
      key in m && |set j | j in m && m[j] < m[key]| < limits.maxEntries / 2
  {
    var (m, key) := (Table(limits, limits.maxEntries), Name(Elders(limits)));
    TableAt(limits, limits.maxEntries, key);
    var older := set j | j in m && m[j] < m[key];
    forall j | j in older ensures j in Names(0, Elders(limits)) {
      TableAt(limits, limits.maxEntries, j);
    }
    NamesCount(0, Elders(limits));
    SubsetSize(older, Names(0, Elders(limits)));
  }

  lemma FillLegal(limits: Limits, n: nat)
    requires n < limits.maxEntries
    ensures Legal(limits, Table(limits, n), Call(Name(n), CalledAt(limits, n), true), Table(limits, n + 1))
  {
    TableAt(limits, n, Name(n));
    TableSize(limits, n);
    Accepting(limits, Table(limits, n), {}, Name(n), CalledAt(limits, n));
    assert Table(limits, n) - {} == Table(limits, n);
  }

  lemma CrushIsClocked(limits: Limits)
    requires limits.maxEntries >= 2 && limits.minInterval > 0.0
    ensures var calls := Crush(limits); forall i, j :: 0 <= i < j < |calls| ==> calls[i].now <= calls[j].now
  {
  }

  lemma FullTable(limits: Limits) returns (after: map<Key, real>, again: map<Key, real>)
    requires limits.maxEntries >= 2 && limits.minInterval > 0.0
    ensures Legal(limits, Table(limits, limits.maxEntries),
                  Call(Name(limits.maxEntries), limits.minInterval, true), after)
    ensures Legal(limits, after, Call(Name(Elders(limits)), limits.minInterval, true), again)
  {
    var max := limits.maxEntries;
    TableSize(limits, max);
    TableAt(limits, max, Name(max));
    EldersAreFew(limits);
    after, again := EvictedAndBack(limits, Table(limits, max), Name(Elders(limits)), Name(max), limits.minInterval);
  }

  lemma LegalThere(limits: Limits, ms: seq<map<Key, real>>, calls: seq<Call>, i: nat,
                   m: map<Key, real>, call: Call, after: map<Key, real>)
    requires i < |calls| < |ms| && ms[i] == m && calls[i] == call && ms[i + 1] == after
    requires Legal(limits, m, call, after)
    ensures LegalAt(limits, ms, calls, i)
  {
  }

  lemma CrushLegal(limits: Limits, ms: seq<map<Key, real>>, after: map<Key, real>, again: map<Key, real>, i: nat)
    requires limits.maxEntries >= 2 && i < |Crush(limits)| && ms == Tables(limits) + [after, again]
    requires Legal(limits, Table(limits, limits.maxEntries),
                   Call(Name(limits.maxEntries), limits.minInterval, true), after)
    requires Legal(limits, after, Call(Name(Elders(limits)), limits.minInterval, true), again)
    ensures LegalAt(limits, ms, Crush(limits), i)
  {
    var (max, calls) := (limits.maxEntries, Crush(limits));
    if i < max {
      FillLegal(limits, i);
      var call := Call(Name(i), CalledAt(limits, i), true);
      LegalThere(limits, ms, calls, i, Table(limits, i), call, Table(limits, i + 1));
    } else if i == max {
      LegalThere(limits, ms, calls, i, Table(limits, max), Call(Name(max), limits.minInterval, true), after);
    } else {
      LegalThere(limits, ms, calls, i, after, Call(Name(Elders(limits)), limits.minInterval, true), again);
    }
  }

  lemma CrushHistory(limits: Limits) returns (ms: seq<map<Key, real>>)
    requires limits.maxEntries >= 2 && limits.minInterval > 0.0
    ensures History(limits, ms, Crush(limits))
  {
    var after, again := FullTable(limits);
    ms := Tables(limits) + [after, again];
    CrushIsClocked(limits);
    forall i | 0 <= i < |Crush(limits)| ensures LegalAt(limits, ms, Crush(limits), i) {
      CrushLegal(limits, ms, after, again, i);
    }
  }

  /** In no span shorter than the interval are more other keys accepted than one over half the table. */
  lemma CrushIsJustTooMuch(limits: Limits)
    requires limits.maxEntries >= 2 && limits.minInterval > 0.0
    ensures AtMost(limits, Crush(limits), Name(Elders(limits)), Half(limits) + 1)
  {
    forall from, to | from <= to < from + limits.minInterval
      ensures |AcceptedKeys(Crush(limits), from, to) - {Name(Elders(limits))}| <= Half(limits) + 1
    {
      CrowdBetween(limits, from, to);
    }
  }

  lemma CrowdBetween(limits: Limits, from: real, to: real)
    requires limits.maxEntries >= 2 && limits.minInterval > 0.0 && from <= to < from + limits.minInterval
    ensures |AcceptedKeys(Crush(limits), from, to) - {Name(Elders(limits))}| <= Half(limits) + 1
  {
    CrushedBetween(limits, from, to);
    FewNames(limits, AcceptedKeys(Crush(limits), from, to) - {Name(Elders(limits))}, from <= 0.0);
  }

  lemma FewNames(limits: Limits, names: set<Key>, early: bool)
    requires limits.maxEntries >= 2
    requires names <= if early then Names(0, Elders(limits)) else Names(Elders(limits) + 1, limits.maxEntries + 1)
    ensures |names| <= Half(limits) + 1
  {
    var (a, b) := if early then (0, Elders(limits)) else (Elders(limits) + 1, limits.maxEntries + 1);
    NamesCount(a, b);
    SubsetSize(names, Names(a, b));
  }

  lemma CrushedBetween(limits: Limits, from: real, to: real)
    requires limits.maxEntries >= 2 && limits.minInterval > 0.0 && from <= to < from + limits.minInterval
    ensures AcceptedKeys(Crush(limits), from, to) - {Name(Elders(limits))}
      <= if from <= 0.0 then Names(0, Elders(limits)) else Names(Elders(limits) + 1, limits.maxEntries + 1)
  {
  }

  lemma NotSpaced(limits: Limits, c: int)
    requires limits.maxEntries >= 2 && limits.minInterval > 0.0 && c > Half(limits)
    ensures !Spaced(limits, c)
  {
    var (h, calls) := (Elders(limits), Crush(limits));
    var ms := CrushHistory(limits);
    CrushIsJustTooMuch(limits);
    assert TooClose(limits, calls, h, limits.maxEntries + 1, c);
  }

  /** The interval is kept in all histories with at most c other keys in any shorter span, if and only if c
      is at most what an eviction leaves of a full table, or the table is too small to evict anything, or
      there is nothing to wait for. */
  lemma SpacedExactly(limits: Limits, c: int)
    ensures Spaced(limits, c) <==> limits.minInterval <= 0.0 || limits.maxEntries < 2 || c <= Half(limits)
  {
    if limits.minInterval <= 0.0 || limits.maxEntries < 2 || c <= Half(limits) {
      forall ms: seq<map<Key, real>>, calls: seq<Call>, i: nat, j: nat | History(limits, ms, calls)
        ensures !TooClose(limits, calls, i, j, c)
      {
        if i < j < |calls| && limits.minInterval <= 0.0 {
          assert calls[i].now <= calls[j].now;
        } else if TooClose(limits, calls, i, j, c) {
          AcceptedCallsAreSpaced(limits, ms, calls, i, j);
        }
      }
    } else {
      NotSpaced(limits, c);
    }
  }
}

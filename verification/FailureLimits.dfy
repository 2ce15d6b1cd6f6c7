/** The sliding-window throttle on wrong one-time codes, and the device check that drives it. */
module FailureLimits {
  import opened Common
  import opened Eviction

  type Fails = map<Key, seq<real>>

  datatype Throttle = Throttle(maxFailures: nat, window: real, maxEntries: nat)

  function Get(m: Fails, key: Key): seq<real> { if key in m then m[key] else [] }

  /** The failures still inside the window. */
  function Fresh(s: seq<real>, now: real, window: real): seq<real> { Filter(s, t => now - t < window) }

  function Pruned(m: Fails, key: Key, now: real, window: real): Fails {
    var recent := Fresh(Get(m, key), now, window);
    if recent != [] then m[key := recent] else m - {key}
  }

  function PrunedAll(m: Fails, now: real, window: real): Fails {
    map k | k in m && Fresh(m[k], now, window) != [] :: Fresh(m[k], now, window)
  }

  /** All keys pruned but some. */
  function PartlyPruned(m: Fails, rest: set<Key>, now: real, window: real): Fails {
    map k | k in m && (k in rest || Fresh(m[k], now, window) != []) ::
      if k in rest then m[k] else Fresh(m[k], now, window)
  }

  lemma PruneOneMore(m: Fails, rest: set<Key>, k: Key, now: real, window: real)
    requires k in rest && rest <= m.Keys
    ensures Pruned(PartlyPruned(m, rest, now, window), k, now, window) == PartlyPruned(m, rest - {k}, now, window)
  {
  }

  predicate NoneEmpty(m: Fails) { forall k <- m :: m[k] != [] }

  /** The latest failure of every key; an empty list would make the program raise here. */
  function Latest(m: Fails): map<Key, real>
    requires NoneEmpty(m)
  {
    map k | k in m :: m[k][|m[k]| - 1]
  }

  ghost predicate MadeRoom(limits: Throttle, m: Fails, key: Key, now: real, kept: Fails) {
    if |m| >= limits.maxEntries && key !in m then
      var recent := PrunedAll(m, now, limits.window);
      if |recent| >= limits.maxEntries
      then exists s :: IsOldest(Latest(recent), s, limits.maxEntries / 2) && kept == recent - s
      else kept == recent
    else kept == m
  }

  function Appended(m: Fails, key: Key, now: real, window: real): Fails {
    var pruned := Pruned(m, key, now, window);
    pruned[key := Get(pruned, key) + [now]]
  }

  datatype Step =
    | Ask(key: Key, now: real, blocked: bool)
    | Fail(key: Key, now: real)

  ghost predicate Legal(limits: Throttle, m: Fails, step: Step, after: Fails) {
    match step
    case Ask(key, now, blocked) =>
      && blocked == (|Fresh(Get(m, key), now, limits.window)| >= limits.maxFailures)
      && after == Pruned(m, key, now, limits.window)
    case Fail(key, now) =>
      exists kept :: MadeRoom(limits, m, key, now, kept) && after == Appended(kept, key, now, limits.window)
  }

  datatype Outcome = Suspended | SecretUnreadable | CodeMissing | CodeWrong | Accepted

  class FailureThrottle {
    const limits: Throttle
    var fails: Fails

    constructor (maxFailures: nat, window: real, maxEntries: nat)
      ensures limits == Throttle(maxFailures, window, maxEntries) && fails == map[]
    {
      limits := Throttle(maxFailures, window, maxEntries);
      fails := map[];
    }

    method Recent(key: Key, now: real) returns (recent: seq<real>)
      modifies this
      ensures recent == Fresh(Get(old(fails), key), now, limits.window)
      ensures fails == Pruned(old(fails), key, now, limits.window)
    {
      recent := Fresh(if key in fails then fails[key] else [], now, limits.window);
      if recent != [] {
        fails := fails[key := recent];
      } else {
        fails := fails - {key};
      }
    }

    method IsBlocked(key: Key, now: real) returns (blocked: bool)
      modifies this
      ensures Legal(limits, old(fails), Ask(key, now, blocked), fails)
    {
      var recent := Recent(key, now);
      blocked := |recent| >= limits.maxFailures;
    }

    method DropStale(now: real)
      modifies this
      ensures fails == PrunedAll(old(fails), now, limits.window)
    {
      var (all, rest) := (fails, fails.Keys);
      while rest != {}
        invariant rest <= fails.Keys && fails == PartlyPruned(all, rest, now, limits.window)
        decreases |rest|
      {
        var k :| k in rest;
        PruneOneMore(all, rest, k, now, limits.window);
        var _ := Recent(k, now);
        rest := rest - {k};
      }
    }

    method RecordFailure(key: Key, now: real)
      modifies this
      ensures Legal(limits, old(fails), Fail(key, now), fails)
    {
      if |fails| >= limits.maxEntries && key !in fails {
        DropStale(now);
        if |fails| >= limits.maxEntries {
          var oldest := Oldest(Latest(fails), limits.maxEntries / 2);
          fails := fails - oldest;
        }
      }
      ghost var kept := fails;
      assert MadeRoom(limits, old(fails), key, now, kept);
      var recent := Recent(key, now);
      fails := fails[key := (if key in fails then fails[key] else []) + [now]];
    }

    /** A device with a secret: the throttle is asked first, and only a wrong code counts against it. */
    method Authenticate(key: Key, now: real, readable: bool, hasCode: bool, matches: bool) returns (outcome: Outcome)
      modifies this
      ensures var blocked := |Fresh(Get(old(fails), key), now, limits.window)| >= limits.maxFailures;
        outcome == if blocked then Suspended else if !readable then SecretUnreadable
                   else if !hasCode then CodeMissing else if !matches then CodeWrong else Accepted
      ensures exists asked ::
        && Legal(limits, old(fails), Ask(key, now, outcome.Suspended?), asked)
        && if outcome.CodeWrong? then Legal(limits, asked, Fail(key, now), fails) else fails == asked
    {
      var blocked := IsBlocked(key, now);
      ghost var asked := fails;
      if blocked {
        outcome := Suspended;
      } else if !readable {
        outcome := SecretUnreadable;
      } else if !hasCode {
        outcome := CodeMissing;
      } else if !matches {
        RecordFailure(key, now);
        outcome := CodeWrong;
      } else {
        outcome := Accepted;
      }
      assert Legal(limits, old(fails), Ask(key, now, outcome.Suspended?), asked);
    }
  }

  // ----- Histories -----

  ghost predicate LegalAt(limits: Throttle, ms: seq<Fails>, steps: seq<Step>, i: nat)
    requires i < |steps| < |ms|
  {
    Legal(limits, ms[i], steps[i], ms[i + 1])
  }

  /** A throttle's tables ms around its calls, from an empty table, under a clock that never goes back. */
  ghost predicate History(limits: Throttle, ms: seq<Fails>, steps: seq<Step>) {
    && |ms| == |steps| + 1
    && ms[0] == map[]
    && (forall i :: 0 <= i < |steps| ==> LegalAt(limits, ms, steps, i))
    && (forall i, j :: 0 <= i < j < |steps| ==> steps[i].now <= steps[j].now)
  }

  /** Every failure of a key ever recorded. */
  function FailuresOf(steps: seq<Step>, key: Key): seq<real> {
    if steps == [] then [] else
      var last := steps[|steps| - 1];
      FailuresOf(steps[..|steps| - 1], key) + if last.Fail? && last.key == key then [last.now] else []
  }

  lemma FailuresAppend(steps: seq<Step>, step: Step, key: Key)
    ensures FailuresOf(steps + [step], key)
      == if step.Fail? && step.key == key then FailuresOf(steps, key) + [step.now] else FailuresOf(steps, key)
  {
    assert (steps + [step])[..|steps|] == steps;
    assert FailuresOf(steps, key) + [] == FailuresOf(steps, key);
  }

  /** The keys with a failure inside the window. */
  ghost function Live(limits: Throttle, steps: seq<Step>, now: real): set<Key> {
    set s <- steps | s.Fail? && now - s.now < limits.window :: s.key
  }

  /** Recording a failure of the key need not evict a live one: half of 0 or 1 is nothing, or the key has live
      ones already, or few keys do. */
  ghost predicate Roomy(limits: Throttle, key: Key, live: set<Key>) {
    limits.maxEntries < 2 || key in live || |live| < limits.maxEntries
  }

  ghost predicate QuietAt(limits: Throttle, steps: seq<Step>, n: nat)
    requires n < |steps|
  {
    steps[n].Fail? ==> Roomy(limits, steps[n].key, Live(limits, steps[..n], steps[n].now))
  }

  ghost predicate Quiet(limits: Throttle, steps: seq<Step>) {
    forall n :: 0 <= n < |steps| ==> QuietAt(limits, steps, n)
  }

  lemma {:induction false} NoStoredListIsEmpty(limits: Throttle, ms: seq<Fails>, steps: seq<Step>, n: nat)
    requires History(limits, ms, steps) && n < |ms|
    ensures NoneEmpty(ms[n])
  {
    if n == 0 {
    } else {
      NoStoredListIsEmpty(limits, ms, steps, n - 1);
      assert LegalAt(limits, ms, steps, n - 1);
      StepKeepsNoneEmpty(limits, ms[n - 1], steps[n - 1], ms[n]);
    }
  }

  lemma MadeRoomNoneEmpty(limits: Throttle, m: Fails, key: Key, now: real, kept: Fails)
    requires NoneEmpty(m) && MadeRoom(limits, m, key, now, kept)
    ensures NoneEmpty(kept)
  {
  }

  lemma PrunedNoneEmpty(m: Fails, key: Key, now: real, window: real)
    requires NoneEmpty(m)
    ensures NoneEmpty(Pruned(m, key, now, window))
  {
  }

  lemma AppendedNoneEmpty(m: Fails, key: Key, now: real, window: real)
    requires NoneEmpty(m)
    ensures NoneEmpty(Appended(m, key, now, window))
  {
    PrunedNoneEmpty(m, key, now, window);
  }

  lemma StepKeepsNoneEmpty(limits: Throttle, m: Fails, step: Step, after: Fails)
    requires NoneEmpty(m) && Legal(limits, m, step, after)
    ensures NoneEmpty(after)
  {
    match step
    case Ask(key, now, _) => PrunedNoneEmpty(m, key, now, limits.window);
    case Fail(key, now) =>
      var kept :| MadeRoom(limits, m, key, now, kept) && after == Appended(kept, key, now, limits.window);
      MadeRoomNoneEmpty(limits, m, key, now, kept);
      AppendedNoneEmpty(kept, key, now, limits.window);
  }

  lemma FirstFailure(m: Fails, key: Key, now: real, window: real)
    requires key !in m
    ensures Appended(m, key, now, window) == m[key := [now]]
  {
    assert Fresh([], now, window) == [] && m - {key} == m && [] + [now] == [now];
  }

  lemma HalfGone(limits: Throttle, m: Fails, key: Key, now: real, kept: Fails) returns (gone: set<Key>)
    requires NoneEmpty(m) && MadeRoom(limits, m, key, now, kept) && key !in m
    requires |m| >= limits.maxEntries && PrunedAll(m, now, limits.window) == m
    ensures gone <= m.Keys && |gone| == limits.maxEntries / 2 && kept == m - gone
    ensures forall k, j :: k in gone && j in m.Keys - gone ==> m[k][|m[k]| - 1] <= m[j][|m[j]| - 1]
  {
    gone :| IsOldest(Latest(m), gone, limits.maxEntries / 2) && kept == m - gone;
    assert Latest(m).Keys == m.Keys;
    forall k, j | k in gone && j in m.Keys - gone ensures m[k][|m[k]| - 1] <= m[j][|m[j]| - 1] {
      assert Latest(m)[k] <= Latest(m)[j];
    }
  }

  /** A new key in a table full of fresh failures: half of the limit of keys are evicted, none of them with a later
      last failure than a key that stays; the others keep their failures, and the new key has this one. */
  lemma HalfIsEvicted(limits: Throttle, m: Fails, key: Key, now: real, after: Fails) returns (gone: set<Key>)
    requires NoneEmpty(m) && Legal(limits, m, Fail(key, now), after) && key !in m
    requires |m| >= limits.maxEntries && PrunedAll(m, now, limits.window) == m
    ensures gone <= m.Keys && |gone| == limits.maxEntries / 2 && after == (m - gone)[key := [now]]
    ensures forall k, j :: k in gone && j in m.Keys - gone ==> m[k][|m[k]| - 1] <= m[j][|m[j]| - 1]
  {
    var kept :| MadeRoom(limits, m, key, now, kept) && after == Appended(kept, key, now, limits.window);
    gone := HalfGone(limits, m, key, now, kept);
    FirstFailure(kept, key, now, limits.window);
  }

  // ----- Size -----

  lemma PrunedSize(m: Fails, key: Key, now: real, window: real)
    ensures |Pruned(m, key, now, window)| <= |m|
    ensures |Appended(m, key, now, window)| == if key in m then |m| else |m| + 1
  {
    var pruned := Pruned(m, key, now, window);
    var appended := Appended(m, key, now, window);
    assert appended.Keys == m.Keys + {key};
    SubsetSize(pruned.Keys, m.Keys);
  }

  lemma PrunedAllSize(m: Fails, now: real, window: real)
    ensures |PrunedAll(m, now, window)| <= |m|
  {
    SubsetSize(PrunedAll(m, now, window).Keys, m.Keys);
  }

  lemma MadeRoomSize(limits: Throttle, m: Fails, key: Key, now: real, kept: Fails)
    requires limits.maxEntries >= 2 && |m| <= limits.maxEntries && MadeRoom(limits, m, key, now, kept)
    ensures |kept| <= limits.maxEntries && (key in kept || |kept| < limits.maxEntries)
  {
    if |m| >= limits.maxEntries && key !in m {
      var recent := PrunedAll(m, now, limits.window);
      PrunedAllSize(m, now, limits.window);
      if |recent| >= limits.maxEntries {
        var s :| IsOldest(Latest(recent), s, limits.maxEntries / 2) && kept == recent - s;
        assert Latest(recent).Keys == recent.Keys && kept.Keys == recent.Keys - s;
        SubsetSize(s, recent.Keys);
      }
    }
  }

  lemma StepKeepsSize(limits: Throttle, m: Fails, step: Step, after: Fails)
    requires limits.maxEntries >= 2 && |m| <= limits.maxEntries && Legal(limits, m, step, after)
    ensures |after| <= limits.maxEntries
  {
    match step
    case Ask(key, now, _) => PrunedSize(m, key, now, limits.window);
    case Fail(key, now) =>
      var kept :| MadeRoom(limits, m, key, now, kept) && after == Appended(kept, key, now, limits.window);
      MadeRoomSize(limits, m, key, now, kept);
      PrunedSize(kept, key, now, limits.window);
  }

  lemma SizeNext(limits: Throttle, ms: seq<Fails>, steps: seq<Step>, i: nat)
    requires limits.maxEntries >= 2 && History(limits, ms, steps) && i < |steps| && |ms[i]| <= limits.maxEntries
    ensures |ms[i + 1]| <= limits.maxEntries
  {
    assert LegalAt(limits, ms, steps, i);
    StepKeepsSize(limits, ms[i], steps[i], ms[i + 1]);
  }

  lemma EmptyAtFirst(limits: Throttle, ms: seq<Fails>, steps: seq<Step>)
    requires History(limits, ms, steps)
    ensures |ms[0]| == 0
  {
  }

  lemma {:induction false} SizeAt(limits: Throttle, ms: seq<Fails>, steps: seq<Step>, n: nat)
    requires History(limits, ms, steps) && limits.maxEntries >= 2 && n < |ms|
    ensures |ms[n]| <= limits.maxEntries
  {
    if n == 0 {
      EmptyAtFirst(limits, ms, steps);
    } else {
      SizeAt(limits, ms, steps, n - 1);
      SizeNext(limits, ms, steps, n - 1);
    }
  }

  ghost predicate Bounded(limits: Throttle) {
    forall ms, steps :: History(limits, ms, steps) ==> forall n :: 0 <= n < |ms| ==> |ms[n]| <= limits.maxEntries
  }

  lemma FreshNow(now: real, window: real)
    requires window > 0.0
    ensures Fresh([now], now, window) == [now]
  {
    FilterAll([now], t => now - t < window);
  }

  /** Nothing to prune in a table of failures of this very moment. */
  lemma AllFresh(m: Fails, now: real, window: real)
    requires window > 0.0 && forall k <- m :: m[k] == [now]
    ensures PrunedAll(m, now, window) == m
  {
    FreshNow(now, window);
  }

  lemma NothingEvicted(limits: Throttle, m: Fails, key: Key, now: real)
    requires limits.maxEntries < 2 && key !in m && NoneEmpty(m) && PrunedAll(m, now, limits.window) == m
    ensures MadeRoom(limits, m, key, now, m)
  {
    assert IsOldest(Latest(m), {}, limits.maxEntries / 2) && m - {} == m;
  }

  lemma FailsFreely(limits: Throttle, m: Fails, key: Key, now: real)
    requires limits.maxEntries < 2 && limits.window > 0.0 && key !in m && forall k <- m :: m[k] == [now]
    ensures Legal(limits, m, Fail(key, now), m[key := [now]])
  {
    AllFresh(m, now, limits.window);
    NothingEvicted(limits, m, key, now);
    FirstFailure(m, key, now, limits.window);
  }

  lemma LegalThere(limits: Throttle, ms: seq<Fails>, steps: seq<Step>, i: nat, m: Fails, step: Step, after: Fails)
    requires i < |steps| < |ms| && ms[i] == m && steps[i] == step && ms[i + 1] == after && Legal(limits, m, step, after)
    ensures LegalAt(limits, ms, steps, i)
  {
  }

  lemma TwoFails(limits: Throttle, ms: seq<Fails>, steps: seq<Step>)
    requires |ms| == 3 && |steps| == 2 && ms[0] == map[] && steps[0].now <= steps[1].now
    requires Legal(limits, ms[0], steps[0], ms[1]) && Legal(limits, ms[1], steps[1], ms[2])
    ensures History(limits, ms, steps)
  {
    forall i | 0 <= i < |steps| ensures LegalAt(limits, ms, steps, i) {
      LegalThere(limits, ms, steps, i, ms[i], steps[i], ms[i + 1]);
    }
  }

  lemma Overflows(limits: Throttle, ms: seq<Fails>, steps: seq<Step>, n: nat)
    requires History(limits, ms, steps) && n < |ms| && |ms[n]| > limits.maxEntries
    ensures !Bounded(limits)
  {
  }

  lemma SmallLimitOverflows(limits: Throttle, first: Key, second: Key)
    requires limits.maxEntries < 2 && limits.window > 0.0 && first != second
    ensures !Bounded(limits)
  {
    var m0: Fails := map[];
    var m1 := m0[first := [0.0]];
    var m2 := m1[second := [0.0]];
    FailsFreely(limits, m0, first, 0.0);
    FailsFreely(limits, m1, second, 0.0);
    assert m2.Keys == {first, second};
    var (ms, steps) := ([m0, m1, m2], [Fail(first, 0.0), Fail(second, 0.0)]);
    TwoFails(limits, ms, steps);
    Overflows(limits, ms, steps, 2);
  }

  /** With a window of some length the table never outgrows its limit exactly when that is at least two. */
  lemma BoundedExactly(limits: Throttle)
    requires limits.window > 0.0
    ensures Bounded(limits) <==> limits.maxEntries >= 2
  {
    if limits.maxEntries >= 2 {
      forall ms, steps, n | History(limits, ms, steps) && 0 <= n < |ms| ensures |ms[n]| <= limits.maxEntries {
        SizeAt(limits, ms, steps, n);
      }
    } else {
      SmallLimitOverflows(limits, "a", "b");
    }
  }

  // ----- Content -----

  /** Pruning earlier makes no difference to what is fresh later. */
  lemma FreshLater(s: seq<real>, earlier: real, later: real, window: real)
    requires earlier <= later
    ensures Fresh(Fresh(s, earlier, window), later, window) == Fresh(s, later, window)
  {
    FilterNarrow(s, t => earlier - t < window, t => later - t < window);
  }

  lemma FreshAppend(s: seq<real>, t: real, now: real, window: real)
    ensures Fresh(s + [t], now, window)
      == if now - t < window then Fresh(s, now, window) + [t] else Fresh(s, now, window)
  {
    FilterAppend(s, t, u => now - u < window);
  }

  lemma AppendedFresh(m: Fails, key: Key, t: real, other: Key, now: real, window: real)
    requires t <= now
    ensures var before := Fresh(Get(m, other), now, window);
      Fresh(Get(Appended(m, key, t, window), other), now, window)
      == if other == key && now - t < window then before + [t] else before
  {
    FreshLater(Get(m, key), t, now, window);
    FreshAppend(Fresh(Get(m, key), t, window), t, now, window);
  }

  lemma RoomFresh(limits: Throttle, m: Fails, key: Key, t: real, kept: Fails, other: Key, now: real)
    requires t <= now && MadeRoom(limits, m, key, t, kept)
    requires limits.maxEntries < 2 || key in m || |PrunedAll(m, t, limits.window)| < limits.maxEntries
    ensures Fresh(Get(kept, other), now, limits.window) == Fresh(Get(m, other), now, limits.window)
  {
    FreshLater(Get(m, other), t, now, limits.window);
  }

  lemma {:induction false} FailuresAreSteps(steps: seq<Step>, key: Key)
    ensures forall t :: t in FailuresOf(steps, key) <==> Fail(key, t) in steps
  {
    if steps == [] {
    } else {
      FailuresAreSteps(steps[..|steps| - 1], key);
      assert steps == steps[..|steps| - 1] + [steps[|steps| - 1]];
    }
  }

  lemma LiveIsFresh(limits: Throttle, steps: seq<Step>, key: Key, now: real)
    ensures key in Live(limits, steps, now) <==> Fresh(FailuresOf(steps, key), now, limits.window) != []
  {
    FailuresAreSteps(steps, key);
    FilterNonEmpty(FailuresOf(steps, key), t => now - t < limits.window);
  }

  ghost predicate Agrees(limits: Throttle, m: Fails, steps: seq<Step>, key: Key, now: real) {
    Fresh(Get(m, key), now, limits.window) == Fresh(FailuresOf(steps, key), now, limits.window)
  }

  lemma FailAgrees(limits: Throttle, m: Fails, step: Step, after: Fails, steps: seq<Step>, key: Key, now: real)
    requires step.Fail? && Legal(limits, m, step, after) && step.now <= now
    requires forall k :: Agrees(limits, m, steps, k, step.now)
    requires Agrees(limits, m, steps, key, now)
    requires Roomy(limits, step.key, Live(limits, steps, step.now))
    ensures Agrees(limits, after, steps + [step], key, now)
  {
    var kept :| MadeRoom(limits, m, step.key, step.now, kept) &&
      after == Appended(kept, step.key, step.now, limits.window);
    RoomIsEnough(limits, m, steps, step.key, step.now);
    RoomFresh(limits, m, step.key, step.now, kept, key, now);
    AppendedFresh(kept, step.key, step.now, key, now, limits.window);
    FailuresAppend(steps, step, key);
    FreshAppend(FailuresOf(steps, key), step.now, now, limits.window);
  }

  lemma AskAgrees(limits: Throttle, m: Fails, step: Step, after: Fails, steps: seq<Step>, key: Key, now: real)
    requires step.Ask? && Legal(limits, m, step, after) && step.now <= now
    requires Agrees(limits, m, steps, key, now)
    ensures Agrees(limits, after, steps + [step], key, now)
  {
    FreshLater(Get(m, step.key), step.now, now, limits.window);
    FailuresAppend(steps, step, key);
  }

  lemma StepAgrees(limits: Throttle, m: Fails, step: Step, after: Fails, steps: seq<Step>, now: real)
    requires Legal(limits, m, step, after) && step.now <= now
    requires forall k :: Agrees(limits, m, steps, k, step.now)
    requires forall k :: Agrees(limits, m, steps, k, now)
    requires step.Fail? ==> Roomy(limits, step.key, Live(limits, steps, step.now))
    ensures forall k :: Agrees(limits, after, steps + [step], k, now)
  {
    var longer := steps + [step];
    forall k ensures Agrees(limits, after, longer, k, now) {
      if step.Ask? {
        AskAgrees(limits, m, step, after, steps, k, now);
      } else {
        FailAgrees(limits, m, step, after, steps, k, now);
      }
    }
  }

  /** In a quiet history the table holds of every key exactly the failures that still matter. */
  lemma {:induction false} StoredAgrees(limits: Throttle, ms: seq<Fails>, steps: seq<Step>, n: nat, now: real)
    requires History(limits, ms, steps) && Quiet(limits, steps) && n < |ms|
    requires forall i :: 0 <= i < n ==> steps[i].now <= now
    ensures forall k :: Agrees(limits, ms[n], steps[..n], k, now)
    decreases n
  {
    if n == 0 {
    } else {
      var step := steps[n - 1];
      assert LegalAt(limits, ms, steps, n - 1) && QuietAt(limits, steps, n - 1);
      StoredAgrees(limits, ms, steps, n - 1, now);
      StoredAgrees(limits, ms, steps, n - 1, step.now);
      StepAgrees(limits, ms[n - 1], step, ms[n], steps[..n - 1], now);
      assert steps[..n] == steps[..n - 1] + [step];
    }
  }

  lemma RoomIsEnough(limits: Throttle, m: Fails, steps: seq<Step>, key: Key, now: real)
    requires forall k :: Agrees(limits, m, steps, k, now)
    requires Roomy(limits, key, Live(limits, steps, now))
    ensures limits.maxEntries < 2 || key in m || |PrunedAll(m, now, limits.window)| < limits.maxEntries
  {
    assert Agrees(limits, m, steps, key, now);
    LiveIsFresh(limits, steps, key, now);
    var recent := PrunedAll(m, now, limits.window);
    forall k | k in recent ensures k in Live(limits, steps, now) {
      assert Agrees(limits, m, steps, k, now);
      LiveIsFresh(limits, steps, k, now);
    }
    SubsetSize(recent.Keys, Live(limits, steps, now));
  }

  predicate YoungFailure(limits: Throttle, step: Step, key: Key, now: real) {
    step.Fail? && step.key == key && now - step.now < limits.window
  }

  /** The failures of a key among the first n calls that are younger than the window. */
  ghost function YoungFailures(limits: Throttle, steps: seq<Step>, n: nat, key: Key, now: real): set<nat>
    requires n <= |steps|
  {
    set i: nat | i < n && YoungFailure(limits, steps[i], key, now)
  }

  lemma YoungNext(limits: Throttle, steps: seq<Step>, n: nat, key: Key, now: real)
    requires n < |steps|
    ensures |YoungFailures(limits, steps, n + 1, key, now)|
      == |YoungFailures(limits, steps, n, key, now)| + if YoungFailure(limits, steps[n], key, now) then 1 else 0
  {
    var young := YoungFailures(limits, steps, n, key, now);
    var more := if YoungFailure(limits, steps[n], key, now) then {n} else {};
    assert YoungFailures(limits, steps, n + 1, key, now) == young + more && n !in young;
  }

  lemma FreshNext(limits: Throttle, steps: seq<Step>, n: nat, key: Key, now: real)
    requires n < |steps|
    ensures |Fresh(FailuresOf(steps[..n + 1], key), now, limits.window)|
      == |Fresh(FailuresOf(steps[..n], key), now, limits.window)|
         + if YoungFailure(limits, steps[n], key, now) then 1 else 0
  {
    assert steps[..n + 1] == steps[..n] + [steps[n]];
    FailuresAppend(steps[..n], steps[n], key);
    FreshAppend(FailuresOf(steps[..n], key), steps[n].now, now, limits.window);
  }

  lemma {:induction false} FreshAreYoung(limits: Throttle, steps: seq<Step>, n: nat, key: Key, now: real)
    requires n <= |steps|
    ensures |Fresh(FailuresOf(steps[..n], key), now, limits.window)| == |YoungFailures(limits, steps, n, key, now)|
  {
    if n == 0 {
    } else {
      var before := n - 1;
      FreshAreYoung(limits, steps, before, key, now);
      FreshNext(limits, steps, before, key, now);
      YoungNext(limits, steps, before, key, now);
    }
  }

  /** A key is blocked exactly when it has failed often enough within the window. */
  ghost predicate AnswersFully(limits: Throttle, steps: seq<Step>, n: nat)
    requires n < |steps|
  {
    steps[n].Ask? ==>
      (steps[n].blocked <==> |YoungFailures(limits, steps, n, steps[n].key, steps[n].now)| >= limits.maxFailures)
  }

  /** The throttle answers as if it counted all failures ever recorded, as long as it need not evict live ones. */
  lemma BlocksByFullHistory(limits: Throttle, ms: seq<Fails>, steps: seq<Step>, n: nat)
    requires History(limits, ms, steps) && Quiet(limits, steps) && n < |steps|
    ensures AnswersFully(limits, steps, n)
  {
    assert LegalAt(limits, ms, steps, n);
    StoredAgrees(limits, ms, steps, n, steps[n].now);
    assert Agrees(limits, ms[n], steps[..n], steps[n].key, steps[n].now);
    FreshAreYoung(limits, steps, n, steps[n].key, steps[n].now);
  }

  // ----- The window -----

  predicate GuardedAt(steps: seq<Step>, n: nat)
    requires n < |steps|
  {
    steps[n].Fail? ==> n > 0 && steps[n - 1] == Ask(steps[n].key, steps[n].now, false)
  }

  /** Every failure is recorded right after an unblocked answer for the same key at the same time. */
  predicate Guarded(steps: seq<Step>) { forall n :: 0 <= n < |steps| ==> GuardedAt(steps, n) }

  function Inside(s: seq<real>, from: real, window: real): seq<real> { Filter(s, t => from <= t < from + window) }

  lemma OneMoreInside(s: seq<real>, now: real, from: real, limits: Throttle)
    requires |Fresh(s, now, limits.window)| < limits.maxFailures
    ensures |Inside(s, from, limits.window)| <= limits.maxFailures ==>
      |Inside(s + [now], from, limits.window)| <= limits.maxFailures
  {
    FilterAppend(s, now, t => from <= t < from + limits.window);
    if from <= now < from + limits.window {
      FilterCount(s, t => from <= t < from + limits.window, t => now - t < limits.window);
    }
  }

  lemma UnblockedBefore(limits: Throttle, ms: seq<Fails>, steps: seq<Step>, n: nat)
    requires History(limits, ms, steps) && Quiet(limits, steps) && Guarded(steps) && n < |steps| && steps[n].Fail?
    ensures |Fresh(FailuresOf(steps[..n], steps[n].key), steps[n].now, limits.window)| < limits.maxFailures
  {
    assert GuardedAt(steps, n);
    BlocksByFullHistory(limits, ms, steps, n - 1);
    FreshAreYoung(limits, steps, n - 1, steps[n].key, steps[n].now);
    assert steps[..n] == steps[..n - 1] + [steps[n - 1]];
    FailuresAppend(steps[..n - 1], steps[n - 1], steps[n].key);
  }

  /** No window of that length, wherever it starts, holds more than the allowed number of failed checks of a device. */
  lemma {:induction false} WindowBounded(limits: Throttle, ms: seq<Fails>, steps: seq<Step>, key: Key, from: real,
                                         n: nat)
    requires History(limits, ms, steps) && Quiet(limits, steps) && Guarded(steps) && n <= |steps|
    ensures |Inside(FailuresOf(steps[..n], key), from, limits.window)| <= limits.maxFailures
  {
    if n == 0 {
    } else {
      var last := steps[n - 1];
      WindowBounded(limits, ms, steps, key, from, n - 1);
      if last.Fail? {
        UnblockedBefore(limits, ms, steps, n - 1);
        OneMoreInside(FailuresOf(steps[..n - 1], last.key), last.now, from, limits);
      }
      FailuresAppend(steps[..n - 1], last, key);
      assert steps[..n] == steps[..n - 1] + [last];
    }
  }

  // ----- Device checks -----

  datatype Attempt = Attempt(key: Key, now: real, outcome: Outcome)

  /** What a series of calls of `Authenticate` does to the throttle. */
  function StepsOf(attempts: seq<Attempt>): seq<Step> {
    if attempts == [] then [] else
      var last := attempts[|attempts| - 1];
      StepsOf(attempts[..|attempts| - 1]) + [Ask(last.key, last.now, last.outcome.Suspended?)]
        + if last.outcome.CodeWrong? then [Fail(last.key, last.now)] else []
  }

  function WrongCodes(attempts: seq<Attempt>, key: Key): seq<real> {
    if attempts == [] then [] else
      var last := attempts[|attempts| - 1];
      WrongCodes(attempts[..|attempts| - 1], key)
        + if last.outcome.CodeWrong? && last.key == key then [last.now] else []
  }

  lemma GuardedAppend(steps: seq<Step>, step: Step)
    requires Guarded(steps) && (step.Fail? ==> steps != [] && steps[|steps| - 1] == Ask(step.key, step.now, false))
    ensures Guarded(steps + [step])
  {
    var longer := steps + [step];
    forall n | 0 <= n < |longer| ensures GuardedAt(longer, n) {
      if n < |steps| {
        assert GuardedAt(steps, n);
      }
    }
  }

  lemma {:induction false} AttemptsAreGuarded(attempts: seq<Attempt>, key: Key)
    ensures Guarded(StepsOf(attempts)) && FailuresOf(StepsOf(attempts), key) == WrongCodes(attempts, key)
  {
    if attempts == [] {
    } else {
      var (before, last) := (attempts[..|attempts| - 1], attempts[|attempts| - 1]);
      AttemptsAreGuarded(before, key);
      var (steps, ask) := (StepsOf(before), Ask(last.key, last.now, last.outcome.Suspended?));
      GuardedAppend(steps, ask);
      FailuresAppend(steps, ask, key);
      if last.outcome.CodeWrong? {
        GuardedAppend(steps + [ask], Fail(last.key, last.now));
        FailuresAppend(steps + [ask], Fail(last.key, last.now), key);
      } else {
        assert StepsOf(attempts) == steps + [ask];
      }
    }
  }

  /** However a device's checks are timed, no window holds more wrong codes than allowed, in quiet histories. */
  lemma WrongCodesBounded(limits: Throttle, ms: seq<Fails>, attempts: seq<Attempt>, key: Key, from: real)
    requires History(limits, ms, StepsOf(attempts)) && Quiet(limits, StepsOf(attempts))
    ensures |Inside(WrongCodes(attempts, key), from, limits.window)| <= limits.maxFailures
  {
    var steps := StepsOf(attempts);
    AttemptsAreGuarded(attempts, key);
    WindowBounded(limits, ms, steps, key, from, |steps|);
    assert steps[..|steps|] == steps;
  }

  // ----- How many keys are too many -----

  ghost predicate CalmAt(limits: Throttle, steps: seq<Step>, n: nat, c: int)
    requires n < |steps|
  {
    var live := Live(limits, steps[..n], steps[n].now);
    steps[n].Fail? ==> steps[n].key in live || |live| <= c
  }

  /** A failing key without live failures meets at most c keys with live ones. */
  ghost predicate Calm(limits: Throttle, steps: seq<Step>, c: int) {
    forall n :: 0 <= n < |steps| ==> CalmAt(limits, steps, n, c)
  }

  /** In all such histories every answer is that of counting all failures ever recorded. */
  ghost predicate CountsAll(limits: Throttle, c: int) {
    forall ms, steps, n: nat ::
      History(limits, ms, steps) && Calm(limits, steps, c) && n < |steps| ==> AnswersFully(limits, steps, n)
  }

  lemma LegalAppend(limits: Throttle, ms: seq<Fails>, steps: seq<Step>, step: Step, after: Fails, i: nat)
    requires |ms| == |steps| + 1 && i <= |steps|
    requires if i < |steps| then LegalAt(limits, ms, steps, i) else Legal(limits, ms[i], step, after)
    ensures LegalAt(limits, ms + [after], steps + [step], i)
  {
    var next := if i < |steps| then ms[i + 1] else after;
    LegalThere(limits, ms + [after], steps + [step], i, ms[i], if i < |steps| then steps[i] else step, next);
  }

  lemma HistoryAppend(limits: Throttle, ms: seq<Fails>, steps: seq<Step>, step: Step, after: Fails)
    requires History(limits, ms, steps) && Legal(limits, ms[|steps|], step, after)
    requires forall s <- steps :: s.now <= step.now
    ensures History(limits, ms + [after], steps + [step])
  {
    var (tables, longer) := (ms + [after], steps + [step]);
    forall i | 0 <= i < |longer| ensures LegalAt(limits, tables, longer, i) {
      LegalAppend(limits, ms, steps, step, after, i);
    }
  }

  lemma CalmAppend(limits: Throttle, steps: seq<Step>, step: Step, c: int)
    requires Calm(limits, steps, c)
    requires step.Fail? ==> step.key in Live(limits, steps, step.now) || |Live(limits, steps, step.now)| <= c
    ensures Calm(limits, steps + [step], c)
  {
    var longer := steps + [step];
    forall n | 0 <= n < |longer| ensures CalmAt(limits, longer, n, c) {
      assert longer[..n] == steps[..n];
      if n < |steps| {
        assert CalmAt(limits, steps, n, c);
      } else {
        assert steps[..n] == steps;
      }
    }
  }

  /** The calls a check with a wrong code makes. */
  function Missed(key: Key, now: real): seq<Step> { [Ask(key, now, false), Fail(key, now)] }

  ghost predicate LegalMiss(limits: Throttle, m: Fails, key: Key, now: real, after: Fails) {
    Legal(limits, m, Ask(key, now, false), m) && Legal(limits, m, Fail(key, now), after)
  }

  /** A history up to a time, with no more live keys than the limit for any new one, that left the table m. */
  ghost predicate Reached(limits: Throttle, ms: seq<Fails>, steps: seq<Step>, now: real, m: Fails) {
    && History(limits, ms, steps) && ms[|steps|] == m
    && Calm(limits, steps, limits.maxEntries)
    && forall s <- steps :: s.now <= now
  }

  lemma ReachedAppend(limits: Throttle, ms: seq<Fails>, steps: seq<Step>, now: real, m: Fails, step: Step,
                      after: Fails)
    requires Reached(limits, ms, steps, now, m) && Legal(limits, m, step, after) && now <= step.now
    requires step.Fail? ==>
      var live := Live(limits, steps, step.now); step.key in live || |live| <= limits.maxEntries
    ensures Reached(limits, ms + [after], steps + [step], step.now, after)
  {
    HistoryAppend(limits, ms, steps, step, after);
    CalmAppend(limits, steps, step, limits.maxEntries);
  }

  lemma MissedAppend(limits: Throttle, ms: seq<Fails>, steps: seq<Step>, before: real, m: Fails, key: Key, now: real,
                     after: Fails)
    requires Reached(limits, ms, steps, before, m) && LegalMiss(limits, m, key, now, after) && before <= now
    requires key in Live(limits, steps, now) || |Live(limits, steps, now)| <= limits.maxEntries
    ensures Reached(limits, ms + [m] + [after], steps + Missed(key, now), now, after)
  {
    var (ask, fail) := (Ask(key, now, false), Fail(key, now));
    ReachedAppend(limits, ms, steps, before, m, ask, m);
    assert Live(limits, steps + [ask], now) == Live(limits, steps, now);
    ReachedAppend(limits, ms + [m], steps + [ask], now, m, fail, after);
    assert steps + [ask] + [fail] == steps + Missed(key, now);
  }

  ghost predicate KeysIn(steps: seq<Step>, names: set<Key>) { forall s <- steps :: s.key in names }

  lemma FewLive(limits: Throttle, steps: seq<Step>, now: real)
    requires KeysIn(steps, Names(0, limits.maxEntries))
    ensures |Live(limits, steps, now)| <= limits.maxEntries
  {
    NamesCount(0, limits.maxEntries);
    SubsetSize(Live(limits, steps, now), Names(0, limits.maxEntries));
  }

  lemma KeysAppend(steps: seq<Step>, key: Key, now: real, names: set<Key>)
    requires KeysIn(steps, names) && key in names
    ensures KeysIn(steps + Missed(key, now), names)
  {
  }

  function Zeros(n: nat): seq<real> { seq(n, _ => 0.0) }

  lemma ZerosFresh(n: nat, now: real, window: real)
    requires now < window
    ensures Fresh(Zeros(n), now, window) == Zeros(n)
  {
    FilterAll(Zeros(n), t => now - t < window);
  }

  /** The table after n failures of the first name at 0. */
  function FirstTable(n: nat): Fails { if n == 0 then map[] else map[Name(0) := Zeros(n)] }

  lemma FailsAgain(limits: Throttle, n: nat)
    requires limits.maxEntries >= 2 && limits.window > 0.0 && n < limits.maxFailures
    ensures LegalMiss(limits, FirstTable(n), Name(0), 0.0, FirstTable(n + 1))
  {
    var m := FirstTable(n);
    ZerosFresh(n, 0.0, limits.window);
    assert Get(m, Name(0)) == Zeros(n) && Zeros(n) + [0.0] == Zeros(n + 1);
    assert MadeRoom(limits, m, Name(0), 0.0, m);
    assert Appended(m, Name(0), 0.0, limits.window) == FirstTable(n + 1);
  }

  lemma MissedFailures(steps: seq<Step>, n: nat, now: real)
    ensures var failures := FailuresOf(steps, Name(0));
      FailuresOf(steps + Missed(Name(n), now), Name(0)) == if n == 0 then failures + [now] else failures
  {
    assert n > 0 ==> |Name(n)| != |Name(0)|;
    FailuresAppend(steps, Ask(Name(n), now, false), Name(0));
    FailuresAppend(steps + [Ask(Name(n), now, false)], Fail(Name(n), now), Name(0));
    assert steps + [Ask(Name(n), now, false)] + [Fail(Name(n), now)] == steps + Missed(Name(n), now);
  }

  lemma StepsAppend(attempts: seq<Attempt>, key: Key, now: real)
    ensures StepsOf(attempts + [Attempt(key, now, CodeWrong)]) == StepsOf(attempts) + Missed(key, now)
  {
    assert (attempts + [Attempt(key, now, CodeWrong)])[..|attempts|] == attempts;
  }

  /** The name of the next miss. */
  function NextName(limits: Throttle, n: nat): nat {
    if n < limits.maxFailures then 0 else n + 1 - limits.maxFailures
  }

  function NextTime(limits: Throttle, n: nat): real {
    if n < limits.maxFailures then 0.0 else limits.window / 2.0
  }

  /** The first checks, all with wrong codes: as many of the first name as are allowed, then one of each other. */
  function Misses(limits: Throttle, n: nat): seq<Attempt> {
    if n == 0 then [] else
      Misses(limits, n - 1) + [Attempt(Name(NextName(limits, n - 1)), NextTime(limits, n - 1), CodeWrong)]
  }

  /** The misses after which the throttle has forgotten those of the first name. */
  function Flood(limits: Throttle): nat { limits.maxFailures + limits.maxEntries }

  function StepsTo(limits: Throttle, n: nat): seq<Step> { StepsOf(Misses(limits, n)) }

  lemma NextSteps(limits: Throttle, n: nat)
    ensures StepsTo(limits, n + 1) == StepsTo(limits, n) + Missed(Name(NextName(limits, n)), NextTime(limits, n))
  {
    StepsAppend(Misses(limits, n), Name(NextName(limits, n)), NextTime(limits, n));
  }

  lemma NextFailures(limits: Throttle, n: nat)
    ensures FailuresOf(StepsTo(limits, n + 1), Name(0))
      == FailuresOf(StepsTo(limits, n), Name(0)) + if n < limits.maxFailures then [0.0] else []
  {
    NextSteps(limits, n);
    MissedFailures(StepsTo(limits, n), NextName(limits, n), NextTime(limits, n));
  }

  /** The failures of the first name among the first n. */
  function FirstZeros(limits: Throttle, n: nat): seq<real> {
    Zeros(if n < limits.maxFailures then n else limits.maxFailures)
  }

  lemma MoreZeros(limits: Throttle, n: nat)
    ensures FirstZeros(limits, n) + (if n < limits.maxFailures then [0.0] else []) == FirstZeros(limits, n + 1)
  {
  }

  lemma {:induction false} FirstFailures(limits: Throttle, n: nat)
    ensures FailuresOf(StepsTo(limits, n), Name(0)) == FirstZeros(limits, n)
  {
    if n == 0 {
    } else {
      var before := n - 1;
      FirstFailures(limits, before);
      NextFailures(limits, before);
      MoreZeros(limits, before);
    }
  }

  lemma {:induction false} KeysSoFar(limits: Throttle, n: nat)
    requires n < Flood(limits) && limits.maxEntries > 0
    ensures KeysIn(StepsTo(limits, n), Names(0, limits.maxEntries))
  {
    if n == 0 {
    } else {
      var before := n - 1;
      KeysSoFar(limits, before);
      NextSteps(limits, before);
      var key := Name(NextName(limits, before));
      assert key in Names(0, limits.maxEntries);
      KeysAppend(StepsTo(limits, before), key, NextTime(limits, before), Names(0, limits.maxEntries));
    }
  }

  lemma MissesOn(limits: Throttle, ms: seq<Fails>, n: nat, before: real, m: Fails, k: nat, now: real, after: Fails,
                 next: nat) returns (longer: seq<Fails>)
    requires n < Flood(limits) && limits.maxEntries > 0 && next == n + 1
    requires k == NextName(limits, n) && before <= now == NextTime(limits, n)
    requires Reached(limits, ms, StepsTo(limits, n), before, m) && LegalMiss(limits, m, Name(k), now, after)
    ensures Reached(limits, longer, StepsTo(limits, next), now, after)
  {
    KeysSoFar(limits, n);
    FewLive(limits, StepsTo(limits, n), now);
    MissedAppend(limits, ms, StepsTo(limits, n), before, m, Name(k), now, after);
    NextSteps(limits, n);
    longer := ms + [m] + [after];
  }

  lemma {:induction false} FirstName(limits: Throttle, n: nat) returns (ms: seq<Fails>)
    requires limits.maxEntries >= 2 && limits.window > 0.0 && n <= limits.maxFailures
    ensures Reached(limits, ms, StepsTo(limits, n), 0.0, FirstTable(n))
  {
    if n == 0 {
      ms := [map[]];
    } else {
      var before := n - 1;
      ms := FirstName(limits, before);
      FailsAgain(limits, before);
      ms := MissesOn(limits, ms, before, 0.0, FirstTable(before), 0, 0.0, FirstTable(before + 1), n);
    }
  }

  /** The table of n names: the first has reached the limit of failures at 0, the next have failed once each, half a
      window later. */
  function Table(limits: Throttle, n: nat): Fails {
    if n <= 1 then FirstTable(limits.maxFailures) else Table(limits, n - 1)[Name(n - 1) := [limits.window / 2.0]]
  }

  lemma {:induction false} TableAt(limits: Throttle, n: nat, k: Key)
    requires n > 0 && limits.maxFailures > 0
    ensures k in Table(limits, n) <==> |k| < n && k == Name(|k|)
    ensures k in Table(limits, n)
      ==> Table(limits, n)[k] == if k == Name(0) then Zeros(limits.maxFailures) else [limits.window / 2.0]
  {
    if n == 1 {
      assert |k| == 0 ==> k == Name(0);
    } else {
      TableAt(limits, n - 1, k);
    }
  }

  lemma {:induction false} TableSize(limits: Throttle, n: nat)
    requires n > 0 && limits.maxFailures > 0
    ensures |Table(limits, n)| == n && Name(n) !in Table(limits, n)
  {
    TableAt(limits, n, Name(n));
    if n == 1 {
      assert Table(limits, 1).Keys == {Name(0)};
    } else {
      TableSize(limits, n - 1);
      assert Table(limits, n).Keys == Table(limits, n - 1).Keys + {Name(n - 1)};
    }
  }

  lemma UnknownIsFree(limits: Throttle, m: Fails, key: Key, now: real)
    requires key !in m && limits.maxFailures > 0
    ensures Legal(limits, m, Ask(key, now, false), m)
  {
    assert Fresh([], now, limits.window) == [] && m - {key} == m;
  }

  lemma NewNameFails(limits: Throttle, m: Fails, key: Key, now: real) returns (after: Fails)
    requires key !in m && |m| < limits.maxEntries && limits.maxFailures > 0
    ensures after == m[key := [now]] && LegalMiss(limits, m, key, now, after)
  {
    UnknownIsFree(limits, m, key, now);
    assert MadeRoom(limits, m, key, now, m);
    FirstFailure(m, key, now, limits.window);
    after := m[key := [now]];
  }

  lemma TableNext(limits: Throttle, n: nat)
    requires n > 0
    ensures Table(limits, n + 1) == Table(limits, n)[Name(n) := [limits.window / 2.0]]
  {
  }

  lemma NextNameFails(limits: Throttle, n: nat, m: Fails) returns (after: Fails)
    requires 0 < n < limits.maxEntries && limits.maxFailures > 0 && m == Table(limits, n)
    ensures after == Table(limits, n + 1) && LegalMiss(limits, m, Name(n), limits.window / 2.0, after)
  {
    TableSize(limits, n);
    after := NewNameFails(limits, m, Name(n), limits.window / 2.0);
    TableNext(limits, n);
  }

  lemma ReachedLater(limits: Throttle, ms: seq<Fails>, steps: seq<Step>, before: real, m: Fails, now: real)
    requires Reached(limits, ms, steps, before, m) && before <= now
    ensures Reached(limits, ms, steps, now, m)
  {
  }

  lemma FillFirst(limits: Throttle) returns (ms: seq<Fails>, m: Fails)
    requires limits.maxEntries >= 2 && limits.window > 0.0
    ensures m == Table(limits, 1) && Reached(limits, ms, StepsTo(limits, limits.maxFailures), limits.window / 2.0, m)
  {
    ms := FirstName(limits, limits.maxFailures);
    m := FirstTable(limits.maxFailures);
    ReachedLater(limits, ms, StepsTo(limits, limits.maxFailures), 0.0, m, limits.window / 2.0);
  }

  lemma {:induction false} FillUp(limits: Throttle, n: nat, c: nat) returns (ms: seq<Fails>, m: Fails)
    requires limits.maxEntries >= 2 && limits.window > 0.0 && limits.maxFailures > 0 && 0 < n <= limits.maxEntries
    requires c == limits.maxFailures + n - 1
    ensures m == Table(limits, n) && Reached(limits, ms, StepsTo(limits, c), limits.window / 2.0, m)
  {
    if n == 1 {
      ms, m := FillFirst(limits);
    } else {
      var (k, before) := (n - 1, c - 1);
      ms, m := FillUp(limits, k, before);
      var after := NextNameFails(limits, k, m);
      ms := MissesOn(limits, ms, before, limits.window / 2.0, m, k, limits.window / 2.0, after, c);
      m := after;
    }
  }

  lemma TableFresh(limits: Throttle, n: nat)
    requires limits.window > 0.0 && limits.maxFailures > 0 && n > 0
    ensures PrunedAll(Table(limits, n), limits.window / 2.0, limits.window) == Table(limits, n)
    ensures NoneEmpty(Table(limits, n))
  {
    var (m, half) := (Table(limits, n), limits.window / 2.0);
    ZerosFresh(limits.maxFailures, half, limits.window);
    FreshNow(half, limits.window);
    forall k | k in m ensures m[k] != [] && Fresh(m[k], half, limits.window) == m[k] {
      TableAt(limits, n, k);
    }
  }

  lemma EvictedGone(limits: Throttle, m: Fails, s: set<Key>, key: Key, now: real, gone: Key) returns (after: Fails)
    requires |m| >= limits.maxEntries && key !in m && gone in s && gone != key && limits.maxFailures > 0
    requires NoneEmpty(m) && PrunedAll(m, now, limits.window) == m && IsOldest(Latest(m), s, limits.maxEntries / 2)
    ensures LegalMiss(limits, m, key, now, after) && gone !in after
  {
    UnknownIsFree(limits, m, key, now);
    assert MadeRoom(limits, m, key, now, m - s);
    after := Appended(m - s, key, now, limits.window);
  }

  lemma FirstIsOldest(limits: Throttle) returns (s: set<Key>)
    requires limits.maxEntries >= 2 && limits.window > 0.0 && limits.maxFailures > 0
    ensures var m := Table(limits, limits.maxEntries);
      NoneEmpty(m) && IsOldest(Latest(m), s, limits.maxEntries / 2) && Name(0) in s
  {
    var m := Table(limits, limits.maxEntries);
    TableFresh(limits, limits.maxEntries);
    TableSize(limits, limits.maxEntries);
    assert Latest(m).Keys == m.Keys;
    forall k | k in m ensures Name(0) in m && Latest(m)[Name(0)] <= Latest(m)[k] {
      TableAt(limits, limits.maxEntries, k);
      TableAt(limits, limits.maxEntries, Name(0));
    }
    TableAt(limits, limits.maxEntries, Name(0));
    s := OldestExists(Latest(m), {Name(0)}, limits.maxEntries / 2);
  }

  /** In a full table the next new key evicts the name that failed first. */
  lemma FirstEvicted(limits: Throttle, m: Fails) returns (after: Fails)
    requires limits.maxEntries >= 2 && limits.window > 0.0 && limits.maxFailures > 0
    requires m == Table(limits, limits.maxEntries)
    ensures LegalMiss(limits, m, Name(limits.maxEntries), limits.window / 2.0, after) && Name(0) !in after
  {
    TableSize(limits, limits.maxEntries);
    TableFresh(limits, limits.maxEntries);
    var s := FirstIsOldest(limits);
    assert |Name(limits.maxEntries)| != |Name(0)|;
    after := EvictedGone(limits, m, s, Name(limits.maxEntries), limits.window / 2.0, Name(0));
  }

  lemma Forgotten(limits: Throttle) returns (ms: seq<Fails>, m: Fails)
    requires limits.maxEntries >= 2 && limits.window > 0.0 && limits.maxFailures > 0
    ensures Reached(limits, ms, StepsTo(limits, Flood(limits)), limits.window / 2.0, m) && Name(0) !in m
  {
    var max := limits.maxEntries;
    var half := limits.window / 2.0;
    var before := Flood(limits) - 1;
    var full;
    ms, full := FillUp(limits, max, before);
    m := FirstEvicted(limits, full);
    ms := MissesOn(limits, ms, before, half, full, max, half, m, Flood(limits));
  }

  /** The first name, over its limit of failures, is answered like one that never failed. */
  lemma AnsweredAnew(limits: Throttle) returns (ms: seq<Fails>, steps: seq<Step>)
    requires limits.maxEntries >= 2 && limits.window > 0.0 && limits.maxFailures > 0
    ensures History(limits, ms, steps) && Calm(limits, steps, limits.maxEntries)
    ensures steps != [] && !AnswersFully(limits, steps, |steps| - 1)
  {
    var m;
    ms, m := Forgotten(limits);
    var (before, ask) := (StepsTo(limits, Flood(limits)), Ask(Name(0), limits.window / 2.0, false));
    UnknownIsFree(limits, m, Name(0), ask.now);
    ReachedAppend(limits, ms, before, ask.now, m, ask, m);
    FirstFailures(limits, Flood(limits));
    AnsweredWrongly(limits, before, ask);
    ms, steps := ms + [m], before + [ask];
  }

  lemma AnsweredWrongly(limits: Throttle, steps: seq<Step>, ask: Step)
    requires FailuresOf(steps, ask.key) == Zeros(limits.maxFailures) && ask.now < limits.window
    requires ask.Ask? && !ask.blocked
    ensures !AnswersFully(limits, steps + [ask], |steps|)
  {
    assert (steps + [ask])[..|steps|] == steps;
    ZerosFresh(limits.maxFailures, ask.now, limits.window);
    FreshAreYoung(limits, steps + [ask], |steps|, ask.key, ask.now);
  }

  lemma CanFail(limits: Throttle, m: Fails, key: Key, now: real) returns (after: Fails)
    requires NoneEmpty(m)
    ensures Legal(limits, m, Fail(key, now), after)
  {
    var (recent, kept) := (PrunedAll(m, now, limits.window), m);
    if |m| >= limits.maxEntries && key !in m {
      kept := recent;
      if |recent| >= limits.maxEntries {
        assert Latest(recent).Keys == recent.Keys;
        var s := OldestExists(Latest(recent), {}, limits.maxEntries / 2);
        kept := recent - s;
      }
    }
    assert MadeRoom(limits, m, key, now, kept);
    after := Appended(kept, key, now, limits.window);
  }

  lemma OneTooMany(limits: Throttle, steps: seq<Step>, now: real)
    requires FailuresOf(steps, Name(0)) == Zeros(limits.maxFailures) && 0.0 <= now < limits.window
    ensures |Inside(FailuresOf(steps + Missed(Name(0), now), Name(0)), 0.0, limits.window)| > limits.maxFailures
  {
    MissedFailures(steps, 0, now);
    FilterAll(Zeros(limits.maxFailures) + [now], t => 0.0 <= t < 0.0 + limits.window);
  }

  lemma FirstIsLive(limits: Throttle, steps: seq<Step>, now: real)
    requires FailuresOf(steps, Name(0)) == Zeros(limits.maxFailures) && limits.maxFailures > 0 && now < limits.window
    ensures Name(0) in Live(limits, steps, now)
  {
    ZerosFresh(limits.maxFailures, now, limits.window);
    LiveIsFresh(limits, steps, Name(0), now);
  }

  lemma MissAnew(limits: Throttle, ms: seq<Fails>, steps: seq<Step>, now: real, m: Fails, key: Key)
      returns (longer: seq<Fails>)
    requires Reached(limits, ms, steps, now, m) && limits.maxFailures > 0
    requires key !in m && key in Live(limits, steps, now)
    ensures History(limits, longer, steps + Missed(key, now))
    ensures Calm(limits, steps + Missed(key, now), limits.maxEntries)
  {
    UnknownIsFree(limits, m, key, now);
    NoStoredListIsEmpty(limits, ms, steps, |steps|);
    var after := CanFail(limits, m, key, now);
    MissedAppend(limits, ms, steps, now, m, key, now, after);
    longer := ms + [m] + [after];
  }

  lemma OnceMore(limits: Throttle, now: real) returns (attempts: seq<Attempt>)
    ensures StepsOf(attempts) == StepsTo(limits, Flood(limits)) + Missed(Name(0), now)
  {
    attempts := Misses(limits, Flood(limits)) + [Attempt(Name(0), now, CodeWrong)];
    StepsAppend(Misses(limits, Flood(limits)), Name(0), now);
  }

  /** And its next wrong code is one more than the window may hold. */
  lemma MissedAnew(limits: Throttle) returns (ms: seq<Fails>, attempts: seq<Attempt>)
    requires limits.maxEntries >= 2 && limits.window > 0.0 && limits.maxFailures > 0
    ensures History(limits, ms, StepsOf(attempts)) && Calm(limits, StepsOf(attempts), limits.maxEntries)
    ensures |Inside(WrongCodes(attempts, Name(0)), 0.0, limits.window)| > limits.maxFailures
  {
    var m;
    ms, m := Forgotten(limits);
    var steps := StepsTo(limits, Flood(limits));
    var half := limits.window / 2.0;
    FirstFailures(limits, Flood(limits));
    FirstIsLive(limits, steps, half);
    ms := MissAnew(limits, ms, steps, half, m, Name(0));
    attempts := OnceMore(limits, half);
    OneTooMany(limits, steps, half);
    AttemptsAreGuarded(attempts, Name(0));
  }

  lemma CalmIsQuiet(limits: Throttle, ms: seq<Fails>, steps: seq<Step>, c: int)
    requires History(limits, ms, steps) && Calm(limits, steps, c)
    requires c < limits.maxEntries || limits.maxEntries < 2 || limits.window <= 0.0
    ensures Quiet(limits, steps)
  {
    forall n | 0 <= n < |steps| ensures QuietAt(limits, steps, n) {
      assert CalmAt(limits, steps, n, c);
      if limits.window <= 0.0 {
        assert forall i | 0 <= i < n :: steps[i].now <= steps[n].now;
        assert Live(limits, steps[..n], steps[n].now) == {};
      }
    }
  }

  lemma CalmMore(limits: Throttle, steps: seq<Step>, c: int, d: int)
    requires Calm(limits, steps, c) && c <= d
    ensures Calm(limits, steps, d)
  {
    forall n | 0 <= n < |steps| ensures CalmAt(limits, steps, n, d) {
      assert CalmAt(limits, steps, n, c);
    }
  }

  /** All histories in which a failing key without live failures meets at most c keys with live ones are answered
      by counting every failure ever recorded, if and only if c is less than the limit of entries, or that is too
      small for an eviction, or no failure is ever live, or everybody is blocked. */
  lemma CountsAllExactly(limits: Throttle, c: int)
    ensures CountsAll(limits, c)
      <==> c < limits.maxEntries || limits.maxEntries < 2 || limits.window <= 0.0 || limits.maxFailures == 0
  {
    if c < limits.maxEntries || limits.maxEntries < 2 || limits.window <= 0.0 || limits.maxFailures == 0 {
      forall ms, steps, n: nat | History(limits, ms, steps) && Calm(limits, steps, c) && n < |steps|
        ensures AnswersFully(limits, steps, n)
      {
        if limits.maxFailures == 0 {
          assert LegalAt(limits, ms, steps, n);
        } else {
          CalmIsQuiet(limits, ms, steps, c);
          BlocksByFullHistory(limits, ms, steps, n);
        }
      }
    } else {
      var ms, steps := AnsweredAnew(limits);
      CalmMore(limits, steps, limits.maxEntries, c);
    }
  }

  /** In all such histories no window holds more wrong codes of a device than allowed. */
  ghost predicate BoundsWrongCodes(limits: Throttle, c: int) {
    forall ms, attempts, key, from :: History(limits, ms, StepsOf(attempts)) && Calm(limits, StepsOf(attempts), c)
      ==> |Inside(WrongCodes(attempts, key), from, limits.window)| <= limits.maxFailures
  }

  lemma AskBlocks(limits: Throttle, ms: seq<Fails>, steps: seq<Step>, n: nat)
    requires limits.maxFailures == 0 && History(limits, ms, steps) && n < |steps|
    ensures steps[n].Ask? ==> steps[n].blocked
  {
    assert LegalAt(limits, ms, steps, n);
  }

  lemma NeverFails(limits: Throttle, ms: seq<Fails>, steps: seq<Step>, n: nat)
    requires limits.maxFailures == 0 && History(limits, ms, steps) && Guarded(steps) && n < |steps|
    ensures !steps[n].Fail?
  {
    assert GuardedAt(steps, n);
    if n > 0 {
      AskBlocks(limits, ms, steps, n - 1);
    }
  }

  lemma {:induction false} NoFailures(steps: seq<Step>, key: Key)
    requires forall s <- steps :: !s.Fail?
    ensures FailuresOf(steps, key) == []
  {
    if steps == [] {
    } else {
      NoFailures(steps[..|steps| - 1], key);
    }
  }

  /** Where nothing is allowed no failure is ever recorded. */
  lemma AlwaysBlocked(limits: Throttle, ms: seq<Fails>, attempts: seq<Attempt>, key: Key)
    requires limits.maxFailures == 0 && History(limits, ms, StepsOf(attempts))
    ensures WrongCodes(attempts, key) == []
  {
    var steps := StepsOf(attempts);
    AttemptsAreGuarded(attempts, key);
    forall n | 0 <= n < |steps| ensures !steps[n].Fail? {
      NeverFails(limits, ms, steps, n);
    }
    NoFailures(steps, key);
  }

  /** And the bound on wrong codes holds in exactly the same cases. */
  lemma WrongCodesBoundedExactly(limits: Throttle, c: int)
    ensures BoundsWrongCodes(limits, c)
      <==> c < limits.maxEntries || limits.maxEntries < 2 || limits.window <= 0.0 || limits.maxFailures == 0
  {
    if c < limits.maxEntries || limits.maxEntries < 2 || limits.window <= 0.0 || limits.maxFailures == 0 {
      forall ms, attempts, key, from
        | History(limits, ms, StepsOf(attempts)) && Calm(limits, StepsOf(attempts), c)
        ensures |Inside(WrongCodes(attempts, key), from, limits.window)| <= limits.maxFailures
      {
        if limits.maxFailures == 0 {
          AlwaysBlocked(limits, ms, attempts, key);
        } else {
          CalmIsQuiet(limits, ms, StepsOf(attempts), c);
          WrongCodesBounded(limits, ms, attempts, key, from);
        }
      }
    } else {
      var ms, attempts := MissedAnew(limits);
      CalmMore(limits, StepsOf(attempts), limits.maxEntries, c);
    }
  }
}

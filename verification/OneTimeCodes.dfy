/** One-time codes for sign-in by SMS: four expiring keys per phone and purpose. */
module OneTimeCodes {
  import opened Common
  import opened Text

  const CODE_TTL := 300.0
  const MIN_INTERVAL := 60.0
  const HOUR_CAP := 5
  const HOUR := 3600.0
  const MAX_ATTEMPTS := 5

  /** A stored value and the moment it vanishes. */
  datatype Entry<+T> = Entry(value: T, expires: real)

  function Read<T>(e: Option<Entry<T>>, now: real): Option<T> {
    if e.Some? && now < e.value.expires then Some(e.value.value) else None
  }

  /** Increment a counter, a missing one counting as zero, and restart its time to live. */
  function Bump(e: Option<Entry<nat>>, now: real, ttl: real): Option<Entry<nat>> {
    Some(Entry(Read<nat>(e, now).GetOr(0) + 1, now + ttl))
  }

  /** The keys of one phone and purpose. */
  datatype Desk = Desk(code: Option<Entry<string>>, fails: Option<Entry<nat>>, last: Option<Entry<real>>,
                       hour: Option<Entry<nat>>)

  const EMPTY := Desk(None, None, None, None)

  datatype Request =
    | Issue(now: real, code: string)
    | Verify(now: real, guess: string)

  datatype Answer = Issued | TooSoon | TooMany | Locked | NoCode | Wrong | Right

  function Reply(d: Desk, r: Request): Answer {
    match r
    case Issue(now, _) =>
      var last := Read(d.last, now);
      if last.Some? && now - last.value < MIN_INTERVAL then TooSoon
      else if Read<nat>(d.hour, now).GetOr(0) >= HOUR_CAP then TooMany
      else Issued
    case Verify(now, guess) =>
      var code := Read(d.code, now);
      if Read<nat>(d.fails, now).GetOr(0) >= MAX_ATTEMPTS then Locked
      else if code.None? then NoCode
      else if code.value != Strip(guess) then Wrong
      else Right
  }

  function Next(d: Desk, r: Request): Desk {
    match Reply(d, r)
    case Issued =>
      Desk(Some(Entry(r.code, r.now + CODE_TTL)), d.fails, Some(Entry(r.now, r.now + HOUR)), Bump(d.hour, r.now, HOUR))
    case Locked => d.(code := None)
    case Wrong => d.(fails := Bump(d.fails, r.now, CODE_TTL))
    case Right => d.(code := None, fails := None)
    case TooSoon => d
    case TooMany => d
    case NoCode => d
  }

  /** A key that has not vanished. */
  predicate Lives<T>(e: Option<Entry<T>>, now: real) { e.Some? && now < e.value.expires }

  /** A counter one higher, or 1 when it had vanished, for so long from now. */
  function OneMore(e: Option<Entry<nat>>, now: real, ttl: real): Option<Entry<nat>> {
    Some(Entry(if Lives(e, now) then e.value.value + 1 else 1, now + ttl))
  }

  /** A code is kept for five minutes, its time and the counter of the hour for an hour; the counter of misses stays. */
  ghost predicate IssuedTo(before: Desk, after: Desk, now: real, drawn: string) {
    after == Desk(Some(Entry(drawn, now + 300.0)), before.fails, Some(Entry(now, now + 3600.0)),
                  OneMore(before.hour, now, 3600.0))
  }

  class OtpService {
    var code: Option<Entry<string>>
    var fails: Option<Entry<nat>>
    var last: Option<Entry<real>>
    var hour: Option<Entry<nat>>

    function View(): Desk
      reads this
    {
      Desk(code, fails, last, hour)
    }

    constructor ()
      ensures View() == EMPTY
    {
      code, fails, last, hour := None, None, None, None;
    }

    /** `drawn` is the random code for this request. */
    method IssueCode(now: real, drawn: string) returns (sent: bool)
      modifies this
      ensures sent == Reply(old(View()), Issue(now, drawn)).Issued?
      ensures View() == Next(old(View()), Issue(now, drawn))
      ensures sent <==> (Lives(old(last), now) ==> now - old(last).value.value >= 60.0)
                        && (Lives(old(hour), now) ==> old(hour).value.value < 5)
      ensures if sent then IssuedTo(old(View()), View(), now, drawn) else View() == old(View())
    {
      var lastSent := Read(last, now);
      if lastSent.Some? {
        var elapsed := now - lastSent.value;
        if elapsed < MIN_INTERVAL {
          return false;
        }
      }
      var hourCount := Read(hour, now);
      if hourCount.Some? && hourCount.value >= HOUR_CAP {
        return false;
      }
      code := Some(Entry(drawn, now + CODE_TTL));
      last := Some(Entry(now, now + HOUR));
      hour := Bump(hour, now, HOUR);
      return true;
    }

    method VerifyCode(now: real, guess: string) returns (verified: bool)
      modifies this
      ensures verified == Reply(old(View()), Verify(now, guess)).Right?
      ensures View() == Next(old(View()), Verify(now, guess))
      ensures var locked := Lives(old(fails), now) && old(fails).value.value >= 5;
        var compared := !locked && Lives(old(code), now);
        && (verified <==> compared && old(code).value.value == Strip(guess))
        && code == (if locked || verified then None else old(code))
        && fails == (if verified then None else if compared then OneMore(old(fails), now, 300.0) else old(fails))
        && last == old(last) && hour == old(hour)
    {
      var failed := Read(fails, now);
      if failed.Some? && failed.value >= MAX_ATTEMPTS {
        code := None;
        return false;
      }
      var stored := Read(code, now);
      if stored.None? {
        return false;
      }
      if stored.value != Strip(guess) {
        fails := Bump(fails, now, CODE_TTL);
        return false;
      }
      code := None;
      fails := None;
      return true;
    }
  }

  // ----- Runs -----

  /** The clock never goes back. */
  predicate Clocked(rs: seq<Request>) { forall i, j :: 0 <= i < j < |rs| ==> rs[i].now <= rs[j].now }

  function Run(rs: seq<Request>): Desk {
    if rs == [] then EMPTY else Next(Run(rs[..|rs| - 1]), rs[|rs| - 1])
  }

  /** The answer to the last request of a run. */
  function LastReply(rs: seq<Request>): Answer
    requires rs != []
  {
    Reply(Run(rs[..|rs| - 1]), rs[|rs| - 1])
  }

  /** The wrong guesses compared with the code issued last. */
  function WrongGuesses(rs: seq<Request>): nat {
    if rs == [] || LastReply(rs).Issued? then 0
    else WrongGuesses(rs[..|rs| - 1]) + if LastReply(rs).Wrong? then 1 else 0
  }

  function IssueTimes(rs: seq<Request>): seq<real> {
    if rs == [] then [] else IssueTimes(rs[..|rs| - 1]) + if LastReply(rs).Issued? then [rs[|rs| - 1].now] else []
  }

  /** While a code lives, so does the counter of its wrong guesses. */
  predicate CountsGuesses(d: Desk, guesses: nat, now: real) {
    && guesses <= MAX_ATTEMPTS
    && (d.code.Some? ==> d.code.value.expires <= now + CODE_TTL)
    && (d.code.Some? && guesses > 0 ==>
          && d.fails.Some? && d.fails.value.value >= guesses
          && d.fails.value.expires >= d.code.value.expires)
  }

  lemma GuessCounted(d: Desk, guesses: nat, before: real, r: Request)
    requires CountsGuesses(d, guesses, before) && before <= r.now
    ensures var a := Reply(d, r);
      CountsGuesses(Next(d, r), if a.Issued? then 0 else guesses + if a.Wrong? then 1 else 0, r.now)
  {
  }

  lemma {:induction false} GuessesCounted(rs: seq<Request>, now: real)
    requires Clocked(rs) && forall r <- rs :: r.now <= now
    ensures CountsGuesses(Run(rs), WrongGuesses(rs), now)
  {
    if rs == [] {
    } else {
      var (before, last) := (rs[..|rs| - 1], rs[|rs| - 1]);
      GuessesCounted(before, last.now);
      GuessCounted(Run(before), WrongGuesses(before), last.now, last);
    }
  }

  /** At most five wrong guesses are ever compared with one issued code, although the counter expires on
      its own and its time to live restarts with every guess. */
  lemma FewWrongGuesses(rs: seq<Request>)
    requires Clocked(rs)
    ensures WrongGuesses(rs) <= MAX_ATTEMPTS
  {
    if rs != [] {
      GuessesCounted(rs, rs[|rs| - 1].now);
    }
  }

  /** Times that follow each other closer than the gap, counted back from the last. */
  function Chain(times: seq<real>, gap: real): nat {
    var n := |times|;
    if n == 0 then 0 else if n == 1 || times[n - 1] - times[n - 2] >= gap then 1 else 1 + Chain(times[..n - 1], gap)
  }

  lemma ChainAppend(times: seq<real>, t: real, gap: real)
    ensures Chain(times + [t], gap)
      == if times == [] || t - times[|times| - 1] >= gap then 1 else 1 + Chain(times, gap)
  {
    assert (times + [t])[..|times|] == times;
  }

  /** The two limiting keys follow the history of issues. */
  predicate FollowsIssues(d: Desk, times: seq<real>) {
    if times == [] then d.last == None && d.hour == None else
      var t := times[|times| - 1];
      d.last == Some(Entry(t, t + HOUR)) && d.hour == Some(Entry(Chain(times, HOUR), t + HOUR))
  }

  lemma IssueWithinLimits(d: Desk, times: seq<real>, r: Request)
    requires FollowsIssues(d, times) && Reply(d, r).Issued?
    ensures Chain(times + [r.now], HOUR) <= HOUR_CAP
    ensures times != [] ==> r.now - times[|times| - 1] >= MIN_INTERVAL
  {
    ChainAppend(times, r.now, HOUR);
  }

  lemma IssueFollowed(d: Desk, times: seq<real>, r: Request)
    requires FollowsIssues(d, times)
    ensures FollowsIssues(Next(d, r), if Reply(d, r).Issued? then times + [r.now] else times)
  {
    ChainAppend(times, r.now, HOUR);
  }

  lemma {:induction false} IssuesFollowed(rs: seq<Request>)
    ensures FollowsIssues(Run(rs), IssueTimes(rs)) && Chain(IssueTimes(rs), HOUR) <= HOUR_CAP
  {
    if rs == [] {
    } else {
      var before := rs[..|rs| - 1];
      IssuesFollowed(before);
      IssueFollowed(Run(before), IssueTimes(before), rs[|rs| - 1]);
      if LastReply(rs).Issued? { IssueWithinLimits(Run(before), IssueTimes(before), rs[|rs| - 1]); }
      assert IssueTimes(before) + [] == IssueTimes(before);
    }
  }

  /** Issues lie at least a minute apart. */
  lemma {:induction false} IssuesAreSpaced(rs: seq<Request>, i: nat)
    requires i + 1 < |IssueTimes(rs)|
    ensures IssueTimes(rs)[i + 1] - IssueTimes(rs)[i] >= MIN_INTERVAL
  {
    var before := rs[..|rs| - 1];
    if i + 1 < |IssueTimes(before)| {
      IssuesAreSpaced(before, i);
    } else {
      IssuesFollowed(before);
      IssueWithinLimits(Run(before), IssueTimes(before), rs[|rs| - 1]);
    }
  }

  /** However long one asks, issues less than an hour apart from each other never number more than five:
      the counter's time to live restarts with each, so the cap is on chains, not only on hours. */
  lemma {:induction false} ChainsAreShort(rs: seq<Request>, k: nat)
    requires k <= |IssueTimes(rs)|
    ensures Chain(IssueTimes(rs)[..k], HOUR) <= HOUR_CAP
  {
    if k == |IssueTimes(rs)| {
      IssuesFollowed(rs);
      assert IssueTimes(rs)[..k] == IssueTimes(rs);
    } else {
      ChainsAreShort(rs[..|rs| - 1], k);
      assert IssueTimes(rs)[..k] == IssueTimes(rs[..|rs| - 1])[..k];
    }
  }

  function Inside(times: seq<real>, from: real): seq<real> { Filter(times, t => from <= t < from + HOUR) }

  predicate Increasing(times: seq<real>) { forall i :: 0 < i < |times| ==> times[i - 1] < times[i] }

  /** The issues of one hour belong to one chain. */
  lemma {:induction false} HourIsInChain(times: seq<real>, from: real)
    requires Increasing(times)
    ensures times != [] && from <= times[|times| - 1] < from + HOUR ==> |Inside(times, from)| <= Chain(times, HOUR)
    ensures times == [] || times[|times| - 1] < from ==> Inside(times, from) == []
  {
    var n := |times|;
    if n == 0 {
    } else {
      var before := times[..n - 1];
      HourIsInChain(before, from);
      assert times == before + [times[n - 1]];
      FilterAppend(before, times[n - 1], t => from <= t < from + HOUR);
    }
  }

  lemma {:induction false} HourBounded(times: seq<real>, from: real, cap: nat)
    requires Increasing(times) && forall k :: 0 <= k <= |times| ==> Chain(times[..k], HOUR) <= cap
    ensures |Inside(times, from)| <= cap
  {
    var n := |times|;
    if n == 0 {
    } else {
      var before := times[..n - 1];
      forall k | 0 <= k <= n - 1 ensures Chain(before[..k], HOUR) <= cap {
        assert before[..k] == times[..k];
      }
      HourBounded(before, from, cap);
      assert times == before + [times[n - 1]];
      assert times[..n] == times;
      FilterAppend(before, times[n - 1], t => from <= t < from + HOUR);
      HourIsInChain(times, from);
    }
  }

  /** No hour, wherever it starts, holds more than five issues. */
  lemma FewIssuesAnHour(rs: seq<Request>, from: real)
    ensures |Inside(IssueTimes(rs), from)| <= HOUR_CAP
  {
    var times := IssueTimes(rs);
    forall i | 0 < i < |times| ensures times[i - 1] < times[i] {
      IssuesAreSpaced(rs, i - 1);
    }
    forall k | 0 <= k <= |times| ensures Chain(times[..k], HOUR) <= HOUR_CAP {
      ChainsAreShort(rs, k);
    }
    HourBounded(times, from, HOUR_CAP);
  }

  // ----- Exactly when a code is refused -----

  /** The last of some times. */
  function Last(times: seq<real>): real
    requires times != []
  {
    times[|times| - 1]
  }

  /** The rule as programmed: five issues in a chain whose last is less than an hour old. */
  predicate ChainRefusal(times: seq<real>, now: real) {
    times != [] && 60.0 <= now - Last(times) < 3600.0 && Chain(times, 3600.0) >= 5
  }

  /** The answer to any request for a code, told by the issues so far. */
  lemma IssueAnswer(rs: seq<Request>, now: real, code: string)
    ensures var (times, a) := (IssueTimes(rs), Reply(Run(rs), Issue(now, code)));
      && (a.TooSoon? <==> times != [] && now - Last(times) < 60.0)
      && (a.TooMany? <==> ChainRefusal(times, now))
      && (a.TooSoon? || a.TooMany? || a.Issued?)
  {
    IssuesFollowed(rs);
  }

  /** The issues less than an hour old. */
  function LastHour(times: seq<real>, now: real): seq<real> { Filter(times, t => now - t < 3600.0) }

  lemma {:induction false} LastHourCount(times: seq<real>, now: real, k: nat)
    requires Increasing(times) && 0 < k
    ensures |LastHour(times, now)| >= k <==> k <= |times| && now - times[|times| - k] < HOUR
  {
    var n := |times|;
    if n == 0 {
    } else {
      var before := times[..n - 1];
      assert times == before + [times[n - 1]];
      FilterAppend(before, times[n - 1], t => now - t < HOUR);
      if k > 1 {
        LastHourCount(before, now, k - 1);
      }
      LastHourCount(before, now, k);
      IncreasingAll(times);
    }
  }

  lemma {:induction false} IncreasingAll(times: seq<real>)
    requires Increasing(times)
    ensures forall i, j :: 0 <= i < j < |times| ==> times[i] < times[j]
  {
    if times == [] {
    } else {
      var before := times[..|times| - 1];
      IncreasingAll(before);
      forall i, j | 0 <= i < j < |times| ensures times[i] < times[j] {
        if j < |before| {
          assert before[i] < before[j];
        } else if i < j - 1 {
          assert before[i] < before[j - 1];
        }
      }
    }
  }

  lemma {:induction false} ChainCovers(times: seq<real>, k: nat)
    requires Increasing(times) && 0 < k <= |times| && Last(times) - times[|times| - k] < HOUR
    ensures Chain(times, HOUR) >= k
  {
    if k == 1 {
    } else {
      IncreasingAll(times);
      ChainCovers(times[..|times| - 1], k - 1);
    }
  }

  lemma {:induction false} ChainLength(times: seq<real>, gap: real)
    ensures Chain(times, gap) <= |times|
  {
    if times == [] {
    } else {
      ChainLength(times[..|times| - 1], gap);
    }
  }

  lemma IssuesIncrease(rs: seq<Request>)
    ensures Increasing(IssueTimes(rs))
  {
    forall i | 0 < i < |IssueTimes(rs)| ensures IssueTimes(rs)[i - 1] < IssueTimes(rs)[i] {
      IssuesAreSpaced(rs, i - 1);
    }
  }

  /** The rule as documented: five issues in the last hour, whatever came before. */
  predicate HourlyRefusal(times: seq<real>, now: real) {
    (times != [] ==> 60.0 <= now - Last(times)) && |LastHour(times, now)| >= 5
  }

  lemma FifthBack(times: seq<real>, now: real)
    requires Increasing(times)
    ensures HourlyRefusal(times, now) <==> |times| >= HOUR_CAP && MIN_INTERVAL <= now - Last(times)
                                           && now - times[|times| - HOUR_CAP] < HOUR
  {
    LastHourCount(times, now, HOUR_CAP);
  }

  lemma HourlyIsChained(times: seq<real>, now: real)
    requires Increasing(times) && HourlyRefusal(times, now)
    ensures ChainRefusal(times, now)
  {
    FifthBack(times, now);
    IncreasingAll(times);
    ChainCovers(times, HOUR_CAP);
  }

  lemma RulesAgree(times: seq<real>, now: real)
    requires Increasing(times)
    ensures HourlyRefusal(times, now) ==> ChainRefusal(times, now)
    ensures (ChainRefusal(times, now) <==> HourlyRefusal(times, now)) <==>
      !ChainRefusal(times, now) || (|times| >= HOUR_CAP && now - times[|times| - HOUR_CAP] < HOUR)
  {
    FifthBack(times, now);
    if HourlyRefusal(times, now) {
      HourlyIsChained(times, now);
    }
  }

  /** The code refuses whenever the documented rule would, and agrees with it except when the fifth issue
      back in an unbroken chain is already an hour old. */
  lemma CapAgreesExactly(rs: seq<Request>, times: seq<real>, now: real, code: string)
    requires times == IssueTimes(rs)
    ensures HourlyRefusal(times, now) ==> Reply(Run(rs), Issue(now, code)).TooMany?
    ensures (Reply(Run(rs), Issue(now, code)).TooMany? <==> HourlyRefusal(times, now)) <==>
      !ChainRefusal(times, now) || (|times| >= HOUR_CAP && now - times[|times| - HOUR_CAP] < HOUR)
  {
    IssueAnswer(rs, now, code);
    IssuesIncrease(rs);
    RulesAgree(times, now);
  }

  lemma IssuedNext(rs: seq<Request>, now: real, code: string)
    requires var times := IssueTimes(rs);
      times == [] || now - Last(times) >= HOUR || (now - Last(times) >= MIN_INTERVAL && Chain(times, HOUR) < HOUR_CAP)
    ensures IssueTimes(rs + [Issue(now, code)]) == IssueTimes(rs) + [now]
  {
    IssueAnswer(rs, now, code);
    assert (rs + [Issue(now, code)])[..|rs|] == rs;
  }

  lemma FiveIssues(code: string) returns (rs: seq<Request>)
    ensures IssueTimes(rs) == [0.0, 3000.0, 6000.0, 9000.0, 12000.0] && Chain(IssueTimes(rs), HOUR) == 5
  {
    rs := [];
    var times: seq<real> := [];
    for i := 0 to 5
      invariant IssueTimes(rs) == times && |times| == i && Chain(times, HOUR) == i
      invariant forall k :: 0 <= k < i ==> times[k] == 3000.0 * k as real
    {
      var now := 3000.0 * i as real;
      IssuedNext(rs, now, code);
      ChainAppend(times, now, HOUR);
      rs, times := rs + [Issue(now, code)], times + [now];
    }
  }

  lemma OneInLastHour(early: seq<real>, last: real, now: real)
    requires (forall t <- early :: now - t >= HOUR) && now - last < HOUR
    ensures LastHour(early + [last], now) == [last]
  {
    FilterNone(early, t => now - t < HOUR);
    FilterAppend(early, last, t => now - t < HOUR);
  }

  /** Asking every fifty minutes: the sixth request is refused with a single issue in the last hour. */
  lemma SixthIsRefused(code: string) returns (rs: seq<Request>)
    ensures IssueTimes(rs) == [0.0, 3000.0, 6000.0, 9000.0, 12000.0]
    ensures Reply(Run(rs), Issue(15000.0, code)).TooMany? && LastHour(IssueTimes(rs), 15000.0) == [12000.0]
  {
    rs := FiveIssues(code);
    IssueAnswer(rs, 15000.0, code);
    OneInLastHour([0.0, 3000.0, 6000.0, 9000.0], 12000.0, 15000.0);
    assert IssueTimes(rs) == [0.0, 3000.0, 6000.0, 9000.0] + [12000.0];
  }

  // ----- Exactly when a guess verifies -----

  /** The code issued last, when nothing has used it up or struck it out. */
  function Outstanding(rs: seq<Request>): Option<(real, string)> {
    if rs == [] then None else
      var (before, last) := (rs[..|rs| - 1], rs[|rs| - 1]);
      match LastReply(rs)
      case Issued => Some((last.now, last.code))
      case Right => None
      case Locked => None
      case _ => Outstanding(before)
  }

  /** The wrong guesses since the last right one, whichever codes they were made against. */
  function Misses(rs: seq<Request>): seq<real> {
    if rs == [] || LastReply(rs).Right? then []
    else Misses(rs[..|rs| - 1]) + if LastReply(rs).Wrong? then [rs[|rs| - 1].now] else []
  }

  predicate FollowsGuesses(d: Desk, outstanding: Option<(real, string)>, misses: seq<real>) {
    && d.code == (match outstanding case None => None case Some((t, code)) => Some(Entry(code, t + CODE_TTL)))
    && d.fails == if misses == [] then None else Some(Entry(Chain(misses, CODE_TTL), Last(misses) + CODE_TTL))
  }

  lemma GuessFollowed(d: Desk, o: Option<(real, string)>, misses: seq<real>, r: Request)
    requires FollowsGuesses(d, o, misses)
    ensures var a := Reply(d, r);
      FollowsGuesses(Next(d, r),
                     if a.Issued? then Some((r.now, r.code)) else if a.Right? || a.Locked? then None else o,
                     if a.Right? then [] else if a.Wrong? then misses + [r.now] else misses)
  {
    ChainAppend(misses, r.now, CODE_TTL);
  }

  lemma {:induction false} GuessesFollowed(rs: seq<Request>)
    ensures FollowsGuesses(Run(rs), Outstanding(rs), Misses(rs))
  {
    if rs == [] {
    } else {
      var before := rs[..|rs| - 1];
      GuessesFollowed(before);
      GuessFollowed(Run(before), Outstanding(before), Misses(before), rs[|rs| - 1]);
      assert Misses(before) + [] == Misses(before);
    }
  }

  /** Five wrong guesses, each within five minutes of the one before, the last still that recent. */
  predicate LockedOut(misses: seq<real>, now: real) {
    misses != [] && now - Last(misses) < 300.0 && Chain(misses, 300.0) >= 5
  }

  /** The answer to any guess, told by the requests so far. */
  lemma GuessAnswer(rs: seq<Request>, now: real, guess: string)
    ensures var (a, o) := (Reply(Run(rs), Verify(now, guess)), Outstanding(rs));
      && (a.Locked? <==> LockedOut(Misses(rs), now))
      && (a.Right? <==>
            !LockedOut(Misses(rs), now) && o.Some? && now - o.value.0 < 300.0 && o.value.1 == Strip(guess))
      && (a.Wrong? <==>
            !LockedOut(Misses(rs), now) && o.Some? && now - o.value.0 < 300.0 && o.value.1 != Strip(guess))
      && (a.NoCode? <==> !LockedOut(Misses(rs), now) && (o.None? || now - o.value.0 >= 300.0))
  {
    GuessesFollowed(rs);
  }

  /** Wrong guesses at earlier codes count: while they lock, the first guess at a fresh code, even a right
      one, is refused and strikes the code out. */
  lemma FreshCodeStruckOut(rs: seq<Request>, t: real, code: string, now: real)
    requires Reply(Run(rs), Issue(t, code)).Issued? && LockedOut(Misses(rs), now)
    ensures var issued := rs + [Issue(t, code)];
      && Outstanding(issued) == Some((t, code))
      && Reply(Run(issued), Verify(now, code)).Locked?
      && Outstanding(issued + [Verify(now, code)]) == None
  {
    var issued := rs + [Issue(t, code)];
    assert issued[..|rs|] == rs;
    assert Misses(rs) + [] == Misses(rs);
    GuessAnswer(issued, now, code);
    assert (issued + [Verify(now, code)])[..|issued|] == issued;
  }

  lemma MissedOnce(rs: seq<Request>, t: real, code: string, now: real, guess: string)
    requires Outstanding(rs) == Some((t, code)) && now - t < CODE_TTL && Strip(guess) != code
    requires !LockedOut(Misses(rs), now)
    ensures var more := rs + [Verify(now, guess)];
      Outstanding(more) == Outstanding(rs) && Misses(more) == Misses(rs) + [now] && IssueTimes(more) == IssueTimes(rs)
  {
    GuessesFollowed(rs);
    assert (rs + [Verify(now, guess)])[..|rs|] == rs;
    assert IssueTimes(rs) + [] == IssueTimes(rs);
  }

  /** A code at 0, and n wrong guesses from 10 seconds on. */
  predicate Guessed(rs: seq<Request>, code: string, guess: string, n: nat) {
    |rs| == n + 1 && rs[0] == Issue(0.0, code) && forall k :: 1 <= k <= n ==> rs[k] == Verify(9.0 + k as real, guess)
  }

  predicate Ticks(misses: seq<real>) {
    Chain(misses, CODE_TTL) == |misses| && forall k :: 0 <= k < |misses| ==> misses[k] == 10.0 + k as real
  }

  predicate Missed(rs: seq<Request>, code: string, misses: seq<real>) {
    Outstanding(rs) == Some((0.0, code)) && IssueTimes(rs) == [0.0] && Misses(rs) == misses
  }

  lemma OneTick(misses: seq<real>, now: real)
    requires Ticks(misses) && now == 10.0 + |misses| as real
    ensures Ticks(misses + [now])
  {
    ChainAppend(misses, now, CODE_TTL);
  }

  lemma NotYetLocked(misses: seq<real>, now: real)
    requires Ticks(misses) && |misses| < 5
    ensures !LockedOut(misses, now)
  {
  }

  lemma MissedAgain(rs: seq<Request>, code: string, guess: string, misses: seq<real>, now: real)
    requires Strip(guess) != code && Missed(rs, code, misses)
    requires now < CODE_TTL && !LockedOut(misses, now)
    ensures Missed(rs + [Verify(now, guess)], code, misses + [now])
  {
    MissedOnce(rs, 0.0, code, now, guess);
  }

  /** A code, wrong guesses at 10 to 14 seconds. */
  lemma FiveMisses(code: string, guess: string) returns (rs: seq<Request>)
    requires Strip(guess) != code
    ensures |rs| == 6 && rs[0] == Issue(0.0, code)
    ensures forall k :: 1 <= k < 6 ==> rs[k] == Verify(9.0 + k as real, guess)
    ensures IssueTimes(rs) == [0.0] && LockedOut(Misses(rs), 61.0)
  {
    IssuedNext([], 0.0, code);
    rs := [] + [Issue(0.0, code)];
    assert rs[..0] == [] && rs == [Issue(0.0, code)];
    var misses: seq<real> := [];
    for i := 0 to 5
      invariant |misses| == i && Ticks(misses) && Guessed(rs, code, guess, i) && Missed(rs, code, misses)
    {
      var now := 10.0 + i as real;
      NotYetLocked(misses, now);
      OneTick(misses, now);
      MissedAgain(rs, code, guess, misses, now);
      rs, misses := rs + [Verify(now, guess)], misses + [now];
    }
  }

  /** After five misses a new request is not enough: the code it brings is struck out by the first guess, even the
      right one. */
  lemma NewCodeStruckOut(first: string, guess: string, code: string) returns (rs: seq<Request>)
    requires Strip(guess) != first
    ensures |rs| == 7 && rs[0] == Issue(0.0, first) && rs[6] == Issue(60.0, code)
    ensures forall k :: 1 <= k < 6 ==> rs[k] == Verify(9.0 + k as real, guess)
    ensures LastReply(rs).Issued? && Reply(Run(rs), Verify(61.0, code)).Locked?
  {
    var before := FiveMisses(first, guess);
    IssueAnswer(before, 60.0, code);
    FreshCodeStruckOut(before, 60.0, code, 61.0);
    rs := before + [Issue(60.0, code)];
    assert rs[..|before|] == before;
  }
}

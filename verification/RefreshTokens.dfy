/** Rotation of refresh tokens: four outcomes of a refresh, and what they keep over whole runs. */
module RefreshTokens {
  import opened Common

  type TokenId = nat
  type AccountId = nat
  type Instant = int

  const GRACE: int := 60_000_000
  const LIFETIME: int := 180 * 86_400_000_000

  /** A stored token; its identifier is its place in the table. */
  datatype Token = Token(user: AccountId, revoked: bool, revokedAt: Option<Instant>, rotatedTo: Option<TokenId>,
                         expires: Instant)

  /** Why a token was issued.  The program does not store this; it is the history by which
      sessions are told apart. */
  datatype Birth = ByLogin | ByRotation(of: TokenId) | ByGrace(of: TokenId) | ByLostResponse(of: TokenId)

  datatype Store = Store(tokens: seq<Token>, births: seq<Birth>)

  /** `usable` says whether the owner may sign in; `presented` beyond the table is an unknown token. */
  datatype Step =
    | Login(user: AccountId, now: Instant)
    | Refresh(presented: TokenId, usable: bool, now: Instant)
    | Logout(presented: TokenId, actor: AccountId, now: Instant)
    | LogoutAll(user: AccountId, now: Instant)
    | ChangePassword(user: AccountId, correct: bool, now: Instant)

  datatype Outcome = Rotated | Grace | LostResponse | Theft | Rejected

  predicate WithinGrace(t: Token, now: Instant) {
    t.rotatedTo.Some? && t.revokedAt.Some? && now - t.revokedAt.value <= GRACE
  }

  predicate Alive(t: Token, now: Instant) { !t.revoked && t.expires > now }

  /** What presenting a token leads to. */
  function Classified(tokens: seq<Token>, p: TokenId, usable: bool, now: Instant): Outcome {
    if p >= |tokens| then Rejected
    else if !tokens[p].revoked then (if Alive(tokens[p], now) && usable then Rotated else Rejected)
    else if WithinGrace(tokens[p], now) then (if usable then Grace else Rejected)
    else
      var next := tokens[p].rotatedTo;
      if next.Some? && tokens[p].expires > now && next.value < |tokens| && Alive(tokens[next.value], now)
      then (if usable then LostResponse else Rejected)
      else Theft
  }

  /** What a request does: revoke some tokens, link one of them to the token issued, and issue one. */
  datatype Effect = Effect(revoked: set<TokenId>, link: Option<TokenId>, issue: Option<Issue>)
  datatype Issue = Issue(user: AccountId, birth: Birth)

  const IDLE := Effect({}, None, None)

  function LiveIn(tokens: seq<Token>, u: AccountId): set<TokenId> {
    set i | 0 <= i < |tokens| && tokens[i].user == u && !tokens[i].revoked
  }

  function EffectOf(tokens: seq<Token>, step: Step): Effect {
    match step
    case Login(user, _) => Effect({}, None, Some(Issue(user, ByLogin)))
    case Refresh(p, usable, now) =>
      (match Classified(tokens, p, usable, now)
       case Rotated => Effect({p}, Some(p), Some(Issue(tokens[p].user, ByRotation(p))))
       case Grace => Effect({}, None, Some(Issue(tokens[p].user, ByGrace(p))))
       case LostResponse => Effect({tokens[p].rotatedTo.value}, None, Some(Issue(tokens[p].user, ByLostResponse(p))))
       case Theft => Effect(LiveIn(tokens, tokens[p].user), None, None)
       case Rejected => IDLE)
    case Logout(p, actor, _) => if p < |tokens| && tokens[p].user == actor then Effect({p}, None, None) else IDLE
    case LogoutAll(user, _) => Effect(LiveIn(tokens, user), None, None)
    case ChangePassword(user, correct, _) => if correct then Effect(LiveIn(tokens, user), None, None) else IDLE
  }

  function Touched(t: Token, i: TokenId, e: Effect, next: TokenId, now: Instant): Token {
    if i in e.revoked
    then t.(revoked := true, revokedAt := Some(now), rotatedTo := if e.link == Some(i) then Some(next) else t.rotatedTo)
    else t
  }

  function Apply(s: Store, e: Effect, now: Instant): (r: Store)
    ensures |r.tokens| == |s.tokens| + if e.issue.Some? then 1 else 0
    ensures forall i :: 0 <= i < |s.tokens| ==> r.tokens[i] == Touched(s.tokens[i], i, e, |s.tokens|, now)
  {
    var kept := seq(|s.tokens|, i requires 0 <= i < |s.tokens| => Touched(s.tokens[i], i, e, |s.tokens|, now));
    match e.issue
    case None => Store(kept, s.births)
    case Some(n) => Store(kept + [Token(n.user, false, None, None, now + LIFETIME)], s.births + [n.birth])
  }

  function Next(s: Store, step: Step): Store { Apply(s, EffectOf(s.tokens, step), step.now) }

  function Run(s: Store, steps: seq<Step>): Store
    decreases |steps|
  {
    if steps == [] then s else Run(Next(s, steps[0]), steps[1..])
  }

  // ----- What presenting a token does, told by its row -----

  function Stamped(t: Token, now: Instant): Token { t.(revoked := true, revokedAt := Some(now)) }

  function New(user: AccountId, now: Instant): Token { Token(user, false, None, None, now + LIFETIME) }

  /** A live token is replaced by a new one, which its row then names, exactly when it has not expired and its owner
      may sign in; otherwise nothing changes. */
  ghost predicate LiveAnswer(before: seq<Token>, p: TokenId, usable: bool, now: Instant, after: seq<Token>)
    requires p < |before|
  {
    var t := before[p];
    after == if t.expires > now && usable
      then before[p := Token(t.user, true, Some(now), Some(|before|), t.expires)] + [New(t.user, now)]
      else before
  }

  /** Rotated no longer than the grace window ago, by the stamp in the row. */
  predicate JustRotated(t: Token, now: Instant) {
    t.revoked && t.rotatedTo.Some? && t.revokedAt.Some? && now <= t.revokedAt.value + GRACE
  }

  /** The token issued in its place lives still, and neither has expired. */
  predicate Unanswered(tokens: seq<Token>, t: Token, now: Instant) {
    && t.revoked && t.rotatedTo.Some? && t.rotatedTo.value < |tokens| && t.expires > now
    && !tokens[t.rotatedTo.value].revoked && tokens[t.rotatedTo.value].expires > now
  }

  /** A revoked token: inside the grace window it is served beside its successor; later it is served in place of a
      successor nobody has used; otherwise all live tokens of its owner are revoked.  An owner who may not sign in
      is served nothing, and nothing changes. */
  ghost predicate RevokedAnswer(before: seq<Token>, p: TokenId, usable: bool, now: Instant, after: seq<Token>)
    requires p < |before|
  {
    var t := before[p];
    if JustRotated(t, now) then after == if usable then before + [New(t.user, now)] else before
    else if Unanswered(before, t, now) then
      var d := t.rotatedTo.value;
      after == if usable then before[d := Stamped(before[d], now)] + [New(t.user, now)] else before
    else
      && |after| == |before|
      && forall i :: 0 <= i < |before| ==>
          after[i] == if before[i].user == t.user && !before[i].revoked then Stamped(before[i], now) else before[i]
  }

  /** The table after a token has been presented. */
  ghost predicate Answered(before: seq<Token>, p: TokenId, usable: bool, now: Instant, after: seq<Token>) {
    if p >= |before| then after == before
    else if before[p].revoked then RevokedAnswer(before, p, usable, now, after)
    else LiveAnswer(before, p, usable, now, after)
  }

  /** What a request to refresh leaves, told by the row of the token presented. */
  lemma RefreshAnswers(s: Store, p: TokenId, usable: bool, now: Instant)
    ensures Answered(s.tokens, p, usable, now, Next(s, Refresh(p, usable, now)).tokens)
  {
    var t := Next(s, Refresh(p, usable, now));
    var e := EffectOf(s.tokens, Refresh(p, usable, now));
    assert forall i :: 0 <= i < |s.tokens| ==> t.tokens[i] == Touched(s.tokens[i], i, e, |s.tokens|, now);
  }

  // ----- The table and the service -----

  class AuthService {
    var tokens: seq<Token>
    ghost var births: seq<Birth>

    ghost function View(): Store reads this { Store(tokens, births) }

    constructor ()
      ensures View() == Store([], [])
    {
      tokens, births := [], [];
    }

    method IssueToken(user: AccountId, ghost birth: Birth, now: Instant) returns (id: TokenId)
      modifies this
      ensures id == |old(tokens)| && tokens == old(tokens) + [Token(user, false, None, None, now + LIFETIME)]
      ensures births == old(births) + [birth]
    {
      id := |tokens|;
      tokens := tokens + [Token(user, false, None, None, now + LIFETIME)];
      births := births + [birth];
    }

    method SignIn(user: AccountId, now: Instant) returns (id: TokenId)
      modifies this
      ensures id == |old(tokens)| && View() == Next(old(View()), Login(user, now))
      ensures tokens == old(tokens) + [Token(user, false, None, None, now + LIFETIME)]
    {
      id := IssueToken(user, ByLogin, now);
    }

    /** Looks the token up whatever its state: a revoked one is a parallel refresh, a lost answer
        or a theft; a live one is rotated.  An unusable owner undoes the request. */
    method RefreshTokens(p: TokenId, usable: bool, now: Instant) returns (outcome: Outcome, issued: Option<TokenId>)
      modifies this
      ensures outcome == Classified(old(tokens), p, usable, now)
      ensures View() == Next(old(View()), Refresh(p, usable, now))
      ensures Answered(old(tokens), p, usable, now, tokens)
      ensures issued == if |tokens| > |old(tokens)| then Some(|old(tokens)|) else None
    {
      RefreshAnswers(View(), p, usable, now);
      if p >= |tokens| { return Rejected, None; }
      var seen := tokens[p];
      if seen.revoked {
        var parallel := seen.revokedAt.Some? && seen.rotatedTo.Some? && now - seen.revokedAt.value <= GRACE;
        var lost := false;
        var before := tokens;
        if !parallel && seen.rotatedTo.Some? && seen.expires > now {
          var next := seen.rotatedTo.value;
          if next < |tokens| && !tokens[next].revoked && tokens[next].expires > now {
            tokens := tokens[next := tokens[next].(revoked := true, revokedAt := Some(now))];
            lost := true;
          }
        }
        if parallel || lost {
          if !usable {
            tokens := before;
            return Rejected, None;
          }
          var id := IssueToken(seen.user, if parallel then ByGrace(p) else ByLostResponse(p), now);
          return (if parallel then Grace else LostResponse), Some(id);
        }
        RevokeSessions(seen.user, now);
        return Theft, None;
      }
      if seen.expires <= now || !usable { return Rejected, None; }
      var id := IssueToken(seen.user, ByRotation(p), now);
      tokens := tokens[p := tokens[p].(revoked := true, revokedAt := Some(now), rotatedTo := Some(id))];
      return Rotated, Some(id);
    }

    method SignOut(p: TokenId, actor: AccountId, now: Instant)
      modifies this
      ensures View() == Next(old(View()), Logout(p, actor, now))
      ensures tokens == if p < |old(tokens)| && old(tokens)[p].user == actor
        then old(tokens)[p := Stamped(old(tokens)[p], now)] else old(tokens)
    {
      if p < |tokens| && tokens[p].user == actor {
        tokens := tokens[p := tokens[p].(revoked := true, revokedAt := Some(now))];
      }
    }

    /** Walks over the user's live tokens; links to successors are left as they are. */
    method RevokeSessions(user: AccountId, now: Instant)
      modifies this
      ensures View() == Next(old(View()), LogoutAll(user, now))
      ensures |tokens| == |old(tokens)| && forall i :: 0 <= i < |tokens| ==>
        tokens[i] == if old(tokens)[i].user == user && !old(tokens)[i].revoked then Stamped(old(tokens)[i], now)
                     else old(tokens)[i]
    {
      for i := 0 to |tokens|
        invariant births == old(births) && |tokens| == |old(tokens)|
        invariant forall k :: 0 <= k < i ==> tokens[k] == Next(old(View()), LogoutAll(user, now)).tokens[k]
        invariant forall k :: i <= k < |tokens| ==> tokens[k] == old(tokens)[k]
      {
        if tokens[i].user == user && !tokens[i].revoked {
          tokens := tokens[i := tokens[i].(revoked := true, revokedAt := Some(now))];
        }
      }
    }

    method ChangeOwnPassword(user: AccountId, correct: bool, now: Instant) returns (ok: bool)
      modifies this
      ensures ok == correct && View() == Next(old(View()), ChangePassword(user, correct, now))
      ensures |tokens| == |old(tokens)| && forall i :: 0 <= i < |tokens| ==>
        tokens[i] == if correct && old(tokens)[i].user == user && !old(tokens)[i].revoked
                     then Stamped(old(tokens)[i], now) else old(tokens)[i]
    {
      if !correct { return false; }
      RevokeSessions(user, now);
      return true;
    }
  }

  // ----- Links -----

  function Parent(b: Birth): Option<TokenId> { if b.ByLogin? then None else Some(b.of) }

  /** A token whose rotation issued another leads to it. */
  ghost predicate Mirrored(tokens: seq<Token>, births: seq<Birth>) {
    forall j :: 0 <= j < |births| && births[j].ByRotation? ==>
      births[j].of < |tokens| && tokens[births[j].of].rotatedTo == Some(j)
  }

  /** A link leads to the token the rotation issued. */
  ghost predicate Linked(tokens: seq<Token>, births: seq<Birth>) {
    forall i :: 0 <= i < |tokens| && tokens[i].rotatedTo.Some? ==>
      var j := tokens[i].rotatedTo.value;
      tokens[i].revoked && j < |births| && births[j] == ByRotation(i)
  }

  /** A token issued for another is later and of the same user. */
  ghost predicate Descends(tokens: seq<Token>, births: seq<Birth>) {
    forall j :: 0 <= j < |births| && !births[j].ByLogin? ==>
      births[j].of < j < |tokens| && tokens[births[j].of].user == tokens[j].user
  }

  /** Links and births mirror each other: a token leads to the one its rotation issued. */
  ghost predicate Inv(s: Store) {
    && |s.births| == |s.tokens|
    && (forall i :: 0 <= i < |s.tokens| ==> (s.tokens[i].revoked ==> s.tokens[i].revokedAt.Some?))
    && Linked(s.tokens, s.births)
    && Descends(s.tokens, s.births)
    && Mirrored(s.tokens, s.births)
  }

  /** The identity of old rows: owner and expiry never change, revocation is never undone and a
      link is written at most once, at the rotation of a live token. */
  ghost predicate Grows(s: Store, t: Store) {
    && |s.tokens| <= |t.tokens| && s.births <= t.births
    && forall i :: 0 <= i < |s.tokens| ==>
        var (x, y) := (s.tokens[i], t.tokens[i]);
        && y.user == x.user && y.expires == x.expires
        && (x.revoked ==> y.revoked && y.rotatedTo == x.rotatedTo)
  }

  /** The effects requests have. */
  ghost predicate Sound(s: Store, e: Effect) {
    && (e.link.Some? ==>
          && e.link.value in e.revoked && e.link.value < |s.tokens| && !s.tokens[e.link.value].revoked
          && e.issue == Some(Issue(s.tokens[e.link.value].user, ByRotation(e.link.value))))
    && (e.issue.Some? && !e.issue.value.birth.ByLogin? ==>
          e.issue.value.birth.of < |s.tokens| && s.tokens[e.issue.value.birth.of].user == e.issue.value.user)
    && (e.issue.Some? && e.issue.value.birth.ByRotation? ==> e.link == Some(e.issue.value.birth.of))
  }

  lemma EffectIsSound(s: Store, step: Step)
    ensures Sound(s, EffectOf(s.tokens, step))
  {
  }

  lemma SoundMirrors(s: Store, e: Effect, now: Instant)
    requires Inv(s) && Sound(s, e)
    ensures Mirrored(Apply(s, e, now).tokens, Apply(s, e, now).births)
  {
    var t := Apply(s, e, now);
    forall j | 0 <= j < |t.births| && t.births[j].ByRotation?
      ensures t.births[j].of < |t.tokens| && t.tokens[t.births[j].of].rotatedTo == Some(j)
    {
    }
  }

  lemma SoundLinks(s: Store, e: Effect, now: Instant)
    requires Inv(s) && Sound(s, e)
    ensures Linked(Apply(s, e, now).tokens, Apply(s, e, now).births)
  {
    var t := Apply(s, e, now);
    forall i | 0 <= i < |t.tokens| && t.tokens[i].rotatedTo.Some?
      ensures var j := t.tokens[i].rotatedTo.value;
        t.tokens[i].revoked && j < |t.births| && t.births[j] == ByRotation(i)
    {
      if i < |s.tokens| && s.tokens[i].rotatedTo.Some? {
        assert s.births[s.tokens[i].rotatedTo.value] == ByRotation(i);
      }
    }
  }

  lemma SoundDescends(s: Store, e: Effect, now: Instant)
    requires Inv(s) && Sound(s, e)
    ensures Descends(Apply(s, e, now).tokens, Apply(s, e, now).births)
  {
    var t := Apply(s, e, now);
    forall j | 0 <= j < |t.births| && !t.births[j].ByLogin?
      ensures t.births[j].of < j < |t.tokens| && t.tokens[t.births[j].of].user == t.tokens[j].user
    {
    }
  }

  lemma SoundKeeps(s: Store, e: Effect, now: Instant)
    requires Inv(s) && Sound(s, e)
    ensures Inv(Apply(s, e, now)) && Grows(s, Apply(s, e, now))
  {
    SoundMirrors(s, e, now);
    SoundLinks(s, e, now);
    SoundDescends(s, e, now);
  }

  lemma StepKeeps(s: Store, step: Step)
    requires Inv(s)
    ensures Inv(Next(s, step)) && Grows(s, Next(s, step))
  {
    EffectIsSound(s, step);
    SoundKeeps(s, EffectOf(s.tokens, step), step.now);
  }

  lemma {:induction false} RunKeeps(s: Store, steps: seq<Step>)
    requires Inv(s)
    ensures Inv(Run(s, steps)) && Grows(s, Run(s, steps))
    decreases |steps|
  {
    if steps == [] {
    } else {
      StepKeeps(s, steps[0]);
      RunKeeps(Next(s, steps[0]), steps[1..]);
    }
  }

  /** In every reachable table links are write-once, injective, within one user and acyclic. */
  lemma LinksAreChains(steps: seq<Step>, more: seq<Step>, i: TokenId, k: TokenId)
    requires i < |Run(Store([], []), steps).tokens| && Run(Store([], []), steps).tokens[i].rotatedTo.Some?
    ensures var s := Run(Store([], []), steps); var j := s.tokens[i].rotatedTo.value;
      && i < j < |s.tokens| && s.tokens[j].user == s.tokens[i].user
      && (k < |s.tokens| && k != i ==> s.tokens[k].rotatedTo != Some(j))
      && i < |Run(s, more).tokens| && Run(s, more).tokens[i].rotatedTo == Some(j)
  {
    RunKeeps(Store([], []), steps);
    RunKeeps(Run(Store([], []), steps), more);
  }

  /** In every reachable table a token names the one its rotation issued, and no other. */
  lemma RotationsAreLinked(steps: seq<Step>, i: TokenId, j: TokenId)
    requires i < |Run(Store([], []), steps).tokens|
    ensures var s := Run(Store([], []), steps);
      |s.births| == |s.tokens| &&
      (s.tokens[i].rotatedTo == Some(j) <==> j < |s.births| && s.births[j] == ByRotation(i))
  {
    RunKeeps(Store([], []), steps);
  }

  // ----- Live tokens of a user -----

  function LiveOf(s: Store, u: AccountId): set<TokenId> { LiveIn(s.tokens, u) }

  lemma LiveAfter(s: Store, e: Effect, now: Instant, u: AccountId)
    ensures LiveOf(Apply(s, e, now), u) == LiveOf(s, u) - e.revoked +
      if e.issue.Some? && e.issue.value.user == u then {|s.tokens|} else {}
  {
  }

  predicate Issues(s: Store, step: Step, u: AccountId) {
    EffectOf(s.tokens, step).issue.Some? && EffectOf(s.tokens, step).issue.value.user == u
  }

  lemma CountAfter(s: Store, e: Effect, now: Instant, u: AccountId, n: nat)
    requires n == |LiveOf(Apply(s, e, now), u)|
    ensures n == |LiveOf(s, u) - e.revoked| + if e.issue.Some? && e.issue.value.user == u then 1 else 0
  {
    LiveAfter(s, e, now, u);
    assert |s.tokens| !in LiveOf(s, u);
  }

  function CountAfterRefresh(s: Store, p: TokenId, usable: bool, now: Instant, u: AccountId): nat {
    |LiveOf(Next(s, Refresh(p, usable, now)), u)|
  }

  lemma RotationKeepsCount(s: Store, p: TokenId, usable: bool, now: Instant)
    requires Classified(s.tokens, p, usable, now) == Rotated
    ensures CountAfterRefresh(s, p, usable, now, s.tokens[p].user) == |LiveOf(s, s.tokens[p].user)|
  {
    var u := s.tokens[p].user;
    CountAfter(s, EffectOf(s.tokens, Refresh(p, usable, now)), now, u, CountAfterRefresh(s, p, usable, now, u));
    assert p in LiveOf(s, u);
  }

  lemma SuccessorLives(s: Store, p: TokenId, usable: bool, now: Instant) returns (d: TokenId)
    requires Inv(s) && Classified(s.tokens, p, usable, now) == LostResponse
    ensures d in LiveOf(s, s.tokens[p].user) && s.births[d] == ByRotation(p)
    ensures EffectOf(s.tokens, Refresh(p, usable, now))
      == Effect({d}, None, Some(Issue(s.tokens[p].user, ByLostResponse(p))))
  {
    d := s.tokens[p].rotatedTo.value;
    assert s.births[d] == ByRotation(p);
  }

  lemma LostResponseKeepsCount(s: Store, p: TokenId, usable: bool, now: Instant)
    requires Inv(s) && Classified(s.tokens, p, usable, now) == LostResponse
    ensures CountAfterRefresh(s, p, usable, now, s.tokens[p].user) == |LiveOf(s, s.tokens[p].user)|
  {
    var u := s.tokens[p].user;
    var d := SuccessorLives(s, p, usable, now);
    CountAfter(s, EffectOf(s.tokens, Refresh(p, usable, now)), now, u, CountAfterRefresh(s, p, usable, now, u));
    SubsetSize({d}, LiveOf(s, u));
  }

  lemma GraceAddsOne(s: Store, p: TokenId, usable: bool, now: Instant)
    requires Classified(s.tokens, p, usable, now) == Grace
    ensures CountAfterRefresh(s, p, usable, now, s.tokens[p].user) == |LiveOf(s, s.tokens[p].user)| + 1
  {
    var u := s.tokens[p].user;
    CountAfter(s, EffectOf(s.tokens, Refresh(p, usable, now)), now, u, CountAfterRefresh(s, p, usable, now, u));
    assert LiveOf(s, u) - {} == LiveOf(s, u);
  }

  lemma TheftLeavesNone(s: Store, p: TokenId, usable: bool, now: Instant)
    requires Classified(s.tokens, p, usable, now) == Theft
    ensures LiveOf(Next(s, Refresh(p, usable, now)), s.tokens[p].user) == {}
  {
    LiveAfter(s, EffectOf(s.tokens, Refresh(p, usable, now)), now, s.tokens[p].user);
  }

  lemma RejectionIsIdle(s: Store, p: TokenId, usable: bool, now: Instant, u: AccountId)
    requires Classified(s.tokens, p, usable, now) == Rejected
    ensures LiveOf(Next(s, Refresh(p, usable, now)), u) == LiveOf(s, u)
  {
    LiveAfter(s, IDLE, now, u);
  }

  /** How a refresh changes the number of live tokens of the owner: not at all when it rotates or
      replaces a lost answer, by one when it serves a repeat in the grace window, to none on theft. */
  lemma LiveCount(s: Store, p: TokenId, usable: bool, now: Instant)
    requires Inv(s) && p < |s.tokens|
    ensures var u := s.tokens[p].user;
      var (before, after) := (|LiveOf(s, u)|, CountAfterRefresh(s, p, usable, now, u));
      match Classified(s.tokens, p, usable, now)
      case Rotated => after == before
      case LostResponse => after == before
      case Grace => after == before + 1
      case Theft => after == 0
      case Rejected => after == before
  {
    match Classified(s.tokens, p, usable, now)
    case Rotated => RotationKeepsCount(s, p, usable, now);
    case LostResponse => LostResponseKeepsCount(s, p, usable, now);
    case Grace => GraceAddsOne(s, p, usable, now);
    case Theft => TheftLeavesNone(s, p, usable, now);
    case Rejected => RejectionIsIdle(s, p, usable, now, s.tokens[p].user);
  }

  lemma LoginAddsOne(s: Store, u: AccountId, now: Instant)
    ensures |LiveOf(Next(s, Login(u, now)), u)| == |LiveOf(s, u)| + 1
  {
    LiveAfter(s, EffectOf(s.tokens, Login(u, now)), now, u);
    assert |s.tokens| !in LiveOf(s, u) && LiveOf(s, u) - {} == LiveOf(s, u);
  }

  lemma LogoutAllLeavesNone(s: Store, u: AccountId, now: Instant)
    ensures LiveOf(Next(s, LogoutAll(u, now)), u) == {}
  {
    LiveAfter(s, EffectOf(s.tokens, LogoutAll(u, now)), now, u);
  }

  /** A login adds one live token; signing out everywhere leaves none. */
  lemma LiveAtTheEnds(s: Store, u: AccountId, now: Instant)
    ensures |LiveOf(Next(s, Login(u, now)), u)| == |LiveOf(s, u)| + 1
    ensures LiveOf(Next(s, LogoutAll(u, now)), u) == {}
    ensures LiveOf(Next(s, ChangePassword(u, true, now)), u) == {}
  {
    LoginAddsOne(s, u, now);
    LogoutAllLeavesNone(s, u, now);
  }

  // ----- One live token a session -----

  /** The login a token descends from. */
  function Origin(births: seq<Birth>, i: TokenId): TokenId
    requires i < |births|
    decreases i
  {
    var p := Parent(births[i]);
    if p.Some? && p.value < i then Origin(births, p.value) else i
  }

  lemma {:induction false} OriginStable(b: seq<Birth>, c: seq<Birth>, i: TokenId)
    requires b <= c && i < |b|
    ensures Origin(c, i) == Origin(b, i)
    decreases i
  {
    var p := Parent(b[i]);
    if p.Some? && p.value < i { OriginStable(b, c, p.value); }
  }

  /** Live tokens descending from one login, and the reissues in a grace window among its line. */
  function LiveFrom(s: Store, login: TokenId): set<TokenId>
    requires |s.births| == |s.tokens|
  {
    set i | 0 <= i < |s.tokens| && !s.tokens[i].revoked && Origin(s.births, i) == login
  }

  function GraceFrom(s: Store, login: TokenId): set<TokenId> {
    set i | 0 <= i < |s.births| && s.births[i].ByGrace? && Origin(s.births, i) == login
  }

  ghost predicate Bounded(s: Store, login: TokenId)
    requires |s.births| == |s.tokens|
  {
    |LiveFrom(s, login)| <= |GraceFrom(s, login)| + (if login < |s.tokens| then 1 else 0)
  }

  lemma SessionAfter(s: Store, e: Effect, now: Instant, login: TokenId)
    requires |s.births| == |s.tokens|
    ensures var (t, n) := (Apply(s, e, now), |s.tokens|);
      && |t.births| == |t.tokens|
      && LiveFrom(t, login) == LiveFrom(s, login) - e.revoked +
           (if e.issue.Some? && Origin(t.births, n) == login then {n} else {})
      && GraceFrom(t, login) == GraceFrom(s, login) +
           (if e.issue.Some? && e.issue.value.birth.ByGrace? && Origin(t.births, n) == login then {n} else {})
  {
    var t := Apply(s, e, now);
    forall i | 0 <= i < |s.tokens| ensures Origin(t.births, i) == Origin(s.births, i) {
      OriginStable(s.births, t.births, i);
    }
  }

  lemma BoundedStep(s: Store, step: Step, login: TokenId)
    requires Inv(s) && Bounded(s, login)
    ensures Inv(Next(s, step)) && Bounded(Next(s, step), login)
  {
    StepKeeps(s, step);
    var e := EffectOf(s.tokens, step);
    SessionAfter(s, e, step.now, login);
    if e.issue.None? {
      SubsetSize(LiveFrom(s, login) - e.revoked, LiveFrom(s, login));
    } else if step.Login? {
      BoundedLogin(s, step, login);
    } else {
      BoundedRefresh(s, step, login);
    }
  }

  lemma BoundedLogin(s: Store, step: Step, login: TokenId)
    requires Inv(s) && Bounded(s, login) && step.Login?
    ensures |Next(s, step).births| == |Next(s, step).tokens| && Bounded(Next(s, step), login)
  {
    SessionAfter(s, EffectOf(s.tokens, step), step.now, login);
    if login == |s.tokens| {
      forall i | i in LiveFrom(s, login) ensures false { OriginBelow(s.births, i); }
      assert LiveFrom(s, login) == {};
    }
  }

  lemma {:induction false} OriginBelow(b: seq<Birth>, i: TokenId)
    requires i < |b|
    ensures Origin(b, i) <= i
    decreases i
  {
    var p := Parent(b[i]);
    if p.Some? && p.value < i { OriginBelow(b, p.value); }
  }

  lemma IssuedInSession(s: Store, step: Step)
    requires Inv(s) && step.Refresh? && EffectOf(s.tokens, step).issue.Some?
    ensures step.presented < |s.births|
    ensures Next(s, step).births == s.births + [EffectOf(s.tokens, step).issue.value.birth]
    ensures Parent(EffectOf(s.tokens, step).issue.value.birth) == Some(step.presented)
    ensures Origin(Next(s, step).births, |s.tokens|) == Origin(s.births, step.presented) < |s.tokens|
  {
    OriginStable(s.births, Next(s, step).births, step.presented);
    OriginBelow(s.births, step.presented);
  }

  lemma DisplacedInSession(s: Store, step: Step)
    requires Inv(s) && step.Refresh? && EffectOf(s.tokens, step).issue.Some?
    requires !EffectOf(s.tokens, step).issue.value.birth.ByGrace?
    ensures step.presented < |s.births|
    ensures exists d ::
      EffectOf(s.tokens, step).revoked == {d} && d in LiveFrom(s, Origin(s.births, step.presented))
  {
    var p := step.presented;
    if Classified(s.tokens, p, step.usable, step.now) == LostResponse {
      var _ := SuccessorLives(s, p, step.usable, step.now);
    } else {
      assert EffectOf(s.tokens, step).revoked == {p};
    }
  }

  /** A token issued by a refresh belongs to the session of the token presented, and so does the
      live token it takes the place of. */
  lemma RefreshStaysInSession(s: Store, step: Step)
    requires Inv(s) && step.Refresh? && EffectOf(s.tokens, step).issue.Some?
    ensures var (e, p) := (EffectOf(s.tokens, step), step.presented);
      && p < |s.births|
      && Origin(Next(s, step).births, |s.tokens|) == Origin(s.births, p) < |s.tokens|
      && (e.issue.value.birth.ByGrace? ==> e.revoked == {})
      && (!e.issue.value.birth.ByGrace? ==> exists d :: e.revoked == {d} && d in LiveFrom(s, Origin(s.births, p)))
  {
    IssuedInSession(s, step);
    if !EffectOf(s.tokens, step).issue.value.birth.ByGrace? {
      DisplacedInSession(s, step);
    }
  }

  lemma OneReplaced(live: set<TokenId>, revoked: set<TokenId>, n: TokenId)
    requires n !in live && revoked <= live
    ensures |live - revoked + {n}| == |live| - |revoked| + 1
  {
    SubsetSize(revoked, live);
  }

  lemma SomeRevoked(live: set<TokenId>, revoked: set<TokenId>)
    ensures |live - revoked| <= |live|
  {
    SubsetSize(live - revoked, live);
  }

  /** Live tokens against grace reissues when a refresh issues one, in this session or in another. */
  lemma IssuedIsBounded(live: set<TokenId>, graced: set<TokenId>, revoked: set<TokenId>, n: TokenId,
                        here: bool, grace: bool)
    requires n !in live && n !in graced
    requires here ==> revoked <= live && |revoked| == if grace then 0 else 1
    ensures |live - revoked + if here then {n} else {}| - |graced + if here && grace then {n} else {}|
      <= |live| - |graced|
  {
    if here {
      OneReplaced(live, revoked, n);
      assert !grace ==> graced + {} == graced;
    } else {
      SomeRevoked(live, revoked);
      assert live - revoked + {} == live - revoked && graced + {} == graced;
    }
  }

  lemma RefreshRevokesFew(s: Store, step: Step, login: TokenId)
    requires Inv(s) && step.Refresh? && EffectOf(s.tokens, step).issue.Some?
    ensures var (e, p) := (EffectOf(s.tokens, step), step.presented);
      && p < |s.births| && Origin(Next(s, step).births, |s.tokens|) == Origin(s.births, p)
      && (Origin(s.births, p) == login ==>
            e.revoked <= LiveFrom(s, login) && |e.revoked| == if e.issue.value.birth.ByGrace? then 0 else 1)
  {
    RefreshStaysInSession(s, step);
  }

  lemma BoundedRefresh(s: Store, step: Step, login: TokenId)
    requires Inv(s) && Bounded(s, login) && step.Refresh? && EffectOf(s.tokens, step).issue.Some?
    ensures |Next(s, step).births| == |Next(s, step).tokens| && Bounded(Next(s, step), login)
  {
    var e := EffectOf(s.tokens, step);
    SessionAfter(s, e, step.now, login);
    RefreshRevokesFew(s, step, login);
    IssuedIsBounded(LiveFrom(s, login), GraceFrom(s, login), e.revoked, |s.tokens|,
                    Origin(s.births, step.presented) == login, e.issue.value.birth.ByGrace?);
  }

  lemma {:induction false} BoundedRun(s: Store, steps: seq<Step>, login: TokenId)
    requires Inv(s) && Bounded(s, login)
    ensures Inv(Run(s, steps)) && Bounded(Run(s, steps), login)
    decreases |steps|
  {
    if steps == [] {
    } else {
      BoundedStep(s, steps[0], login);
      BoundedRun(Next(s, steps[0]), steps[1..], login);
    }
  }

  /** After any run a login has at most one live descendant, plus one for each refresh that was
      served inside a grace window; so exactly at most one when there was none. */
  lemma OneLiveTokenPerSession(steps: seq<Step>, login: TokenId)
    ensures var s := Run(Store([], []), steps);
      && |s.births| == |s.tokens|
      && |LiveFrom(s, login)| <= 1 + |GraceFrom(s, login)|
      && (forall i, j :: i in LiveFrom(s, login) && j in LiveFrom(s, login) && GraceFrom(s, login) == {} ==> i == j)
  {
    var s := Run(Store([], []), steps);
    assert LiveFrom(Store([], []), login) == {};
    BoundedRun(Store([], []), steps, login);
    forall i, j | i in LiveFrom(s, login) && j in LiveFrom(s, login) && GraceFrom(s, login) == {} ensures i == j {
      if i != j { SubsetSize({i, j}, LiveFrom(s, login)); }
    }
  }

  // ----- Tokens revoked without a successor -----

  predicate Dead(s: Store, p: TokenId) {
    p < |s.tokens| && s.tokens[p].revoked && s.tokens[p].rotatedTo.None?
  }

  /** Signing out a live token, signing out everywhere, a new password, and being displaced by the
      reissue of a lost answer: each leaves a live token dead. */
  lemma BecomesDead(s: Store, step: Step, p: TokenId)
    requires Inv(s) && p < |s.tokens| && !s.tokens[p].revoked
    requires
      || (step.Logout? && step.presented == p && step.actor == s.tokens[p].user)
      || (step.LogoutAll? && step.user == s.tokens[p].user)
      || (step.ChangePassword? && step.correct && step.user == s.tokens[p].user)
      || (step.Refresh? && Classified(s.tokens, step.presented, step.usable, step.now) == LostResponse
          && s.tokens[step.presented].rotatedTo == Some(p))
    ensures Dead(Next(s, step), p)
  {
  }

  /** A dead token stays dead in every continuation; presented at any later time it is taken for
      stolen: nothing is issued and its owner is left without a live token. */
  lemma DeadStaysDead(s: Store, p: TokenId, steps: seq<Step>, usable: bool, now: Instant)
    requires Inv(s) && Dead(s, p)
    ensures var t := Run(s, steps); var u := Next(t, Refresh(p, usable, now));
      && Dead(t, p) && Classified(t.tokens, p, usable, now) == Theft
      && |u.tokens| == |t.tokens| && LiveOf(u, s.tokens[p].user) == {}
  {
    RunKeeps(s, steps);
    TheftLeavesNone(Run(s, steps), p, usable, now);
  }

  // ----- When a user without live tokens stays without -----

  predicate Cold(s: Store, u: AccountId, now: Instant) {
    && LiveOf(s, u) == {}
    && forall i :: 0 <= i < |s.tokens| && s.tokens[i].user == u ==> !WithinGrace(s.tokens[i], now)
  }

  /** The two requests that can warm a user up: a login, and the sign-out of a token already
      rotated, which stamps the old rotation with a new time. */
  predicate Warms(s: Store, step: Step, u: AccountId) {
    || (step.Login? && step.user == u)
    || (step.Logout? && step.actor == u && step.presented < |s.tokens|
        && s.tokens[step.presented].user == u && s.tokens[step.presented].rotatedTo.Some?)
  }

  /** From a cold state a request issues to the user exactly when it is a login, and leaves the
      user cold exactly when it is neither of the two that warm. */
  lemma ColdStep(s: Store, step: Step, u: AccountId, now: Instant)
    requires Inv(s) && Cold(s, u, now) && now <= step.now
    ensures Issues(s, step, u) <==> step.Login? && step.user == u
    ensures Cold(Next(s, step), u, step.now) <==> !Warms(s, step, u)
  {
    ColdIssues(s, step, u, now);
    if Warms(s, step, u) {
      Warmed(s, step, u, now);
    } else {
      StaysCold(s, step, u, now);
    }
  }

  lemma Warmed(s: Store, step: Step, u: AccountId, now: Instant)
    requires Inv(s) && Cold(s, u, now) && now <= step.now && Warms(s, step, u)
    ensures !Cold(Next(s, step), u, step.now)
  {
    var t := Next(s, step);
    if step.Login? {
      assert |s.tokens| in LiveOf(t, u);
    } else {
      assert WithinGrace(t.tokens[step.presented], step.now);
    }
  }

  lemma TokenStaysCold(s: Store, step: Step, u: AccountId, now: Instant, i: TokenId)
    requires Inv(s) && Cold(s, u, now) && now <= step.now && !Warms(s, step, u)
    requires i < |s.tokens| && s.tokens[i].user == u && s.tokens[i].revoked
    ensures !WithinGrace(Next(s, step).tokens[i], step.now)
  {
  }

  lemma StaysCold(s: Store, step: Step, u: AccountId, now: Instant)
    requires Inv(s) && Cold(s, u, now) && now <= step.now && !Warms(s, step, u)
    requires Issues(s, step, u) <==> step.Login? && step.user == u
    ensures Cold(Next(s, step), u, step.now)
  {
    LiveAfter(s, EffectOf(s.tokens, step), step.now, u);
    var t := Next(s, step);
    forall i | 0 <= i < |t.tokens| && t.tokens[i].user == u ensures !WithinGrace(t.tokens[i], step.now) {
      assert i < |s.tokens| && i !in LiveOf(s, u);
      TokenStaysCold(s, step, u, now, i);
    }
  }

  lemma ColdIssues(s: Store, step: Step, u: AccountId, now: Instant)
    requires Inv(s) && Cold(s, u, now) && now <= step.now
    ensures Issues(s, step, u) <==> step.Login? && step.user == u
  {
    if step.Refresh? && step.presented < |s.tokens| && s.tokens[step.presented].user == u {
      var t := s.tokens[step.presented];
      assert step.presented !in LiveOf(s, u);
      if t.rotatedTo.Some? {
        assert s.births[t.rotatedTo.value] == ByRotation(step.presented);
        assert t.rotatedTo.value !in LiveOf(s, u);
      }
    }
  }

  predicate Ordered(steps: seq<Step>, now: Instant)
    decreases |steps|
  {
    steps == [] || (now <= steps[0].now && Ordered(steps[1..], steps[0].now))
  }

  predicate NeverWarms(s: Store, steps: seq<Step>, u: AccountId)
    decreases |steps|
  {
    steps == [] || (!Warms(s, steps[0], u) && NeverWarms(Next(s, steps[0]), steps[1..], u))
  }

  function TokensOf(s: Store, u: AccountId): set<TokenId> {
    set i | 0 <= i < |s.tokens| && s.tokens[i].user == u
  }

  /** A user without a live token, all of whose rotations are older than the grace window, gets no
      token by any sequence of requests before the next login or sign-out of a rotated token. */
  lemma {:induction false} NoWayBackIn(s: Store, steps: seq<Step>, u: AccountId, now: Instant)
    requires Inv(s) && Cold(s, u, now) && Ordered(steps, now) && NeverWarms(s, steps, u)
    ensures TokensOf(Run(s, steps), u) == TokensOf(s, u) && LiveOf(Run(s, steps), u) == {}
    decreases |steps|
  {
    if steps == [] {
    } else {
      var t := Next(s, steps[0]);
      ColdStep(s, steps[0], u, now);
      StepKeeps(s, steps[0]);
      assert TokensOf(t, u) == TokensOf(s, u);
      NoWayBackIn(t, steps[1..], u, steps[0].now);
    }
  }

  /** After a sign-out everywhere a token of the user is served exactly when it was rotated no
      longer than the grace window ago. */
  lemma AfterLogoutAll(s: Store, u: AccountId, p: TokenId, at: Instant, now: Instant)
    requires Inv(s) && p < |s.tokens| && s.tokens[p].user == u
    ensures var t := Next(s, LogoutAll(u, at));
      Issues(t, Refresh(p, true, now), u) <==> s.tokens[p].rotatedTo.Some? && WithinGrace(s.tokens[p], now)
  {
  }

  /** A rotated token whose answer may still have been lost: it and its successor live on. */
  predicate Replaceable(tokens: seq<Token>, p: TokenId, now: Instant)
    requires p < |tokens|
  {
    var next := tokens[p].rotatedTo;
    next.Some? && tokens[p].expires > now && next.value < |tokens| && Alive(tokens[next.value], now)
  }

  /** When a token was last signed out, by a request at that time or a later one. */
  function SignedOutAt(p: TokenId, owner: AccountId, at: Instant, steps: seq<Step>): Instant
    decreases |steps|
  {
    if steps == [] then at else
      var again := steps[0].Logout? && steps[0].presented == p && steps[0].actor == owner;
      SignedOutAt(p, owner, if again then steps[0].now else at, steps[1..])
  }

  lemma StampStep(s: Store, step: Step, p: TokenId)
    requires Inv(s) && p < |s.tokens| && s.tokens[p].revoked
    ensures Next(s, step).tokens[p].revokedAt
      == if step.Logout? && step.presented == p && step.actor == s.tokens[p].user then Some(step.now)
         else s.tokens[p].revokedAt
  {
    if step.Refresh? && Classified(s.tokens, step.presented, step.usable, step.now) == LostResponse {
      var d := SuccessorLives(s, step.presented, step.usable, step.now);
    }
  }

  /** Only another sign-out of its own changes the stamp of a revoked token. */
  lemma {:induction false} StampKept(s: Store, p: TokenId, at: Instant, steps: seq<Step>)
    requires Inv(s) && p < |s.tokens| && s.tokens[p].revoked && s.tokens[p].revokedAt == Some(at)
    ensures |s.tokens| <= |Run(s, steps).tokens|
    ensures Run(s, steps).tokens[p].revokedAt == Some(SignedOutAt(p, s.tokens[p].user, at, steps))
    decreases |steps|
  {
    if steps == [] {
    } else {
      StampStep(s, steps[0], p);
      StepKeeps(s, steps[0]);
      StampKept(Next(s, steps[0]), p, Next(s, steps[0]).tokens[p].revokedAt.value, steps[1..]);
    }
  }

  lemma ClassifiedRevoked(tokens: seq<Token>, p: TokenId, now: Instant)
    requires p < |tokens| && tokens[p].revoked && tokens[p].revokedAt.Some?
    ensures var (rotated, inWindow) := (tokens[p].rotatedTo.Some?, now <= tokens[p].revokedAt.value + GRACE);
      Classified(tokens, p, true, now)
        == if rotated && inWindow then Grace else if Replaceable(tokens, p, now) then LostResponse else Theft
  {
  }

  lemma Rotation(s: Store, p: TokenId, at: Instant)
    requires p < |s.tokens| && !s.tokens[p].revoked && s.tokens[p].expires > at
    ensures var t := Next(s, Refresh(p, true, at));
      && |t.tokens| == |s.tokens| + 1
      && t.tokens[p] == Token(s.tokens[p].user, true, Some(at), Some(|s.tokens|), s.tokens[p].expires)
  {
    RefreshAnswers(s, p, true, at);
  }

  lemma AgainAnswered(t: Store, p: TokenId, d: TokenId, now: Instant)
    requires p < |t.tokens| && d < |t.tokens| && t.tokens[p].revoked && t.tokens[p].rotatedTo == Some(d)
    requires t.tokens[p].revokedAt.Some?
    ensures var (u, owner) := (Next(t, Refresh(p, true, now)), t.tokens[p].user);
      var inWindow := now <= t.tokens[p].revokedAt.value + GRACE;
      var alive := t.tokens[p].expires > now && !t.tokens[d].revoked && t.tokens[d].expires > now;
      && (inWindow ==> u.tokens == t.tokens + [New(owner, now)])
      && (!inWindow && alive ==> u.tokens == t.tokens[d := Stamped(t.tokens[d], now)] + [New(owner, now)])
      && (!inWindow && !alive ==> |u.tokens| == |t.tokens| && LiveOf(u, owner) == {})
  {
    RefreshAnswers(t, p, true, now);
  }

  /** The second tab, or the client that never got its answer: a token just rotated is presented again, after any
      requests whatever.  Within the grace window of its rotation (or of a later sign-out of its own) it is served
      and no row changes.  After the window, while its successor and it live, the successor is revoked and a new
      token takes its place.  After that, all live tokens of the owner are revoked. */
  lemma PresentedAgain(s: Store, p: TokenId, at: Instant, steps: seq<Step>, now: Instant)
    requires Inv(s) && p < |s.tokens| && !s.tokens[p].revoked && s.tokens[p].expires > at
    ensures var (t, owner, d) := (Run(Next(s, Refresh(p, true, at)), steps), s.tokens[p].user, |s.tokens|);
      var (u, inWindow) := (Next(t, Refresh(p, true, now)), now <= SignedOutAt(p, owner, at, steps) + GRACE);
      && d < |t.tokens|
      && (inWindow ==> u.tokens == t.tokens + [New(owner, now)])
      && (var alive := s.tokens[p].expires > now && !t.tokens[d].revoked && t.tokens[d].expires > now;
          && (!inWindow && alive ==> u.tokens == t.tokens[d := Stamped(t.tokens[d], now)] + [New(owner, now)])
          && (!inWindow && !alive ==> |u.tokens| == |t.tokens| && LiveOf(u, owner) == {}))
  {
    var r := Next(s, Refresh(p, true, at));
    Rotation(s, p, at);
    StepKeeps(s, Refresh(p, true, at));
    StampKept(r, p, at, steps);
    RunKeeps(r, steps);
    AgainAnswered(Run(r, steps), p, |s.tokens|, now);
  }

  /** The program means a token signed out to be taken for stolen from then on.  That holds exactly for
      tokens not rotated before.  The sign-out of a rotated token restarts its grace window, and after the
      window it is still served, as a lost answer, as long as it and its successor live, whatever
      requests came in between. */
  lemma AfterLogout(s: Store, p: TokenId, at: Instant, steps: seq<Step>, now: Instant)
    requires Inv(s) && p < |s.tokens|
    ensures var (t, owner) := (Run(Next(s, Logout(p, s.tokens[p].user, at)), steps), s.tokens[p].user);
      var (rotated, inWindow) := (s.tokens[p].rotatedTo.Some?, now <= SignedOutAt(p, owner, at, steps) + GRACE);
      && p < |t.tokens|
      && (Classified(t.tokens, p, true, now) == Theft <==>
            !rotated || (!inWindow && !Replaceable(t.tokens, p, now)))
      && (Classified(t.tokens, p, true, now) == Grace <==> rotated && inWindow)
      && (Classified(t.tokens, p, true, now) == LostResponse <==> !inWindow && Replaceable(t.tokens, p, now))
  {
    var out := Next(s, Logout(p, s.tokens[p].user, at));
    StepKeeps(s, Logout(p, s.tokens[p].user, at));
    StampKept(out, p, at, steps);
    RunKeeps(out, steps);
    ClassifiedRevoked(Run(out, steps).tokens, p, now);
  }
}

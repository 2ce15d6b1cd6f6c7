/** Order deletion over the books and the yard together.  A metered expense is accepted or refused by a
    pump counter, and the issues of an order move counters, so here the two are run side by side. */
module OrderDeletion {
  import opened Common
  import opened Requests
  import opened FuelBooks
  import E = OrderErasure
  import Y = TankYard

  datatype State = State(books: Books, yard: Y.Yard)

  /** One request to the service. */
  datatype Request =
    | OnBooks(step: Step)
    | OnTanks(move: Y.YardStep)
    | Expense(actor: Actor, catalog: set<Fuel>, fuel: Fuel, volume: int, tank: Option<Y.TankId>,
              metered: Option<int>, now: Instant, notes: string)
    | Deletion(order: OrderId)

  /** The forms a request can take: expenses and deletions are requests of their own. */
  predicate Proper(r: Request) {
    match r
    case OnBooks(step) => !step.Expend? && !step.DeleteOrder?
    case OnTanks(move) => Y.InSchema(move) && !move.Spend? && !move.Forget?
    case Expense(_, _, _, volume, _, metered, _, _) => volume > 0 && (metered.Some? ==> Y.Reading(metered.value))
    case Deletion(_) => true
  }

  predicate TankOk(tanks: map<Y.TankId, Y.Tank>, tank: Option<Y.TankId>, volume: int, metered: Option<int>) {
    tank.None? || Y.EffectOf(tanks, Y.Spend(tank.value, volume, metered)).Moves?
  }

  /** What the books are asked to do; the outcome of the tank part of an expense is read off the yard. */
  function AskedOfBooks(tanks: map<Y.TankId, Y.Tank>, r: Request): Option<Step> {
    match r
    case OnBooks(step) => Some(step)
    case OnTanks(_) => None
    case Expense(actor, catalog, f, v, tank, metered, now, notes) =>
      Some(Expend(actor, catalog, f, v, TankOk(tanks, tank, v, metered), now, notes))
    case Deletion(o) => Some(DeleteOrder(o))
  }

  /** What the yard is asked to do. */
  function AskedOfYard(r: Request): Option<Y.YardStep> {
    match r
    case OnBooks(_) => None
    case OnTanks(move) => Some(move)
    case Expense(actor, catalog, f, v, tank, metered, _, _) =>
      if tank.Some? && MayView(actor) && f in catalog then Some(Y.Spend(tank.value, v, metered)) else None
    case Deletion(o) => Some(Y.Forget(o))
  }

  function BooksAfter(b: Books, tanks: map<Y.TankId, Y.Tank>, r: Request): Books {
    var step := AskedOfBooks(tanks, r);
    if step.Some? then FuelBooks.Next(b, step.value) else b
  }

  function YardAfter(y: Y.Yard, r: Request): Y.Yard {
    var step := AskedOfYard(r);
    if step.Some? then Y.Next(y, step.value) else y
  }

  function Next(s: State, r: Request): State { State(BooksAfter(s.books, s.yard.tanks, r), YardAfter(s.yard, r)) }

  function Run(s: State, rs: seq<Request>): State
    decreases |rs|
  {
    if rs == [] then s else Run(Next(s, rs[0]), rs[1..])
  }

  const START := State(FuelBooks.EMPTY, Y.BARE)

  /** The request is about order o. */
  predicate About(b: Books, r: Request, o: OrderId) {
    match r
    case OnBooks(step) => E.Concerns(b, step, o)
    case OnTanks(move) => move.Issue? && move.order == Some(o)
    case Expense(_, _, _, _, _, _, _, _) => false
    case Deletion(order) => order == o
  }

  function Without(s: State, rs: seq<Request>, o: OrderId): seq<Request>
    decreases |rs|
  {
    if rs == [] then [] else
      (if About(s.books, rs[0], o) then [] else [rs[0]]) + Without(Next(s, rs[0]), rs[1..], o)
  }

  predicate Fresh(b: Books, r: Request) { r.OnBooks? ==> E.Fresh(b, r.step) }

  predicate FreshRun(s: State, rs: seq<Request>)
    decreases |rs|
  {
    rs == [] || (Proper(rs[0]) && Fresh(s.books, rs[0]) && FreshRun(Next(s, rs[0]), rs[1..]))
  }

  // ----- The condition -----

  /** The tank an accepted issue draws from for the order. */
  function Drawn(s: State, r: Request, o: OrderId): set<Y.TankId> {
    if r.OnTanks? && r.move.Issue? && r.move.order == Some(o) && Y.EffectOf(s.yard.tanks, r.move).Moves?
    then {r.move.id} else {}
  }

  function DrawnInRun(s: State, rs: seq<Request>, o: OrderId, drawn: set<Y.TankId>): set<Y.TankId>
    decreases |rs|
  {
    if rs == [] then drawn else DrawnInRun(Next(s, rs[0]), rs[1..], o, drawn + Drawn(s, rs[0], o))
  }

  /** The request reads the counter of one of these tanks, or corrects its level. */
  predicate Disturbs(r: Request, drawn: set<Y.TankId>) {
    match AskedOfYard(r)
    case Some(Issue(_, id, _, _)) => id in drawn
    case Some(Correct(_, id, level, _)) => id in drawn && level.Some?
    case Some(Spend(id, _, metered)) => id in drawn && metered.Some?
    case _ => false
  }

  /** After the order has drawn from a tank, no other request disturbs it. */
  predicate Undisturbed(s: State, rs: seq<Request>, o: OrderId, drawn: set<Y.TankId>)
    decreases |rs|
  {
    rs == [] ||
    ((About(s.books, rs[0], o) || !Disturbs(rs[0], drawn)) &&
     Undisturbed(Next(s, rs[0]), rs[1..], o, drawn + Drawn(s, rs[0], o)))
  }

  // ----- Rows without their readings -----

  function Blank(tx: Y.TankTx): Y.TankTx { tx.(before := 0, after := 0) }

  function Blanked(log: seq<Y.TankTx>): (r: seq<Y.TankTx>) {
    if log == [] then [] else [Blank(log[0])] + Blanked(log[1..])
  }

  lemma {:induction false} BlankedConcat(s: seq<Y.TankTx>, t: seq<Y.TankTx>)
    ensures Blanked(s + t) == Blanked(s) + Blanked(t)
  {
    if s == [] {
      assert s + t == t;
    } else {
      assert (s + t)[1..] == s[1..] + t;
      BlankedConcat(s[1..], t);
    }
  }

  /** A condition that does not look at readings. */
  ghost predicate Blind(p: Y.TankTx -> bool) { forall tx :: p(tx) == p(Blank(tx)) }

  lemma {:induction false} BlankedFilter(log: seq<Y.TankTx>, p: Y.TankTx -> bool)
    requires Blind(p)
    ensures Blanked(Filter(log, p)) == Filter(Blanked(log), p)
  {
    if log == [] {
    } else {
      BlankedFilter(log[1..], p);
      assert p(log[0]) == p(Blank(log[0]));
      BlankedConcat(if p(log[0]) then [log[0]] else [], Filter(log[1..], p));
      assert Blanked([log[0]]) == [Blank(log[0])] + Blanked([]);
      assert Blanked(log)[1..] == Blanked(log[1..]);
    }
  }

  lemma {:induction false} BlankedSum(log: seq<Y.TankTx>, f: Y.TankTx -> int)
    requires forall tx :: f(tx) == f(Blank(tx))
    ensures Sum(Blanked(log), f) == Sum(log, f)
  {
    if log == [] {
    } else {
      BlankedSum(log[1..], f);
      assert f(log[0]) == f(Blank(log[0]));
      assert Blanked(log)[1..] == Blanked(log[1..]);
    }
  }

  /** Sums over the rows of one tank do not depend on readings. */
  lemma SameSums(s: seq<Y.TankTx>, t: seq<Y.TankTx>, id: Y.TankId, f: Y.TankTx -> int)
    requires Blanked(s) == Blanked(t) && forall tx :: f(tx) == f(Blank(tx))
    ensures Sum(Y.Own(s, id), f) == Sum(Y.Own(t, id), f)
  {
    BlankedFilter(s, Y.OfTank(id));
    BlankedFilter(t, Y.OfTank(id));
    BlankedSum(Y.Own(s, id), f);
    BlankedSum(Y.Own(t, id), f);
  }

  // ----- Two yards, one with the order and one without -----

  ghost predicate SameOff(x: map<Y.TankId, Y.Tank>, z: map<Y.TankId, Y.Tank>, drawn: set<Y.TankId>) {
    x.Keys == z.Keys && forall id <- x | id !in drawn :: x[id] == z[id]
  }

  /** The tanks agree except those the order drew from, and the rows agree but for their readings. */
  ghost predicate YardTwin(x: Y.Yard, z: Y.Yard, o: OrderId, drawn: set<Y.TankId>) {
    && SameOff(x.tanks, z.tanks, drawn)
    && Blanked(Filter(x.log, Y.RowNotOf(o))) == Blanked(z.log)
    && forall tx <- x.log | tx.order == Some(o) :: tx.tank in drawn
  }

  /** Two effects that do the same, readings of drawn tanks aside. */
  ghost predicate Alike(e: Y.YardEffect, g: Y.YardEffect, o: OrderId, drawn: set<Y.TankId>) {
    match e
    case Nothing => g.Nothing?
    case Moves(changes, rows) =>
      && g.Moves? && SameOff(changes, g.changes, drawn) && Blanked(rows) == Blanked(g.rows)
      && forall r <- rows :: r.order != Some(o)
    case Forgets(_) => false
  }

  lemma BlankedOne(a: Y.TankTx, b: Y.TankTx)
    requires Blank(a) == Blank(b)
    ensures Blanked([a]) == Blanked([b])
  {
    assert [a][1..] == [] && [b][1..] == [];
  }

  lemma AlikeOne(e: Y.YardEffect, g: Y.YardEffect, o: OrderId, drawn: set<Y.TankId>)
    requires e.Moves? && g.Moves? && SameOff(e.changes, g.changes, drawn)
    requires |e.rows| == 1 && |g.rows| == 1 && Blank(e.rows[0]) == Blank(g.rows[0]) && e.rows[0].order != Some(o)
    ensures Alike(e, g, o, drawn)
  {
    assert e.rows == [e.rows[0]] && g.rows == [g.rows[0]];
    BlankedOne(e.rows[0], g.rows[0]);
  }

  lemma AlikeTwo(e: Y.YardEffect, g: Y.YardEffect, o: OrderId, drawn: set<Y.TankId>)
    requires e.Moves? && g.Moves? && SameOff(e.changes, g.changes, drawn)
    requires |e.rows| == 2 && |g.rows| == 2
    requires Blank(e.rows[0]) == Blank(g.rows[0]) && Blank(e.rows[1]) == Blank(g.rows[1])
    requires e.rows[0].order != Some(o) && e.rows[1].order != Some(o)
    ensures Alike(e, g, o, drawn)
  {
    assert e.rows == [e.rows[0]] + [e.rows[1]] && g.rows == [g.rows[0]] + [g.rows[1]];
    BlankedOne(e.rows[0], g.rows[0]);
    BlankedOne(e.rows[1], g.rows[1]);
    BlankedConcat([e.rows[0]], [e.rows[1]]);
    BlankedConcat([g.rows[0]], [g.rows[1]]);
  }

  /** The request meets nothing in the yard that the order has changed: it reads no counter and corrects
      no level that differs. */
  predicate UnfeltByYard(x: map<Y.TankId, Y.Tank>, z: map<Y.TankId, Y.Tank>, s: Y.YardStep) {
    match s
    case Issue(actor, id, _, _) => MayView(actor) && id in x && id in z ==> x[id].counter == z[id].counter
    case Correct(actor, id, level, _) =>
      actor.role == Admin && level.Some? && id in x && id in z ==> x[id].volume == z[id].volume
    case Spend(id, _, metered) =>
      metered.Some? && id in x && id in z ==> (metered.value == x[id].counter <==> metered.value == z[id].counter)
    case _ => true
  }

  lemma TransfersAlike(x: map<Y.TankId, Y.Tank>, z: map<Y.TankId, Y.Tank>, s: Y.YardStep, o: OrderId,
                       drawn: set<Y.TankId>)
    requires SameOff(x, z, drawn) && s.Transfer?
    ensures Alike(Y.EffectOf(x, s), Y.EffectOf(z, s), o, drawn)
  {
    var (e, g) := (Y.EffectOf(x, s), Y.EffectOf(z, s));
    if e.Moves? {
      AlikeTwo(e, g, o, drawn);
    }
  }

  lemma IssuesAlike(x: map<Y.TankId, Y.Tank>, z: map<Y.TankId, Y.Tank>, s: Y.YardStep, o: OrderId,
                    drawn: set<Y.TankId>)
    requires SameOff(x, z, drawn) && UnfeltByYard(x, z, s) && s.Issue? && s.order != Some(o)
    ensures Alike(Y.EffectOf(x, s), Y.EffectOf(z, s), o, drawn)
  {
    var (e, g) := (Y.EffectOf(x, s), Y.EffectOf(z, s));
    if e.Moves? {
      AlikeOne(e, g, o, drawn);
    }
  }

  lemma SpendingAlike(x: map<Y.TankId, Y.Tank>, z: map<Y.TankId, Y.Tank>, s: Y.YardStep, o: OrderId,
                      drawn: set<Y.TankId>)
    requires SameOff(x, z, drawn) && Y.Readings(x) && Y.Readings(z) && Y.InSchema(s)
    requires UnfeltByYard(x, z, s) && s.Spend?
    ensures Alike(Y.EffectOf(x, s), Y.EffectOf(z, s), o, drawn)
  {
    var (e, g) := (Y.EffectOf(x, s), Y.EffectOf(z, s));
    if e.Moves? {
      AlikeOne(e, g, o, drawn);
    }
  }

  lemma OthersAlike(x: map<Y.TankId, Y.Tank>, z: map<Y.TankId, Y.Tank>, s: Y.YardStep, o: OrderId,
                    drawn: set<Y.TankId>)
    requires SameOff(x, z, drawn) && UnfeltByYard(x, z, s) && (s.Build? || s.Correct? || s.Receive?)
    ensures Alike(Y.EffectOf(x, s), Y.EffectOf(z, s), o, drawn)
  {
    var (e, g) := (Y.EffectOf(x, s), Y.EffectOf(z, s));
    if e.Moves? && e.rows != [] {
      AlikeOne(e, g, o, drawn);
    }
  }

  lemma EffectsAlike(x: map<Y.TankId, Y.Tank>, z: map<Y.TankId, Y.Tank>, s: Y.YardStep, o: OrderId,
                     drawn: set<Y.TankId>)
    requires SameOff(x, z, drawn) && Y.Readings(x) && Y.Readings(z) && Y.InSchema(s)
    requires UnfeltByYard(x, z, s) && !s.Forget? && !(s.Issue? && s.order == Some(o))
    ensures Alike(Y.EffectOf(x, s), Y.EffectOf(z, s), o, drawn)
  {
    if s.Transfer? {
      TransfersAlike(x, z, s, o, drawn);
    } else if s.Issue? {
      IssuesAlike(x, z, s, o, drawn);
    } else if s.Spend? {
      SpendingAlike(x, z, s, o, drawn);
    } else {
      OthersAlike(x, z, s, o, drawn);
    }
  }

  lemma TwinMoves(x: Y.Yard, z: Y.Yard, e: Y.YardEffect, g: Y.YardEffect, o: OrderId, drawn: set<Y.TankId>)
    requires YardTwin(x, z, o, drawn) && e.Moves? && Alike(e, g, o, drawn)
    ensures YardTwin(Y.Apply(x, e), Y.Apply(z, g), o, drawn)
  {
    FilterConcat(x.log, e.rows, Y.RowNotOf(o));
    FilterAll(e.rows, Y.RowNotOf(o));
    BlankedConcat(Filter(x.log, Y.RowNotOf(o)), e.rows);
    BlankedConcat(z.log, g.rows);
  }

  /** The rows of another order are the same in both yards but for their readings. */
  lemma SameRowsOf(x: seq<Y.TankTx>, z: seq<Y.TankTx>, o: OrderId, other: OrderId)
    requires other != o && Blanked(Filter(x, Y.RowNotOf(o))) == Blanked(z)
    ensures Blanked(Filter(x, Y.RowOf(other))) == Blanked(Filter(z, Y.RowOf(other)))
  {
    FilterNarrow(x, Y.RowNotOf(o), Y.RowOf(other));
    BlankedFilter(Filter(x, Y.RowNotOf(o)), Y.RowOf(other));
    BlankedFilter(z, Y.RowOf(other));
  }

  lemma SameRowsLeft(x: seq<Y.TankTx>, z: seq<Y.TankTx>, o: OrderId, other: OrderId)
    requires Blanked(Filter(x, Y.RowNotOf(o))) == Blanked(z)
    ensures Blanked(Filter(Filter(x, Y.RowNotOf(other)), Y.RowNotOf(o))) == Blanked(Filter(z, Y.RowNotOf(other)))
  {
    FilterSwap(x, Y.RowNotOf(other), Y.RowNotOf(o));
    BlankedFilter(Filter(x, Y.RowNotOf(o)), Y.RowNotOf(other));
    BlankedFilter(z, Y.RowNotOf(other));
  }

  lemma SamePutBack(x: seq<Y.TankTx>, z: seq<Y.TankTx>, o: OrderId, other: OrderId, id: Y.TankId)
    requires other != o && Blanked(Filter(x, Y.RowNotOf(o))) == Blanked(z)
    ensures Sum(Y.Own(Filter(x, Y.RowOf(other)), id), Y.PutBack) == Sum(Y.Own(Filter(z, Y.RowOf(other)), id), Y.PutBack)
  {
    SameRowsOf(x, z, o, other);
    SameSums(Filter(x, Y.RowOf(other)), Filter(z, Y.RowOf(other)), id, Y.PutBack);
  }

  lemma TwinForgets(x: Y.Yard, z: Y.Yard, o: OrderId, other: OrderId, drawn: set<Y.TankId>)
    requires YardTwin(x, z, o, drawn) && other != o
    ensures YardTwin(Y.Next(x, Y.Forget(other)), Y.Next(z, Y.Forget(other)), o, drawn)
  {
    SameRowsLeft(x.log, z.log, o, other);
    FilterMembers(x.log, Y.RowNotOf(other));
    forall id | id in x.tanks && id !in drawn
      ensures Y.Next(x, Y.Forget(other)).tanks[id] == Y.Next(z, Y.Forget(other)).tanks[id]
    {
      SamePutBack(x.log, z.log, o, other, id);
    }
  }

  /** Tanks the order never drew from are left alone by its deletion. */
  lemma NothingPutBack(x: Y.Yard, o: OrderId, id: Y.TankId)
    requires id in x.tanks && forall tx <- x.log | tx.order == Some(o) :: tx.tank != id
    ensures Y.Next(x, Y.Forget(o)).tanks[id] == x.tanks[id]
  {
    FilterMembers(x.log, Y.RowOf(o));
    FilterNone(Filter(x.log, Y.RowOf(o)), Y.OfTank(id));
  }

  lemma TwinForgotten(x: Y.Yard, z: Y.Yard, o: OrderId, drawn: set<Y.TankId>)
    requires YardTwin(x, z, o, drawn)
    ensures YardTwin(Y.Next(x, Y.Forget(o)), z, o, drawn)
  {
    FilterMembers(x.log, Y.RowNotOf(o));
    FilterAll(Filter(x.log, Y.RowNotOf(o)), Y.RowNotOf(o));
    forall id | id in x.tanks && id !in drawn ensures Y.Next(x, Y.Forget(o)).tanks[id] == x.tanks[id] {
      NothingPutBack(x, o, id);
    }
  }

  lemma IssueWrites(tanks: map<Y.TankId, Y.Tank>, s: Y.YardStep)
    requires s.Issue?
    ensures var e := Y.EffectOf(tanks, s);
      if e.Moves?
      then s.id in tanks && e.changes.Keys == {s.id} && |e.rows| == 1
           && e.rows[0].order == s.order && e.rows[0].tank == s.id
      else e.Nothing?
  {
  }

  lemma TwinIssue(x: Y.Yard, z: Y.Yard, s: Y.YardStep, o: OrderId, drawn: set<Y.TankId>)
    requires YardTwin(x, z, o, drawn) && s.Issue? && s.order == Some(o)
    ensures YardTwin(Y.Next(x, s), z, o, drawn + if Y.EffectOf(x.tanks, s).Moves? then {s.id} else {})
  {
    var e := Y.EffectOf(x.tanks, s);
    IssueWrites(x.tanks, s);
    if e.Moves? {
      assert e.rows == [e.rows[0]];
      FilterAppend(x.log, e.rows[0], Y.RowNotOf(o));
    } else {
      assert drawn + {} == drawn;
    }
  }

  lemma TwinYardStep(x: Y.Yard, z: Y.Yard, s: Y.YardStep, o: OrderId, drawn: set<Y.TankId>)
    requires YardTwin(x, z, o, drawn) && Y.Readings(x.tanks) && Y.Readings(z.tanks) && Y.InSchema(s)
    requires UnfeltByYard(x.tanks, z.tanks, s) && !(s.Issue? && s.order == Some(o)) && s != Y.Forget(o)
    ensures YardTwin(Y.Next(x, s), Y.Next(z, s), o, drawn)
    ensures Y.EffectOf(x.tanks, s).Moves? == Y.EffectOf(z.tanks, s).Moves?
  {
    if s.Forget? {
      TwinForgets(x, z, o, s.gone, drawn);
    } else {
      EffectsAlike(x.tanks, z.tanks, s, o, drawn);
      if Y.EffectOf(x.tanks, s).Moves? {
        TwinMoves(x, z, Y.EffectOf(x.tanks, s), Y.EffectOf(z.tanks, s), o, drawn);
      }
    }
  }

  // ----- Two whole states -----

  ghost predicate Twin(x: State, z: State, o: OrderId, drawn: set<Y.TankId>) {
    && z.books == Erased(x.books, o)
    && YardTwin(x.yard, z.yard, o, drawn)
    && Y.Inv(x.yard) && Y.Inv(z.yard)
  }

  lemma YardInv(y: Y.Yard, r: Request)
    requires Y.Inv(y) && Proper(r)
    ensures Y.Inv(YardAfter(y, r))
  {
    if AskedOfYard(r).Some? {
      Y.InvNext(y, AskedOfYard(r).value);
    }
  }

  /** The request decides and writes the same in both states. */
  predicate Unfelt(x: State, z: State, r: Request) {
    var step := AskedOfYard(r);
    step.Some? ==> UnfeltByYard(x.yard.tanks, z.yard.tanks, step.value)
  }

  lemma ProperForYard(r: Request)
    requires Proper(r) && AskedOfYard(r).Some?
    ensures Y.InSchema(AskedOfYard(r).value)
  {
  }

  lemma SameBooks(x: State, z: State, r: Request, o: OrderId, drawn: set<Y.TankId>)
    requires Twin(x, z, o, drawn) && Proper(r) && Fresh(x.books, r) && !About(x.books, r, o)
    requires r.Expense? && AskedOfYard(r).Some? ==>
      TankOk(x.yard.tanks, r.tank, r.volume, r.metered) == TankOk(z.yard.tanks, r.tank, r.volume, r.metered)
    ensures Next(z, r).books == Erased(Next(x, r).books, o)
  {
    var step := AskedOfBooks(x.yard.tanks, r);
    if step.Some? {
      E.Indifferent(x.books, step.value, o);
    }
  }

  /** A request about something else, which does not feel the order, keeps the two states twins. */
  lemma TwinStep(x: State, z: State, r: Request, o: OrderId, drawn: set<Y.TankId>)
    requires Twin(x, z, o, drawn) && Proper(r) && Fresh(x.books, r)
    requires !About(x.books, r, o) && Unfelt(x, z, r)
    ensures Twin(Next(x, r), Next(z, r), o, drawn)
  {
    YardInv(x.yard, r);
    YardInv(z.yard, r);
    if AskedOfYard(r).Some? {
      ProperForYard(r);
      TwinYardStep(x.yard, z.yard, AskedOfYard(r).value, o, drawn);
    }
    SameBooks(x, z, r, o, drawn);
  }

  /** What does not disturb the tanks the order drew from does not feel it. */
  lemma UndisturbedIsUnfelt(x: State, z: State, r: Request, o: OrderId, drawn: set<Y.TankId>)
    requires Twin(x, z, o, drawn) && Proper(r) && !Disturbs(r, drawn)
    ensures Unfelt(x, z, r)
  {
  }

  /** A request about the order changes only the state with it. */
  lemma TwinAbout(x: State, z: State, r: Request, o: OrderId, drawn: set<Y.TankId>)
    requires Twin(x, z, o, drawn) && Proper(r) && Fresh(x.books, r) && About(x.books, r, o)
    ensures Twin(Next(x, r), z, o, drawn + Drawn(x, r, o))
  {
    YardInv(x.yard, r);
    assert drawn + {} == drawn;
    match r
    case OnBooks(step) => E.NoTrace(x.books, step, o);
    case OnTanks(move) => TwinIssue(x.yard, z.yard, move, o, drawn);
    case Deletion(_) =>
      E.NoTrace(x.books, DeleteOrder(o), o);
      TwinForgotten(x.yard, z.yard, o, drawn);
  }

  /** The requests that are left are run one by one. */
  lemma RunWithout(x: State, z: State, rs: seq<Request>, o: OrderId)
    requires rs != []
    ensures var tail := Without(Next(x, rs[0]), rs[1..], o);
      Run(z, Without(x, rs, o)) == Run(if About(x.books, rs[0], o) then z else Next(z, rs[0]), tail)
  {
    var tail := Without(Next(x, rs[0]), rs[1..], o);
    assert [] + tail == tail;
    assert ([rs[0]] + tail)[1..] == tail;
  }

  lemma {:induction false} TwinRun(x: State, z: State, rs: seq<Request>, o: OrderId, drawn: set<Y.TankId>)
    requires Twin(x, z, o, drawn) && FreshRun(x, rs) && Undisturbed(x, rs, o, drawn)
    ensures Twin(Run(x, rs), Run(z, Without(x, rs, o)), o, DrawnInRun(x, rs, o, drawn))
    decreases |rs|
  {
    if rs == [] {
    } else {
      var (r, rest) := (rs[0], rs[1..]);
      RunWithout(x, z, rs, o);
      if About(x.books, r, o) {
        TwinAbout(x, z, r, o, drawn);
        TwinRun(Next(x, r), z, rest, o, drawn + Drawn(x, r, o));
      } else {
        UndisturbedIsUnfelt(x, z, r, o, drawn);
        TwinStep(x, z, r, o, drawn);
        assert Drawn(x, r, o) == {} && drawn + {} == drawn;
        TwinRun(Next(x, r), Next(z, r), rest, o, drawn);
      }
    }
  }

  // ----- What deletion achieves -----

  function Levels(tanks: map<Y.TankId, Y.Tank>): map<Y.TankId, int> { map id | id in tanks :: tanks[id].volume }

  /** Were the order deleted now, books and levels would be those without it. */
  ghost predicate Agreeing(x: State, z: State, o: OrderId) {
    && Erased(x.books, o) == z.books
    && Levels(Y.Next(x.yard, Y.Forget(o)).tanks) == Levels(z.yard.tanks)
  }

  lemma LevelAgrees(x: Y.Yard, z: Y.Yard, o: OrderId, id: Y.TankId)
    requires Blanked(Filter(x.log, Y.RowNotOf(o))) == Blanked(z.log) && id in x.tanks && id in z.tanks
    requires forall tx <- x.log :: Y.Honest(tx)
    requires x.tanks[id].volume == Y.Level(x.log, id) && z.tanks[id].volume == Y.Level(z.log, id)
    ensures Y.Next(x, Y.Forget(o)).tanks[id].volume == z.tanks[id].volume
  {
    Y.ForgetLevel(x.log, o, id);
    SameSums(Filter(x.log, Y.RowNotOf(o)), z.log, id, Y.Moved);
  }

  lemma LevelsAgree(x: Y.Yard, z: Y.Yard, o: OrderId, drawn: set<Y.TankId>)
    requires YardTwin(x, z, o, drawn) && Y.Inv(x) && Y.Inv(z)
    ensures Levels(Y.Next(x, Y.Forget(o)).tanks) == Levels(z.tanks)
  {
    var y := Y.Next(x, Y.Forget(o));
    Y.ForgettingKeepsCounters(x, o);
    forall id | id in x.tanks ensures y.tanks[id].volume == z.tanks[id].volume {
      LevelAgrees(x, z, o, id);
    }
  }

  lemma {:induction false} RunSnoc(s: State, rs: seq<Request>, r: Request)
    ensures Run(s, rs + [r]) == Next(Run(s, rs), r)
    decreases |rs|
  {
    if rs == [] {
      assert rs + [r] == [r];
    } else {
      assert (rs + [r])[1..] == rs[1..] + [r];
      RunSnoc(Next(s, rs[0]), rs[1..], r);
    }
  }

  /** Everything but the readings of tanks the order drew from. */
  ghost predicate SameButReadings(x: State, z: State, drawn: set<Y.TankId>) {
    && x.books == z.books
    && Levels(x.yard.tanks) == Levels(z.yard.tanks)
    && Blanked(x.yard.log) == Blanked(z.yard.log)
    && SameOff(x.yard.tanks, z.yard.tanks, drawn)
  }

  lemma DeletionCloses(x: State, z: State, o: OrderId, drawn: set<Y.TankId>)
    requires Twin(x, z, o, drawn)
    ensures Agreeing(x, z, o) && SameButReadings(Next(x, Deletion(o)), z, drawn)
  {
    LevelsAgree(x.yard, z.yard, o, drawn);
    TwinForgotten(x.yard, z.yard, o, drawn);
    FilterMembers(x.yard.log, Y.RowNotOf(o));
    FilterAll(Filter(x.yard.log, Y.RowNotOf(o)), Y.RowNotOf(o));
  }

  lemma StartsAsTwin(o: OrderId)
    ensures Twin(START, START, o, {})
  {
    assert Erased(START.books, o) == START.books;
  }

  /** Ended by the deletion of the order, an undisturbed run leaves the books and the tank levels of the
      run without the order, its rows but for their readings, and the counters of all tanks the order
      never drew from. */
  lemma DeletedAsIfNever(rs: seq<Request>, o: OrderId)
    requires FreshRun(START, rs) && Undisturbed(START, rs, o, {})
    ensures SameButReadings(Run(START, rs + [Deletion(o)]), Run(START, Without(START, rs, o)),
                            DrawnInRun(START, rs, o, {}))
  {
    StartsAsTwin(o);
    TwinRun(START, START, rs, o, {});
    RunSnoc(START, rs, Deletion(o));
    DeletionCloses(Run(START, rs), Run(START, Without(START, rs, o)), o, DrawnInRun(START, rs, o, {}));
  }

  // ----- Exactly when -----

  lemma OthersStay(log: seq<Y.TankTx>, rows: seq<Y.TankTx>, o: OrderId)
    requires forall r <- rows :: r.order != Some(o)
    ensures Filter(log + rows, Y.RowOf(o)) == Filter(log, Y.RowOf(o))
  {
    FilterConcat(log, rows, Y.RowOf(o));
    FilterNone(rows, Y.RowOf(o));
    assert Filter(log, Y.RowOf(o)) + [] == Filter(log, Y.RowOf(o));
  }

  /** The level deletion would leave, after a change that is not the order's own. */
  lemma LevelAfterDeletion(y: Y.Yard, e: Y.YardEffect, o: OrderId, id: Y.TankId)
    requires e.Moves? && (forall r <- e.rows :: r.order != Some(o)) && id in y.tanks && id in e.changes
    ensures var t := Y.Next(Y.Apply(y, e), Y.Forget(o));
      id in t.tanks && t.tanks[id].volume
        == Y.Next(y, Y.Forget(o)).tanks[id].volume - y.tanks[id].volume + e.changes[id].volume
  {
    OthersStay(y.log, e.rows, o);
  }

  lemma LevelsDiffer(x: map<Y.TankId, Y.Tank>, z: map<Y.TankId, Y.Tank>, id: Y.TankId)
    requires id in x && id in z && x[id].volume != z[id].volume
    ensures Levels(x) != Levels(z)
  {
    assert Levels(x)[id] != Levels(z)[id];
  }

  lemma IssueTakes(tanks: map<Y.TankId, Y.Tank>, s: Y.YardStep)
    requires s.Issue? && MayView(s.actor) && s.id in tanks && Y.Readings(tanks) && Y.InSchema(s)
    ensures var (e, litres) := (Y.EffectOf(tanks, s), Y.CounterDelta(tanks[s.id].counter, s.after));
      if litres == 0 then e.Nothing?
      else e.Moves? && e.changes.Keys == {s.id} && e.changes[s.id].volume == tanks[s.id].volume - 100 * litres
           && (forall r <- e.rows :: r.order == s.order)
  {
  }

  /** The level deletion would leave after an issue for something else. */
  lemma LevelAfterIssue(y: Y.Yard, s: Y.YardStep, o: OrderId)
    requires s.Issue? && s.order != Some(o) && MayView(s.actor) && s.id in y.tanks
    requires Y.Readings(y.tanks) && Y.InSchema(s)
    ensures var t := Y.Next(Y.Next(y, s), Y.Forget(o));
      s.id in t.tanks && t.tanks[s.id].volume
        == Y.Next(y, Y.Forget(o)).tanks[s.id].volume - 100 * Y.CounterDelta(y.tanks[s.id].counter, s.after)
  {
    IssueTakes(y.tanks, s);
    var e := Y.EffectOf(y.tanks, s);
    if e.Moves? {
      LevelAfterDeletion(y, e, o, s.id);
    }
  }

  lemma DeltaTellsReading(a: int, b: int, after: int)
    requires Y.Reading(a) && Y.Reading(b) && Y.Reading(after) && Y.CounterDelta(a, after) == Y.CounterDelta(b, after)
    ensures a == b
  {
  }

  lemma FeltIssue(x: Y.Yard, z: Y.Yard, s: Y.YardStep, o: OrderId)
    requires Y.Readings(x.tanks) && Y.Readings(z.tanks) && x.tanks.Keys == z.tanks.Keys && Y.InSchema(s)
    requires Levels(Y.Next(x, Y.Forget(o)).tanks) == Levels(z.tanks)
    requires s.Issue? && s.order != Some(o) && !UnfeltByYard(x.tanks, z.tanks, s)
    ensures Levels(Y.Next(Y.Next(x, s), Y.Forget(o)).tanks) != Levels(Y.Next(z, s).tanks)
  {
    var id := s.id;
    LevelAfterIssue(x, s, o);
    IssueTakes(z.tanks, s);
    assert Levels(Y.Next(x, Y.Forget(o)).tanks)[id] == Levels(z.tanks)[id];
    if Y.CounterDelta(x.tanks[id].counter, s.after) == Y.CounterDelta(z.tanks[id].counter, s.after) {
      DeltaTellsReading(x.tanks[id].counter, z.tanks[id].counter, s.after);
    }
    LevelsDiffer(Y.Next(Y.Next(x, s), Y.Forget(o)).tanks, Y.Next(z, s).tanks, id);
  }

  lemma FeltCorrection(x: Y.Yard, z: Y.Yard, s: Y.YardStep, o: OrderId)
    requires x.tanks.Keys == z.tanks.Keys
    requires Levels(Y.Next(x, Y.Forget(o)).tanks) == Levels(z.tanks)
    requires s.Correct? && !UnfeltByYard(x.tanks, z.tanks, s)
    ensures Levels(Y.Next(Y.Next(x, s), Y.Forget(o)).tanks) != Levels(Y.Next(z, s).tanks)
  {
    var id := s.id;
    assert Levels(Y.Next(x, Y.Forget(o)).tanks)[id] == Levels(z.tanks)[id];
    LevelAfterDeletion(x, Y.EffectOf(x.tanks, s), o, id);
    LevelsDiffer(Y.Next(Y.Next(x, s), Y.Forget(o)).tanks, Y.Next(z, s).tanks, id);
  }

  lemma FeltExpense(x: State, z: State, r: Request, o: OrderId)
    requires Y.Readings(x.yard.tanks) && Y.Readings(z.yard.tanks) && x.yard.tanks.Keys == z.yard.tanks.Keys
    requires z.books == Erased(x.books, o) && r.Expense? && Proper(r) && !Unfelt(x, z, r)
    ensures Erased(Next(x, r).books, o) != Next(z, r).books
  {
    var tx := FuelTx(Departure, r.fuel, r.volume, r.now, None, None, Notes.Text(r.notes));
    FilterAppend(x.books.journal, tx, NotOfOrder(o));
  }

  /** One request about something else keeps the agreement exactly when it does not feel the order. */
  lemma StepAgreesExactly(x: State, z: State, r: Request, o: OrderId, drawn: set<Y.TankId>)
    requires Twin(x, z, o, drawn) && Proper(r) && Fresh(x.books, r) && !About(x.books, r, o)
    ensures Agreeing(Next(x, r), Next(z, r), o) <==> Unfelt(x, z, r)
  {
    if Unfelt(x, z, r) {
      TwinStep(x, z, r, o, drawn);
      DeletionCloses(Next(x, r), Next(z, r), o, drawn);
    } else if r.Expense? {
      FeltExpense(x, z, r, o);
    } else {
      DeletionCloses(x, z, o, drawn);
      if r.move.Issue? {
        FeltIssue(x.yard, z.yard, r.move, o);
      } else {
        FeltCorrection(x.yard, z.yard, r.move, o);
      }
    }
  }

  predicate UnfeltInRun(x: State, z: State, rs: seq<Request>, o: OrderId)
    decreases |rs|
  {
    rs == [] ||
    if About(x.books, rs[0], o) then UnfeltInRun(Next(x, rs[0]), z, rs[1..], o)
    else Unfelt(x, z, rs[0]) && UnfeltInRun(Next(x, rs[0]), Next(z, rs[0]), rs[1..], o)
  }

  /** Whenever in the run the order were deleted, books and levels would be those without it. */
  ghost predicate AgreesThroughout(x: State, z: State, rs: seq<Request>, o: OrderId)
    decreases |rs|
  {
    && Agreeing(x, z, o)
    && (rs != [] ==>
          AgreesThroughout(Next(x, rs[0]), if About(x.books, rs[0], o) then z else Next(z, rs[0]), rs[1..], o))
  }

  /** Over whole runs: deletion keeps its promise for books and levels at every moment exactly when no other
      request meets a counter or a level that the order has changed. */
  lemma {:induction false} AgreesExactly(x: State, z: State, rs: seq<Request>, o: OrderId, drawn: set<Y.TankId>)
    requires Twin(x, z, o, drawn) && FreshRun(x, rs)
    ensures AgreesThroughout(x, z, rs, o) <==> UnfeltInRun(x, z, rs, o)
    decreases |rs|
  {
    DeletionCloses(x, z, o, drawn);
    if rs == [] {
    } else {
      var r := rs[0];
      if About(x.books, r, o) {
        TwinAbout(x, z, r, o, drawn);
        AgreesExactly(Next(x, r), z, rs[1..], o, drawn + Drawn(x, r, o));
      } else {
        StepAgreesExactly(x, z, r, o, drawn);
        if Unfelt(x, z, r) {
          TwinStep(x, z, r, o, drawn);
          AgreesExactly(Next(x, r), Next(z, r), rs[1..], o, drawn);
        }
      }
    }
  }

  /** From the empty database: deletion would keep its promise at every moment of a run exactly when, at every
      moment, no issue reads a counter the order has changed, no metered expense is refused on one side and
      accepted on the other, and no correction sets a level the order has changed. */
  lemma PromiseKeptExactly(rs: seq<Request>, o: OrderId)
    requires FreshRun(START, rs)
    ensures AgreesThroughout(START, START, rs, o) <==> UnfeltInRun(START, START, rs, o)
  {
    StartsAsTwin(o);
    AgreesExactly(START, START, rs, o, {});
  }

  // ----- Read off the table -----

  /** A row whose request read the counter or corrected the tank. */
  predicate ReadsOrCorrects(tx: Y.TankTx) {
    tx.kind == Y.IssueTx || tx.kind == Y.AdjustTx || (tx.kind == Y.ExpenseTx && tx.before != tx.after)
  }

  /** No row of the order is followed in its tank by a metered row or a correction of another. */
  ghost predicate ClearTable(log: seq<Y.TankTx>, o: OrderId) {
    forall i, j ::
      0 <= i < j < |log| && log[i].order == Some(o) && log[j].order != Some(o) && log[i].tank == log[j].tank
      ==> !ReadsOrCorrects(log[j])
  }

  /** Every request to the yard left its rows, and none removed any. */
  predicate Committed(s: State, rs: seq<Request>)
    decreases |rs|
  {
    rs == [] ||
    (!rs[0].Deletion? && (AskedOfYard(rs[0]).Some? ==> Y.EffectOf(s.yard.tanks, AskedOfYard(rs[0]).value).Moves?) &&
     Committed(Next(s, rs[0]), rs[1..]))
  }

  lemma LogGrowsOnce(s: State, r: Request)
    requires Committed(s, [r])
    ensures s.yard.log <= Next(s, r).yard.log
  {
  }

  lemma {:induction false} LogGrows(s: State, rs: seq<Request>)
    requires Committed(s, rs)
    ensures s.yard.log <= Run(s, rs).yard.log
    decreases |rs|
  {
    if rs == [] {
    } else {
      LogGrowsOnce(s, rs[0]);
      LogGrows(Next(s, rs[0]), rs[1..]);
    }
  }

  /** A disturbing request leaves a telling row. */
  lemma DisturbingRow(s: State, r: Request, o: OrderId, drawn: set<Y.TankId>)
    requires Y.Readings(s.yard.tanks) && Proper(r) && !About(s.books, r, o) && Disturbs(r, drawn)
    requires Y.EffectOf(s.yard.tanks, AskedOfYard(r).value).Moves?
    ensures var t := Next(s, r).yard.log;
      && |t| == |s.yard.log| + 1 && s.yard.log <= t && t[|s.yard.log|].order != Some(o)
      && t[|s.yard.log|].tank in drawn && ReadsOrCorrects(t[|s.yard.log|])
  {
  }

  predicate HasRow(log: seq<Y.TankTx>, o: OrderId, id: Y.TankId) {
    exists i :: 0 <= i < |log| && log[i].order == Some(o) && log[i].tank == id
  }

  /** Every tank the order drew from still shows it. */
  ghost predicate RowsStand(log: seq<Y.TankTx>, o: OrderId, drawn: set<Y.TankId>) {
    forall id <- drawn :: HasRow(log, o, id)
  }

  lemma RowsStillStand(s: State, r: Request, o: OrderId, drawn: set<Y.TankId>)
    requires RowsStand(s.yard.log, o, drawn) && s.yard.log <= Next(s, r).yard.log
    ensures RowsStand(Next(s, r).yard.log, o, drawn + Drawn(s, r, o))
  {
    var (log, t) := (s.yard.log, Next(s, r).yard.log);
    forall id | id in drawn + Drawn(s, r, o) ensures HasRow(t, o, id) {
      if id in drawn {
        var i :| 0 <= i < |log| && log[i].order == Some(o) && log[i].tank == id;
        assert t[i] == log[i];
      } else {
        IssueWrites(s.yard.tanks, r.move);
        assert t[|log|] == Y.EffectOf(s.yard.tanks, r.move).rows[0];
      }
    }
  }

  lemma TableContradicts(log: seq<Y.TankTx>, final: seq<Y.TankTx>, k: nat, o: OrderId, drawn: set<Y.TankId>)
    requires k < |log| && RowsStand(log[..k], o, drawn) && log <= final
    requires log[k].order != Some(o) && log[k].tank in drawn && ReadsOrCorrects(log[k])
    ensures !ClearTable(final, o)
  {
    var i :| 0 <= i < k && log[..k][i].order == Some(o) && log[..k][i].tank == log[k].tank;
    assert final[i] == log[i] && final[k] == log[k];
  }

  /** When every request to the yard left its rows, the table of tank transactions tells enough. */
  lemma {:induction false} ClearMeansUndisturbed(s: State, rs: seq<Request>, o: OrderId, drawn: set<Y.TankId>)
    requires Y.Inv(s.yard) && FreshRun(s, rs) && Committed(s, rs) && RowsStand(s.yard.log, o, drawn)
    requires ClearTable(Run(s, rs).yard.log, o)
    ensures Undisturbed(s, rs, o, drawn)
    decreases |rs|
  {
    if rs == [] {
    } else {
      var (r, t) := (rs[0], Next(s, rs[0]));
      LogGrowsOnce(s, r);
      LogGrows(t, rs[1..]);
      if !About(s.books, r, o) && Disturbs(r, drawn) {
        DisturbingRow(s, r, o, drawn);
        TableContradicts(t.yard.log, Run(s, rs).yard.log, |s.yard.log|, o, drawn);
      } else {
        YardInv(s.yard, r);
        RowsStillStand(s, r, o, drawn);
        ClearMeansUndisturbed(t, rs[1..], o, drawn + Drawn(s, r, o));
      }
    }
  }

  /** Before a deletion the table of tank transactions shows whether it will keep its promise: no row of the
      order is followed in its tank by a metered row or a correction of another. */
  lemma ClearTableDeletes(rs: seq<Request>, o: OrderId)
    requires FreshRun(START, rs) && Committed(START, rs) && ClearTable(Run(START, rs).yard.log, o)
    ensures SameButReadings(Run(START, rs + [Deletion(o)]), Run(START, Without(START, rs, o)),
                            DrawnInRun(START, rs, o, {}))
  {
    ClearMeansUndisturbed(START, rs, o, {});
    DeletedAsIfNever(rs, o);
  }

  /** An order that never drew from a tank leaves nothing behind at all. */
  lemma {:induction false} NeverDrewIsUndisturbed(s: State, rs: seq<Request>, o: OrderId)
    requires forall r <- rs :: !(r.OnTanks? && r.move.Issue? && r.move.order == Some(o))
    ensures Undisturbed(s, rs, o, {}) && DrawnInRun(s, rs, o, {}) == {}
    decreases |rs|
  {
    if rs == [] {
    } else {
      assert {} + Drawn(s, rs[0], o) == {};
      NeverDrewIsUndisturbed(Next(s, rs[0]), rs[1..], o);
    }
  }

  // ----- Inputs on which the promise fails -----

  /** One empty tank with its counter at zero. */
  const ONE_TANK := Y.Yard(map[0 := Y.Tank(0, 0)], [])

  const BOSS := Actor(Admin, 0)

  function Draw(after: int, o: OrderId): Y.YardStep { Y.Issue(BOSS, 0, after, Some(o)) }

  lemma DrawOnce(after: int, o: OrderId)
    requires 0 < after < Y.MODULUS
    ensures var y := Y.Next(ONE_TANK, Draw(after, o));
      y == Y.Yard(map[0 := Y.Tank(-100 * after, after)],
                  [Y.TankTx(0, Y.IssueTx, 100 * after, 0, after, Some(o), None, -100 * after)])
  {
    assert ONE_TANK.tanks + map[0 := Y.Tank(-100 * after, after)] == map[0 := Y.Tank(-100 * after, after)];
  }

  lemma DrawForgotten(after: int, o: OrderId)
    requires 0 < after < Y.MODULUS
    ensures Y.Next(Y.Next(ONE_TANK, Draw(after, o)), Y.Forget(o)).tanks == map[0 := Y.Tank(0, after)]
  {
    DrawOnce(after, o);
    Y.ForgottenIssue(ONE_TANK, Draw(after, o), o, 0);
  }

  /** A later issue reads the counter the order has moved: it takes 50 litres where it would have taken 150. */
  lemma LaterIssueFallsShort()
    ensures var y := Y.Next(Y.Next(Y.Next(ONE_TANK, Draw(100, 1)), Draw(150, 2)), Y.Forget(1));
      0 in y.tanks && y.tanks[0].volume == -5_000
    ensures var z := Y.Next(ONE_TANK, Draw(150, 2)); 0 in z.tanks && z.tanks[0].volume == -15_000
  {
    DrawOnce(100, 1);
    DrawForgotten(100, 1);
    LevelAfterIssue(Y.Next(ONE_TANK, Draw(100, 1)), Draw(150, 2), 1);
    DrawOnce(150, 2);
  }

  const FILL := Y.Correct(BOSS, 0, Some(50_000), None)

  lemma Filled(y: Y.Yard)
    requires 0 in y.tanks
    ensures var e := Y.EffectOf(y.tanks, FILL);
      e.Moves? && e.changes == map[0 := Y.Tank(50_000, y.tanks[0].counter)] && |e.rows| == 1 && e.rows[0].order.None?
  {
  }

  lemma FilledAfterDraw()
    ensures var y := Y.Next(Y.Next(Y.Next(ONE_TANK, Draw(100, 1)), FILL), Y.Forget(1));
      0 in y.tanks && y.tanks[0].volume == 60_000
  {
    var x := Y.Next(ONE_TANK, Draw(100, 1));
    DrawOnce(100, 1);
    DrawForgotten(100, 1);
    Filled(x);
    LevelAfterDeletion(x, Y.EffectOf(x.tanks, FILL), 1, 0);
  }

  /** A level set to 500 litres after the order's issue becomes 600. */
  lemma CorrectedLevelIsRaised()
    ensures var y := Y.Next(Y.Next(Y.Next(ONE_TANK, Draw(100, 1)), FILL), Y.Forget(1));
      0 in y.tanks && y.tanks[0].volume == 60_000
    ensures var z := Y.Next(ONE_TANK, FILL); 0 in z.tanks && z.tanks[0].volume == 50_000
  {
    FilledAfterDraw();
    Filled(ONE_TANK);
  }

  /** Once an order has been deleted a clear table tells nothing any more: its rows are gone, the counter is where
      they left it, and a later issue takes 50 litres where it would have taken 150. */
  lemma EarlierDeletionLooksClear()
    ensures var y := Y.Next(Y.Next(Y.Next(ONE_TANK, Draw(100, 1)), Y.Forget(1)), Draw(150, 2));
      ClearTable(y.log, 1) && 0 in y.tanks && y.tanks[0].volume == -5_000
    ensures var z := Y.Next(ONE_TANK, Draw(150, 2)); 0 in z.tanks && z.tanks[0].volume == -15_000
  {
    DrawForgotten(100, 1);
    DrawOnce(150, 2);
    var y := Y.Next(Y.Next(ONE_TANK, Draw(100, 1)), Y.Forget(1));
    Y.ForgottenIssue(ONE_TANK, Draw(100, 1), 1, 0);
    assert y == Y.Yard(map[0 := Y.Tank(0, 100)], []);
    IssueTakes(y.tanks, Draw(150, 2));
  }

  function Metered(f: Fuel): Request { Expense(BOSS, {f}, f, 4_000, Some(0), Some(100), 0, "") }

  /** An expense metered at the reading the order left is refused, and would not have been.  The refusal
      leaves no row, so the table of tank transactions looks clear. */
  lemma RefusedReadingLeavesNoRow(f: Fuel)
    ensures var x := Next(Next(State(FuelBooks.EMPTY, ONE_TANK), OnTanks(Draw(100, 1))), Metered(f));
      x.books.journal == [] && ClearTable(x.yard.log, 1)
    ensures |Next(State(FuelBooks.EMPTY, ONE_TANK), Metered(f)).books.journal| == 1
  {
    DrawOnce(100, 1);
  }

  // ----- Histories of the whole depot -----

  datatype Moment = Moment(snapshot: E.Snapshot, yard: Y.Yard)

  ghost predicate Legal(m: Moment, r: Request, m': Moment) {
    && (match AskedOfBooks(m.yard.tanks, r)
        case None => m'.snapshot == m.snapshot
        case Some(step) => E.Legal(m.snapshot, step, m'.snapshot))
    && m'.yard == YardAfter(m.yard, r)
  }

  ghost predicate LegalAt(trace: seq<Moment>, rs: seq<Request>, i: nat)
    requires i < |rs| < |trace|
  {
    Legal(trace[i], rs[i], trace[i + 1])
  }

  /** A history of books, cached stock and yard, starting empty. */
  ghost predicate History(trace: seq<Moment>, rs: seq<Request>) {
    && |trace| == |rs| + 1
    && trace[0] == Moment(E.Snapshot(FuelBooks.EMPTY, map[]), Y.BARE)
    && (forall i :: 0 <= i < |rs| ==> LegalAt(trace, rs, i))
    && (forall r <- rs :: Proper(r))
  }

  function StateOf(m: Moment): State { State(m.snapshot.books, m.yard) }

  lemma LegalIsNext(m: Moment, r: Request, m': Moment)
    requires Legal(m, r, m') && Proper(r)
    ensures StateOf(m') == Next(StateOf(m), r)
    ensures (forall f :: E.Drift(m.snapshot, f) == 0) ==> forall f :: E.Drift(m'.snapshot, f) == 0
  {
  }

  lemma {:induction false} HistoryIsRun(trace: seq<Moment>, rs: seq<Request>, n: nat)
    requires History(trace, rs) && n <= |rs|
    ensures StateOf(trace[n]) == Run(START, rs[..n]) && forall f :: E.Drift(trace[n].snapshot, f) == 0
  {
    if n == 0 {
    } else {
      HistoryIsRun(trace, rs, n - 1);
      assert LegalAt(trace, rs, n - 1);
      LegalIsNext(trace[n - 1], rs[n - 1], trace[n]);
      RunSnoc(START, rs[..n - 1], rs[n - 1]);
      assert rs[..n] == rs[..n - 1] + [rs[n - 1]];
    }
  }

  /** The promise of order deletion for the whole depot: compare any history ended by the deletion of an
      order with any history of the same requests less those about it.  If none of those disturbed a tank
      the order had drawn from, journal, trips, the stock of every fuel and all tank levels are equal. */
  lemma NeverExisted(rs: seq<Request>, o: OrderId, with: seq<Moment>, without: seq<Moment>)
    requires FreshRun(START, rs) && Undisturbed(START, rs, o, {})
    requires History(with, rs + [Deletion(o)]) && History(without, Without(START, rs, o))
    ensures var (x, z) := (with[|with| - 1], without[|without| - 1]);
      && SameButReadings(StateOf(x), StateOf(z), DrawnInRun(START, rs, o, {}))
      && forall f :: E.StockOf(x.snapshot.stock, f) == E.StockOf(z.snapshot.stock, f)
  {
    var (x, z) := (with[|with| - 1], without[|without| - 1]);
    var (all, rest) := (rs + [Deletion(o)], Without(START, rs, o));
    HistoryIsRun(with, all, |all|);
    HistoryIsRun(without, rest, |rest|);
    assert all[..|all|] == all && rest[..|rest|] == rest;
    DeletedAsIfNever(rs, o);
    forall f ensures E.StockOf(x.snapshot.stock, f) == E.StockOf(z.snapshot.stock, f) {
      assert E.Drift(x.snapshot, f) == 0 && E.Drift(z.snapshot, f) == 0;
    }
  }
}

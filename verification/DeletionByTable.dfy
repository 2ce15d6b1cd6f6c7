/** Which requests feel an order, told by the table of tank transactions alone.

    The counter a tank would show without the order is stored nowhere, but as long as no order has been deleted it
    can be read off the rows. */
module DeletionByTable {
  import opened Common
  import opened Requests
  import opened OrderDeletion
  import Y = TankYard

  /** A row that set its tank's counter or level with or without the order. */
  predicate Telling(tx: Y.TankTx, o: OrderId) { tx.order != Some(o) && ReadsOrCorrects(tx) }

  /** The counter a tank would show without the order: walk its rows back to the last telling one, or to the
      reading it was created with. */
  function WithoutReading(own: seq<Y.TankTx>, counter: int, o: OrderId): int {
    if own == [] then counter else
      var last := own[|own| - 1];
      if Telling(last, o) then last.after else WithoutReading(own[..|own| - 1], last.before, o)
  }

  function ReadingWithout(y: Y.Yard, id: Y.TankId, o: OrderId): int
    requires id in y.tanks
  {
    WithoutReading(Y.Own(y.log, id), y.tanks[id].counter, o)
  }

  /** The request meets nothing the order has changed: an issue or a metered expense finds the counter as it would
      be without the order, as far as it matters, and a tank whose level is corrected has no row of the order. */
  predicate UnfeltByTable(y: Y.Yard, s: Y.YardStep, o: OrderId) {
    match s
    case Issue(actor, id, _, _) => MayView(actor) && id in y.tanks ==> y.tanks[id].counter == ReadingWithout(y, id, o)
    case Correct(actor, id, level, _) => actor.role == Admin && level.Some? && id in y.tanks ==> !HasRow(y.log, o, id)
    case Spend(id, _, metered) =>
      metered.Some? && id in y.tanks ==>
        (metered.value == y.tanks[id].counter <==> metered.value == ReadingWithout(y, id, o))
    case _ => true
  }

  predicate RequestUnfelt(y: Y.Yard, r: Request, o: OrderId) {
    var step := AskedOfYard(r);
    step.Some? ==> UnfeltByTable(y, step.value, o)
  }

  // ----- The reading without the order -----

  ghost predicate ReadingsTold(x: Y.Yard, z: Y.Yard, o: OrderId) {
    forall id <- x.tanks | id in z.tanks :: z.tanks[id].counter == ReadingWithout(x, id, o)
  }

  /** Twins whose rows of the order all stand, and whose other counters the table tells. */
  ghost predicate TableTwin(x: State, z: State, o: OrderId, drawn: set<Y.TankId>) {
    && Twin(x, z, o, drawn)
    && RowsStand(x.yard.log, o, drawn)
    && ReadingsTold(x.yard, z.yard, o)
  }

  lemma OneRowMore(own: seq<Y.TankTx>, r: Y.TankTx, counter: int, o: OrderId)
    ensures WithoutReading(own + [r], counter, o) == if Telling(r, o) then r.after else WithoutReading(own, r.before, o)
  {
    assert (own + [r])[..|own|] == own;
  }

  /** How an effect of accepted rows moves the told reading of a tank. */
  lemma ReadingMoves(y: Y.Yard, e: Y.YardEffect, id: Y.TankId, o: OrderId)
    requires e.Moves? && Y.Accounts(y.tanks, e) && id in y.tanks
    ensures id in Y.Apply(y, e).tanks
    ensures (forall r <- e.rows :: r.tank != id) ==> ReadingWithout(Y.Apply(y, e), id, o) == ReadingWithout(y, id, o)
    ensures forall r <- e.rows | r.tank == id ::
      ReadingWithout(Y.Apply(y, e), id, o) == if Telling(r, o) then r.after else ReadingWithout(y, id, o)
  {
    FilterConcat(y.log, e.rows, Y.OfTank(id));
    Y.OwnRows(e.rows, id);
    if r :| r in e.rows && r.tank == id {
      assert Y.Follows(y.tanks, r, e.changes[id]);
      OneRowMore(Y.Own(y.log, id), r, r.after, o);
    } else {
      assert Y.Own(y.log, id) + [] == Y.Own(y.log, id);
    }
  }

  /** The row of a request and the counter the same request leaves without the order. */
  lemma RowTells(x: map<Y.TankId, Y.Tank>, z: map<Y.TankId, Y.Tank>, s: Y.YardStep, o: OrderId, r: Y.TankTx)
    requires Y.Readings(x) && Y.Readings(z) && Y.InSchema(s) && r.tank in x && r.tank in z
    requires UnfeltByYard(x, z, s) && !(s.Issue? && s.order == Some(o))
    requires s.Correct? && s.level.Some? ==> x[r.tank].counter == z[r.tank].counter
    requires Y.EffectOf(x, s).Moves? && r in Y.EffectOf(x, s).rows && Y.EffectOf(z, s).Moves?
    ensures r.tank in Y.EffectOf(z, s).changes
    ensures Y.EffectOf(z, s).changes[r.tank].counter == if Telling(r, o) then r.after else z[r.tank].counter
  {
  }

  lemma SameTanksMove(x: map<Y.TankId, Y.Tank>, z: map<Y.TankId, Y.Tank>, s: Y.YardStep, id: Y.TankId)
    requires Y.EffectOf(x, s).Moves? && Y.EffectOf(z, s).Moves? && id in x && id in z
    requires forall r <- Y.EffectOf(x, s).rows :: r.tank != id
    ensures id !in Y.EffectOf(z, s).changes
  {
    var e := Y.EffectOf(x, s);
    if s.Transfer? {
      assert e.rows[0].tank == s.source && e.rows[1].tank == s.target;
    } else if e.rows != [] {
      assert e.rows[0].tank == s.id;
    }
  }

  lemma RowOfCorrection(tanks: map<Y.TankId, Y.Tank>, s: Y.YardStep, r: Y.TankTx)
    requires Y.EffectOf(tanks, s).Moves? && r in Y.EffectOf(tanks, s).rows
    ensures s.Correct? ==> r.tank == s.id
  {
  }

  lemma ToldStep(x: Y.Yard, z: Y.Yard, s: Y.YardStep, o: OrderId, id: Y.TankId)
    requires Y.Readings(x.tanks) && Y.Readings(z.tanks) && Y.InSchema(s) && id in x.tanks && id in z.tanks
    requires UnfeltByYard(x.tanks, z.tanks, s) && !(s.Issue? && s.order == Some(o))
    requires s.Correct? && s.level.Some? && s.id == id ==> x.tanks[id].counter == z.tanks[id].counter
    requires Y.EffectOf(x.tanks, s).Moves? && Y.EffectOf(z.tanks, s).Moves?
    requires z.tanks[id].counter == ReadingWithout(x, id, o)
    ensures id in Y.Next(x, s).tanks && id in Y.Next(z, s).tanks
    ensures Y.Next(z, s).tanks[id].counter == ReadingWithout(Y.Next(x, s), id, o)
  {
    var e := Y.EffectOf(x.tanks, s);
    Y.EffectAccounts(x.tanks, s);
    ReadingMoves(x, e, id, o);
    if r :| r in e.rows && r.tank == id {
      RowOfCorrection(x.tanks, s, r);
      RowTells(x.tanks, z.tanks, s, o, r);
    } else {
      SameTanksMove(x.tanks, z.tanks, s, id);
    }
  }

  lemma FirstRowIsTold(r: Y.TankTx, id: Y.TankId, counter: int, o: OrderId)
    requires r.tank == id && Telling(r, o)
    ensures WithoutReading([] + Y.Own([r], id), counter, o) == r.after
  {
    Y.LevelOne(r, id);
    OneRowMore([], r, counter, o);
    assert [] + [r] == [r];
  }

  lemma FirstRowTells(x: Y.Yard, s: Y.YardStep, o: OrderId, id: Y.TankId)
    requires Y.Inv(x) && Y.EffectOf(x.tanks, s).Moves? && id !in x.tanks && id in Y.Next(x, s).tanks
    ensures s.Build? && s.id == id && ReadingWithout(Y.Next(x, s), id, o) == s.reading
  {
    var e := Y.EffectOf(x.tanks, s);
    Y.NoRowsYet(x, id);
    FilterConcat(x.log, e.rows, Y.OfTank(id));
    if e.rows != [] {
      assert e.rows == [e.rows[0]];
      FirstRowIsTold(e.rows[0], id, s.reading, o);
    }
  }

  lemma BuiltTold(x: Y.Yard, z: Y.Yard, s: Y.YardStep, o: OrderId, id: Y.TankId)
    requires Y.Inv(x) && Y.EffectOf(x.tanks, s).Moves? && Y.EffectOf(z.tanks, s).Moves?
    requires id !in x.tanks && id !in z.tanks && id in Y.Next(x, s).tanks && id in Y.Next(z, s).tanks
    ensures Y.Next(z, s).tanks[id].counter == ReadingWithout(Y.Next(x, s), id, o)
  {
    FirstRowTells(x, s, o, id);
  }

  lemma {:induction false} RowsPutBack(rows: seq<Y.TankTx>, o: OrderId)
    requires forall tx <- rows :: Y.Honest(tx) && tx.order == Some(o)
    ensures Sum(rows, Y.PutBack) >= |rows|
  {
    if rows == [] {
    } else {
      assert Y.Honest(rows[0]);
      RowsPutBack(rows[1..], o);
    }
  }

  lemma OwnHasRow(log: seq<Y.TankTx>, o: OrderId, id: Y.TankId)
    requires HasRow(log, o, id)
    ensures Y.Own(Filter(log, Y.RowOf(o)), id) != []
  {
    var i :| 0 <= i < |log| && log[i].order == Some(o) && log[i].tank == id;
    FilterNonEmpty(log, Y.RowOf(o));
    FilterFinds(log, Y.RowOf(o), log[i]);
    FilterNonEmpty(Filter(log, Y.RowOf(o)), Y.OfTank(id));
  }

  lemma PutBackRaises(y: Y.Yard, o: OrderId, id: Y.TankId)
    requires (forall tx <- y.log :: Y.Honest(tx)) && HasRow(y.log, o, id)
    ensures Sum(Y.Own(Filter(y.log, Y.RowOf(o)), id), Y.PutBack) > 0
  {
    var rows := Filter(y.log, Y.RowOf(o));
    FilterMembers(y.log, Y.RowOf(o));
    FilterMembers(rows, Y.OfTank(id));
    RowsPutBack(Y.Own(rows, id), o);
    OwnHasRow(y.log, o, id);
  }

  lemma LevelForgotten(y: Y.Yard, o: OrderId, id: Y.TankId)
    requires id in y.tanks
    ensures id in Y.Next(y, Y.Forget(o)).tanks
    ensures Y.Next(y, Y.Forget(o)).tanks[id].volume
      == y.tanks[id].volume + Sum(Y.Own(Filter(y.log, Y.RowOf(o)), id), Y.PutBack)
  {
  }

  /** A tank with a row of the order holds less than without the order. */
  lemma RowLowers(x: Y.Yard, z: Y.Yard, o: OrderId, drawn: set<Y.TankId>, id: Y.TankId)
    requires YardTwin(x, z, o, drawn) && Y.Inv(x) && Y.Inv(z) && id in x.tanks && HasRow(x.log, o, id)
    ensures x.tanks[id].volume < z.tanks[id].volume
  {
    LevelAgrees(x, z, o, id);
    LevelForgotten(x, o, id);
    PutBackRaises(x, o, id);
  }

  /** The table decides like a comparison of the two yards. */
  lemma UnfeltToldByTable(x: State, z: State, r: Request, o: OrderId, drawn: set<Y.TankId>)
    requires TableTwin(x, z, o, drawn)
    ensures Unfelt(x, z, r) <==> RequestUnfelt(x.yard, r, o)
  {
    var step := AskedOfYard(r);
    if step.Some? && step.value.Correct? && step.value.id in x.yard.tanks {
      var id := step.value.id;
      if HasRow(x.yard.log, o, id) {
        RowLowers(x.yard, z.yard, o, drawn, id);
      } else {
        assert id !in drawn;
      }
    }
  }

  lemma UncorrectedAlike(x: State, z: State, r: Request, o: OrderId, drawn: set<Y.TankId>, s: Y.YardStep)
    requires TableTwin(x, z, o, drawn) && Unfelt(x, z, r) && AskedOfYard(r) == Some(s)
    requires s.Correct? && s.level.Some? && Y.EffectOf(x.yard.tanks, s).Moves?
    ensures s.id in x.yard.tanks && x.yard.tanks[s.id] == z.yard.tanks[s.id]
  {
    UnfeltToldByTable(x, z, r, o, drawn);
    assert !HasRow(x.yard.log, o, s.id);
    assert s.id !in drawn;
  }

  lemma AllTold(x: State, z: State, r: Request, o: OrderId, drawn: set<Y.TankId>)
    requires TableTwin(x, z, o, drawn) && Proper(r) && !About(x.books, r, o) && Unfelt(x, z, r) && !r.Deletion?
    ensures ReadingsTold(Next(x, r).yard, Next(z, r).yard, o)
  {
    if AskedOfYard(r).Some? {
      var s := AskedOfYard(r).value;
      ProperForYard(r);
      EffectsAlike(x.yard.tanks, z.yard.tanks, s, o, drawn);
      Y.OnlyForgets(x.yard.tanks, s);
      if Y.EffectOf(x.yard.tanks, s).Moves? {
        if s.Correct? && s.level.Some? {
          UncorrectedAlike(x, z, r, o, drawn, s);
        }
        forall id | id in Y.Next(x.yard, s).tanks && id in Y.Next(z.yard, s).tanks
          ensures Y.Next(z.yard, s).tanks[id].counter == ReadingWithout(Y.Next(x.yard, s), id, o)
        {
          if id in x.yard.tanks {
            ToldStep(x.yard, z.yard, s, o, id);
          } else {
            BuiltTold(x.yard, z.yard, s, o, id);
          }
        }
      }
    }
  }

  lemma NoRowGoes(s: State, r: Request)
    requires !r.Deletion? && Proper(r)
    ensures s.yard.log <= Next(s, r).yard.log
  {
    if AskedOfYard(r).Some? {
      Y.OnlyForgets(s.yard.tanks, AskedOfYard(r).value);
    }
  }

  lemma TableTwinStep(x: State, z: State, r: Request, o: OrderId, drawn: set<Y.TankId>)
    requires TableTwin(x, z, o, drawn) && Proper(r) && Fresh(x.books, r)
    requires !About(x.books, r, o) && Unfelt(x, z, r) && !r.Deletion?
    ensures TableTwin(Next(x, r), Next(z, r), o, drawn)
  {
    TwinStep(x, z, r, o, drawn);
    NoRowGoes(x, r);
    RowsStillStand(x, r, o, drawn);
    AllTold(x, z, r, o, drawn);
  }

  lemma OwnIssueTold(x: Y.Yard, z: Y.Yard, s: Y.YardStep, o: OrderId, id: Y.TankId)
    requires Y.Readings(x.tanks) && Y.InSchema(s) && s.Issue? && s.order == Some(o)
    requires id in x.tanks && id in z.tanks && z.tanks[id].counter == ReadingWithout(x, id, o)
    ensures id in Y.Next(x, s).tanks && z.tanks[id].counter == ReadingWithout(Y.Next(x, s), id, o)
  {
    var e := Y.EffectOf(x.tanks, s);
    IssueWrites(x.tanks, s);
    if e.Moves? {
      Y.EffectAccounts(x.tanks, s);
      ReadingMoves(x, e, id, o);
      assert e.rows == [e.rows[0]];
    }
  }

  lemma TableTwinAbout(x: State, z: State, r: Request, o: OrderId, drawn: set<Y.TankId>)
    requires TableTwin(x, z, o, drawn) && Proper(r) && Fresh(x.books, r) && About(x.books, r, o) && !r.Deletion?
    ensures TableTwin(Next(x, r), z, o, drawn + Drawn(x, r, o))
  {
    TwinAbout(x, z, r, o, drawn);
    NoRowGoes(x, r);
    RowsStillStand(x, r, o, drawn);
    if r.OnTanks? {
      IssueWrites(x.yard.tanks, r.move);
      forall id | id in Next(x, r).yard.tanks && id in z.yard.tanks
        ensures z.yard.tanks[id].counter == ReadingWithout(Next(x, r).yard, id, o)
      {
        OwnIssueTold(x.yard, z.yard, r.move, o, id);
      }
    }
  }

  // ----- Exactly when, by the table -----

  /** One request about something else keeps the agreement exactly when by the table it does not feel the order. */
  lemma StepAgreesByTable(x: State, z: State, r: Request, o: OrderId, drawn: set<Y.TankId>)
    requires TableTwin(x, z, o, drawn) && Proper(r) && Fresh(x.books, r) && !About(x.books, r, o)
    ensures Agreeing(Next(x, r), Next(z, r), o) <==> RequestUnfelt(x.yard, r, o)
  {
    StepAgreesExactly(x, z, r, o, drawn);
    UnfeltToldByTable(x, z, r, o, drawn);
  }

  predicate UnfeltByTableInRun(x: State, rs: seq<Request>, o: OrderId)
    decreases |rs|
  {
    rs == [] ||
    ((About(x.books, rs[0], o) || RequestUnfelt(x.yard, rs[0], o)) && UnfeltByTableInRun(Next(x, rs[0]), rs[1..], o))
  }

  lemma {:induction false} AgreesByTable(x: State, z: State, rs: seq<Request>, o: OrderId, drawn: set<Y.TankId>)
    requires TableTwin(x, z, o, drawn) && FreshRun(x, rs) && forall r <- rs :: !r.Deletion?
    ensures AgreesThroughout(x, z, rs, o) <==> UnfeltByTableInRun(x, rs, o)
    decreases |rs|
  {
    DeletionCloses(x, z, o, drawn);
    if rs == [] {
    } else {
      var r := rs[0];
      if About(x.books, r, o) {
        TableTwinAbout(x, z, r, o, drawn);
        AgreesByTable(Next(x, r), z, rs[1..], o, drawn + Drawn(x, r, o));
      } else {
        StepAgreesByTable(x, z, r, o, drawn);
        UnfeltToldByTable(x, z, r, o, drawn);
        if Unfelt(x, z, r) {
          TableTwinStep(x, z, r, o, drawn);
          AgreesByTable(Next(x, r), Next(z, r), rs[1..], o, drawn);
        }
      }
    }
  }

  lemma {:induction false} TableTwinRun(x: State, z: State, rs: seq<Request>, o: OrderId, drawn: set<Y.TankId>)
    requires TableTwin(x, z, o, drawn) && FreshRun(x, rs) && forall r <- rs :: !r.Deletion?
    requires UnfeltByTableInRun(x, rs, o)
    ensures TableTwin(Run(x, rs), Run(z, Without(x, rs, o)), o, DrawnInRun(x, rs, o, drawn))
    decreases |rs|
  {
    if rs == [] {
    } else {
      var (r, rest) := (rs[0], rs[1..]);
      RunWithout(x, z, rs, o);
      if About(x.books, r, o) {
        TableTwinAbout(x, z, r, o, drawn);
        TableTwinRun(Next(x, r), z, rest, o, drawn + Drawn(x, r, o));
      } else {
        UnfeltToldByTable(x, z, r, o, drawn);
        TableTwinStep(x, z, r, o, drawn);
        assert Drawn(x, r, o) == {} && drawn + {} == drawn;
        TableTwinRun(Next(x, r), Next(z, r), rest, o, drawn);
      }
    }
  }

  /** From the empty database, as long as no order is deleted and no request feels the order: the counter a tank
      would show without it can be read off the rows. */
  lemma CounterToldByTable(rs: seq<Request>, o: OrderId, id: Y.TankId)
    requires FreshRun(START, rs) && (forall r <- rs :: !r.Deletion?) && UnfeltByTableInRun(START, rs, o)
    requires id in Run(START, rs).yard.tanks
    ensures var z := Run(START, Without(START, rs, o)).yard;
      id in z.tanks && z.tanks[id].counter == ReadingWithout(Run(START, rs).yard, id, o)
  {
    StartsAsTwin(o);
    TableTwinRun(START, START, rs, o, {});
  }

  /** From the empty database, as long as no order is deleted: the promise of deletion for books and levels holds at
      every moment of a run exactly when at each request the table of tank transactions, with the tanks and the
      order's own rows in it, shows nothing the request would feel. */
  lemma PromiseKeptByTable(rs: seq<Request>, o: OrderId)
    requires FreshRun(START, rs) && forall r <- rs :: !r.Deletion?
    ensures AgreesThroughout(START, START, rs, o) <==> UnfeltByTableInRun(START, rs, o)
  {
    StartsAsTwin(o);
    AgreesByTable(START, START, rs, o, {});
  }
}

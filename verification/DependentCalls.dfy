/**
  The clicks of programs as whole calls: what the draws of one call amount to, and what any
  sequence of calls, between and during which anything else may commit, does to a reference.
 */
module DependentCalls {
  import opened Wrappers
  import opened Keyrings
  import opened DependentAccesses

  // ---------------------------------------------------------------------------
  // One call
  // ---------------------------------------------------------------------------

  /** The tables the i-th attempt meets when no earlier one wrote anything. */
  function Met(db: Db, turns: nat -> Turn, i: nat): Db {
    turns(i).before(if i == 0 then db else Met(db, turns, i - 1))
  }

  function Tried(db: Db, c: Call, turns: nat -> Turn, i: nat): (Db, Verdict) {
    Try(if i == 0 then db else Met(db, turns, i - 1), c, turns(i))
  }

  /** What an attempt that met another's identifier leaves: nothing. */
  lemma CollisionWritesNothing(db: Db, c: Call, turns: nat -> Turn, i: nat)
    requires Tried(db, c, turns, i).1.IdentifierCollision?
    ensures Tried(db, c, turns, i).0 == Met(db, turns, i)
  {
    ClickAndGrant(Met(db, turns, i), c, turns(i).identifier, turns(i).rowId, turns(i).ofAge, turns(i).capRefused);
  }

  /** A call stops at its first attempt that draws a free identifier, or at its fifth. */
  ghost predicate StopsAt(db: Db, c: Call, turns: nat -> Turn, last: nat) {
    && last < 5
    && (forall i :: 0 <= i < last ==> Tried(db, c, turns, i).1.IdentifierCollision?)
    && (last == 4 || !Tried(db, c, turns, last).1.IdentifierCollision?)
  }

  lemma {:induction false} FromDraw(db: Db, c: Call, turns: nat -> Turn, i: nat) returns (last: nat)
    requires i < MAX_IDENTIFIER_DRAWS
    requires forall j :: 0 <= j < i ==> Tried(db, c, turns, j).1.IdentifierCollision?
    ensures i <= last && StopsAt(db, c, turns, last)
    ensures
      var start := if i == 0 then db else Met(db, turns, i - 1);
      Attempts(start, c, turns, i) == (Tried(db, c, turns, last).0, Translate(Tried(db, c, turns, last).1))
    decreases MAX_IDENTIFIER_DRAWS - i
  {
    if Tried(db, c, turns, i).1.IdentifierCollision? {
      CollisionWritesNothing(db, c, turns, i);
      if i + 1 < MAX_IDENTIFIER_DRAWS { last := FromDraw(db, c, turns, i + 1); } else { last := i; }
    } else {
      last := i;
    }
  }

  /**
    A call is at most five attempts, all but the last of them collisions that wrote nothing; it
    answers what the last one decided, and throws exactly when that one was refused by the
    database or was a fifth collision.
   */
  lemma CallIsItsLastAttempt(db: Db, c: Call, turns: nat -> Turn) returns (last: nat)
    ensures StopsAt(db, c, turns, last)
    ensures forall i :: 0 <= i < last ==> Tried(db, c, turns, i).0 == Met(db, turns, i)
    ensures Attempts(db, c, turns, 0) == (Tried(db, c, turns, last).0, Translate(Tried(db, c, turns, last).1))
    ensures Attempts(db, c, turns, 0).1.Threw? <==>
              Tried(db, c, turns, last).1.Raised?
              || (forall i :: 0 <= i < 5 ==> Tried(db, c, turns, i).1.IdentifierCollision?)
  {
    last := FromDraw(db, c, turns, 0);
    forall i | 0 <= i < last ensures Tried(db, c, turns, i).0 == Met(db, turns, i) {
      CollisionWritesNothing(db, c, turns, i);
    }
  }

  // ---------------------------------------------------------------------------
  // Calls among other acts
  // ---------------------------------------------------------------------------

  /** One draw of a call, and whatever commits before it: acts of others, their attempts included. */
  datatype Draw = Draw(others: seq<Act>, identifier: string, rowId: nat, ofAge: bool, capRefused: bool)

  datatype Click = Click(
    program: nat, reference: string, keys: References, phoneOk: bool, identityOk: bool, draws: nat -> Draw)

  datatype Event = Clicked(click: Click) | Elsewise(act: Act)

  datatype Reply = Reply(program: nat, reference: string, outcome: Outcome)

  function TurnsOf(click: Click, w: World): nat -> Turn {
    (i: nat) =>
      var d := click.draws(i);
      Turn((db: Db) => Run(State(db, []), d.others, w).db, d.identifier, d.rowId, d.ofAge, d.capRefused)
  }

  /** What `OpenAccess` makes of a click. */
  function Replied(db: Db, click: Click, w: World): (Db, Outcome) {
    if !click.phoneOk then (db, InvalidPhone)
    else if !click.identityOk then (db, InvalidIdentity)
    else
      match CallUnder(click.keys, click.program, click.reference, w.hmac)
      case None => (db, Threw)
      case Some(call) => Attempts(db, call, TurnsOf(click, w), 0)
  }

  function AttemptOf(click: Click, i: nat): Act {
    var d := click.draws(i);
    Attempt(click.program, click.reference, click.keys, d.identifier, d.rowId, d.ofAge, d.capRefused)
  }

  /** The call every attempt of the click makes. */
  function CallMade(click: Click, w: World): Call { CallOf(AttemptOf(click, 0), w) }

  function OwnActs(click: Click, i: nat): seq<Act> { click.draws(i).others + [AttemptOf(click, i)] }

  /** The acts of a loop of draws from `i` on, when `draw` makes an attempt and `own` lists its acts. */
  function ScriptBy(draw: (Db, nat) -> (Db, Verdict), own: nat -> seq<Act>, db: Db, i: nat): seq<Act>
    decreases MAX_IDENTIFIER_DRAWS - i
  {
    if i >= MAX_IDENTIFIER_DRAWS then []
    else
      var (after, v) := draw(db, i);
      own(i) + if v.IdentifierCollision? then ScriptBy(draw, own, after, i + 1) else []
  }

  /** The i-th attempt, after what others committed before it. */
  function DrawBy(c: Call, turns: nat -> Turn): (Db, nat) -> (Db, Verdict) {
    (db: Db, i: nat) => Try(db, c, turns(i))
  }

  /** The acts of a click, those of others among them. */
  function ScriptFrom(db: Db, click: Click, w: World): seq<Act> {
    ScriptBy(DrawBy(CallMade(click, w), TurnsOf(click, w)), (i: nat) => OwnActs(click, i), db, 0)
  }

  function ScriptOf(db: Db, e: Event, w: World): seq<Act> {
    match e
    case Elsewise(act) => [act]
    case Clicked(click) =>
      if click.phoneOk && click.identityOk && ActiveMaterial(click.keys).Some? then ScriptFrom(db, click, w) else []
  }

  /** The tables after a sequence of events, and the replies of its clicks. */
  function Performed(db: Db, events: seq<Event>, w: World): (Db, seq<Reply>) {
    if events == [] then (db, [])
    else
      var (before, replies) := Performed(db, events[..|events| - 1], w);
      match events[|events| - 1]
      case Elsewise(act) => (Do(State(before, []), act, w).db, replies)
      case Clicked(click) =>
        var (after, outcome) := Replied(before, click, w);
        (after, replies + [Reply(click.program, click.reference, outcome)])
  }

  /** Everything that commits over a sequence of events, in order. */
  function Script(db: Db, events: seq<Event>, w: World): seq<Act> {
    if events == [] then []
    else
      var front := events[..|events| - 1];
      Script(db, front, w) + ScriptOf(Performed(db, front, w).0, events[|events| - 1], w)
  }

  // ---------------------------------------------------------------------------
  // Calls are runs of attempts
  // ---------------------------------------------------------------------------

  lemma DoFromDb(s: State, a: Act, w: World)
    ensures Do(s, a, w).db == Do(State(s.db, []), a, w).db
    ensures Do(s, a, w).answers == s.answers + Do(State(s.db, []), a, w).answers
  {
  }

  /** What a run does to the tables does not depend on what was answered before. */
  lemma {:induction false} RunFromDb(s: State, acts: seq<Act>, w: World)
    ensures Run(s, acts, w).db == Run(State(s.db, []), acts, w).db
    ensures s.answers <= Run(s, acts, w).answers
  {
    if acts != [] {
      var front, last := acts[..|acts| - 1], acts[|acts| - 1];
      RunFromDb(s, front, w);
      DoFromDb(Run(s, front, w), last, w);
      DoFromDb(Run(State(s.db, []), front, w), last, w);
    }
  }

  lemma {:induction false} RunConcat(s: State, a: seq<Act>, b: seq<Act>, w: World)
    ensures Run(s, a + b, w) == Run(Run(s, a, w), b, w)
    decreases |b|
  {
    if b == [] {
      assert a + b == a;
    } else {
      assert (a + b)[..|a + b| - 1] == a + b[..|b| - 1];
      RunConcat(s, a, b[..|b| - 1], w);
    }
  }

  lemma RunSnoc(s: State, a: seq<Act>, act: Act, w: World)
    ensures Run(s, a + [act], w) == Do(Run(s, a, w), act, w)
  {
    assert (a + [act])[..|a|] == a;
  }

  lemma {:induction false} MaterialIsItsValue(keys: Material, keyId: string, w: World)
    requires MaterialFor(keys, keyId).Some? && forall i :: 0 <= i < |keys| ==> keys[i].1 == w.values(keys[i].0)
    ensures MaterialFor(keys, keyId) == Some(w.values(keyId))
  {
    if keys[0].0 != keyId { MaterialIsItsValue(keys[1..], keyId, w); }
  }

  /** The service's call is the one the runs of attempts know. */
  lemma CallIsCallOf(click: Click, w: World)
    requires Usable(click.keys, w)
    ensures CallUnder(click.keys, click.program, click.reference, w.hmac) == Some(CallMade(click, w))
  {
    MaterialIsItsValue(click.keys.keys, click.keys.activeKeyId, w);
  }

  /** Some answer of the run is this identifier, for this reference. */
  ghost predicate Told(answers: seq<Answer>, program: nat, reference: string, identifier: string) {
    exists i :: 0 <= i < |answers| && answers[i].program == program && answers[i].reference == reference
                && answers[i].identifier == identifier
  }

  lemma ToldGrows(answers: seq<Answer>, more: seq<Answer>, program: nat, reference: string, identifier: string)
    requires Told(answers, program, reference, identifier) && answers <= more
    ensures Told(more, program, reference, identifier)
  {
    var i :| 0 <= i < |answers| && answers[i].program == program && answers[i].reference == reference
             && answers[i].identifier == identifier;
    assert more[i] == answers[i];
  }

  /** The run of acts does to the tables what the call did, and tells what it answered. */
  ghost predicate Follows(s: State, click: Click, acts: seq<Act>, result: (Db, Outcome), w: World) {
    var e := Run(s, acts, w);
    && e.db == result.0 && s.answers <= e.answers
    && (result.1.Accepted? ==> Told(e.answers, click.program, click.reference, result.1.identifier))
  }

  lemma SameCallEachDraw(click: Click, i: nat, w: World)
    ensures CallOf(AttemptOf(click, i), w) == CallMade(click, w)
  {
  }

  /** What a turn lets others commit is the run of their acts. */
  ghost predicate TurnIsDraw(t: Turn, d: Draw, w: World) {
    && (t.identifier, t.rowId, t.ofAge, t.capRefused) == (d.identifier, d.rowId, d.ofAge, d.capRefused)
    && forall db :: t.before(db) == Run(State(db, []), d.others, w).db
  }

  lemma TurnsAreDraws(click: Click, i: nat, w: World)
    ensures TurnIsDraw(TurnsOf(click, w)(i), click.draws(i), w)
  {
  }

  lemma AttemptTells(s: State, a: Act, tried: (Db, Verdict), w: World)
    requires a.Attempt? && tried == OpenTx(s.db, CallOf(a, w), a.identifier, a.rowId, a.ofAge, a.capRefused)
    ensures Do(s, a, w).db == tried.0 && s.answers <= Do(s, a, w).answers
    ensures Translate(tried.1).Accepted? ==> Told(Do(s, a, w).answers, a.program, a.reference, Translate(tried.1).identifier)
  {
    var e := Do(s, a, w);
    if Translate(tried.1).Accepted? { assert e.answers[|s.answers|].identifier == tried.1.identifier; }
  }

  /** One attempt among the acts of others. */
  lemma AttemptFollows(s: State, click: Click, i: nat, t: Turn, c: Call, w: World)
    requires TurnIsDraw(t, click.draws(i), w) && c == CallOf(AttemptOf(click, i), w)
    ensures Follows(s, click, OwnActs(click, i), (Try(s.db, c, t).0, Translate(Try(s.db, c, t).1)), w)
  {
    var d := click.draws(i);
    var met := Run(s, d.others, w);
    assert t.before(s.db) == met.db && s.answers <= met.answers by { RunFromDb(s, d.others, w); }
    RunSnoc(s, d.others, AttemptOf(click, i), w);
    AttemptTells(met, AttemptOf(click, i), Try(s.db, c, t), w);
  }

  /** The acts `own(i)` do to the tables what `draw` does, and tell what it answered. */
  ghost predicate DrawFollows(draw: (Db, nat) -> (Db, Verdict), own: nat -> seq<Act>, click: Click, s: State, i: nat, w: World) {
    Follows(s, click, own(i), (draw(s.db, i).0, Translate(draw(s.db, i).1)), w)
  }

  ghost predicate Faithful(draw: (Db, nat) -> (Db, Verdict), own: nat -> seq<Act>, click: Click, w: World) {
    forall s: State, i: nat :: DrawFollows(draw, own, click, s, i, w)
  }

  lemma OneDrawFollows(c: Call, turns: nat -> Turn, own: nat -> seq<Act>, click: Click, s: State, i: nat, w: World)
    requires own(i) == OwnActs(click, i) && c == CallOf(AttemptOf(click, i), w)
    requires TurnIsDraw(turns(i), click.draws(i), w)
    ensures DrawFollows(DrawBy(c, turns), own, click, s, i, w)
  {
    AttemptFollows(s, click, i, turns(i), c, w);
    assert DrawBy(c, turns)(s.db, i) == Try(s.db, c, turns(i));
  }

  /** All turns are draws of the click, and all calls are the one it makes. */
  ghost predicate Backed(c: Call, turns: nat -> Turn, own: nat -> seq<Act>, click: Click, w: World) {
    forall i: nat :: own(i) == OwnActs(click, i) && c == CallOf(AttemptOf(click, i), w) && TurnIsDraw(turns(i), click.draws(i), w)
  }

  lemma BackedIsFaithful(c: Call, turns: nat -> Turn, own: nat -> seq<Act>, click: Click, w: World)
    requires Backed(c, turns, own, click, w)
    ensures Faithful(DrawBy(c, turns), own, click, w)
  {
    var draw := DrawBy(c, turns);
    forall s: State, i: nat ensures DrawFollows(draw, own, click, s, i, w) {
      assert own(i) == OwnActs(click, i);
      OneDrawFollows(c, turns, own, click, s, i, w);
    }
  }

  lemma ClickIsBacked(click: Click, w: World)
    ensures Backed(CallMade(click, w), TurnsOf(click, w), (i: nat) => OwnActs(click, i), click, w)
  {
    var own := (i: nat) => OwnActs(click, i);
    forall i: nat
      ensures own(i) == OwnActs(click, i) && CallMade(click, w) == CallOf(AttemptOf(click, i), w)
      ensures TurnIsDraw(TurnsOf(click, w)(i), click.draws(i), w)
    {
      SameCallEachDraw(click, i, w);
      TurnsAreDraws(click, i, w);
    }
  }

  /** The loop of a call, whatever makes its attempts. */
  function LoopBy(draw: (Db, nat) -> (Db, Verdict), db: Db, i: nat): (Db, Outcome)
    decreases MAX_IDENTIFIER_DRAWS - i
  {
    if i >= MAX_IDENTIFIER_DRAWS then (db, Threw)
    else
      var (after, v) := draw(db, i);
      if v.IdentifierCollision? then LoopBy(draw, after, i + 1) else (after, Translate(v))
  }

  lemma Chained(s: State, click: Click, a: seq<Act>, first: (Db, Outcome), b: seq<Act>, result: (Db, Outcome), w: World)
    requires Follows(s, click, a, first, w) && Follows(Run(s, a, w), click, b, result, w)
    ensures Follows(s, click, a + b, result, w)
  {
    RunConcat(s, a, b, w);
  }

  lemma {:induction false} LoopFollows(s: State, draw: (Db, nat) -> (Db, Verdict), own: nat -> seq<Act>, click: Click, i: nat, w: World)
    requires Faithful(draw, own, click, w)
    ensures Follows(s, click, ScriptBy(draw, own, s.db, i), LoopBy(draw, s.db, i), w)
    decreases MAX_IDENTIFIER_DRAWS - i
  {
    if i < MAX_IDENTIFIER_DRAWS {
      var (after, v) := draw(s.db, i);
      assert DrawFollows(draw, own, click, s, i, w);
      if v.IdentifierCollision? {
        assert Run(s, own(i), w).db == after;
        LoopFollows(Run(s, own(i), w), draw, own, click, i + 1, w);
        Chained(s, click, own(i), (after, Translate(v)), ScriptBy(draw, own, after, i + 1), LoopBy(draw, after, i + 1), w);
      } else {
        assert own(i) + [] == own(i);
      }
    }
  }

  lemma {:induction false} AttemptsIsLoop(db: Db, c: Call, turns: nat -> Turn, i: nat)
    ensures Attempts(db, c, turns, i) == LoopBy(DrawBy(c, turns), db, i)
    decreases MAX_IDENTIFIER_DRAWS - i
  {
    if i < MAX_IDENTIFIER_DRAWS {
      AttemptsIsLoop(Try(db, c, turns(i)).0, c, turns, i + 1);
    }
  }

  lemma CallFollows(s: State, click: Click, w: World)
    ensures Follows(s, click, ScriptFrom(s.db, click, w), Attempts(s.db, CallMade(click, w), TurnsOf(click, w), 0), w)
  {
    ClickIsBacked(click, w);
    BackedIsFaithful(CallMade(click, w), TurnsOf(click, w), (i: nat) => OwnActs(click, i), click, w);
    LoopFollows(s, DrawBy(CallMade(click, w), TurnsOf(click, w)), (i: nat) => OwnActs(click, i), click, 0, w);
    AttemptsIsLoop(s.db, CallMade(click, w), TurnsOf(click, w), 0);
  }

  /** Of a keyring the service can use, the whole click is the run of its script. */
  lemma ClickIsItsScript(s: State, click: Click, w: World)
    requires ActiveMaterial(click.keys).Some? && click.phoneOk && click.identityOk ==> Usable(click.keys, w)
    ensures Follows(s, click, ScriptOf(s.db, Clicked(click), w), Replied(s.db, click, w), w)
  {
    if ActiveMaterial(click.keys).Some? && click.phoneOk && click.identityOk {
      CallIsCallOf(click, w);
      CallFollows(s, click, w);
    }
  }

  // ---------------------------------------------------------------------------
  // Any sequence of calls
  // ---------------------------------------------------------------------------

  /** Every attempt is made under a keyring the service can use. */
  ghost predicate AllUsable(acts: seq<Act>, w: World) {
    forall i :: 0 <= i < |acts| && acts[i].Attempt? ==> Usable(acts[i].keys, w)
  }

  lemma ScriptStarts(draw: (Db, nat) -> (Db, Verdict), own: nat -> seq<Act>, db: Db)
    ensures own(0) <= ScriptBy(draw, own, db, 0)
  {
  }

  lemma ScriptShowsKeys(db: Db, click: Click, w: World)
    requires AllUsable(ScriptOf(db, Clicked(click), w), w)
    ensures ActiveMaterial(click.keys).Some? && click.phoneOk && click.identityOk ==> Usable(click.keys, w)
  {
    if ActiveMaterial(click.keys).Some? && click.phoneOk && click.identityOk {
      ScriptStarts(DrawBy(CallMade(click, w), TurnsOf(click, w)), (i: nat) => OwnActs(click, i), db);
      var n := |click.draws(0).others|;
      assert OwnActs(click, 0)[n] == AttemptOf(click, 0);
      assert ScriptOf(db, Clicked(click), w)[n] == OwnActs(click, 0)[n];
    }
  }

  /** Every accepted reply is an answer of the run. */
  ghost predicate AllTold(replies: seq<Reply>, answers: seq<Answer>) {
    forall i :: 0 <= i < |replies| && replies[i].outcome.Accepted? ==>
      Told(answers, replies[i].program, replies[i].reference, replies[i].outcome.identifier)
  }

  lemma AllToldGrows(replies: seq<Reply>, answers: seq<Answer>, more: seq<Answer>)
    requires AllTold(replies, answers) && answers <= more
    ensures AllTold(replies, more)
  {
    forall i | 0 <= i < |replies| && replies[i].outcome.Accepted?
      ensures Told(more, replies[i].program, replies[i].reference, replies[i].outcome.identifier)
    {
      ToldGrows(answers, more, replies[i].program, replies[i].reference, replies[i].outcome.identifier);
    }
  }

  /** Calls, with all their draws, are runs of attempts: same tables, same identifiers told. */
  lemma {:induction false} CallsAreRuns(events: seq<Event>, w: World)
    requires AllUsable(Script(NOTHING.db, events, w), w)
    ensures
      var (db, replies) := Performed(NOTHING.db, events, w);
      var e := Run(NOTHING, Script(NOTHING.db, events, w), w);
      e.db == db && AllTold(replies, e.answers)
  {
    if events != [] {
      var front, last := events[..|events| - 1], events[|events| - 1];
      var before, own := Script(NOTHING.db, front, w), ScriptOf(Performed(NOTHING.db, front, w).0, last, w);
      assert AllUsable(before, w) && AllUsable(own, w) by { UsableParts(before, own, w); }
      CallsAreRuns(front, w);
      var s := Run(NOTHING, before, w);
      RunConcat(NOTHING, before, own, w);
      RunFromDb(s, own, w);
      AllToldGrows(Performed(NOTHING.db, front, w).1, s.answers, Run(s, own, w).answers);
      match last
      case Elsewise(act) => OneAct(s, act, w);
      case Clicked(click) =>
        ScriptShowsKeys(s.db, click, w);
        ClickIsItsScript(s, click, w);
    }
  }

  lemma OneAct(s: State, act: Act, w: World)
    ensures Run(s, [act], w).db == Do(State(s.db, []), act, w).db
  {
    assert [act][..0] == [];
    DoFromDb(s, act, w);
  }

  lemma UsableParts(a: seq<Act>, b: seq<Act>, w: World)
    requires AllUsable(a + b, w)
    ensures AllUsable(a, w) && AllUsable(b, w)
  {
    forall i | 0 <= i < |a| && a[i].Attempt? ensures Usable(a[i].keys, w) { assert (a + b)[i] == a[i]; }
    forall i | 0 <= i < |b| && b[i].Attempt? ensures Usable(b[i].keys, w) { assert (a + b)[|a| + i] == b[i]; }
  }

  /**
    Whatever identifiers collide and force new draws, and whatever commits between the calls and
    between their draws: while earlier active keys are kept, one reference of one program gives
    birth to at most one dependent, and every accepted call answers with the same identifier.
   */
  lemma OneDependentOverCalls(events: seq<Event>, program: nat, reference: string, w: World)
    requires Injective(w) && KeepsKeys(Script(NOTHING.db, events, w), program, reference, w)
    ensures
      var (db, replies) := Performed(NOTHING.db, events, w);
      var e := Run(NOTHING, Script(NOTHING.db, events, w), w);
      && db == e.db && Created(e.answers, program, reference) <= 1
      && (forall i, j :: 0 <= i < |replies| && 0 <= j < |replies|
                         && replies[i].program == program && replies[i].reference == reference && replies[i].outcome.Accepted?
                         && replies[j].program == program && replies[j].reference == reference && replies[j].outcome.Accepted?
            ==> replies[i].outcome == replies[j].outcome)
  {
    CallsAreRuns(events, w);
    OneDependentPerReference(Script(NOTHING.db, events, w), program, reference, w);
  }
}

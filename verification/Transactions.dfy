/**
 Transactions: the user effect commits together with a row in the application database, and
 then a step record goes to the system database.  Any number of executors run the same
 workflows, crash at any point, retry, and lose connections after a commit.
 */
module Transactions {
  import opened Values
  import opened TwoDatabases

  datatype Record = Record(name: string, outcome: Outcome)

  /** A step record; `stamp` is its completion time in milliseconds. */
  datatype Step = Step(record: Record, stamp: int)

  datatype Executor =
    | Idle
    /** before the look-up in the system database */
    | Called(key: Key, name: string)
    /** at the beginning of an attempt, before the look-up in the application database */
    | Attempting(key: Key, name: string)
    /** inside the database transaction, nothing was recorded when it began */
    | Working(key: Key, name: string)
    /** the function returned; its row is to be inserted and the transaction committed */
    | Committing(key: Key, name: string, output: string)
    /** rolled back; the error is to be recorded in the application database */
    | Failing(key: Key, name: string, error: string)
    /** the outcome is to be recorded in the system database; `replayed` if it was found in the application database */
    | Saving(key: Key, name: string, outcome: Outcome, stamp: int, replayed: bool)
    | Returned(key: Key, name: string, outcome: Outcome)
    /** the workflow gives way to another executor of it */
    | Conflicted
    /** another function is recorded at the position */
    | Unexpected
    /** a database failed while the error was being recorded */
    | Disrupted

  datatype State = State(app: map<Key, Record>, sys: map<Key, Step>, effects: seq<Effect>,
                         executors: map<nat, Executor>)

  datatype Event =
    | Call(key: Key, name: string)
    | LookUpStep
    | LookUpRow(stamp: int)
    /** the function returns, or raises an error that is not retried */
    | Finish(outcome: Outcome)
    /** a serialization failure or a lost connection before the commit */
    | RollBack
    /** a commit is refused for a reason that is not retried */
    | Refuse(error: string)
    | Commit(delivery: Delivery, stamp: int)
    | RecordError(delivery: Delivery, stamp: int)
    | RecordStep(delivery: Delivery)
    | Crash

  const CONFLICT := "DBOSWorkflowConflictIDError"

  function Get(s: State, e: nat): Executor {
    if e in s.executors then s.executors[e] else Idle
  }

  function Set(s: State, e: nat, x: Executor): State {
    s.(executors := s.executors[e := x])
  }

  /** Insert the output row and commit it with the effect; a second row for the position is refused. */
  function CommitWork(s: State, e: nat, x: Executor, delivery: Delivery, stamp: int): State
    requires x.Committing?
  {
    if x.key in s.app then Set(s, e, Failing(x.key, x.name, CONFLICT))
    else
      var t := s.(app := s.app[x.key := Record(x.name, Output(x.output))],
                  effects := s.effects + [Effect(x.key, x.output)]);
      Set(t, e,
          match delivery
          case Arrives => Saving(x.key, x.name, Output(x.output), stamp, false)
          case LostRetriable => Attempting(x.key, x.name)
          case LostFatal(error) => Failing(x.key, x.name, error))
  }

  /** The error row is inserted in a transaction of its own; there is no retry. */
  function CommitError(s: State, e: nat, x: Executor, delivery: Delivery, stamp: int): State
    requires x.Failing?
  {
    if x.key in s.app then Set(s, e, Conflicted)
    else
      var t := s.(app := s.app[x.key := Record(x.name, Error(x.error))]);
      Set(t, e, if delivery == Arrives then Saving(x.key, x.name, Error(x.error), stamp, false) else Disrupted)
  }

  /** The first step record stays; an executor that finds one with its own completion time takes it for its own. */
  function SaveStep(s: State, e: nat, x: Executor, delivery: Delivery): State
    requires x.Saving?
  {
    var t := if x.key in s.sys then s else s.(sys := s.sys[x.key := Step(Record(x.name, x.outcome), x.stamp)]);
    match delivery
    case LostRetriable => t
    case LostFatal(_) => Set(t, e, Disrupted)
    case Arrives =>
      Set(t, e,
          if t.sys[x.key].stamp == x.stamp then Returned(x.key, x.name, x.outcome)
          else if x.replayed && x.outcome.Output? then Failing(x.key, x.name, CONFLICT)
          else Conflicted)
  }

  /** The events that change no table. */
  function Move(s: State, x: Executor, event: Event): Executor {
    match (x, event)
    case (_, Crash) => Idle
    case (Idle, Call(key, name)) => Called(key, name)
    case (Called(key, name), LookUpStep) =>
      if key !in s.sys then Attempting(key, name)
      else if s.sys[key].record.name != name then Unexpected
      else Returned(key, name, s.sys[key].record.outcome)
    case (Attempting(key, name), LookUpRow(stamp)) =>
      if key !in s.app then Working(key, name)
      else if s.app[key].name != name then Unexpected
      else Saving(key, name, s.app[key].outcome, stamp, true)
    case (Working(key, name), Finish(Output(output))) => Committing(key, name, output)
    case (Working(key, name), Finish(Error(error))) => Failing(key, name, error)
    case (Working(key, name), RollBack) => Attempting(key, name)
    case (Committing(key, name, _), RollBack) => Attempting(key, name)
    case (Committing(key, name, _), Refuse(error)) => Failing(key, name, error)
    case (Failing(_, _, _), Refuse(_)) => Disrupted
    case _ => x
  }

  /** One atomic action of executor `e`; an event that is not enabled changes nothing. */
  function Apply(s: State, e: nat, event: Event): State {
    var x := Get(s, e);
    if x.Committing? && event.Commit? then CommitWork(s, e, x, event.delivery, event.stamp)
    else if x.Failing? && event.RecordError? then CommitError(s, e, x, event.delivery, event.stamp)
    else if x.Saving? && event.RecordStep? then SaveStep(s, e, x, event.delivery)
    else Set(s, e, Move(s, x, event))
  }

  function Run(s: State, events: seq<(nat, Event)>): State {
    if events == [] then s
    else
      var last := events[|events| - 1];
      Apply(Run(s, events[..|events| - 1]), last.0, last.1)
  }

  const INITIAL := State(map[], map[], [], map[])

  // ------------------------------------------------------------ what runs keep

  function Outcomes(app: map<Key, Record>): map<Key, Outcome> {
    map key | key in app :: app[key].outcome
  }

  /** An outcome that an executor is about to pass on is the one in the application database. */
  predicate Backed(app: map<Key, Record>, x: Executor) {
    x.Saving? || x.Returned? ==> x.key in app && app[x.key] == Record(x.name, x.outcome)
  }

  ghost predicate Inv(s: State) {
    && OutputsAreEffects(Outcomes(s.app), s.effects)
    && (forall key | key in s.sys :: key in s.app && s.sys[key].record == s.app[key])
    && (forall e :: Backed(s.app, Get(s, e)))
  }

  lemma SetKeepsInv(s: State, e: nat, x: Executor)
    requires Inv(s) && Backed(s.app, x)
    ensures Inv(Set(s, e, x))
  {
    forall d ensures Backed(s.app, Get(Set(s, e, x), d)) {
      assert Backed(s.app, Get(s, d));
    }
  }

  lemma InsertKeepsInv(s: State, key: Key, record: Record, effects: seq<Effect>)
    requires Inv(s) && key !in s.app
    requires effects == if record.outcome.Output? then s.effects + [Effect(key, record.outcome.value)] else s.effects
    ensures Inv(s.(app := s.app[key := record], effects := effects))
  {
    var t := s.(app := s.app[key := record], effects := effects);
    assert Outcomes(t.app) == Outcomes(s.app)[key := record.outcome];
    if record.outcome.Output? {
      CommitTogether(Outcomes(s.app), s.effects, key, record.outcome.value);
    } else {
      CommitFailure(Outcomes(s.app), s.effects, key, record.outcome.error);
    }
    forall e ensures Backed(t.app, Get(t, e)) {
      assert Backed(s.app, Get(s, e));
    }
  }

  lemma CommitWorkKeepsInv(s: State, e: nat, x: Executor, delivery: Delivery, stamp: int)
    requires Inv(s) && x.Committing?
    ensures Inv(CommitWork(s, e, x, delivery, stamp))
  {
    if x.key in s.app {
      SetKeepsInv(s, e, Failing(x.key, x.name, CONFLICT));
    } else {
      var effects := s.effects + [Effect(x.key, x.output)];
      InsertKeepsInv(s, x.key, Record(x.name, Output(x.output)), effects);
      var t := s.(app := s.app[x.key := Record(x.name, Output(x.output))], effects := effects);
      SetKeepsInv(t, e, Get(CommitWork(s, e, x, delivery, stamp), e));
    }
  }

  lemma CommitErrorKeepsInv(s: State, e: nat, x: Executor, delivery: Delivery, stamp: int)
    requires Inv(s) && x.Failing?
    ensures Inv(CommitError(s, e, x, delivery, stamp))
  {
    if x.key in s.app {
      SetKeepsInv(s, e, Conflicted);
    } else {
      InsertKeepsInv(s, x.key, Record(x.name, Error(x.error)), s.effects);
      var t := s.(app := s.app[x.key := Record(x.name, Error(x.error))]);
      SetKeepsInv(t, e, Get(CommitError(s, e, x, delivery, stamp), e));
    }
  }

  lemma SaveStepKeepsInv(s: State, e: nat, x: Executor, delivery: Delivery)
    requires Inv(s) && x.Saving? && Backed(s.app, x)
    ensures Inv(SaveStep(s, e, x, delivery))
  {
    var t := if x.key in s.sys then s else s.(sys := s.sys[x.key := Step(Record(x.name, x.outcome), x.stamp)]);
    forall d ensures Backed(t.app, Get(t, d)) { assert Backed(s.app, Get(s, d)); }
    if delivery != LostRetriable { SetKeepsInv(t, e, Get(SaveStep(s, e, x, delivery), e)); }
  }

  lemma MoveIsBacked(s: State, x: Executor, event: Event)
    requires Inv(s) && Backed(s.app, x)
    ensures Backed(s.app, Move(s, x, event))
  {
  }

  lemma ApplyKeepsInv(s: State, e: nat, event: Event)
    requires Inv(s)
    ensures Inv(Apply(s, e, event))
  {
    var x := Get(s, e);
    assert Backed(s.app, x);
    if x.Committing? && event.Commit? {
      CommitWorkKeepsInv(s, e, x, event.delivery, event.stamp);
    } else if x.Failing? && event.RecordError? {
      CommitErrorKeepsInv(s, e, x, event.delivery, event.stamp);
    } else if x.Saving? && event.RecordStep? {
      SaveStepKeepsInv(s, e, x, event.delivery);
    } else {
      MoveIsBacked(s, x, event);
      SetKeepsInv(s, e, Move(s, x, event));
    }
  }

  /**
   In every run, whatever the interleaving: each position's effect commits at most once, and
   exactly when its output is recorded; every step record is the application database's row;
   and every call that returns gives that row's outcome.
   */
  lemma {:induction false} RunKeepsInv(s: State, events: seq<(nat, Event)>)
    requires Inv(s)
    ensures Inv(Run(s, events))
  {
    if events != [] {
      var init, last := events[..|events| - 1], events[|events| - 1];
      RunKeepsInv(s, init);
      ApplyKeepsInv(Run(s, init), last.0, last.1);
    }
  }

  lemma ApplyRowsStay(s: State, e: nat, event: Event, key: Key)
    ensures key in s.app ==> key in Apply(s, e, event).app && Apply(s, e, event).app[key] == s.app[key]
    ensures key in s.sys ==> key in Apply(s, e, event).sys && Apply(s, e, event).sys[key] == s.sys[key]
  {
  }

  /** Rows are never replaced. */
  lemma {:induction false} RowsStay(s: State, events: seq<(nat, Event)>, key: Key)
    ensures key in s.app ==> key in Run(s, events).app && Run(s, events).app[key] == s.app[key]
    ensures key in s.sys ==> key in Run(s, events).sys && Run(s, events).sys[key] == s.sys[key]
  {
    if events != [] {
      var init, last := events[..|events| - 1], events[|events| - 1];
      RowsStay(s, init, key);
      ApplyRowsStay(Run(s, init), last.0, last.1, key);
    }
  }

  lemma InitialInv()
    ensures Inv(INITIAL)
  {
    assert forall e :: Get(INITIAL, e) == Idle;
  }

  /** Exactly once: a call that returned an output has its effect in the log, once and for ever. */
  lemma ReturnedOnce(before: seq<(nat, Event)>, after: seq<(nat, Event)>, e: nat)
    requires Get(Run(INITIAL, before), e).Returned?
    ensures var x := Get(Run(INITIAL, before), e);
            EffectsOf(Run(Run(INITIAL, before), after).effects, x.key) ==
            if x.outcome.Output? then [x.outcome.value] else []
  {
    var s := Run(INITIAL, before);
    var x := Get(s, e);
    InitialInv();
    RunKeepsInv(INITIAL, before);
    assert Backed(s.app, x);
    RunKeepsInv(s, after);
    RowsStay(s, after, x.key);
    var t := Run(s, after);
    assert EffectsOf(t.effects, x.key) == RecordedOutput(Outcomes(t.app), x.key);
  }

  /** Calls for the same position that return, at any two moments, return the same and have the same name. */
  lemma ReturnsAgree(before: seq<(nat, Event)>, after: seq<(nat, Event)>, e: nat, d: nat)
    requires Get(Run(INITIAL, before), e).Returned? && Get(Run(Run(INITIAL, before), after), d).Returned?
    requires Get(Run(INITIAL, before), e).key == Get(Run(Run(INITIAL, before), after), d).key
    ensures Get(Run(INITIAL, before), e) == Get(Run(Run(INITIAL, before), after), d)
  {
    var s := Run(INITIAL, before);
    InitialInv();
    RunKeepsInv(INITIAL, before);
    assert Backed(s.app, Get(s, e));
    RunKeepsInv(s, after);
    RowsStay(s, after, Get(s, e).key);
    assert Backed(Run(s, after).app, Get(Run(s, after), d));
  }

  // ------------------------------------------------- a call that others leave alone

  /** What makes an attempt be repeated; the stamp is that of the look-up at its beginning. */
  datatype Trouble =
    /** the transaction is rolled back while the function works, or at its commit */
    | RollsBack(stamp: int)
    | RollsBackAtCommit(stamp: int, output: string)
    /** the transaction is committed, and the answer lost with the connection */
    | LosesAnswer(stamp: int, output: string)

  /** The call and its look-up in the system database. */
  function Asked(s: State, e: nat, key: Key, name: string): State {
    Apply(Apply(s, e, Call(key, name)), e, LookUpStep)
  }

  /** An attempt that runs into the trouble; what an earlier answer made unnecessary is not enabled. */
  function Attempted(s: State, e: nat, trouble: Trouble): State {
    var t := Apply(s, e, LookUpRow(trouble.stamp));
    match trouble
    case RollsBack(_) => Apply(t, e, RollBack)
    case RollsBackAtCommit(_, output) => Apply(Apply(t, e, Finish(Output(output))), e, RollBack)
    case LosesAnswer(stamp, output) => Apply(Apply(t, e, Finish(Output(output))), e, Commit(LostRetriable, stamp))
  }

  function AttemptedAll(s: State, e: nat, troubles: seq<Trouble>): State {
    if troubles == [] then s
    else Attempted(AttemptedAll(s, e, troubles[..|troubles| - 1]), e, troubles[|troubles| - 1])
  }

  /** The step record is written `losses` times without an answer. */
  function Unanswered(s: State, e: nat, losses: nat): State {
    if losses == 0 then s else Apply(Unanswered(s, e, losses - 1), e, RecordStep(LostRetriable))
  }

  /** The last attempt and the record of its outcome. */
  function Answered(s: State, e: nat, outcome: Outcome, stamp: int, losses: nat): State {
    var committed := Apply(Apply(Apply(s, e, LookUpRow(stamp)), e, Finish(outcome)), e, Commit(Arrives, stamp));
    Apply(Unanswered(Apply(committed, e, RecordError(Arrives, stamp)), e, losses), e, RecordStep(Arrives))
  }

  function Committed(trouble: Trouble): Option<Outcome> {
    if trouble.LosesAnswer? then Some(Output(trouble.output)) else None
  }

  /** The output of the first attempt that was committed. */
  function FirstCommitted(troubles: seq<Trouble>): Option<Outcome> {
    if troubles == [] then None
    else if Committed(troubles[0]).Some? then Committed(troubles[0])
    else FirstCommitted(troubles[1..])
  }

  lemma {:induction false} FirstCommittedThen(troubles: seq<Trouble>, trouble: Trouble)
    ensures FirstCommitted(troubles + [trouble]) ==
            if FirstCommitted(troubles).Some? then FirstCommitted(troubles) else Committed(trouble)
  {
    if troubles == [] {
      assert troubles + [trouble] == [trouble];
    } else {
      assert (troubles + [trouble])[1..] == troubles[1..] + [trouble];
      FirstCommittedThen(troubles[1..], trouble);
    }
  }

  /** The executor is about to begin an attempt, or found what an earlier attempt committed. */
  ghost predicate Underway(s: State, e: nat, key: Key, name: string, found: Option<Outcome>) {
    && key !in s.sys && (found.None? ==> key !in s.app)
    && (found.Some? ==> key in s.app && s.app[key] == Record(name, found.value))
    && var x := Get(s, e);
       || x == Attempting(key, name)
       || (found.Some? && x.Saving? && x == Saving(key, name, found.value, x.stamp, true))
  }

  /** An event that changes no table moves the executor. */
  lemma Moves(s: State, e: nat, event: Event)
    requires !Get(s, e).Committing? && !Get(s, e).Failing? && !Get(s, e).Saving?
    ensures Apply(s, e, event) == Set(s, e, Move(s, Get(s, e), event))
  {
  }

  /** An executor that has an outcome takes part in no further attempt. */
  lemma Stays(s: State, e: nat, event: Event)
    requires Get(s, e).Saving? || Get(s, e).Returned?
    requires event.LookUpRow? || event.Finish? || event.RollBack? || event.Commit? || event.RecordError?
    ensures Apply(s, e, event) == Set(s, e, Get(s, e))
  {
  }

  lemma AskedState(s: State, e: nat, key: Key, name: string)
    requires Inv(s) && Get(s, e) == Idle && (key in s.app ==> s.app[key].name == name)
    ensures key in s.sys ==> Get(Asked(s, e, key, name), e) == Returned(key, name, s.app[key].outcome)
    ensures key !in s.sys ==>
              Underway(Asked(s, e, key, name), e, key, name, if key in s.app then Some(s.app[key].outcome) else None)
  {
    var t := Apply(s, e, Call(key, name));
    assert t == Set(s, e, Called(key, name));
    Moves(t, e, LookUpStep);
  }

  lemma AttemptBegins(s: State, e: nat, key: Key, name: string, found: Option<Outcome>, stamp: int)
    requires Underway(s, e, key, name, found)
    ensures var t := Apply(s, e, LookUpRow(stamp));
            && t.app == s.app && t.sys == s.sys
            && Get(t, e) == if Get(s, e).Saving? then Get(s, e)
                            else if found.Some? then Saving(key, name, found.value, stamp, true)
                            else Working(key, name)
  {
  }

  lemma AttemptedState(s: State, e: nat, key: Key, name: string, found: Option<Outcome>, trouble: Trouble)
    requires Underway(s, e, key, name, found)
    ensures Underway(Attempted(s, e, trouble), e, key, name, if found.Some? then found else Committed(trouble))
  {
    AttemptBegins(s, e, key, name, found, trouble.stamp);
    var t := Apply(s, e, LookUpRow(trouble.stamp));
    match trouble {
      case RollsBack(_) =>
        if found.Some? {
          Stays(t, e, RollBack);
        } else {
          assert Get(t, e) == Working(key, name);
          assert Get(Apply(t, e, RollBack), e) == Attempting(key, name);
        }
      case RollsBackAtCommit(_, output) =>
        var u := Apply(t, e, Finish(Output(output)));
        if found.Some? {
          Stays(t, e, Finish(Output(output)));
          Stays(u, e, RollBack);
        } else {
          assert Get(u, e) == Committing(key, name, output);
          assert Get(Apply(u, e, RollBack), e) == Attempting(key, name);
        }
      case LosesAnswer(stamp, output) =>
        var u := Apply(t, e, Finish(Output(output)));
        if found.Some? {
          Stays(t, e, Finish(Output(output)));
          Stays(u, e, Commit(LostRetriable, stamp));
        } else {
          assert Get(u, e) == Committing(key, name, output);
        }
    }
  }

  lemma {:induction false} AttemptedAllState(s: State, e: nat, key: Key, name: string, found: Option<Outcome>,
                                             troubles: seq<Trouble>)
    requires Underway(s, e, key, name, found)
    ensures Underway(AttemptedAll(s, e, troubles), e, key, name,
                     if found.Some? then found else FirstCommitted(troubles))
  {
    if troubles != [] {
      var init, last := troubles[..|troubles| - 1], troubles[|troubles| - 1];
      AttemptedAllState(s, e, key, name, found, init);
      AttemptedState(AttemptedAll(s, e, init), e, key, name, if found.Some? then found else FirstCommitted(init), last);
      assert troubles == init + [last];
      FirstCommittedThen(init, last);
    }
  }

  lemma ReturnedStaysPut(s: State, e: nat, trouble: Trouble)
    requires Get(s, e).Returned?
    ensures Get(Attempted(s, e, trouble), e) == Get(s, e)
  {
    Stays(s, e, LookUpRow(trouble.stamp));
    var t := Apply(s, e, LookUpRow(trouble.stamp));
    match trouble {
      case RollsBack(_) => Stays(t, e, RollBack);
      case RollsBackAtCommit(_, output) =>
        Stays(t, e, Finish(Output(output)));
        Stays(Apply(t, e, Finish(Output(output))), e, RollBack);
      case LosesAnswer(stamp, output) =>
        Stays(t, e, Finish(Output(output)));
        Stays(Apply(t, e, Finish(Output(output))), e, Commit(LostRetriable, stamp));
    }
  }

  lemma {:induction false} ReturnedStays(s: State, e: nat, troubles: seq<Trouble>)
    requires Get(s, e).Returned?
    ensures Get(AttemptedAll(s, e, troubles), e) == Get(s, e)
  {
    if troubles != [] {
      var init, last := troubles[..|troubles| - 1], troubles[|troubles| - 1];
      ReturnedStays(s, e, init);
      ReturnedStaysPut(AttemptedAll(s, e, init), e, last);
    }
  }

  /** The step record that is there, if there is one, is the executor's own. */
  predicate OwnsStep(s: State, x: Executor)
    requires x.Saving?
  {
    x.key in s.sys ==> s.sys[x.key].stamp == x.stamp
  }

  lemma LossKeepsStep(s: State, e: nat)
    requires Get(s, e).Returned? || (Get(s, e).Saving? && OwnsStep(s, Get(s, e)))
    ensures var t := Apply(s, e, RecordStep(LostRetriable));
            Get(t, e) == Get(s, e) && (Get(t, e).Saving? ==> OwnsStep(t, Get(t, e)))
  {
  }

  lemma {:induction false} UnansweredState(s: State, e: nat, losses: nat)
    requires Get(s, e).Returned? || (Get(s, e).Saving? && OwnsStep(s, Get(s, e)))
    ensures var t := Unanswered(s, e, losses);
            Get(t, e) == Get(s, e) && (Get(t, e).Saving? ==> OwnsStep(t, Get(t, e)))
  {
    if losses > 0 {
      UnansweredState(s, e, losses - 1);
      LossKeepsStep(Unanswered(s, e, losses - 1), e);
    }
  }

  lemma RecordReturns(s: State, e: nat, losses: nat)
    requires Get(s, e).Returned? || (Get(s, e).Saving? && OwnsStep(s, Get(s, e)))
    ensures var x := Get(s, e);
            Get(Apply(Unanswered(s, e, losses), e, RecordStep(Arrives)), e) == Returned(x.key, x.name, x.outcome)
  {
    UnansweredState(s, e, losses);
  }

  /** The last attempt up to the record of its outcome. */
  lemma LastAttempt(s: State, e: nat, key: Key, name: string, found: Option<Outcome>, outcome: Outcome, stamp: int)
    requires Underway(s, e, key, name, found)
    ensures var t := Apply(Apply(Apply(Apply(s, e, LookUpRow(stamp)), e, Finish(outcome)), e, Commit(Arrives, stamp)),
                           e, RecordError(Arrives, stamp));
            && key !in t.sys && Get(t, e).Saving? && Get(t, e).key == key && Get(t, e).name == name
            && Get(t, e).outcome == if found.Some? then found.value else outcome
  {
    AttemptBegins(s, e, key, name, found, stamp);
    var s1 := Apply(s, e, LookUpRow(stamp));
    var s2 := Apply(s1, e, Finish(outcome));
    var s3 := Apply(s2, e, Commit(Arrives, stamp));
    if found.Some? {
      Stays(s1, e, Finish(outcome));
      Stays(s2, e, Commit(Arrives, stamp));
      Stays(s3, e, RecordError(Arrives, stamp));
    } else if outcome.Output? {
      assert Get(s2, e) == Committing(key, name, outcome.value);
      assert Get(s3, e) == Saving(key, name, outcome, stamp, false);
      Stays(s3, e, RecordError(Arrives, stamp));
    } else {
      assert Get(s2, e) == Failing(key, name, outcome.error);
      assert Get(s3, e) == Get(s2, e) && s3.app == s2.app;
    }
  }

  /**
   From whatever state a run got to, a call that other executors leave alone returns, however often
   it is rolled back or loses the answer to a commit: the recorded outcome if the application
   database has one, else the output that its first commit left there, else what its last attempt gives.
   */
  lemma CallReturns(s: State, e: nat, key: Key, name: string, troubles: seq<Trouble>, outcome: Outcome, stamp: int,
                    losses: nat)
    requires Inv(s) && Get(s, e) == Idle && (key in s.app ==> s.app[key].name == name)
    ensures var t := Answered(AttemptedAll(Asked(s, e, key, name), e, troubles), e, outcome, stamp, losses);
            Get(t, e) == Returned(key, name, if key in s.app then s.app[key].outcome
                                             else if FirstCommitted(troubles).Some? then FirstCommitted(troubles).value
                                             else outcome)
  {
    AskedState(s, e, key, name);
    var asked := Asked(s, e, key, name);
    var attempted := AttemptedAll(asked, e, troubles);
    if key in s.sys {
      ReturnedStays(asked, e, troubles);
      ReturnedToTheEnd(attempted, e, outcome, stamp, losses);
    } else {
      var found := if key in s.app then Some(s.app[key].outcome) else None;
      AttemptedAllState(asked, e, key, name, found, troubles);
      found := if found.Some? then found else FirstCommitted(troubles);
      LastAttempt(attempted, e, key, name, found, outcome, stamp);
      var s3 := Apply(Apply(Apply(attempted, e, LookUpRow(stamp)), e, Finish(outcome)), e, Commit(Arrives, stamp));
      RecordReturns(Apply(s3, e, RecordError(Arrives, stamp)), e, losses);
    }
  }

  lemma ReturnedToTheEnd(s: State, e: nat, outcome: Outcome, stamp: int, losses: nat)
    requires Get(s, e).Returned?
    ensures Get(Answered(s, e, outcome, stamp, losses), e) == Get(s, e)
  {
    var s1 := Apply(s, e, LookUpRow(stamp));
    var s2 := Apply(s1, e, Finish(outcome));
    var s3 := Apply(s2, e, Commit(Arrives, stamp));
    Stays(s, e, LookUpRow(stamp));
    Stays(s1, e, Finish(outcome));
    Stays(s2, e, Commit(Arrives, stamp));
    Stays(s3, e, RecordError(Arrives, stamp));
    RecordReturns(Apply(s3, e, RecordError(Arrives, stamp)), e, losses);
  }

  /**
   A commit that is refused for good fails the call: the error is recorded in both databases, and
   nothing of the work is committed.
   */
  lemma RefusedCommitFails(s: State, e: nat, error: string, stamp: int)
    requires Inv(s) && Get(s, e).Committing? && Get(s, e).key !in s.app
    ensures var x, t := Get(s, e), Apply(Apply(Apply(s, e, Refuse(error)), e, RecordError(Arrives, stamp)), e,
                                        RecordStep(Arrives));
            && Get(t, e) == Returned(x.key, x.name, Error(error)) && t.effects == s.effects
            && t.app == s.app[x.key := Record(x.name, Error(error))]
            && t.sys == s.sys[x.key := Step(Record(x.name, Error(error)), stamp)]
  {
    var x := Get(s, e);
    var s1 := Apply(s, e, Refuse(error));
    assert Get(s1, e) == Failing(x.key, x.name, error);
    var s2 := Apply(s1, e, RecordError(Arrives, stamp));
    assert Get(s2, e) == Saving(x.key, x.name, Error(error), stamp, false) && s2.sys == s.sys;
  }

  /** A commit whose answer is lost for good gives way: the work is committed, and a later call returns its output. */
  lemma FatalLossGivesWay(s: State, e: nat, error: string, stamp: int, delivery: Delivery)
    requires Inv(s) && Get(s, e).Committing? && Get(s, e).key !in s.app
    ensures var x, t := Get(s, e), Apply(Apply(s, e, Commit(LostFatal(error), stamp)), e, RecordError(delivery, stamp));
            && Get(t, e) == Conflicted && t.sys == s.sys
            && t.app == s.app[x.key := Record(x.name, Output(x.output))]
            && EffectsOf(t.effects, x.key) == [x.output]
  {
    var x := Get(s, e);
    var s1 := Apply(s, e, Commit(LostFatal(error), stamp));
    ApplyKeepsInv(s, e, Commit(LostFatal(error), stamp));
    assert Get(s1, e) == Failing(x.key, x.name, error) && x.key in s1.app;
    assert EffectsOf(s1.effects, x.key) == RecordedOutput(Outcomes(s1.app), x.key);
  }

  /**
   Of two executors that record one step the first returns.  The second returns beside it only if both completed in
   the same millisecond; else it gives way, or fails with the conflict if it had found the output recorded.
   */
  lemma FirstRecordWins(s: State, d: nat, e: nat)
    requires d != e && Get(s, d).Saving? && Get(s, e).Saving? && Get(s, d).key == Get(s, e).key
    requires Get(s, d).key !in s.sys
    ensures var x, y := Get(s, d), Get(s, e);
            var t := Apply(Apply(s, d, RecordStep(Arrives)), e, RecordStep(Arrives));
            && t.sys == s.sys[x.key := Step(Record(x.name, x.outcome), x.stamp)]
            && Get(t, d) == Returned(x.key, x.name, x.outcome)
            && (x.stamp == y.stamp ==> Get(t, e) == Returned(y.key, y.name, y.outcome))
            && (x.stamp != y.stamp ==>
                  Get(t, e) == if y.replayed && y.outcome.Output? then Failing(y.key, y.name, CONFLICT) else Conflicted)
  {
    var u := Apply(s, d, RecordStep(Arrives));
    assert Get(u, e) == Get(s, e) && Get(u, d).Returned?;
  }
}

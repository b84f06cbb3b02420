/**
 Datasource steps: the effect commits together with a row in the user's database, looked for
 before the retry loop but not inside it; the step record follows in the system database.
 */
module Datasources {
  import opened Values
  import opened TwoDatabases

  /** A step record; `stamp` is its completion time in milliseconds. */
  datatype Step = Step(outcome: Outcome, stamp: int)

  datatype Executor =
    | Idle
    /** before the look-up of the step record */
    | Called(key: Key)
    /** before the look-up in the datasource */
    | Checking(key: Key)
    /** inside an attempt of the transaction */
    | Working(key: Key)
    | Committing(key: Key, output: string)
    /** rolled back; the error is to be recorded in the datasource */
    | Failing(key: Key, error: string)
    /** the outcome is to be recorded as that of the step */
    | Saving(key: Key, outcome: Outcome, stamp: int)
    | Returned(key: Key, outcome: Outcome)
    | Conflicted
    /** the step record could not be written */
    | Disrupted

  datatype State = State(rows: map<Key, Outcome>, steps: map<Key, Step>, effects: seq<Effect>,
                         executors: map<nat, Executor>)

  datatype Event =
    | Call(key: Key)
    | LookUpStep
    | LookUpRow(stamp: int)
    | Finish(outcome: Outcome)
    /** a retriable error before the commit */
    | RollBack
    /** a commit is refused for a reason that is not retried */
    | Refuse(error: string, stamp: int)
    | Commit(delivery: Delivery, stamp: int)
    | RecordError(delivery: Delivery, stamp: int)
    | RecordStep(delivery: Delivery)
    | Crash

  const DUPLICATE := "IntegrityError"
  const BROKEN := "OperationalError"

  function Get(s: State, e: nat): Executor {
    if e in s.executors then s.executors[e] else Idle
  }

  function Set(s: State, e: nat, x: Executor): State {
    s.(executors := s.executors[e := x])
  }

  /** A second row for the position is refused, which is not retried but recorded as an error. */
  function CommitWork(s: State, e: nat, x: Executor, delivery: Delivery, stamp: int): State
    requires x.Committing?
  {
    if x.key in s.rows then Set(s, e, Failing(x.key, DUPLICATE))
    else
      var t := s.(rows := s.rows[x.key := Output(x.output)], effects := s.effects + [Effect(x.key, x.output)]);
      Set(t, e,
          match delivery
          case Arrives => Saving(x.key, Output(x.output), stamp)
          case LostRetriable => Working(x.key)
          case LostFatal(error) => Failing(x.key, error))
  }

  /** The error row; what goes wrong here is raised instead of the error. */
  function CommitError(s: State, e: nat, x: Executor, delivery: Delivery, stamp: int): State
    requires x.Failing?
  {
    if x.key in s.rows then Set(s, e, Saving(x.key, Error(DUPLICATE), stamp))
    else
      var t := s.(rows := s.rows[x.key := Error(x.error)]);
      Set(t, e,
          match delivery
          case Arrives => Saving(x.key, Error(x.error), stamp)
          case LostRetriable => Saving(x.key, Error(BROKEN), stamp)
          case LostFatal(error) => Saving(x.key, Error(error), stamp))
  }

  /** The first step record stays. */
  function SaveStep(s: State, e: nat, x: Executor, delivery: Delivery): State
    requires x.Saving?
  {
    var t := if x.key in s.steps then s else s.(steps := s.steps[x.key := Step(x.outcome, x.stamp)]);
    match delivery
    case LostRetriable => t
    case LostFatal(_) => Set(t, e, Disrupted)
    case Arrives =>
      Set(t, e, if t.steps[x.key].stamp == x.stamp then Returned(x.key, x.outcome) else Conflicted)
  }

  /** The events that change no table. */
  function Move(rows: map<Key, Outcome>, steps: map<Key, Step>, x: Executor, event: Event): Executor {
    match (x, event)
    case (_, Crash) => Idle
    case (Idle, Call(key)) => Called(key)
    case (Called(key), LookUpStep) =>
      if key in steps then Returned(key, steps[key].outcome) else Checking(key)
    case (Checking(key), LookUpRow(stamp)) =>
      if key in rows then Saving(key, rows[key], stamp) else Working(key)
    case (Working(key), Finish(Output(output))) => Committing(key, output)
    case (Working(key), Finish(Error(error))) => Failing(key, error)
    case (Committing(key, _), RollBack) => Working(key)
    case (Committing(key, _), Refuse(error, _)) => Failing(key, error)
    case (Failing(key, _), Refuse(error, stamp)) => Saving(key, Error(error), stamp)
    case _ => x
  }

  /** One atomic action of executor `e`; an event that is not enabled changes nothing. */
  function Apply(s: State, e: nat, event: Event): State {
    var x := Get(s, e);
    if x.Committing? && event.Commit? then CommitWork(s, e, x, event.delivery, event.stamp)
    else if x.Failing? && event.RecordError? then CommitError(s, e, x, event.delivery, event.stamp)
    else if x.Saving? && event.RecordStep? then SaveStep(s, e, x, event.delivery)
    else Set(s, e, Move(s.rows, s.steps, x, event))
  }

  function Run(s: State, events: seq<(nat, Event)>): State {
    if events == [] then s
    else
      var last := events[|events| - 1];
      Apply(Run(s, events[..|events| - 1]), last.0, last.1)
  }

  const INITIAL := State(map[], map[], [], map[])

  // ------------------------------------------------------------ what runs keep

  ghost predicate Inv(s: State) {
    OutputsAreEffects(s.rows, s.effects)
  }

  lemma ApplyKeepsInv(s: State, e: nat, event: Event)
    requires Inv(s)
    ensures Inv(Apply(s, e, event))
  {
    var x := Get(s, e);
    if x.Committing? && event.Commit? && x.key !in s.rows {
      CommitTogether(s.rows, s.effects, x.key, x.output);
    } else if x.Failing? && event.RecordError? && x.key !in s.rows {
      CommitFailure(s.rows, s.effects, x.key, x.error);
    }
  }

  /**
   Whatever the interleaving, crashes and ambiguous commits: an effect commits at most once, exactly when its
   output is recorded.
   */
  lemma {:induction false} RunKeepsInv(events: seq<(nat, Event)>)
    ensures Inv(Run(INITIAL, events))
  {
    if events != [] {
      var init, last := events[..|events| - 1], events[|events| - 1];
      RunKeepsInv(init);
      ApplyKeepsInv(Run(INITIAL, init), last.0, last.1);
    }
  }

  /** A row or a step record that is there stays as it is. */
  lemma TablesStay(s: State, e: nat, event: Event, key: Key)
    ensures key in s.rows ==> key in Apply(s, e, event).rows && Apply(s, e, event).rows[key] == s.rows[key]
    ensures key in s.steps ==> key in Apply(s, e, event).steps && Apply(s, e, event).steps[key] == s.steps[key]
  {
  }

  lemma {:induction false} RunsStay(events: seq<(nat, Event)>, n: nat, key: Key)
    requires n <= |events|
    ensures var s, t := Run(INITIAL, events[..n]), Run(INITIAL, events);
            && (key in s.rows ==> key in t.rows && t.rows[key] == s.rows[key])
            && (key in s.steps ==> key in t.steps && t.steps[key] == s.steps[key])
  {
    if n == |events| {
      assert events[..n] == events;
    } else {
      var init, last := events[..|events| - 1], events[|events| - 1];
      assert init[..n] == events[..n];
      RunsStay(init, n, key);
      TablesStay(Run(INITIAL, init), last.0, last.1, key);
    }
  }

  // ------------------------------------------- when the step record is the row

  /**
   The action that gives the executor the outcome to save takes it from the datasource: the row was found, or
   it is inserted by this very action, which meets no row of another attempt and is answered.
   */
  predicate TakesRow(s: State, e: nat, event: Event) {
    var x := Get(s, e);
    || (x.Checking? && event.LookUpRow?)
    || (x.Committing? && event.Commit? && x.key !in s.rows && event.delivery == Arrives)
    || (x.Failing? && event.RecordError? && x.key !in s.rows && event.delivery == Arrives)
  }

  /** The executor is to save what the datasource holds. */
  predicate SavesRow(rows: map<Key, Outcome>, x: Executor) {
    x.Saving? ==> x.key in rows && rows[x.key] == x.outcome
  }

  /** An action that makes an executor save an outcome makes it save the row, or else an error of the recording. */
  lemma SavesRowOrError(s: State, e: nat, event: Event)
    requires !Get(s, e).Saving? && Get(Apply(s, e, event), e).Saving?
    ensures var t := Apply(s, e, event);
            if TakesRow(s, e, event) then SavesRow(t.rows, Get(t, e)) else Get(t, e).outcome.Error?
  {
  }

  /** The outcome to save does not change until it is saved or the executor crashes. */
  lemma SavingStays(s: State, e: nat, event: Event, d: nat)
    requires Get(s, d).Saving? && Get(Apply(s, e, event), d).Saving?
    ensures Get(Apply(s, e, event), d) == Get(s, d)
  {
  }

  /** The event that gave executor `e` the outcome which it is about to save. */
  function Origin(events: seq<(nat, Event)>, e: nat): nat {
    if events == [] then 0
    else
      var init := events[..|events| - 1];
      if Get(Run(INITIAL, init), e).Saving? then Origin(init, e) else |init|
  }

  /** The event `j` is executor `e`'s and gives it `x` to save. */
  ghost predicate Gives(events: seq<(nat, Event)>, j: nat, e: nat, x: Executor) {
    && j < |events| && events[j].0 == e
    && GivesAt(Run(INITIAL, events[..j]), e, events[j].1, x)
  }

  predicate GivesAt(s: State, e: nat, event: Event, x: Executor) {
    x.Saving? && !Get(s, e).Saving? && Get(Apply(s, e, event), e) == x
  }

  lemma GivesLater(events: seq<(nat, Event)>, n: nat, j: nat, e: nat, x: Executor)
    requires n <= |events| && Gives(events[..n], j, e, x)
    ensures Gives(events, j, e, x)
  {
    assert events[..n][..j] == events[..j] && events[..n][j] == events[j];
  }

  lemma OthersStay(s: State, e: nat, event: Event, d: nat)
    requires d != e
    ensures Get(Apply(s, e, event), d) == Get(s, d)
  {
  }

  lemma {:induction false} OriginOfSaving(events: seq<(nat, Event)>, e: nat)
    requires Get(Run(INITIAL, events), e).Saving?
    ensures Gives(events, Origin(events, e), e, Get(Run(INITIAL, events), e))
  {
    assert events != [];
    var n := |events| - 1;
    var s, last := Run(INITIAL, events[..n]), events[n];
    if last.0 != e { OthersStay(s, last.0, last.1, e); }
    if Get(s, e).Saving? {
      SavingStays(s, last.0, last.1, e);
      OriginOfSaving(events[..n], e);
      GivesLater(events, n, Origin(events[..n], e), e, Get(s, e));
    } else {
      assert GivesAt(s, e, last.1, Get(Run(INITIAL, events), e));
    }
  }

  /** The event that recorded the step. */
  function Recorded(events: seq<(nat, Event)>, key: Key): nat {
    if events == [] then 0
    else
      var init := events[..|events| - 1];
      if key in Run(INITIAL, init).steps then Recorded(init, key) else |init|
  }

  lemma RecordsSaved(s: State, e: nat, event: Event, key: Key)
    requires key !in s.steps && key in Apply(s, e, event).steps
    ensures var x := Get(s, e);
            x.Saving? && x.key == key && Apply(s, e, event).steps[key] == Step(x.outcome, x.stamp)
  {
  }

  /** The first record of a step stays, and is what its writer was about to save. */
  lemma {:induction false} RecordedSaving(events: seq<(nat, Event)>, key: Key)
    requires key in Run(INITIAL, events).steps
    ensures var i := Recorded(events, key);
            && i < |events|
            && var x := Get(Run(INITIAL, events[..i]), events[i].0);
               x.Saving? && x.key == key && Run(INITIAL, events).steps[key] == Step(x.outcome, x.stamp)
  {
    assert events != [];
    var init, last := events[..|events| - 1], events[|events| - 1];
    if key in Run(INITIAL, init).steps {
      TablesStay(Run(INITIAL, init), last.0, last.1, key);
      RecordedSaving(init, key);
      assert init[..Recorded(init, key)] == events[..Recorded(init, key)];
    } else {
      RecordsSaved(Run(INITIAL, init), last.0, last.1, key);
    }
  }

  /** The event that decided the step record: the one that gave its writer the outcome. */
  function Deciding(events: seq<(nat, Event)>, key: Key): nat
    requires key in Run(INITIAL, events).steps
  {
    RecordedSaving(events, key);
    var i := Recorded(events, key);
    Origin(events[..i], events[i].0)
  }

  lemma DecidingSaves(events: seq<(nat, Event)>, key: Key) returns (x: Executor)
    requires key in Run(INITIAL, events).steps
    ensures var j := Deciding(events, key); j < |events| && Gives(events, j, events[j].0, x)
    ensures x.key == key && x.outcome == Run(INITIAL, events).steps[key].outcome
  {
    RecordedSaving(events, key);
    var i := Recorded(events, key);
    x := Get(Run(INITIAL, events[..i]), events[i].0);
    OriginOfSaving(events[..i], events[i].0);
    GivesLater(events, i, Deciding(events, key), events[i].0, x);
  }

  /**
   The step record is the datasource's row if the action that decided it took its outcome from the datasource:
   it was not refused as a duplicate, and it was answered.  Where an output is recorded it agrees only then.
   */
  lemma AgreesIff(events: seq<(nat, Event)>, key: Key)
    requires key in Run(INITIAL, events).steps
    ensures var s, j := Run(INITIAL, events), Deciding(events, key);
            && j < |events|
            && var took := TakesRow(Run(INITIAL, events[..j]), events[j].0, events[j].1);
               && (took ==> key in s.rows && s.steps[key].outcome == s.rows[key])
               && (key in s.rows && s.rows[key].Output? ==> (s.steps[key].outcome == s.rows[key] <==> took))
  {
    var x := DecidingSaves(events, key);
    var j := Deciding(events, key);
    SavesRowOrError(Run(INITIAL, events[..j]), events[j].0, events[j].1);
    RunPrefix(events, j);
    RunsStay(events, j + 1, key);
  }

  lemma RunPrefix(events: seq<(nat, Event)>, j: nat)
    requires j < |events|
    ensures Run(INITIAL, events[..j + 1]) == Apply(Run(INITIAL, events[..j]), events[j].0, events[j].1)
  {
    assert events[..j + 1][..j] == events[..j];
  }

  // ------------------------------------------------- one executor, crashes only

  predicate Undisturbed(event: Event) {
    match event
    case Commit(delivery, _) => delivery == Arrives
    case RecordError(delivery, _) => delivery == Arrives
    case RecordStep(delivery) => !delivery.LostFatal?
    case Refuse(_, _) => false
    case _ => true
  }

  ghost predicate CrashesOnly(events: seq<(nat, Event)>) {
    forall i :: 0 <= i < |events| ==> events[i].0 == 0 && Undisturbed(events[i].1)
  }

  /** Nobody else got in the way of the executor. */
  predicate AloneAs(s: State, x: Executor) {
    match x
    case Working(key) => key !in s.rows
    case Committing(key, _) => key !in s.rows
    case Failing(key, _) => key !in s.rows
    case Saving(key, outcome, stamp) => SavesRow(s.rows, x) && (key in s.steps ==> s.steps[key].stamp == stamp)
    case Conflicted => false
    case Checking(key) => key !in s.steps
    case _ => true
  }

  ghost predicate AllAgree(s: State) {
    && AloneAs(s, Get(s, 0))
    && (forall key | key in s.steps :: key in s.rows && s.steps[key].outcome == s.rows[key])
  }

  lemma MoveKeepsAlone(s: State, x: Executor, event: Event)
    requires AloneAs(s, x) && Undisturbed(event)
    ensures AloneAs(s, Move(s.rows, s.steps, x, event))
  {
  }

  lemma ApplyKeepsAgreement(s: State, event: Event)
    requires AllAgree(s) && Undisturbed(event)
    ensures AllAgree(Apply(s, 0, event))
  {
    var x := Get(s, 0);
    if x.Saving? && event.RecordStep? {
      assert Get(Apply(s, 0, event), 0) in {x, Returned(x.key, x.outcome)};
    } else if !(x.Committing? && event.Commit?) && !(x.Failing? && event.RecordError?) {
      MoveKeepsAlone(s, x, event);
    }
  }

  /** A single executor that only crashes: every step record is the datasource's row, and no call conflicts. */
  lemma {:induction false} CrashesAgree(events: seq<(nat, Event)>)
    requires CrashesOnly(events)
    ensures var s := Run(INITIAL, events);
            && (forall key | key in s.steps :: key in s.rows && s.steps[key].outcome == s.rows[key])
            && Get(s, 0) != Conflicted && AllAgree(s)
  {
    if events != [] {
      var init, last := events[..|events| - 1], events[|events| - 1];
      CrashesAgree(init);
      ApplyKeepsAgreement(Run(INITIAL, init), last.1);
    }
  }

  // ------------------------------------------------- a call that others leave alone

  /** What makes an attempt be repeated: its transaction is rolled back, or committed and the answer lost. */
  datatype Trouble = RollsBack(output: string) | LosesAnswer(output: string, stamp: int)

  /** The call and its two look-ups. */
  function Asked(s: State, e: nat, key: Key, stamp: int): State {
    Apply(Apply(Apply(s, e, Call(key)), e, LookUpStep), e, LookUpRow(stamp))
  }

  /** An attempt that runs into the trouble; what an earlier answer made unnecessary is not enabled. */
  function Attempted(s: State, e: nat, trouble: Trouble): State {
    Apply(Apply(s, e, Finish(Output(trouble.output))), e,
          if trouble.RollsBack? then RollBack else Commit(LostRetriable, trouble.stamp))
  }

  function AttemptedAll(s: State, e: nat, troubles: seq<Trouble>): State {
    if troubles == [] then s
    else Attempted(AttemptedAll(s, e, troubles[..|troubles| - 1]), e, troubles[|troubles| - 1])
  }

  /** The step record is written `losses` times without an answer. */
  function Unanswered(s: State, e: nat, losses: nat): State {
    if losses == 0 then s else Apply(Unanswered(s, e, losses - 1), e, RecordStep(LostRetriable))
  }

  /** The last attempt, up to the record of its outcome in the datasource. */
  function LastAttempt(s: State, e: nat, outcome: Outcome, stamp: int): State {
    Apply(Apply(Apply(s, e, Finish(outcome)), e, Commit(Arrives, stamp)), e, RecordError(Arrives, stamp))
  }

  function Answered(s: State, e: nat, outcome: Outcome, stamp: int, losses: nat): State {
    Apply(Unanswered(LastAttempt(s, e, outcome, stamp), e, losses), e, RecordStep(Arrives))
  }

  predicate LosesAny(troubles: seq<Trouble>) {
    exists i :: 0 <= i < |troubles| && troubles[i].LosesAnswer?
  }

  /** The executor has the outcome of its call. */
  predicate Settled(s: State, e: nat, key: Key, outcome: Outcome) {
    var x := Get(s, e);
    || x == Returned(key, outcome)
    || (x.Saving? && x == Saving(key, outcome, x.stamp) && (key in s.steps ==> s.steps[key].stamp == x.stamp))
  }

  /** The executor is between two attempts, of which none or one was committed. */
  predicate Trying(s: State, e: nat, key: Key, committed: bool) {
    && key !in s.steps && (key in s.rows <==> committed)
    && (Get(s, e) == Working(key) || (committed && Get(s, e) == Failing(key, DUPLICATE)))
  }

  lemma AskedState(s: State, e: nat, key: Key, stamp: int)
    requires Get(s, e) == Idle
    ensures var t := Asked(s, e, key, stamp);
            if key in s.steps then Settled(t, e, key, s.steps[key].outcome)
            else if key in s.rows then Settled(t, e, key, s.rows[key])
            else Trying(t, e, key, false)
  {
    var s1 := Apply(s, e, Call(key));
    assert Get(s1, e) == Called(key) && s1.rows == s.rows && s1.steps == s.steps;
    var s2 := Apply(s1, e, LookUpStep);
    assert s2.rows == s.rows && s2.steps == s.steps;
    assert Get(s2, e) == if key in s.steps then Returned(key, s.steps[key].outcome) else Checking(key);
  }

  /** An executor that has its outcome keeps it until it is recorded. */
  lemma SettledStays(s: State, e: nat, key: Key, outcome: Outcome, event: Event)
    requires Settled(s, e, key, outcome)
    requires || event.Finish? || event.RollBack? || event.Commit? || event.RecordError?
             || event == RecordStep(LostRetriable)
    ensures Settled(Apply(s, e, event), e, key, outcome)
  {
  }

  lemma AttemptedState(s: State, e: nat, key: Key, committed: bool, trouble: Trouble)
    requires Trying(s, e, key, committed)
    ensures Trying(Attempted(s, e, trouble), e, key, committed || trouble.LosesAnswer?)
  {
    var t := Apply(s, e, Finish(Output(trouble.output)));
    assert t.rows == s.rows && t.steps == s.steps;
    assert Get(t, e) == if Get(s, e).Working? then Committing(key, trouble.output) else Get(s, e);
  }

  lemma {:induction false} AttemptedAllState(s: State, e: nat, key: Key, troubles: seq<Trouble>)
    requires Trying(s, e, key, false)
    ensures Trying(AttemptedAll(s, e, troubles), e, key, LosesAny(troubles))
  {
    if troubles != [] {
      var n := |troubles| - 1;
      var init, last := troubles[..n], troubles[n];
      AttemptedAllState(s, e, key, init);
      AttemptedState(AttemptedAll(s, e, init), e, key, LosesAny(init), last);
      assert LosesAny(init) ==> LosesAny(troubles) by {
        if LosesAny(init) {
          var i :| 0 <= i < n && init[i].LosesAnswer?;
          assert troubles[i].LosesAnswer?;
        }
      }
      assert LosesAny(troubles) ==> LosesAny(init) || last.LosesAnswer? by {
        if LosesAny(troubles) {
          var i :| 0 <= i <= n && troubles[i].LosesAnswer?;
          assert i < n ==> init[i].LosesAnswer?;
        }
      }
    }
  }

  lemma {:induction false} SettledThroughout(s: State, e: nat, key: Key, outcome: Outcome, troubles: seq<Trouble>)
    requires Settled(s, e, key, outcome)
    ensures Settled(AttemptedAll(s, e, troubles), e, key, outcome)
  {
    if troubles != [] {
      var init, last := troubles[..|troubles| - 1], troubles[|troubles| - 1];
      SettledThroughout(s, e, key, outcome, init);
      var t := AttemptedAll(s, e, init);
      SettledStays(t, e, key, outcome, Finish(Output(last.output)));
      SettledStays(Apply(t, e, Finish(Output(last.output))), e, key, outcome,
                   if last.RollsBack? then RollBack else Commit(LostRetriable, last.stamp));
    }
  }

  lemma SettledAtLast(s: State, e: nat, key: Key, expected: Outcome, outcome: Outcome, stamp: int)
    requires Settled(s, e, key, expected)
    ensures Settled(LastAttempt(s, e, outcome, stamp), e, key, expected)
  {
    var s1 := Apply(s, e, Finish(outcome));
    SettledStays(s, e, key, expected, Finish(outcome));
    SettledStays(s1, e, key, expected, Commit(Arrives, stamp));
    SettledStays(Apply(s1, e, Commit(Arrives, stamp)), e, key, expected, RecordError(Arrives, stamp));
  }

  lemma LastAttemptState(s: State, e: nat, key: Key, committed: bool, outcome: Outcome, stamp: int)
    requires Trying(s, e, key, committed)
    ensures Settled(LastAttempt(s, e, outcome, stamp), e, key, if committed then Error(DUPLICATE) else outcome)
  {
    var s1 := Apply(s, e, Finish(outcome));
    assert s1.rows == s.rows && s1.steps == s.steps;
    assert Get(s1, e) == if Get(s, e).Failing? then Get(s, e)
                         else if outcome.Output? then Committing(key, outcome.value) else Failing(key, outcome.error);
    var s2 := Apply(s1, e, Commit(Arrives, stamp));
    assert s2.steps == s.steps;
    if !committed && outcome.Output? {
      assert Get(s2, e) == Saving(key, outcome, stamp);
    } else {
      assert s2.rows == s.rows && Get(s2, e).Failing? && Get(s2, e).key == key;
    }
  }

  lemma {:induction false} SettledUnanswered(s: State, e: nat, key: Key, outcome: Outcome, losses: nat)
    requires Settled(s, e, key, outcome)
    ensures Settled(Unanswered(s, e, losses), e, key, outcome)
  {
    if losses > 0 {
      SettledUnanswered(s, e, key, outcome, losses - 1);
      SettledStays(Unanswered(s, e, losses - 1), e, key, outcome, RecordStep(LostRetriable));
    }
  }

  lemma SettledReturns(s: State, e: nat, key: Key, expected: Outcome, losses: nat)
    requires Settled(s, e, key, expected)
    ensures Get(Apply(Unanswered(s, e, losses), e, RecordStep(Arrives)), e) == Returned(key, expected)
  {
    SettledUnanswered(s, e, key, expected, losses);
  }

  /**
   From whatever state, a call that other executors leave alone returns: what the step record or else the
   datasource holds; if neither holds anything, what its last attempt gives, however often it was rolled back,
   unless the answer to a commit was lost: then the error of a duplicate row.
   */
  lemma CallReturns(s: State, e: nat, key: Key, troubles: seq<Trouble>, outcome: Outcome, stamp: int, losses: nat)
    requires Get(s, e) == Idle
    ensures Get(Answered(AttemptedAll(Asked(s, e, key, stamp), e, troubles), e, outcome, stamp, losses), e) ==
            Returned(key, if key in s.steps then s.steps[key].outcome
                          else if key in s.rows then s.rows[key]
                          else if LosesAny(troubles) then Error(DUPLICATE)
                          else outcome)
  {
    AskedState(s, e, key, stamp);
    var asked := Asked(s, e, key, stamp);
    var attempted := AttemptedAll(asked, e, troubles);
    var expected;
    if key in s.steps || key in s.rows {
      expected := if key in s.steps then s.steps[key].outcome else s.rows[key];
      SettledThroughout(asked, e, key, expected, troubles);
      SettledAtLast(attempted, e, key, expected, outcome, stamp);
    } else {
      expected := if LosesAny(troubles) then Error(DUPLICATE) else outcome;
      AttemptedAllState(asked, e, key, troubles);
      LastAttemptState(attempted, e, key, LosesAny(troubles), outcome, stamp);
    }
    SettledReturns(LastAttempt(attempted, e, outcome, stamp), e, key, expected, losses);
  }

  /**
   A commit that is refused for good commits nothing of the work, and the error is recorded in the datasource.  The
   call returns it, unless the answer to that is lost too: then it returns what went wrong there.
   */
  lemma RefusedCommitFails(s: State, e: nat, error: string, delivery: Delivery, stamp: int)
    requires Get(s, e).Committing? && Get(s, e).key !in s.rows && Get(s, e).key !in s.steps
    ensures var key := Get(s, e).key;
            var failed := Apply(Apply(s, e, Refuse(error, stamp)), e, RecordError(delivery, stamp));
            && failed.rows == s.rows[key := Error(error)] && failed.effects == s.effects
            && Get(Apply(failed, e, RecordStep(Arrives)), e) ==
               Returned(key, match delivery
                             case Arrives => Error(error)
                             case LostRetriable => Error(BROKEN)
                             case LostFatal(other) => Error(other))
  {
    var key := Get(s, e).key;
    var refused := Apply(s, e, Refuse(error, stamp));
    assert Get(refused, e) == Failing(key, error);
    var failed := Apply(refused, e, RecordError(delivery, stamp));
    assert Get(failed, e).Saving? && Get(failed, e).key == key && failed.steps == s.steps;
  }

  /** Of two executors that record one step the first returns, and the second if it completed at the same time. */
  lemma FirstRecordWins(s: State, d: nat, e: nat)
    requires d != e && Get(s, d).Saving? && Get(s, e).Saving? && Get(s, d).key == Get(s, e).key
    requires Get(s, d).key !in s.steps
    ensures var x, y := Get(s, d), Get(s, e);
            var t := Apply(Apply(s, d, RecordStep(Arrives)), e, RecordStep(Arrives));
            && t.steps == s.steps[x.key := Step(x.outcome, x.stamp)] && Get(t, d) == Returned(x.key, x.outcome)
            && Get(t, e) == if x.stamp == y.stamp then Returned(y.key, y.outcome) else Conflicted
  {
    var u := Apply(s, d, RecordStep(Arrives));
    assert Get(u, e) == Get(s, e) && Get(u, d).Returned?;
  }

  // ------------------------------------------------------------ disagreement

  ghost predicate Reachable(s: State) {
    exists events :: Run(INITIAL, events) == s
  }

  predicate Same(s: State, t: State) {
    s.rows == t.rows && s.steps == t.steps && s.effects == t.effects && s.executors == t.executors
  }

  lemma ReachableThen(s: State, e: nat, event: Event, t: State)
    requires Reachable(s) && Same(Apply(s, e, event), t)
    ensures Reachable(t)
  {
    var events :| Run(INITIAL, events) == s;
    assert (events + [(e, event)])[..|events|] == events;
    assert Run(INITIAL, events + [(e, event)]) == t;
  }

  /** An executor that joins gets as far as having its work to commit. */
  lemma JoinWorks(s: State, e: nat, key: Key, output: string)
    requires Reachable(s) && Get(s, e) == Idle && key !in s.steps && key !in s.rows
    ensures Reachable(Set(s, e, Committing(key, output)))
  {
    ReachableThen(s, e, Crash, Set(s, e, Idle));
    Moves(s, e, Idle, Call(key), Called(key));
    Moves(s, e, Called(key), LookUpStep, Checking(key));
    Moves(s, e, Checking(key), LookUpRow(0), Working(key));
    Moves(s, e, Working(key), Finish(Output(output)), Committing(key, output));
  }

  lemma Moves(s: State, e: nat, x: Executor, event: Event, x': Executor)
    requires Reachable(Set(s, e, x)) && Move(s.rows, s.steps, x, event) == x'
    requires !x.Committing? && !x.Failing? && !x.Saving?
    ensures Reachable(Set(s, e, x'))
  {
    ReachableThen(Set(s, e, x), e, event, Set(s, e, x'));
  }

  /** An executor that commits second is refused twice. */
  lemma SecondRefused(s: State, e: nat, key: Key, output: string)
    requires Reachable(s) && Get(s, e) == Committing(key, output) && key in s.rows
    ensures Reachable(Set(s, e, Saving(key, Error(DUPLICATE), 0)))
  {
    var failing := Set(s, e, Failing(key, DUPLICATE));
    ReachableThen(s, e, Commit(Arrives, 0), failing);
    ReachableThen(failing, e, RecordError(Arrives, 0), Set(s, e, Saving(key, Error(DUPLICATE), 0)));
  }

  /** It ends with the duplicate-key error as its step record. */
  lemma SecondCommit(s: State, e: nat, key: Key, output: string)
    requires Reachable(s) && Get(s, e) == Committing(key, output) && key !in s.steps && key in s.rows
    ensures exists t :: Reachable(t) && t.rows == s.rows && key in t.steps && t.steps[key].outcome == Error(DUPLICATE)
  {
    SecondRefused(s, e, key, output);
    var u := Set(s, e, Saving(key, Error(DUPLICATE), 0));
    var t := u.(steps := s.steps[key := Step(Error(DUPLICATE), 0)]);
    ReachableThen(u, e, RecordStep(LostRetriable), t);
  }

  /** The work is committed, and the executor, which got no answer, does it again. */
  lemma LostCommit(key: Key, output: string) returns (s: State)
    ensures Reachable(s) && Get(s, 0) == Working(key)
    ensures s.rows == map[key := Output(output)] && s.steps == map[]
  {
    assert Run(INITIAL, []) == INITIAL;
    JoinWorks(INITIAL, 0, key, output);
    s := State(map[key := Output(output)], map[], [Effect(key, output)], map[0 := Working(key)]);
    ReachableThen(Set(INITIAL, 0, Committing(key, output)), 0, Commit(LostRetriable, 0), s);
  }

  /** One executor and one lost answer: the effect and its output are committed, the step is recorded as failed. */
  lemma LostCommitDisagrees(key: Key, output: string)
    ensures exists t :: Reachable(t) && key in t.rows && t.rows[key] == Output(output)
                        && key in t.steps && t.steps[key].outcome == Error(DUPLICATE)
  {
    var s := LostCommit(key, output);
    ReachableThen(s, 0, Finish(Output(output)), Set(s, 0, Committing(key, output)));
    SecondCommit(Set(s, 0, Committing(key, output)), 0, key, output);
  }

  /** Two executors and no lost answer: the same disagreement. */
  lemma ConcurrentExecutorDisagrees(key: Key, output: string)
    ensures exists t :: Reachable(t) && key in t.rows && t.rows[key] == Output(output)
                        && key in t.steps && t.steps[key].outcome == Error(DUPLICATE)
  {
    assert Run(INITIAL, []) == INITIAL;
    JoinWorks(INITIAL, 0, key, output);
    var s := Set(INITIAL, 0, Committing(key, output));
    JoinWorks(s, 1, key, output);
    var both := Set(s, 1, Committing(key, output));
    var saving := Saving(key, Output(output), 0);
    var t := State(map[key := Output(output)], map[], [Effect(key, output)],
                   map[0 := saving, 1 := Committing(key, output)]);
    ReachableThen(both, 0, Commit(Arrives, 0), t);
    SecondCommit(t, 1, key, output);
  }
}

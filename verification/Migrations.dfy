/**
 The schema migration runner.  Transactional migrations commit together with the version
 row; online index migrations run outside a transaction and may leave an invalid index when
 the process dies; the version row follows in a transaction of its own.
 */
module Migrations {
  import opened Values

  datatype Index = Index(definition: string, valid: bool)

  /**
   `changes` are the tables, columns, constraints and functions that were added and not dropped, `primaryKey` that
   of the notifications table.
   */
  datatype Schema = Schema(changes: seq<string>, primaryKey: bool, indexes: map<string, Index>)

  const EMPTY := Schema([], false, map[])

  datatype Statement =
    | Change(text: string, ifNotExists: bool)
    | Drop(text: string, ifExists: bool)
    | AddPrimaryKey
    | CreateIndex(name: string, definition: string, ifNotExists: bool)
    | DropIndex(name: string, ifExists: bool)

  type Migration = seq<Statement>

  function WithoutText(changes: seq<string>, text: string): (rest: seq<string>)
    ensures multiset(rest) == multiset(changes)[text := 0]
  {
    if changes == [] then []
    else
      assert changes == [changes[0]] + changes[1..];
      if changes[0] == text then WithoutText(changes[1..], text) else [changes[0]] + WithoutText(changes[1..], text)
  }

  /** The effect of a statement that runs to its end; repeating a change is an error unless it is guarded. */
  function Execute(statement: Statement, s: Schema): Option<Schema> {
    match statement
    case Change(text, ifNotExists) =>
      if text !in s.changes then Some(s.(changes := s.changes + [text]))
      else if ifNotExists then Some(s) else None
    case Drop(text, ifExists) =>
      if text in s.changes then Some(s.(changes := WithoutText(s.changes, text)))
      else if ifExists then Some(s) else None
    case AddPrimaryKey => if s.primaryKey then None else Some(s.(primaryKey := true))
    case CreateIndex(name, definition, ifNotExists) =>
      if name !in s.indexes then Some(s.(indexes := s.indexes[name := Index(definition, true)]))
      else if ifNotExists then Some(s) else None
    case DropIndex(name, ifExists) =>
      if name in s.indexes then Some(s.(indexes := s.indexes - {name}))
      else if ifExists then Some(s) else None
  }

  function ExecuteAll(migration: Migration, s: Schema): Option<Schema> {
    if migration == [] then Some(s)
    else match Execute(migration[0], s)
      case None => None
      case Some(t) => ExecuteAll(migration[1..], t)
  }

  /** Migration 10 is skipped where the primary key is there already. */
  function Perform(number: nat, migration: Migration, s: Schema): Option<Schema> {
    if number == 10 && s.primaryKey then Some(s) else ExecuteAll(migration, s)
  }

  /** The schema after the migrations 1 to `k`, each performed once and without a crash; none if one of them fails. */
  function Ideal(migrations: seq<Migration>, k: nat): Option<Schema>
    requires k <= |migrations|
  {
    if k == 0 then Some(EMPTY)
    else match Ideal(migrations, k - 1)
      case None => None
      case Some(s) => Perform(k, migrations[k - 1], s)
  }

  /** An online migration is one guarded index statement. */
  predicate OnlineStatement(migration: Migration) {
    && |migration| == 1
    && match migration[0]
       case CreateIndex(_, _, ifNotExists) => ifNotExists
       case DropIndex(_, ifExists) => ifExists
       case _ => false
  }

  predicate WellFormed(migrations: seq<Migration>, online: set<nat>) {
    && 10 !in online
    && (forall i :: 0 <= i < |migrations| && i + 1 in online && migrations[i] != [] ==> OnlineStatement(migrations[i]))
  }

  // -------------------------------------------------------------- invalid indexes

  function Invalid(s: Schema): set<string> {
    set name | name in s.indexes && !s.indexes[name].valid
  }

  predicate AllValid(s: Schema) { Invalid(s) == {} }

  function Without(s: Schema, names: set<string>): Schema {
    s.(indexes := s.indexes - names)
  }

  /** What a statement leaves behind that dies half-way: an index that is there but not valid. */
  function Debris(statement: Statement, s: Schema): Schema {
    match statement
    case CreateIndex(name, definition, _) =>
      if name in s.indexes then s else s.(indexes := s.indexes[name := Index(definition, false)])
    case DropIndex(name, _) =>
      if name in s.indexes then s.(indexes := s.indexes[name := s.indexes[name].(valid := false)]) else s
    case _ => s
  }

  /** The online statement was not begun, died half-way, or was done. */
  predicate Begun(statement: Statement, before: Schema, s: Schema) {
    s == before || s == Debris(statement, before) || Some(s) == Execute(statement, before)
  }

  lemma ExecuteKeepsValid(statement: Statement, s: Schema)
    requires AllValid(s) && Execute(statement, s).Some?
    ensures AllValid(Execute(statement, s).value)
  {
    var t := Execute(statement, s).value;
    forall name | name in t.indexes ensures t.indexes[name].valid {
      assert name in s.indexes ==> name !in Invalid(s);
    }
  }

  lemma {:induction false} ExecuteAllKeepsValid(migration: Migration, s: Schema)
    requires AllValid(s) && ExecuteAll(migration, s).Some?
    ensures AllValid(ExecuteAll(migration, s).value)
  {
    if migration != [] {
      ExecuteKeepsValid(migration[0], s);
      ExecuteAllKeepsValid(migration[1..], Execute(migration[0], s).value);
    }
  }

  lemma {:induction false} IdealIsValid(migrations: seq<Migration>, k: nat)
    requires k <= |migrations| && Ideal(migrations, k).Some?
    ensures AllValid(Ideal(migrations, k).value)
  {
    if k > 0 {
      IdealIsValid(migrations, k - 1);
      var s := Ideal(migrations, k - 1).value;
      if !(k == 10 && s.primaryKey) { ExecuteAllKeepsValid(migrations[k - 1], s); }
    }
  }

  /** Dropping invalid indexes, some or all, leaves the statement begun. */
  lemma CleanupKeepsBegun(migration: Migration, before: Schema, s: Schema, names: set<string>)
    requires OnlineStatement(migration) && AllValid(before) && Begun(migration[0], before, s) && names <= Invalid(s)
    ensures Begun(migration[0], before, Without(s, names))
  {
    var statement := migration[0];
    ExecuteKeepsValid(statement, before);
    if names == {} {
      assert Without(s, names).indexes == s.indexes;
    } else {
      assert s == Debris(statement, before) && Invalid(s) == {statement.name} by {
        forall name | name in Invalid(s) ensures name == statement.name {
          assert name in before.indexes ==> name !in Invalid(before);
        }
      }
      assert names == {statement.name};
      assert Without(s, names).indexes == before.indexes - {statement.name};
      assert statement.CreateIndex? ==> before.indexes - {statement.name} == before.indexes;
    }
  }

  /** A begun statement leaves at most one invalid index. */
  lemma OneInvalid(migration: Migration, before: Schema, s: Schema)
    requires OnlineStatement(migration) && AllValid(before) && Begun(migration[0], before, s)
    ensures |Invalid(s)| <= 1
  {
    var statement := migration[0];
    ExecuteKeepsValid(statement, before);
    forall name | name in Invalid(s) ensures name == statement.name {
      assert name in before.indexes ==> name !in Invalid(before);
    }
    assert Invalid(s) <= {statement.name};
    if Invalid(s) != {} { assert Invalid(s) == {statement.name}; }
  }

  /** After the clean-up, the retried statement ends where the first attempt would have. */
  lemma RetryIsFaithful(migration: Migration, before: Schema, s: Schema)
    requires OnlineStatement(migration) && AllValid(before) && Begun(migration[0], before, s) && AllValid(s)
    ensures Execute(migration[0], s).Some? && Execute(migration[0], s) == Execute(migration[0], before)
  {
    var statement := migration[0];
    assert Debris(statement, before) == before || statement.name in Invalid(Debris(statement, before));
  }

  lemma PerformOnline(number: nat, migration: Migration, s: Schema)
    requires number != 10 && OnlineStatement(migration)
    ensures Perform(number, migration, s) == Execute(migration[0], s)
  {
    assert migration[1..] == [];
    if Execute(migration[0], s).Some? {
      assert ExecuteAll(migration[1..], Execute(migration[0], s).value) == Execute(migration[0], s);
    }
  }

  lemma DropOneMore(s: Schema, dropped: set<string>, name: string)
    ensures Without(Without(s, dropped), {name}) == Without(s, dropped + {name})
  {
    assert s.indexes - dropped - {name} == s.indexes - (dropped + {name});
  }

  /** The clean-up is needed: the guarded statement alone would take the invalid index for the one it is to create. */
  lemma CleanupIsNeeded(name: string, definition: string, s: Schema)
    requires name !in s.indexes
    ensures var create := CreateIndex(name, definition, true);
            Execute(create, Debris(create, s)) == Some(Debris(create, s)) && !AllValid(Debris(create, s))
  {
    assert name in Invalid(Debris(CreateIndex(name, definition, true), s));
  }

  // ---------------------------------------------- what the statements amount to

  function Count(changes: seq<string>, text: string): nat { multiset(changes)[text] }

  /** How often a change is present after the statements: the last one about it decides. */
  function CountOf(statements: seq<Statement>, text: string): nat {
    if statements == [] then 0
    else
      var last := statements[|statements| - 1];
      if last.Change? && last.text == text then 1
      else if last.Drop? && last.text == text then 0
      else CountOf(statements[..|statements| - 1], text)
  }

  /** The definition of an index after the statements: none after a drop, and the first one since then. */
  function DefinitionOf(statements: seq<Statement>, name: string): Option<string> {
    if statements == [] then None
    else
      var before, last := DefinitionOf(statements[..|statements| - 1], name), statements[|statements| - 1];
      if last.CreateIndex? && last.name == name && before.None? then Some(last.definition)
      else if last.DropIndex? && last.name == name then None
      else before
  }

  predicate HasKey(statements: seq<Statement>) { AddPrimaryKey in statements }

  /** The statement succeeds after the others: it is guarded, or there is nothing in its way. */
  predicate Allowed(statements: seq<Statement>, next: Statement) {
    match next
    case Change(text, ifNotExists) => ifNotExists || CountOf(statements, text) == 0
    case Drop(text, ifExists) => ifExists || CountOf(statements, text) > 0
    case AddPrimaryKey => !HasKey(statements)
    case CreateIndex(name, _, ifNotExists) => ifNotExists || DefinitionOf(statements, name).None?
    case DropIndex(name, ifExists) => ifExists || DefinitionOf(statements, name).Some?
  }

  predicate AllAllowed(statements: seq<Statement>) {
    statements == []
    || (AllAllowed(statements[..|statements| - 1])
        && Allowed(statements[..|statements| - 1], statements[|statements| - 1]))
  }

  /** The statements of the migrations 1 to `k` in order, without migration 10 where the key is there already. */
  function Flat(migrations: seq<Migration>, k: nat): seq<Statement>
    requires k <= |migrations|
  {
    if k == 0 then []
    else
      var before := Flat(migrations, k - 1);
      if k == 10 && HasKey(before) then before else before + migrations[k - 1]
  }

  /** The schema holds what the statements amount to, and nothing else. */
  ghost predicate SchemaIs(s: Schema, statements: seq<Statement>) {
    && (forall text :: Count(s.changes, text) == CountOf(statements, text))
    && (forall name :: IndexIs(s, name, DefinitionOf(statements, name)))
    && s.primaryKey == HasKey(statements)
  }

  predicate IndexIs(s: Schema, name: string, definition: Option<string>) {
    if definition.Some? then name in s.indexes && s.indexes[name] == Index(definition.value, true)
    else name !in s.indexes
  }

  lemma OneMore(statements: seq<Statement>, next: Statement)
    ensures (statements + [next])[..|statements|] == statements
  {
  }

  lemma {:induction false} CountAtMostOne(statements: seq<Statement>, text: string)
    ensures CountOf(statements, text) <= 1
  {
    if statements != [] { CountAtMostOne(statements[..|statements| - 1], text); }
  }

  lemma ExecuteCounts(statement: Statement, s: Schema, statements: seq<Statement>, text: string)
    requires SchemaIs(s, statements) && Execute(statement, s).Some?
    ensures Count(Execute(statement, s).value.changes, text) == CountOf(statements + [statement], text)
  {
    OneMore(statements, statement);
    CountAtMostOne(statements, text);
    assert Count(s.changes, text) == CountOf(statements, text);
    assert text in s.changes <==> multiset(s.changes)[text] > 0;
  }

  lemma ExecuteIndexes(statement: Statement, s: Schema, statements: seq<Statement>, name: string)
    requires SchemaIs(s, statements) && Execute(statement, s).Some?
    ensures IndexIs(Execute(statement, s).value, name, DefinitionOf(statements + [statement], name))
  {
    OneMore(statements, statement);
    assert IndexIs(s, name, DefinitionOf(statements, name));
  }

  lemma ExecuteAllowed(statement: Statement, s: Schema, statements: seq<Statement>)
    requires SchemaIs(s, statements)
    ensures Execute(statement, s).Some? <==> Allowed(statements, statement)
  {
    match statement {
      case Change(text, _) => assert text in s.changes <==> Count(s.changes, text) > 0;
      case Drop(text, _) => assert text in s.changes <==> Count(s.changes, text) > 0;
      case CreateIndex(name, _, _) => assert IndexIs(s, name, DefinitionOf(statements, name));
      case DropIndex(name, _) => assert IndexIs(s, name, DefinitionOf(statements, name));
      case AddPrimaryKey =>
    }
  }

  /** A statement succeeds exactly if it is allowed, and then adds what it says. */
  lemma ExecuteMeans(statement: Statement, s: Schema, statements: seq<Statement>)
    requires SchemaIs(s, statements)
    ensures Execute(statement, s).Some? <==> Allowed(statements, statement)
    ensures Execute(statement, s).Some? ==> SchemaIs(Execute(statement, s).value, statements + [statement])
  {
    ExecuteAllowed(statement, s, statements);
    if Execute(statement, s).Some? {
      var t := Execute(statement, s).value;
      forall text ensures Count(t.changes, text) == CountOf(statements + [statement], text) {
        ExecuteCounts(statement, s, statements, text);
      }
      forall name ensures IndexIs(t, name, DefinitionOf(statements + [statement], name)) {
        ExecuteIndexes(statement, s, statements, name);
      }
    }
  }

  lemma {:induction false} AllAllowedPrefix(a: seq<Statement>, b: seq<Statement>)
    requires AllAllowed(a + b)
    ensures AllAllowed(a)
  {
    if b == [] {
      assert a + b == a;
    } else {
      var n := |b| - 1;
      assert (a + b)[..|a + b| - 1] == a + b[..n];
      AllAllowedPrefix(a, b[..n]);
    }
  }

  lemma {:induction false} ExecuteAllMeans(migration: Migration, s: Schema, statements: seq<Statement>)
    requires SchemaIs(s, statements) && AllAllowed(statements)
    ensures ExecuteAll(migration, s).Some? <==> AllAllowed(statements + migration)
    ensures ExecuteAll(migration, s).Some? ==> SchemaIs(ExecuteAll(migration, s).value, statements + migration)
  {
    if migration == [] {
      assert statements + migration == statements;
    } else {
      var first, more := migration[0], statements + [migration[0]];
      ExecuteMeans(first, s, statements);
      OneMore(statements, first);
      assert more + migration[1..] == statements + migration;
      if Execute(first, s).Some? {
        ExecuteAllMeans(migration[1..], Execute(first, s).value, more);
      } else if AllAllowed(statements + migration) {
        AllAllowedPrefix(more, migration[1..]);
      }
    }
  }

  /**
   A run without crashes succeeds exactly if every statement is allowed where it stands, and then the schema holds
   what the statements amount to.
   */
  lemma {:induction false} IdealMeans(migrations: seq<Migration>, k: nat)
    requires k <= |migrations|
    ensures Ideal(migrations, k).Some? <==> AllAllowed(Flat(migrations, k))
    ensures Ideal(migrations, k).Some? ==> SchemaIs(Ideal(migrations, k).value, Flat(migrations, k))
  {
    if k == 0 {
      assert multiset(EMPTY.changes) == multiset{};
    } else {
      IdealMeans(migrations, k - 1);
      var before := Flat(migrations, k - 1);
      if Ideal(migrations, k - 1).Some? {
        ExecuteAllMeans(migrations[k - 1], Ideal(migrations, k - 1).value, before);
      } else if AllAllowed(Flat(migrations, k)) {
        assert Flat(migrations, k) == before || Flat(migrations, k) == before + migrations[k - 1];
        if Flat(migrations, k) != before { AllAllowedPrefix(before, migrations[k - 1]); }
      }
    }
  }

  /**
   Wherever a process died, at version `k` each change is there exactly as often as if the migrations 1 to `k`
   had each been applied once: once if its last statement adds it, and not at all otherwise.
   */
  lemma AppliedExactlyOnce(migrations: seq<Migration>, online: set<nat>, cockroach: bool, k: nat, s: Schema,
                           text: string)
    requires WellFormed(migrations, online) && Reached(migrations, online, cockroach, k, s)
    ensures Count(s.changes, text) == CountOf(Flat(migrations, k), text) <= 1
    ensures s.primaryKey == HasKey(Flat(migrations, k))
  {
    IdealMeans(migrations, k);
    CountAtMostOne(Flat(migrations, k), text);
    assert s.changes == Ideal(migrations, k).value.changes;
  }

  /** And each index other than that of an online migration that was begun is there as the statements say. */
  lemma IndexesApplied(migrations: seq<Migration>, online: set<nat>, cockroach: bool, k: nat, s: Schema, name: string)
    requires WellFormed(migrations, online) && Reached(migrations, online, cockroach, k, s)
    requires s == Ideal(migrations, k).value || name != migrations[k][0].name
    ensures IndexIs(s, name, DefinitionOf(Flat(migrations, k), name))
  {
    IdealMeans(migrations, k);
    assert IndexIs(Ideal(migrations, k).value, name, DefinitionOf(Flat(migrations, k), name));
  }

  // -------------------------------------------------------------- the database

  function VersionOf(versions: seq<nat>): nat {
    if versions == [] then 0 else versions[0]
  }

  predicate OneVersion(versions: seq<nat>) {
    versions == [] || (|versions| == 1 && versions[0] > 0)
  }

  predicate IsOnline(migrations: seq<Migration>, online: set<nat>, cockroach: bool, number: nat) {
    1 <= number <= |migrations| && migrations[number - 1] != [] && number in online && !cockroach
  }

  /** The schema is that of the migrations 1 to `k`, with the next migration possibly begun if it is online. */
  ghost predicate Reached(migrations: seq<Migration>, online: set<nat>, cockroach: bool, k: nat, s: Schema) {
    && k <= |migrations| && Ideal(migrations, k).Some?
    && (|| s == Ideal(migrations, k).value
        || (IsOnline(migrations, online, cockroach, k + 1) && Begun(migrations[k][0], Ideal(migrations, k).value, s)))
  }

  /** A version beyond the migrations was left by newer code; its schema is not spoken of. */
  ghost predicate Sound(migrations: seq<Migration>, online: set<nat>, cockroach: bool, versions: seq<nat>, s: Schema) {
    && OneVersion(versions)
    && (VersionOf(versions) <= |migrations| ==> Reached(migrations, online, cockroach, VersionOf(versions), s))
  }

  datatype Ending = Completed | Crashed | Failed

  class Database {
    /** the rows of the version table */
    var versions: seq<nat>
    var schema: Schema
    /** the number of atomic actions after which the process dies */
    var lifetime: nat

    constructor ()
      ensures versions == [] && schema == EMPTY && lifetime == 0
    {
      versions, schema, lifetime := [], EMPTY, 0;
    }

    /** Drop every invalid index, one by one. */
    method CleanupInvalidIndexes() returns (alive: bool, ghost dropped: set<string>)
      modifies this
      ensures versions == old(versions) && dropped <= Invalid(old(schema)) && schema == Without(old(schema), dropped)
      ensures alive ==> dropped == Invalid(old(schema)) && lifetime + |dropped| == old(lifetime)
      ensures !alive ==> lifetime == 0 && old(lifetime) < |Invalid(old(schema))|
    {
      var names := Invalid(schema);
      dropped := {};
      assert schema.indexes - {} == schema.indexes;
      while names != {}
        invariant versions == old(versions) && dropped !! names && dropped + names == Invalid(old(schema))
        invariant schema == Without(old(schema), dropped) && lifetime + |dropped| == old(lifetime)
        decreases names
      {
        if lifetime == 0 { return false, dropped; }
        lifetime := lifetime - 1;
        var name :| name in names;
        DropOneMore(old(schema), dropped, name);
        schema := Without(schema, {name});
        names, dropped := names - {name}, dropped + {name};
      }
      alive := true;
    }

    /** The version row is inserted the first time and updated afterwards. */
    method SetVersion(version: nat, lastApplied: nat)
      requires OneVersion(versions) && lastApplied == VersionOf(versions) && version > 0
      modifies this`versions
      ensures versions == [version]
    {
      if lastApplied == 0 {
        versions := versions + [version];
      } else {
        versions := seq(|versions|, _ => version);
      }
    }

    method BumpVersion(version: nat, lastApplied: nat) returns (alive: bool)
      requires OneVersion(versions) && lastApplied == VersionOf(versions) && version > 0
      modifies this`versions, this`lifetime
      ensures alive ==> versions == [version] && lifetime + 1 == old(lifetime)
      ensures !alive ==> versions == old(versions) && lifetime == 0 == old(lifetime)
    {
      if lifetime == 0 { return false; }
      lifetime := lifetime - 1;
      SetVersion(version, lastApplied);
      alive := true;
    }

    /** Clean up, run the statement, and then set the version; `debris` if a dying statement leaves an invalid index. */
    method RunOnline(migrations: seq<Migration>, online: set<nat>, i: nat, debris: bool) returns (alive: bool)
      requires WellFormed(migrations, online) && OneVersion(versions)
      requires i == VersionOf(versions) + 1 && IsOnline(migrations, online, false, i)
      requires Reached(migrations, online, false, i - 1, schema)
      modifies this
      ensures OneVersion(versions)
      ensures alive ==> VersionOf(versions) == i && Ideal(migrations, i) == Some(schema)
      ensures alive ==> SchemaIs(schema, Flat(migrations, i)) && old(lifetime) <= lifetime + 3
      ensures !alive ==> versions == old(versions) && Reached(migrations, online, false, i - 1, schema)
      ensures !alive ==> lifetime == 0 && old(lifetime) < 3
    {
      ghost var before := Ideal(migrations, i - 1).value;
      var migration := migrations[i - 1];
      IdealIsValid(migrations, i - 1);
      OneInvalid(migration, before, schema);
      IdealMeans(migrations, i);
      ghost var dropped;
      alive, dropped := CleanupInvalidIndexes();
      CleanupKeepsBegun(migration, before, old(schema), dropped);
      if !alive { return; }
      if lifetime == 0 {
        if debris { DebrisIsBegun(migration, before, schema); schema := Debris(migration[0], schema); }
        return false;
      }
      lifetime := lifetime - 1;
      CleanIsValid(old(schema));
      RetryIsFaithful(migration, before, schema);
      PerformOnline(i, migration, before);
      schema := Execute(migration[0], schema).value;
      alive := BumpVersion(i, i - 1);
    }

    /** The version row commits with the schema; a failing statement rolls both back. */
    method RunTransaction(migrations: seq<Migration>, i: nat) returns (ending: Ending)
      requires 1 <= i <= |migrations| && OneVersion(versions) && i == VersionOf(versions) + 1
      requires Ideal(migrations, i - 1) == Some(schema)
      modifies this
      ensures ending.Completed? ==> versions == [i] && Ideal(migrations, i) == Some(schema)
      ensures ending.Completed? ==> SchemaIs(schema, Flat(migrations, i)) && lifetime + 1 == old(lifetime)
      ensures !ending.Completed? ==> versions == old(versions) && schema == old(schema)
      ensures ending.Crashed? ==> lifetime == 0 == old(lifetime)
      ensures ending.Failed? ==> Ideal(migrations, i).None?
    {
      if lifetime == 0 { return Crashed; }
      lifetime := lifetime - 1;
      IdealMeans(migrations, i);
      match Perform(i, migrations[i - 1], schema) {
        case None => ending := Failed;
        case Some(s) =>
          schema := s;
          SetVersion(i, i - 1);
          ending := Completed;
      }
    }

    /**
     Run the migrations that the version row does not cover.  However the run ends, the database is
     sound, ready for another run; a run that completes leaves the schema of a run without crashes.
     */
    method RunMigrations(migrations: seq<Migration>, online: set<nat>, cockroach: bool, debris: bool)
      returns (ending: Ending)
      requires WellFormed(migrations, online) && Sound(migrations, online, cockroach, versions, schema)
      modifies this
      ensures Sound(migrations, online, cockroach, versions, schema)
      ensures VersionOf(versions) >= VersionOf(old(versions))
      ensures VersionOf(old(versions)) <= |migrations| ==> VersionOf(versions) <= |migrations|
      ensures VersionOf(old(versions)) > |migrations| ==> versions == old(versions) && schema == old(schema)
      ensures ending.Completed? && VersionOf(old(versions)) <= |migrations| ==>
                && VersionOf(versions) == |migrations|
                && Ideal(migrations, |migrations|) == Some(schema) && AllValid(schema)
      ensures ending.Completed? && VersionOf(old(versions)) <= |migrations| ==>
                SchemaIs(schema, Flat(migrations, |migrations|))
      ensures ending.Crashed? ==> lifetime == 0 && old(lifetime) < 3 * |migrations|
      ensures ending.Failed? ==> Ideal(migrations, |migrations|).None? && !AllAllowed(Flat(migrations, |migrations|))
    {
      var lastApplied, i := VersionOf(versions), 1;
      ghost var first := lastApplied;
      while i <= |migrations|
        invariant 1 <= i <= |migrations| + 1 && lastApplied == VersionOf(versions)
        invariant lastApplied == if first < i - 1 then i - 1 else first
        invariant first > |migrations| ==> versions == old(versions) && schema == old(schema)
        invariant Sound(migrations, online, cockroach, versions, schema)
        invariant old(lifetime) <= lifetime + 3 * (i - 1)
      {
        if i > lastApplied {
          if migrations[i - 1] == [] {
            assert ExecuteAll(migrations[i - 1], schema) == Some(schema);
            var alive := BumpVersion(i, lastApplied);
            if !alive { return Crashed; }
          } else if i in online && !cockroach {
            var alive := RunOnline(migrations, online, i, debris);
            if !alive { return Crashed; }
          } else {
            ending := RunTransaction(migrations, i);
            if ending.Failed? {
              NeverIdeal(migrations, i, |migrations|);
              IdealMeans(migrations, |migrations|);
            }
            if !ending.Completed? { return; }
          }
          lastApplied := i;
        }
        i := i + 1;
      }
      ending := Completed;
      if first <= |migrations| {
        CompletedIsIdeal(migrations, online, cockroach, schema);
        IdealMeans(migrations, |migrations|);
      }
    }
  }

  lemma {:induction false} NeverIdeal(migrations: seq<Migration>, k: nat, n: nat)
    requires k <= n <= |migrations| && Ideal(migrations, k).None?
    ensures Ideal(migrations, n).None?
  {
    if k < n { NeverIdeal(migrations, k, n - 1); }
  }

  lemma CompletedIsIdeal(migrations: seq<Migration>, online: set<nat>, cockroach: bool, s: Schema)
    requires Reached(migrations, online, cockroach, |migrations|, s)
    ensures Ideal(migrations, |migrations|) == Some(s) && AllValid(s)
  {
    IdealIsValid(migrations, |migrations|);
  }

  /** A process that dies after `lifetime` atomic actions. */
  datatype Process = Process(lifetime: nat, debris: bool)

  /**
   Processes start one after the other, each dying at any point, on an empty database.  If one of
   them completes, the schema is that of a run without crashes: every migration applied once, every
   index valid, one version row.  Before that, version `k` means the migrations 1 to `k`, and no
   other migration but possibly the next one if it is online.
   */
  method MigrateWithCrashes(migrations: seq<Migration>, online: set<nat>, cockroach: bool, processes: seq<Process>)
    returns (db: Database, ending: Ending)
    requires WellFormed(migrations, online)
    ensures fresh(db) && Sound(migrations, online, cockroach, db.versions, db.schema)
    ensures ending.Completed? ==> Ideal(migrations, |migrations|) == Some(db.schema) && AllValid(db.schema)
    ensures ending.Completed? && migrations != [] ==> db.versions == [|migrations|]
    ensures ending.Completed? ==> SchemaIs(db.schema, Flat(migrations, |migrations|))
    ensures ending.Failed? ==> Ideal(migrations, |migrations|).None? && !AllAllowed(Flat(migrations, |migrations|))
    ensures (exists j :: 0 <= j < |processes| && processes[j].lifetime >= 3 * |migrations|) ==> !ending.Crashed?
  {
    db := new Database();
    ending := Crashed;
    var j := 0;
    while j < |processes| && ending.Crashed?
      invariant fresh(db) && Sound(migrations, online, cockroach, db.versions, db.schema)
      invariant VersionOf(db.versions) <= |migrations|
      invariant ending.Completed? ==> VersionOf(db.versions) == |migrations|
      invariant ending.Completed? ==> Ideal(migrations, |migrations|) == Some(db.schema) && AllValid(db.schema)
      invariant ending.Completed? ==> SchemaIs(db.schema, Flat(migrations, |migrations|))
      invariant ending.Failed? ==> Ideal(migrations, |migrations|).None? && !AllAllowed(Flat(migrations, |migrations|))
      invariant j <= |processes|
      invariant ending.Crashed? ==> forall i :: 0 <= i < j ==> processes[i].lifetime < 3 * |migrations|
    {
      db.lifetime := processes[j].lifetime;
      ending := db.RunMigrations(migrations, online, cockroach, processes[j].debris);
      j := j + 1;
    }
  }

  lemma CleanIsValid(s: Schema)
    ensures AllValid(Without(s, Invalid(s)))
  {
  }

  lemma DebrisIsBegun(migration: Migration, before: Schema, s: Schema)
    requires OnlineStatement(migration) && AllValid(before) && Begun(migration[0], before, s) && AllValid(s)
    ensures Begun(migration[0], before, Debris(migration[0], s))
  {
  }
}

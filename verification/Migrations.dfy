/**
  The migration engine (migrations/gormmigrate.go) with its default options, that
  is without a transaction around a run: what a failing step leaves behind stays.
 */
module Migrations {
  import opened Bytes

  /** A step on the schema; false: it failed and left the schema as given. */
  type Change<!S> = S -> (S, bool)

  datatype Migration<!S> = Migration(id: string, up: Change<S>, down: Option<Change<S>>)

  datatype Error =
    | NoMigrationDefined | DuplicatedID | MissingID | IDDoesNotExist
    | RollbackImpossible | NoRunnedMigration | ChangeFailed

  datatype Call = Up(id: string) | Down(id: string) | InitSchema

  /** The schema, the rows of the migrations table, and the functions called so far. */
  datatype State<S> = State(schema: S, applied: set<string>, calls: seq<Call>)

  datatype Result<S> = Result(state: State<S>, error: Option<Error>)

  // ---- The steps as functions ----

  function RunMigration<S>(s: State<S>, m: Migration<S>): Result<S> {
    if m.id == "" then Result(s, Some(MissingID))
    else if m.id in s.applied then Result(s, None)
    else
      var (schema, ok) := m.up(s.schema);
      var called := State(schema, s.applied, s.calls + [Up(m.id)]);
      if ok then Result(called.(applied := s.applied + {m.id}), None) else Result(called, Some(ChangeFailed))
  }

  /** From migration i on, up to and including the target. */
  function MigrateFrom<S>(s: State<S>, ms: seq<Migration<S>>, i: nat, target: string): Result<S>
    requires i <= |ms|
    decreases |ms| - i
  {
    if i == |ms| then Result(s, None)
    else
      var r := RunMigration(s, ms[i]);
      if r.error.Some? || (target != "" && ms[i].id == target) then r
      else MigrateFrom(r.state, ms, i + 1, target)
  }

  function UndoMigration<S>(s: State<S>, m: Migration<S>): Result<S> {
    if m.down.None? then Result(s, Some(RollbackImpossible))
    else
      var (schema, ok) := m.down.value(s.schema);
      var called := State(schema, s.applied, s.calls + [Down(m.id)]);
      if ok then Result(called.(applied := s.applied - {m.id}), None) else Result(called, Some(ChangeFailed))
  }

  /** The applied ones among the first i migrations, last first, down to the target. */
  function RollbackFrom<S>(s: State<S>, ms: seq<Migration<S>>, i: nat, target: string): Result<S>
    requires i <= |ms|
    decreases i
  {
    if i == 0 || ms[i - 1].id == target then Result(s, None)
    else
      var r := if ms[i - 1].id in s.applied then UndoMigration(s, ms[i - 1]) else Result(s, None);
      if r.error.Some? then r else RollbackFrom(r.state, ms, i - 1, target)
  }

  predicate DistinctIds<S>(ms: seq<Migration<S>>) {
    forall i, j :: 0 <= i < j < |ms| ==> ms[i].id != ms[j].id
  }

  predicate HasId<S>(ms: seq<Migration<S>>, id: string) {
    exists i :: 0 <= i < |ms| && ms[i].id == id
  }

  function Ids<S>(ms: seq<Migration<S>>, n: nat): (ids: set<string>)
    requires n <= |ms|
  {
    set i | 0 <= i < n :: ms[i].id
  }

  function Initialised<S>(s: State<S>, ms: seq<Migration<S>>, init: Change<S>): Result<S> {
    var (schema, ok) := init(s.schema);
    var called := State(schema, s.applied, s.calls + [InitSchema]);
    if ok then Result(called.(applied := s.applied + Ids(ms, |ms|)), None) else Result(called, Some(ChangeFailed))
  }

  function MigrateTo<S>(s: State<S>, ms: seq<Migration<S>>, init: Option<Change<S>>, target: string): Result<S> {
    if ms == [] then Result(s, Some(NoMigrationDefined))
    else if !DistinctIds(ms) then Result(s, Some(DuplicatedID))
    else if !HasId(ms, target) then Result(s, Some(IDDoesNotExist))
    else if init.Some? && s.applied == {} then Initialised(s, ms, init.value)
    else MigrateFrom(s, ms, 0, target)
  }

  function RollbackTo<S>(s: State<S>, ms: seq<Migration<S>>, target: string): Result<S> {
    if ms == [] then Result(s, Some(NoMigrationDefined))
    else if !HasId(ms, target) then Result(s, Some(IDDoesNotExist))
    else RollbackFrom(s, ms, |ms|, target)
  }

  /** The last applied migration among the first i. */
  function LastRun<S>(s: State<S>, ms: seq<Migration<S>>, i: nat): Option<nat>
    requires i <= |ms|
  {
    if i == 0 then None else if ms[i - 1].id in s.applied then Some(i - 1) else LastRun(s, ms, i - 1)
  }

  function RollbackLast<S>(s: State<S>, ms: seq<Migration<S>>): Result<S> {
    if ms == [] then Result(s, Some(NoMigrationDefined))
    else
      match LastRun(s, ms, |ms|)
      case None => Result(s, Some(NoRunnedMigration))
      case Some(i) => assert i < |ms| by { LastRunBound(s, ms, |ms|); } UndoMigration(s, ms[i])
  }

  lemma {:induction false} LastRunBound<S>(s: State<S>, ms: seq<Migration<S>>, i: nat)
    requires i <= |ms|
    ensures LastRun(s, ms, i).Some? ==> LastRun(s, ms, i).value < i
  {
    if i > 0 && ms[i - 1].id !in s.applied { LastRunBound(s, ms, i - 1); }
  }

  // ---- The engine ----

  class Gormigrate<S> {
    const migrations: seq<Migration<S>>
    const initSchema: Option<Change<S>>
    var schema: S
    var applied: set<string>
    ghost var calls: seq<Call>

    constructor (migrations: seq<Migration<S>>, initSchema: Option<Change<S>>, schema: S, applied: set<string>)
      ensures View() == State(schema, applied, [])
      ensures this.migrations == migrations && this.initSchema == initSchema
    {
      this.migrations := migrations;
      this.initSchema := initSchema;
      this.schema := schema;
      this.applied := applied;
      calls := [];
    }

    ghost function View(): State<S>
      reads this
    {
      State(schema, applied, calls)
    }

    method CheckDuplicatedID() returns (error: Option<Error>)
      ensures error == if DistinctIds(migrations) then None else Some(DuplicatedID)
    {
      var lookup := {};
      for i := 0 to |migrations|
        invariant forall j :: 0 <= j < i ==> migrations[j].id in lookup
        invariant forall id :: id in lookup ==> exists j :: 0 <= j < i && migrations[j].id == id
        invariant forall a, b :: 0 <= a < b < i ==> migrations[a].id != migrations[b].id
      {
        if migrations[i].id in lookup {
          return Some(DuplicatedID);
        }
        lookup := lookup + {migrations[i].id};
      }
      error := None;
    }

    method CheckIDExist(id: string) returns (error: Option<Error>)
      ensures error == if HasId(migrations, id) then None else Some(IDDoesNotExist)
    {
      for i := 0 to |migrations|
        invariant forall j :: 0 <= j < i ==> migrations[j].id != id
      {
        if migrations[i].id == id {
          return None;
        }
      }
      error := Some(IDDoesNotExist);
    }

    method RunInitSchema() returns (error: Option<Error>)
      requires initSchema.Some?
      modifies this
      ensures Result(View(), error) == Initialised(old(View()), migrations, initSchema.value)
      ensures (schema, error.None?) == initSchema.value(old(schema)) && calls == old(calls) + [InitSchema]
      ensures error.Some? ==> error == Some(ChangeFailed) && applied == old(applied)
      ensures error.None? ==> forall id :: id in applied <==> id in old(applied) || HasId(migrations, id)
    {
      calls := calls + [InitSchema];
      var changed := initSchema.value(schema);
      schema := changed.0;
      if !changed.1 {
        return Some(ChangeFailed);
      }
      for i := 0 to |migrations|
        invariant applied == old(applied) + Ids(migrations, i)
        invariant schema == initSchema.value(old(schema)).0 && calls == old(calls) + [InitSchema]
      {
        applied := applied + {migrations[i].id};
      }
      error := None;
    }

    method RunOne(m: Migration<S>) returns (error: Option<Error>)
      modifies this
      ensures Result(View(), error) == RunMigration(old(View()), m)
      ensures error == Some(MissingID) <==> m.id == ""
      ensures m.id == "" || m.id in old(applied) ==> View() == old(View())
      ensures m.id != "" && m.id !in old(applied) ==>
        && (schema, error.None?) == m.up(old(schema)) && calls == old(calls) + [Up(m.id)]
        && applied == (if error.None? then old(applied) + {m.id} else old(applied))
    {
      if m.id == "" {
        return Some(MissingID);
      }
      if m.id !in applied {
        calls := calls + [Up(m.id)];
        var changed := m.up(schema);
        schema := changed.0;
        if !changed.1 {
          return Some(ChangeFailed);
        }
        applied := applied + {m.id};
      }
      error := None;
    }

    method Migrate(target: string) returns (error: Option<Error>)
      modifies this
      ensures Result(View(), error) == MigrateTo(old(View()), migrations, initSchema, target)
    {
      if |migrations| == 0 {
        return Some(NoMigrationDefined);
      }
      error := CheckDuplicatedID();
      if error.Some? {
        return;
      }
      error := CheckIDExist(target);
      if error.Some? {
        return;
      }
      if initSchema.Some? && applied == {} {
        error := RunInitSchema();
        return;
      }
      var i := 0;
      while i < |migrations|
        invariant 0 <= i <= |migrations|
        invariant MigrateFrom(View(), migrations, i, target) == MigrateFrom(old(View()), migrations, 0, target)
      {
        error := RunOne(migrations[i]);
        if error.Some? {
          return;
        }
        if target != "" && migrations[i].id == target {
          return None;
        }
        i := i + 1;
      }
      error := None;
    }

    /** Deletes the row by id; it does not ask whether the migration was applied. */
    method RollbackMigration(m: Migration<S>) returns (error: Option<Error>)
      modifies this
      ensures Result(View(), error) == UndoMigration(old(View()), m)
      ensures error == Some(RollbackImpossible) <==> m.down.None?
      ensures m.down.None? ==> View() == old(View())
      ensures m.down.Some? ==>
        && (schema, error.None?) == m.down.value(old(schema)) && calls == old(calls) + [Down(m.id)]
        && applied == (if error.None? then old(applied) - {m.id} else old(applied))
    {
      if m.down.None? {
        return Some(RollbackImpossible);
      }
      calls := calls + [Down(m.id)];
      var changed := m.down.value(schema);
      schema := changed.0;
      if !changed.1 {
        return Some(ChangeFailed);
      }
      applied := applied - {m.id};
      error := None;
    }

    method Rollback(target: string) returns (error: Option<Error>)
      modifies this
      ensures Result(View(), error) == RollbackTo(old(View()), migrations, target)
    {
      if |migrations| == 0 {
        return Some(NoMigrationDefined);
      }
      error := CheckIDExist(target);
      if error.Some? {
        return;
      }
      var i := |migrations|;
      while i > 0
        invariant 0 <= i <= |migrations|
        invariant RollbackFrom(View(), migrations, i, target)
          == RollbackFrom(old(View()), migrations, |migrations|, target)
      {
        var m := migrations[i - 1];
        if m.id == target {
          return None;
        }
        if m.id in applied {
          error := RollbackMigration(m);
          if error.Some? {
            return;
          }
        }
        i := i - 1;
      }
      error := None;
    }

    method UndoLast() returns (error: Option<Error>)
      modifies this
      ensures Result(View(), error) == RollbackLast(old(View()), migrations)
    {
      if |migrations| == 0 {
        return Some(NoMigrationDefined);
      }
      var i := |migrations|;
      while i > 0
        invariant 0 <= i <= |migrations| && View() == old(View())
        invariant LastRun(View(), migrations, i) == LastRun(View(), migrations, |migrations|)
      {
        if migrations[i - 1].id in applied {
          error := RollbackMigration(migrations[i - 1]);
          return;
        }
        i := i - 1;
      }
      error := Some(NoRunnedMigration);
    }
  }

  // ---- The applied set stays a prefix of the list ----

  predicate IsPrefix<S>(ms: seq<Migration<S>>, applied: set<string>, n: nat) {
    n <= |ms| && applied == Ids(ms, n)
  }

  lemma IdInPrefix<S>(ms: seq<Migration<S>>, n: nat, i: nat)
    requires DistinctIds(ms) && n <= |ms| && i < |ms|
    ensures ms[i].id in Ids(ms, n) <==> i < n
    ensures i < |ms| ==> Ids(ms, i + 1) == Ids(ms, i) + {ms[i].id}
    ensures i < n ==> Ids(ms, i) == Ids(ms, i + 1) - {ms[i].id}
  {
    assert forall j :: 0 <= j < |ms| && j != i ==> ms[j].id != ms[i].id;
  }

  function Max(a: nat, b: nat): nat {
    if a < b then b else a
  }

  /** MigrateTo: all up to the target or, on a failure, some of them in order; never fewer than before. */
  lemma {:induction false} MigrateFromKeepsPrefix<S>(s: State<S>, ms: seq<Migration<S>>, i: nat, j: nat, n: nat)
    returns (m: nat)
    requires DistinctIds(ms) && IsPrefix(ms, s.applied, n) && i <= j < |ms| && i <= n
    ensures var r := MigrateFrom(s, ms, i, ms[j].id);
      && IsPrefix(ms, r.state.applied, m) && n <= m <= Max(n, j + 1)
      && (r.error.None? ==> m >= j + 1)
    decreases j - i
  {
    IdInPrefix(ms, n, i);
    var r := RunMigration(s, ms[i]);
    m := n;
    if r.error.None? {
      m := Max(n, i + 1);
      assert IsPrefix(ms, r.state.applied, m);
      if i < j {
        m := MigrateFromKeepsPrefix(r.state, ms, i + 1, j, m);
      }
    }
  }

  /** RollbackTo: exactly up to the target or, on a failure, somewhere in between. */
  lemma {:induction false} RollbackFromKeepsPrefix<S>(s: State<S>, ms: seq<Migration<S>>, i: nat, j: nat, n: nat)
    returns (m: nat)
    requires DistinctIds(ms) && IsPrefix(ms, s.applied, n) && n <= i <= |ms| && j < i
    ensures var r := RollbackFrom(s, ms, i, ms[j].id);
      && IsPrefix(ms, r.state.applied, m) && m <= n && (n <= j + 1 ==> m == n) && (n > j + 1 ==> m >= j + 1)
      && (r.error.None? ==> m <= j + 1)
    decreases i
  {
    m := n;
    if i - 1 != j {
      IdInPrefix(ms, n, i - 1);
      assert ms[i - 1].id != ms[j].id;
      var r := if ms[i - 1].id in s.applied then UndoMigration(s, ms[i - 1]) else Result(s, None);
      if r.error.None? {
        var next := if i - 1 < n then i - 1 else n;
        assert IsPrefix(ms, r.state.applied, next);
        hide IsPrefix, UndoMigration, DistinctIds;
        m := RollbackFromKeepsPrefix(r.state, ms, i - 1, j, next);
      }
    }
  }

  lemma {:induction false} LastRunOfPrefix<S>(s: State<S>, ms: seq<Migration<S>>, i: nat, n: nat)
    requires DistinctIds(ms) && IsPrefix(ms, s.applied, n) && n <= i <= |ms|
    ensures LastRun(s, ms, i) == if n == 0 then None else Some(n - 1)
  {
    if i > 0 {
      IdInPrefix(ms, n, i - 1);
      if i > n { LastRunOfPrefix(s, ms, i - 1, n); }
    }
  }

  datatype Op = OpMigrateTo(id: string) | OpRollbackTo(id: string) | OpRollbackLast

  function Perform<S>(s: State<S>, ms: seq<Migration<S>>, init: Option<Change<S>>, op: Op): Result<S> {
    match op
    case OpMigrateTo(id) => MigrateTo(s, ms, init, id)
    case OpRollbackTo(id) => RollbackTo(s, ms, id)
    case OpRollbackLast => RollbackLast(s, ms)
  }

  function PerformAll<S>(s: State<S>, ms: seq<Migration<S>>, init: Option<Change<S>>, ops: seq<Op>): State<S>
    decreases |ops|
  {
    if ops == [] then s else PerformAll(Perform(s, ms, init, ops[0]).state, ms, init, ops[1..])
  }

  lemma OpKeepsPrefix<S>(s: State<S>, ms: seq<Migration<S>>, init: Option<Change<S>>, op: Op, n: nat) returns (m: nat)
    requires DistinctIds(ms) && IsPrefix(ms, s.applied, n)
    ensures IsPrefix(ms, Perform(s, ms, init, op).state.applied, m)
  {
    m := n;
    hide RunMigration, MigrateFrom, RollbackFrom, DistinctIds, LastRun;
    match op {
      case OpMigrateTo(id) =>
        if HasId(ms, id) {
          var j :| 0 <= j < |ms| && ms[j].id == id;
          if init.Some? && s.applied == {} {
            if Initialised(s, ms, init.value).error.None? { m := |ms|; }
          } else {
            m := MigrateFromKeepsPrefix(s, ms, 0, j, n);
          }
        }
      case OpRollbackTo(id) =>
        if HasId(ms, id) {
          var j :| 0 <= j < |ms| && ms[j].id == id;
          m := RollbackFromKeepsPrefix(s, ms, |ms|, j, n);
        }
      case OpRollbackLast =>
        LastRunOfPrefix(s, ms, |ms|, n);
        if n > 0 {
          IdInPrefix(ms, n, n - 1);
          if UndoMigration(s, ms[n - 1]).error.None? { m := n - 1; }
        }
    }
  }

  /** Over any sequence of operations, whatever fails part-way. */
  lemma {:induction false} AnyOpsKeepPrefix<S>(s: State<S>, ms: seq<Migration<S>>, init: Option<Change<S>>,
                                               ops: seq<Op>, n: nat)
    returns (m: nat)
    requires DistinctIds(ms) && IsPrefix(ms, s.applied, n)
    ensures IsPrefix(ms, PerformAll(s, ms, init, ops).applied, m)
    decreases |ops|
  {
    m := n;
    if ops != [] {
      var next := OpKeepsPrefix(s, ms, init, ops[0], n);
      m := AnyOpsKeepPrefix(Perform(s, ms, init, ops[0]).state, ms, init, ops[1..], next);
    }
  }

  /**
    RollbackMigration takes any migration. With n applied, undoing number i keeps a
    prefix exactly when i is the last applied one or not applied at all; the
    command line's "down all" starts with the first.
   */
  lemma UndoKeepsPrefixIff<S>(s: State<S>, ms: seq<Migration<S>>, n: nat, i: nat)
    requires DistinctIds(ms) && IsPrefix(ms, s.applied, n) && i < |ms|
    requires UndoMigration(s, ms[i]).error.None?
    ensures (exists m :: IsPrefix(ms, UndoMigration(s, ms[i]).state.applied, m)) <==> i + 1 >= n
  {
    var after := UndoMigration(s, ms[i]).state.applied;
    IdInPrefix(ms, n, i);
    if i + 1 >= n {
      assert IsPrefix(ms, after, if i + 1 == n then i else n);
    } else {
      IdInPrefix(ms, n, n - 1);
      assert ms[n - 1].id != ms[i].id;
      forall m | IsPrefix(ms, after, m) ensures false {
        IdInPrefix(ms, m, n - 1);
        IdInPrefix(ms, m, i);
      }
    }
  }

  // ---- What a call does, step by step ----

  /** The schema after the Ups of migrations n to m - 1. */
  function UpAll<S>(schema: S, ms: seq<Migration<S>>, n: nat, m: nat): S
    requires n <= m <= |ms|
    decreases m
  {
    if n == m then schema else ms[m - 1].up(UpAll(schema, ms, n, m - 1)).0
  }

  function UpCalls<S>(ms: seq<Migration<S>>, n: nat, m: nat): seq<Call>
    requires n <= m <= |ms|
  {
    seq(m - n, k requires 0 <= k < m - n => Up(ms[n + k].id))
  }

  lemma {:induction false} UpFirst<S>(schema: S, ms: seq<Migration<S>>, n: nat, m: nat)
    requires n < m <= |ms|
    ensures UpAll(schema, ms, n, m) == UpAll(ms[n].up(schema).0, ms, n + 1, m)
    ensures UpCalls(ms, n, m) == [Up(ms[n].id)] + UpCalls(ms, n + 1, m)
  {
    if n + 1 < m { UpFirst(schema, ms, n, m - 1); }
  }

  /**
    With n migrations applied, going up to j: m are applied in the end, the Ups
    called are those from n on in order, each on the schema the one before left,
    and none is called twice. A failed Up was called, and is not recorded.
   */
  ghost predicate WentUp<S>(s: State<S>, r: Result<S>, ms: seq<Migration<S>>, j: nat, n: nat, m: nat)
    requires n <= m <= |ms| && j < |ms|
  {
    && r.state.applied == Ids(ms, m) && m <= Max(n, j + 1)
    && (forall k :: n <= k < m ==> ms[k].up(UpAll(s.schema, ms, n, k)).1)
    && match r.error
       case None =>
         m == Max(n, j + 1) && r.state.calls == s.calls + UpCalls(ms, n, m)
         && r.state.schema == UpAll(s.schema, ms, n, m)
       case Some(ChangeFailed) =>
         m <= j && r.state.calls == s.calls + UpCalls(ms, n, m + 1) && !ms[m].up(UpAll(s.schema, ms, n, m)).1
         && r.state.schema == UpAll(s.schema, ms, n, m + 1)
       case Some(MissingID) =>
         (exists k :: 0 <= k <= j && ms[k].id == "" && (k >= n ==> k == m))
         && r.state.calls == s.calls + UpCalls(ms, n, m)
         && r.state.schema == UpAll(s.schema, ms, n, m)
       case _ => false
  }

  lemma {:induction false} MigrateFromGoesUp<S>(s: State<S>, ms: seq<Migration<S>>, i: nat, j: nat, n: nat)
    returns (m: nat)
    requires DistinctIds(ms) && IsPrefix(ms, s.applied, n) && i <= j < |ms| && i <= n
    ensures n <= m <= |ms| && WentUp(s, MigrateFrom(s, ms, i, ms[j].id), ms, j, n, m)
    decreases j - i
  {
    m := n;
    IdInPrefix(ms, n, i);
    var r := RunMigration(s, ms[i]);
    assert ms[i].id == ms[j].id <==> i == j;
    assert s.calls + UpCalls(ms, n, n) == s.calls;
    if ms[i].id == "" {
    } else if i < n {
      if i < j { m := MigrateFromGoesUp(s, ms, i + 1, j, n); }
    } else {
      UpFirst(s.schema, ms, n, n + 1);
      assert UpCalls(ms, n, n + 1) == [Up(ms[n].id)];
      if r.error.None? {
        m := n + 1;
        if i < j {
          m := MigrateFromGoesUp(r.state, ms, i + 1, j, n + 1);
          UpFromNext(s, r.state, ms, n, j, m, MigrateFrom(r.state, ms, i + 1, ms[j].id));
        }
      }
    }
  }

  lemma UpFromNext<S>(s: State<S>, next: State<S>, ms: seq<Migration<S>>, n: nat, j: nat, m: nat, r: Result<S>)
    requires n < m <= |ms| && n < j < |ms| && WentUp(next, r, ms, j, n + 1, m)
    requires (next.schema, true) == ms[n].up(s.schema) && next.calls == s.calls + [Up(ms[n].id)] && ms[n].id != ""
    ensures WentUp(s, r, ms, j, n, m)
  {
    hide UpAll, UpCalls, Ids;
    assert UpAll(s.schema, ms, n, n) == s.schema by { UpNone(s.schema, ms, n); }
    forall k | n < k <= |ms|
      ensures UpAll(s.schema, ms, n, k) == UpAll(next.schema, ms, n + 1, k)
      ensures s.calls + UpCalls(ms, n, k) == next.calls + UpCalls(ms, n + 1, k)
    {
      UpFirst(s.schema, ms, n, k);
      assert (s.calls + [Up(ms[n].id)]) + UpCalls(ms, n + 1, k) == s.calls + ([Up(ms[n].id)] + UpCalls(ms, n + 1, k));
    }
  }

  lemma UpNone<S>(schema: S, ms: seq<Migration<S>>, n: nat)
    requires n <= |ms|
    ensures UpAll(schema, ms, n, n) == schema
  {
  }

  /** When a migration is refused outright, and what the first run on an initial schema does. */
  lemma MigrateRefusals<S>(s: State<S>, ms: seq<Migration<S>>, init: Option<Change<S>>, target: string)
    ensures var r := MigrateTo(s, ms, init, target);
      && (r.error == Some(NoMigrationDefined) <==> |ms| == 0)
      && (r.error == Some(DuplicatedID) <==> exists i, j :: 0 <= i < j < |ms| && ms[i].id == ms[j].id)
      && (r.error == Some(IDDoesNotExist) <==>
            |ms| > 0 && DistinctIds(ms) && forall i :: 0 <= i < |ms| ==> ms[i].id != target)
      && (r.error in {Some(NoMigrationDefined), Some(DuplicatedID), Some(IDDoesNotExist)} ==> r.state == s)
      && (r.error !in {Some(NoMigrationDefined), Some(DuplicatedID), Some(IDDoesNotExist)}
            && init.Some? && s.applied == {} ==>
            (r.state.schema, r.error.None?) == init.value(s.schema) && r.state.calls == s.calls + [InitSchema]
            && (r.error.Some? ==> r.error == Some(ChangeFailed) && r.state.applied == {})
            && (r.error.None? ==> forall id :: id in r.state.applied <==> HasId(ms, id)))
  {
    if |ms| > 0 && DistinctIds(ms) && HasId(ms, target) && !(init.Some? && s.applied == {}) {
      StepErrors(s, ms, 0, target);
    }
  }

  lemma {:induction false} StepErrors<S>(s: State<S>, ms: seq<Migration<S>>, i: nat, target: string)
    requires i <= |ms|
    ensures MigrateFrom(s, ms, i, target).error in {None, Some(MissingID), Some(ChangeFailed)}
    decreases |ms| - i
  {
    if i < |ms| {
      var r := RunMigration(s, ms[i]);
      if r.error.None? { StepErrors(r.state, ms, i + 1, target); }
    }
  }

  /** MigrateTo as a whole, from a prefix. */
  lemma MigrateGoesUp<S>(s: State<S>, ms: seq<Migration<S>>, init: Option<Change<S>>, j: nat, n: nat)
    returns (m: nat)
    requires DistinctIds(ms) && IsPrefix(ms, s.applied, n) && j < |ms|
    requires init.None? || s.applied != {}
    ensures n <= m <= |ms| && WentUp(s, MigrateTo(s, ms, init, ms[j].id), ms, j, n, m)
  {
    m := MigrateFromGoesUp(s, ms, 0, j, n);
  }

  /** The schema after the Downs of migrations n - 1 to m. */
  function DownAll<S>(schema: S, ms: seq<Migration<S>>, n: nat, m: nat): S
    requires m <= n <= |ms|
    decreases n - m
  {
    if n == m then schema
    else
      var before := DownAll(schema, ms, n, m + 1);
      if ms[m].down.None? then before else ms[m].down.value(before).0
  }

  function DownCalls<S>(ms: seq<Migration<S>>, n: nat, m: nat): seq<Call>
    requires m <= n <= |ms|
  {
    seq(n - m, k requires 0 <= k < n - m => Down(ms[n - 1 - k].id))
  }

  lemma {:induction false} DownFirst<S>(schema: S, ms: seq<Migration<S>>, n: nat, m: nat)
    requires m < n <= |ms| && ms[n - 1].down.Some?
    ensures DownAll(schema, ms, n, m) == DownAll(ms[n - 1].down.value(schema).0, ms, n - 1, m)
    ensures DownCalls(ms, n, m) == [Down(ms[n - 1].id)] + DownCalls(ms, n - 1, m)
    decreases n - m
  {
    if m + 1 < n { DownFirst(schema, ms, n, m + 1); }
  }

  predicate DownWorks<S>(schema: S, ms: seq<Migration<S>>, n: nat, k: nat)
    requires k < n <= |ms|
  {
    ms[k].down.Some? && ms[k].down.value(DownAll(schema, ms, n, k + 1)).1
  }

  /**
    With n migrations applied, going down to floor: m are left, the Downs called
    are those of the last ones in reverse order. A migration whose Down failed was
    called and stays recorded; one without a Down is not called and stays too.
   */
  ghost predicate WentDown<S>(s: State<S>, r: Result<S>, ms: seq<Migration<S>>, floor: nat, n: nat, m: nat)
    requires m <= n <= |ms|
  {
    && r.state.applied == Ids(ms, m)
    && (forall k :: m <= k < n ==> DownWorks(s.schema, ms, n, k))
    && match r.error
       case None =>
         m == (if n <= floor then n else floor) && r.state.calls == s.calls + DownCalls(ms, n, m)
         && r.state.schema == DownAll(s.schema, ms, n, m)
       case Some(ChangeFailed) =>
         m > floor && m > 0 && r.state.calls == s.calls + DownCalls(ms, n, m - 1) && ms[m - 1].down.Some?
         && !DownWorks(s.schema, ms, n, m - 1) && r.state.schema == DownAll(s.schema, ms, n, m - 1)
       case Some(RollbackImpossible) =>
         m > floor && m > 0 && r.state.calls == s.calls + DownCalls(ms, n, m) && ms[m - 1].down.None?
         && r.state.schema == DownAll(s.schema, ms, n, m)
       case _ => false
  }

  lemma {:induction false} RollbackFromGoesDown<S>(s: State<S>, ms: seq<Migration<S>>, i: nat, j: nat, n: nat)
    returns (m: nat)
    requires DistinctIds(ms) && IsPrefix(ms, s.applied, n) && n <= i <= |ms| && j < i
    ensures m <= n && WentDown(s, RollbackFrom(s, ms, i, ms[j].id), ms, j + 1, n, m)
    decreases i
  {
    m := n;
    hide WentDown, Ids, UndoMigration;
    NothingDown(s, ms, j + 1, n);
    if i - 1 != j {
      IdInPrefix(ms, n, i - 1);
      assert ms[i - 1].id != ms[j].id;
      hide DistinctIds;
      if i > n {
        m := RollbackFromGoesDown(s, ms, i - 1, j, n);
      } else {
        var r := UndoMigration(s, ms[n - 1]);
        DownOnce(s, ms, j + 1, n);
        if r.error.None? {
          m := RollbackFromGoesDown(r.state, ms, i - 1, j, n - 1);
          DownFromNext(s, r.state, ms, n, j + 1, m, RollbackFrom(r.state, ms, i - 1, ms[j].id));
        }
      }
    }
  }

  lemma NothingDown<S>(s: State<S>, ms: seq<Migration<S>>, floor: nat, n: nat)
    requires IsPrefix(ms, s.applied, n)
    ensures n <= floor ==> WentDown(s, Result(s, None), ms, floor, n, n)
  {
    assert s.calls + DownCalls(ms, n, n) == s.calls;
  }

  /** Undoing the last applied migration: done, or refused with it still applied. */
  lemma DownOnce<S>(s: State<S>, ms: seq<Migration<S>>, floor: nat, n: nat)
    requires DistinctIds(ms) && IsPrefix(ms, s.applied, n) && floor < n
    ensures var r := UndoMigration(s, ms[n - 1]);
      if r.error.Some? then WentDown(s, r, ms, floor, n, n)
      else
        && ms[n - 1].down.Some? && (r.state.schema, true) == ms[n - 1].down.value(s.schema)
        && r.state.calls == s.calls + [Down(ms[n - 1].id)] && IsPrefix(ms, r.state.applied, n - 1)
  {
    var r := UndoMigration(s, ms[n - 1]);
    IdInPrefix(ms, n, n - 1);
    hide Ids, DistinctIds;
    assert s.calls + DownCalls(ms, n, n) == s.calls;
    if ms[n - 1].down.Some? {
      DownFirst(s.schema, ms, n, n - 1);
      assert DownCalls(ms, n, n - 1) == [Down(ms[n - 1].id)];
    }
  }

  lemma DownFromNext<S>(s: State<S>, next: State<S>, ms: seq<Migration<S>>, n: nat, floor: nat, m: nat, r: Result<S>)
    requires m < n <= |ms| && floor < n && ms[n - 1].down.Some? && WentDown(next, r, ms, floor, n - 1, m)
    requires (next.schema, true) == ms[n - 1].down.value(s.schema) && next.calls == s.calls + [Down(ms[n - 1].id)]
    ensures WentDown(s, r, ms, floor, n, m)
  {
    forall k | 0 <= k < n
      ensures DownAll(s.schema, ms, n, k) == DownAll(next.schema, ms, n - 1, k)
      ensures s.calls + DownCalls(ms, n, k) == next.calls + DownCalls(ms, n - 1, k)
    {
      DownFirst(s.schema, ms, n, k);
      assert (s.calls + [Down(ms[n - 1].id)]) + DownCalls(ms, n - 1, k)
        == s.calls + ([Down(ms[n - 1].id)] + DownCalls(ms, n - 1, k));
    }
    assert DownAll(s.schema, ms, n, n) == s.schema;
    hide DownAll, DownCalls, Ids;
    forall k | 0 <= k < n - 1 ensures DownWorks(s.schema, ms, n, k) == DownWorks(next.schema, ms, n - 1, k) {
      assert DownAll(s.schema, ms, n, k + 1) == DownAll(next.schema, ms, n - 1, k + 1);
    }
    assert DownWorks(s.schema, ms, n, n - 1);
    hide DownWorks;
  }

  /** RollbackTo and RollbackLast as a whole, from a prefix; the refusals change nothing. */
  lemma RollbackGoesDown<S>(s: State<S>, ms: seq<Migration<S>>, j: nat, n: nat) returns (m: nat)
    requires DistinctIds(ms) && IsPrefix(ms, s.applied, n) && j < |ms|
    ensures m <= n && WentDown(s, RollbackTo(s, ms, ms[j].id), ms, j + 1, n, m)
  {
    m := RollbackFromGoesDown(s, ms, |ms|, j, n);
  }

  lemma LastGoesDown<S>(s: State<S>, ms: seq<Migration<S>>, n: nat)
    requires DistinctIds(ms) && IsPrefix(ms, s.applied, n) && ms != []
    ensures n == 0 ==> RollbackLast(s, ms) == Result(s, Some(NoRunnedMigration))
    ensures n > 0 ==>
      var r := RollbackLast(s, ms);
      var m := if r.error.None? then n - 1 else n;
      WentDown(s, r, ms, n - 1, n, m)
  {
    LastRunOfPrefix(s, ms, |ms|, n);
    assert s.calls + DownCalls(ms, n, n) == s.calls;
    if n > 0 {
      IdInPrefix(ms, n, n - 1);
      assert DownCalls(ms, n, n - 1) == [Down(ms[n - 1].id)];
      assert DownAll(s.schema, ms, n, n) == s.schema;
    }
  }

  lemma RollbackRefusals<S>(s: State<S>, ms: seq<Migration<S>>, target: string)
    ensures ms == [] ==> RollbackTo(s, ms, target) == RollbackLast(s, ms) == Result(s, Some(NoMigrationDefined))
    ensures ms != [] && (forall i :: 0 <= i < |ms| ==> ms[i].id != target) ==>
      RollbackTo(s, ms, target) == Result(s, Some(IDDoesNotExist))
  {
  }

  // ---- Up and down again ----

  ghost predicate Undoes<S(!new)>(m: Migration<S>) {
    m.down.Some? && forall s: S :: m.up(s).1 ==> m.down.value(m.up(s).0) == (s, true)
  }

  /** Rolling back below t is rolling back to t and going on from there. */
  lemma {:induction false} RollbackInTwo<S>(s: State<S>, ms: seq<Migration<S>>, i: nat, t: nat)
    requires DistinctIds(ms) && 1 <= t < i <= |ms|
    ensures var q := RollbackFrom(s, ms, i, ms[t].id);
      RollbackFrom(s, ms, i, ms[t - 1].id)
      == if q.error.Some? then q else RollbackFrom(q.state, ms, t + 1, ms[t - 1].id)
    decreases i
  {
    if i - 1 != t {
      assert ms[i - 1].id != ms[t].id && ms[i - 1].id != ms[t - 1].id;
      var r := if ms[i - 1].id in s.applied then UndoMigration(s, ms[i - 1]) else Result(s, None);
      if r.error.None? { RollbackInTwo(r.state, ms, i - 1, t); }
    }
  }

  /** From the state before migration i: up to y, then down to i - 1. */
  lemma {:induction false} UpThenDownFrom<S(!new)>(s: State<S>, ms: seq<Migration<S>>, i: nat, y: nat)
    requires DistinctIds(ms) && IsPrefix(ms, s.applied, i) && 1 <= i <= y < |ms|
    requires forall m :: m in ms ==> Undoes(m)
    requires MigrateFrom(s, ms, i, ms[y].id).error.None?
    ensures var q := RollbackFrom(MigrateFrom(s, ms, i, ms[y].id).state, ms, y + 1, ms[i - 1].id);
      q.error.None? && q.state.schema == s.schema && q.state.applied == s.applied
    decreases y - i
  {
    IdInPrefix(ms, i, i);
    var r := RunMigration(s, ms[i]);
    assert IsPrefix(ms, r.state.applied, i + 1);
    assert Undoes(ms[i]) by { assert ms[i] in ms; }
    var up := MigrateFrom(s, ms, i, ms[y].id).state;
    var q: Result<S>;
    if i < y {
      assert ms[i].id != ms[y].id;
      UpThenDownFrom(r.state, ms, i + 1, y);
      RollbackInTwo(up, ms, y + 1, i);
      q := RollbackFrom(up, ms, y + 1, ms[i].id);
    } else {
      q := Result(up, None);
    }
    UndoOne(r.state, q.state, ms, i);
    assert s.applied + {ms[i].id} - {ms[i].id} == s.applied;
  }

  lemma UndoOne<S>(r: State<S>, q: State<S>, ms: seq<Migration<S>>, i: nat)
    requires DistinctIds(ms) && 1 <= i < |ms| && ms[i].id in r.applied
    requires q.schema == r.schema && q.applied == r.applied && ms[i].down.Some?
    requires ms[i].down.value(r.schema).1
    ensures var t := RollbackFrom(q, ms, i + 1, ms[i - 1].id);
      t.error.None? && t.state.schema == ms[i].down.value(r.schema).0 && t.state.applied == r.applied - {ms[i].id}
  {
    assert ms[i].id != ms[i - 1].id;
  }

  /** Migrations already applied are skipped: no function is called. */
  lemma {:induction false} AppliedAreSkipped<S>(s: State<S>, ms: seq<Migration<S>>, i: nat, n: nat, j: nat)
    requires DistinctIds(ms) && IsPrefix(ms, s.applied, n) && i <= n && i <= j < |ms|
    ensures n > j ==> MigrateFrom(s, ms, i, ms[j].id).state == s
    ensures n <= j && MigrateFrom(s, ms, i, ms[j].id).error.None? ==>
      MigrateFrom(s, ms, i, ms[j].id) == MigrateFrom(s, ms, n, ms[j].id)
    decreases j - i
  {
    if i < n {
      IdInPrefix(ms, n, i);
      if i < j {
        assert ms[i].id != ms[j].id;
        AppliedAreSkipped(s, ms, i + 1, n, j);
      }
    }
  }

  /** Nothing above y is applied, so the rollback starts at y. */
  lemma {:induction false} UnappliedAreSkipped<S>(s: State<S>, ms: seq<Migration<S>>, i: nat, y: nat, x: nat)
    requires DistinctIds(ms) && IsPrefix(ms, s.applied, y + 1) && x <= y < i <= |ms|
    ensures RollbackFrom(s, ms, i, ms[x].id) == RollbackFrom(s, ms, y + 1, ms[x].id)
    decreases i
  {
    if i > y + 1 {
      IdInPrefix(ms, y + 1, i - 1);
      assert ms[i - 1].id != ms[x].id;
      UnappliedAreSkipped(s, ms, i - 1, y, x);
    }
  }

  /**
    With exactly the migrations up to x applied, migrating to a later y and
    rolling back to x restores the schema and the table, if every Down undoes its
    Up and the way up did not fail.
   */
  lemma UpThenDown<S(!new)>(s: State<S>, ms: seq<Migration<S>>, init: Option<Change<S>>, x: nat, y: nat)
    requires DistinctIds(ms) && x < y < |ms| && IsPrefix(ms, s.applied, x + 1)
    requires forall m :: m in ms ==> Undoes(m)
    requires MigrateTo(s, ms, init, ms[y].id).error.None?
    ensures var q := RollbackTo(MigrateTo(s, ms, init, ms[y].id).state, ms, ms[x].id);
      q.error.None? && q.state.schema == s.schema && q.state.applied == s.applied
  {
    IdInPrefix(ms, x + 1, x);
    assert HasId(ms, ms[x].id) && HasId(ms, ms[y].id);
    AppliedAreSkipped(s, ms, 0, x + 1, y);
    UpThenDownFrom(s, ms, x + 1, y);
    TargetIsTop(s, ms, x, y);
    UnappliedAreSkipped(MigrateTo(s, ms, init, ms[y].id).state, ms, |ms|, y, x);
  }

  lemma TargetIsTop<S>(s: State<S>, ms: seq<Migration<S>>, x: nat, y: nat)
    requires DistinctIds(ms) && x < y < |ms| && IsPrefix(ms, s.applied, x + 1)
    requires MigrateFrom(s, ms, 0, ms[y].id).error.None?
    ensures IsPrefix(ms, MigrateFrom(s, ms, 0, ms[y].id).state.applied, y + 1)
  {
    var m := MigrateFromKeepsPrefix(s, ms, 0, y, x + 1);
  }

  /** Migrating again to the same target calls nothing and changes nothing. */
  lemma SecondMigrateDoesNothing<S>(s: State<S>, ms: seq<Migration<S>>, init: Option<Change<S>>, target: string, n: nat)
    requires IsPrefix(ms, s.applied, n) && MigrateTo(s, ms, init, target).error.None?
    ensures var r := MigrateTo(s, ms, init, target); MigrateTo(r.state, ms, init, target).state == r.state
  {
    var r := MigrateTo(s, ms, init, target);
    var j :| 0 <= j < |ms| && ms[j].id == target;
    var m: nat;
    if init.Some? && s.applied == {} {
      m := |ms|;
    } else {
      m := MigrateFromKeepsPrefix(s, ms, 0, j, n);
    }
    IdInPrefix(ms, m, j);
    AppliedAreSkipped(r.state, ms, 0, m, j);
  }

  // ---- The registry ----

  /** Go's string order. */
  predicate Less(a: string, b: string) {
    b != [] && (a == [] || a[0] < b[0] || (a[0] == b[0] && Less(a[1..], b[1..])))
  }

  lemma {:induction false} LessIsStrictOrder(a: string, b: string, c: string)
    ensures !Less(a, a)
    ensures Less(a, b) || Less(b, a) || a == b
    ensures Less(a, b) && Less(b, c) ==> Less(a, c)
  {
    if a != [] { LessIsStrictOrder(a[1..], if b == [] then [] else b[1..], if c == [] then [] else c[1..]); }
    if a != [] && b != [] && a[0] == b[0] && a[1..] == b[1..] { assert a == [a[0]] + b[1..] == b; }
  }

  /** That is: a is a proper prefix of b, or smaller where they first differ. */
  lemma {:induction false} LessIs(a: string, b: string)
    ensures Less(a, b) <==>
      exists k: nat :: k < |b| && k <= |a| && a[..k] == b[..k] && (k == |a| || a[k] < b[k])
  {
    if a != [] && b != [] && a[0] == b[0] {
      LessIs(a[1..], b[1..]);
      if k: nat :| k < |b| && k <= |a| && a[..k] == b[..k] && (k == |a| || a[k] < b[k]) {
        assert k > 0;
        assert a[1..][..k - 1] == a[..k][1..] == b[..k][1..] == b[1..][..k - 1];
      }
      if k: nat :|
        k < |b[1..]| && k <= |a[1..]| && a[1..][..k] == b[1..][..k] && (k == |a[1..]| || a[1..][k] < b[1..][k]) {
        assert a[..k + 1] == [a[0]] + a[1..][..k] == [b[0]] + b[1..][..k] == b[..k + 1];
      }
    } else if b != [] {
      if a == [] || a[0] < b[0] { assert a[..0] == b[..0]; }
      forall k: nat | 0 < k <= |a| && k <= |b| && a[..k] == b[..k] ensures a[0] == b[0] { SameFirst(a, b, k); }
    }
  }

  lemma SameFirst(a: string, b: string, k: nat)
    requires 0 < k <= |a| && k <= |b| && a[..k] == b[..k]
    ensures a[0] == b[0]
  {
    assert a[..k][0] == b[..k][0];
  }

  predicate SortedIds(ids: seq<string>) {
    forall i, j :: 0 <= i < j < |ids| ==> Less(ids[i], ids[j])
  }

  lemma FirstAndRest(a: seq<string>)
    requires a != []
    ensures a == [a[0]] + a[1..] && multiset(a[1..]) == multiset(a) - multiset{a[0]}
  {
    assert a == [a[0]] + a[1..];
  }

  /** Whatever order migrations register in, sorting distinct ids gives one list. */
  lemma {:induction false} SortedListIsUnique(a: seq<string>, b: seq<string>)
    requires SortedIds(a) && SortedIds(b) && multiset(a) == multiset(b)
    ensures a == b
  {
    if a == [] {
      assert |multiset(b)| == 0;
    } else {
      assert |multiset(a)| == |a| && |multiset(b)| == |b|;
      SmallestFirst(a, b);
      FirstAndRest(a);
      FirstAndRest(b);
      SortedListIsUnique(a[1..], b[1..]);
    }
  }

  lemma SmallestFirst(a: seq<string>, b: seq<string>)
    requires SortedIds(a) && SortedIds(b) && multiset(a) == multiset(b) && a != [] && b != []
    ensures a[0] == b[0]
  {
    assert a[0] in multiset(b) && b[0] in multiset(a);
    var i :| 0 <= i < |b| && b[i] == a[0];
    var j :| 0 <= j < |a| && a[j] == b[0];
    LessIsStrictOrder(a[0], b[0], a[0]);
  }
}

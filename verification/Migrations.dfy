/** The migration engine of internal/db/migrate.go: the ledger table
    schema_migrations, the engine that moves it, and what every sequence of
    calls keeps whatever statement fails. */
module Migrations {
  import opened Common
  import opened SqlSplit

  datatype Migration = Migration(version: int, name: string, upSql: string, downSql: string)

  type Ledger = map<int, string>

  // ---------------------------------------------------------------------
  // The database, one operation at a time
  // ---------------------------------------------------------------------

  /** The database as the engine sees it. DDL commits by itself, so `executed`
      is never taken back; ledger rows belong to the open transaction until it
      commits, unless the DDL before them already ended it (LostAck). */
  class Database {
    const io: nat -> Outcome
    var clock: nat
    var ledger: Ledger
    var draft: Ledger
    var executed: seq<string>

    constructor (io: nat -> Outcome)
      ensures ledger == map[] && executed == []
    {
      this.io := io;
      clock, ledger, draft, executed := 0, map[], map[], [];
    }

    /** How many of the first `n` operations failed. */
    ghost function Faults(n: nat): nat {
      if n == 0 then 0 else Faults(n - 1) + if io(n - 1) == Ok then 0 else 1
    }

    method Plain() returns (err: bool)
      modifies `clock
      ensures Faults(clock) == Faults(old(clock)) + if err then 1 else 0
    {
      err := io(clock) != Ok;
      clock := clock + 1;
    }

    method IsApplied(version: int) returns (err: bool, applied: bool)
      modifies `clock
      ensures Faults(clock) == Faults(old(clock)) + if err then 1 else 0
      ensures !err ==> (applied <==> version in ledger)
    {
      err := Plain();
      applied := !err && version in ledger;
    }

    method Begin() returns (err: bool)
      modifies `clock, `draft
      ensures Faults(clock) == Faults(old(clock)) + if err then 1 else 0
      ensures !err ==> draft == ledger
    {
      err := Plain();
      draft := ledger;
    }

    method Exec(stmt: string) returns (err: bool)
      modifies `clock, `executed
      ensures Faults(clock) == Faults(old(clock)) + if err then 1 else 0
      ensures executed == old(executed) + [stmt] || (err && executed == old(executed))
    {
      var out := io(clock);
      clock := clock + 1;
      if out != Fault {
        executed := executed + [stmt];
      }
      err := out != Ok;
    }

    method Insert(version: int, name: string) returns (err: bool)
      modifies `clock, `draft, `ledger
      ensures Faults(clock) == Faults(old(clock)) + if err && version !in old(draft) then 1 else 0
      ensures !err ==> ledger == old(ledger) && draft == old(draft)[version := name]
      ensures err ==> ledger == old(ledger) || ledger == old(draft)[version := name]
    {
      if version in draft {
        return true;
      }
      var out := io(clock);
      clock := clock + 1;
      err := out != Ok;
      if out == Ok {
        draft := draft[version := name];
      } else if out == LostAck {
        ledger := draft[version := name];
      }
    }

    method Delete(version: int) returns (err: bool)
      modifies `clock, `draft, `ledger
      ensures Faults(clock) == Faults(old(clock)) + if err then 1 else 0
      ensures !err ==> ledger == old(ledger) && draft == old(draft) - {version}
      ensures err ==> ledger == old(ledger) || ledger == old(draft) - {version}
    {
      var out := io(clock);
      clock := clock + 1;
      err := out != Ok;
      if out == Ok {
        draft := draft - {version};
      } else if out == LostAck {
        ledger := draft - {version};
      }
    }

    method Commit() returns (err: bool)
      modifies `clock, `ledger
      ensures Faults(clock) == Faults(old(clock)) + if err then 1 else 0
      ensures ledger == draft || (err && ledger == old(ledger))
    {
      var out := io(clock);
      clock := clock + 1;
      if out != Fault {
        ledger := draft;
      }
      err := out != Ok;
    }
  }

  /** Without a failing operation there is no fault. */
  lemma {:induction false} NoFaults(db: Database, n: nat)
    requires forall t: nat :: db.io(t) == Ok
    ensures db.Faults(n) == 0
  {
    if n > 0 {
      NoFaults(db, n - 1);
    }
  }

  // ---------------------------------------------------------------------
  // Sorting a slice in place
  // ---------------------------------------------------------------------

  predicate InOrder(a: Migration, b: Migration, descending: bool) {
    if descending then a.version >= b.version else a.version <= b.version
  }

  ghost predicate SortedBy(ms: seq<Migration>, descending: bool) {
    forall i, j :: 0 <= i < j < |ms| ==> InOrder(ms[i], ms[j], descending)
  }

  method First(a: array<Migration>, from: nat, descending: bool) returns (best: nat)
    requires from < a.Length
    ensures from <= best < a.Length
    ensures forall q :: from <= q < a.Length ==> InOrder(a[best], a[q], descending)
  {
    best := from;
    for j := from + 1 to a.Length
      invariant from <= best < a.Length
      invariant forall q :: from <= q < j ==> InOrder(a[best], a[q], descending)
    {
      if !InOrder(a[best], a[j], descending) {
        best := j;
      }
    }
  }

  ghost predicate SortedTo(ms: seq<Migration>, n: nat, descending: bool) {
    forall p, q :: 0 <= p < q < |ms| && p < n ==> InOrder(ms[p], ms[q], descending)
  }

  /** sort.Slice on versions; any sort will do, this one selects. */
  method SortSlice(a: array<Migration>, descending: bool)
    modifies a
    ensures SortedBy(a[..], descending)
    ensures multiset(a[..]) == multiset(old(a[..]))
  {
    for i := 0 to a.Length
      invariant multiset(a[..]) == multiset(old(a[..]))
      invariant SortedTo(a[..], i, descending)
    {
      var best := First(a, i, descending);
      ghost var was := a[..];
      a[i], a[best] := a[best], a[i];
      SwapSorts(was, a[..], i, best, descending);
    }
  }

  lemma SwapSorts(ms: seq<Migration>, ms': seq<Migration>, i: nat, best: nat, descending: bool)
    requires i <= best < |ms| && SortedTo(ms, i, descending)
    requires ms' == ms[i := ms[best]][best := ms[i]]
    requires forall q :: i <= q < |ms| ==> InOrder(ms[best], ms[q], descending)
    ensures SortedTo(ms', i + 1, descending)
    ensures multiset(ms') == multiset(ms)
  {
    forall p, q | 0 <= p < q < |ms'| && p < i + 1 ensures InOrder(ms'[p], ms'[q], descending) {
      if p < i {
        assert ms'[p] == ms[p];
        assert InOrder(ms[p], ms[q], descending) && InOrder(ms[p], ms[i], descending);
        assert InOrder(ms[p], ms[best], descending);
      }
    }
  }

  // ---------------------------------------------------------------------
  // Applying
  // ---------------------------------------------------------------------

  /** The migrations RunMigrations would apply, in order. */
  function Todo(l: Ledger, ms: seq<Migration>): seq<Migration>
    decreases |ms|
  {
    if ms == [] then []
    else if ms[0].version in l then Todo(l, ms[1..])
    else [ms[0]] + Todo(l[ms[0].version := ms[0].name], ms[1..])
  }

  function Record(l: Ledger, ms: seq<Migration>): Ledger
    decreases |ms|
  {
    if ms == [] then l else Record(l[ms[0].version := ms[0].name], ms[1..])
  }

  /** The statements of each migration's up file. */
  function UpScripts(ms: seq<Migration>): (r: seq<seq<string>>)
    ensures |r| == |ms| && forall i :: 0 <= i < |ms| ==> r[i] == SplitSql(ms[i].upSql)
  {
    if ms == [] then [] else [SplitSql(ms[0].upSql)] + UpScripts(ms[1..])
  }

  function Flatten(scripts: seq<seq<string>>): seq<string> {
    if scripts == [] then [] else Flatten(scripts[..|scripts| - 1]) + scripts[|scripts| - 1]
  }

  /** The loop over the statements of a script, up to a failure; the failing one may
      have been executed. */
  method RunStatements(db: Database, stmts: seq<string>) returns (err: bool, ghost ran: nat)
    modifies db`clock, db`executed
    ensures ran <= |stmts| && db.executed == old(db.executed) + stmts[..ran]
    ensures db.Faults(db.clock) == db.Faults(old(db.clock)) + if err then 1 else 0
    ensures !err ==> ran == |stmts|
  {
    ran, err := 0, false;
    for i := 0 to |stmts|
      invariant ran == i && !err
      invariant db.executed == old(db.executed) + stmts[..i]
      invariant db.Faults(db.clock) == db.Faults(old(db.clock))
    {
      err := db.Exec(stmts[i]);
      if err {
        ran := |db.executed| - |old(db.executed)|;
        return;
      }
      ran := i + 1;
    }
  }

  /** One migration: its statements, then its ledger row. `ran` statements were
      executed; the row is recorded only after all of them. */
  method ApplyOne(db: Database, m: Migration) returns (err: bool, ghost ran: nat, ghost recorded: bool)
    requires m.version !in db.ledger
    modifies db
    ensures ran <= |SplitSql(m.upSql)|
    ensures db.executed == old(db.executed) + SplitSql(m.upSql)[..ran]
    ensures recorded ==> ran == |SplitSql(m.upSql)|
    ensures db.ledger == if recorded then old(db.ledger)[m.version := m.name] else old(db.ledger)
    ensures err <==> db.Faults(db.clock) != db.Faults(old(db.clock))
    ensures !err ==> recorded
  {
    ran, recorded := 0, false;
    err := db.Begin();
    if err {
      return;
    }
    var stmts := SplitSqlMethod(m.upSql);
    err, ran := RunStatements(db, stmts);
    if err {
      return;
    }
    ghost var before := db.ledger;
    err := db.Insert(m.version, m.name);
    if err {
      recorded := m.version in db.ledger;
      return;
    }
    err := db.Commit();
    recorded := m.version in db.ledger;
  }

  /** From ledger `l0` and log `x0`, the first `done` migrations of `todo` are
      recorded, all their statements and the statements `tail` of the next one
      were executed. */
  ghost predicate Progress(l0: Ledger, x0: seq<string>, todo: seq<Migration>, scripts: seq<seq<string>>,
                           l: Ledger, x: seq<string>, done: nat, tail: seq<string>)
    requires |scripts| == |todo|
  {
    && done <= |todo|
    && l == Record(l0, todo[..done])
    && x == x0 + Flatten(scripts[..done]) + tail
    && tail <= (if done < |todo| then scripts[done] else [])
  }

  method ApplyNext(db: Database, m: Migration, ghost l0: Ledger, ghost x0: seq<string>,
                   ghost todo: seq<Migration>, ghost scripts: seq<seq<string>>, ghost done: nat)
    returns (err: bool, ghost done': nat, ghost tail: seq<string>)
    requires |scripts| == |todo| && Progress(l0, x0, todo, scripts, db.ledger, db.executed, done, [])
    requires done < |todo| && todo[done] == m && scripts[done] == SplitSql(m.upSql) && m.version !in db.ledger
    modifies db
    ensures err <==> db.Faults(db.clock) != db.Faults(old(db.clock))
    ensures Progress(l0, x0, todo, scripts, db.ledger, db.executed, done', tail)
    ensures !err ==> done' == done + 1 && tail == [] && db.ledger == old(db.ledger)[m.version := m.name]
  {
    ghost var l, x := db.ledger, db.executed;
    ghost var ran, recorded;
    err, ran, recorded := ApplyOne(db, m);
    ProgressStep(l0, x0, todo, scripts, l, x, done, db.ledger, db.executed, ran, recorded);
    done', tail := if recorded then done + 1 else done, if recorded then [] else scripts[done][..ran];
  }

  lemma NextTodo(l: Ledger, ms: seq<Migration>, todo: seq<Migration>, done: nat)
    requires ms != [] && ms[0].version !in l && done <= |todo| && todo[done..] == Todo(l, ms)
    ensures done < |todo| && todo[done] == ms[0]
    ensures todo[done + 1..] == Todo(l[ms[0].version := ms[0].name], ms[1..])
  {
    assert todo[done..][0] == ms[0] && todo[done..][1..] == todo[done + 1..];
  }

  /** The first `done` migrations are recorded, and the rest of the list is what the
      rest of `todo` comes from. */
  ghost predicate OnTrack(l0: Ledger, x0: seq<string>, todo: seq<Migration>, scripts: seq<seq<string>>,
                          l: Ledger, x: seq<string>, done: nat, ms: seq<Migration>)
  {
    && |scripts| == |todo| && Progress(l0, x0, todo, scripts, l, x, done, [])
    && todo[done..] == Todo(l, ms)
  }

  lemma SkipsOne(l0: Ledger, x0: seq<string>, todo: seq<Migration>, scripts: seq<seq<string>>,
                 l: Ledger, x: seq<string>, done: nat, ms: seq<Migration>)
    requires OnTrack(l0, x0, todo, scripts, l, x, done, ms) && ms != [] && ms[0].version in l
    ensures OnTrack(l0, x0, todo, scripts, l, x, done, ms[1..])
  {
  }

  lemma AppliesOne(l0: Ledger, x0: seq<string>, todo: seq<Migration>, scripts: seq<seq<string>>,
                   l: Ledger, done: nat, ms: seq<Migration>, l': Ledger, x': seq<string>)
    requires ms != [] && ms[0].version !in l && done <= |todo| && todo[done..] == Todo(l, ms)
    requires |scripts| == |todo| && Progress(l0, x0, todo, scripts, l', x', done + 1, [])
    requires l' == l[ms[0].version := ms[0].name]
    ensures OnTrack(l0, x0, todo, scripts, l', x', done + 1, ms[1..])
  {
    NextTodo(l, ms, todo, done);
  }

  /** One round of the loop: skip a recorded migration, apply any other. */
  method Visit(db: Database, m: Migration, ghost ms: seq<Migration>, ghost l0: Ledger, ghost x0: seq<string>,
               ghost todo: seq<Migration>, ghost scripts: seq<seq<string>>, ghost done: nat)
    returns (err: bool, ghost done': nat, ghost tail: seq<string>)
    requires scripts == UpScripts(todo) && OnTrack(l0, x0, todo, scripts, db.ledger, db.executed, done, ms)
    requires ms != [] && ms[0] == m
    modifies db
    ensures err <==> db.Faults(db.clock) != db.Faults(old(db.clock))
    ensures Progress(l0, x0, todo, scripts, db.ledger, db.executed, done', tail)
    ensures !err ==> tail == [] && OnTrack(l0, x0, todo, scripts, db.ledger, db.executed, done', ms[1..])
  {
    done', tail := done, [];
    var applied;
    err, applied := db.IsApplied(m.version);
    if err {
      return;
    }
    if applied {
      SkipsOne(l0, x0, todo, scripts, db.ledger, db.executed, done, ms);
      return;
    }
    ghost var l := db.ledger;
    NextTodo(l, ms, todo, done);
    err, done', tail := ApplyNext(db, m, l0, x0, todo, scripts, done);
    if !err {
      AppliesOne(l0, x0, todo, scripts, l, done, ms, db.ledger, db.executed);
    }
  }

  lemma StartsOnTrack(l: Ledger, x: seq<string>, ms: seq<Migration>)
    ensures var todo := Todo(l, ms);
      OnTrack(l, x, todo, UpScripts(todo), l, x, 0, ms)
  {
  }

  lemma EndOfTrack(l0: Ledger, x0: seq<string>, todo: seq<Migration>, scripts: seq<seq<string>>,
                   l: Ledger, x: seq<string>, done: nat)
    requires OnTrack(l0, x0, todo, scripts, l, x, done, [])
    ensures done == |todo|
  {
  }

  /** RunMigrations: the migrations not yet recorded are applied in slice order.
      Wherever it fails, the recorded ones are the first `done` of those, and the
      statements executed are theirs followed by `tail`, some first statements of
      the next one. It fails exactly when one of its operations failed; otherwise
      all are recorded. */
  method RunMigrations(db: Database, migrations: seq<Migration>)
    returns (err: bool, ghost done: nat, ghost tail: seq<string>)
    modifies db
    ensures var todo := Todo(old(db.ledger), migrations);
      Progress(old(db.ledger), old(db.executed), todo, UpScripts(todo), db.ledger, db.executed, done, tail)
    ensures err <==> db.Faults(db.clock) != db.Faults(old(db.clock))
    ensures !err ==> done == |Todo(old(db.ledger), migrations)|
  {
    done, tail := 0, [];
    ghost var l0, x0 := db.ledger, db.executed;
    ghost var todo := Todo(l0, migrations);
    ghost var scripts := UpScripts(todo);
    StartsOnTrack(l0, x0, migrations);
    err := db.Plain();
    if err {
      return;
    }
    assert migrations[0..] == migrations;
    for i := 0 to |migrations|
      invariant !err && tail == [] && db.Faults(db.clock) == db.Faults(old(db.clock))
      invariant OnTrack(l0, x0, todo, scripts, db.ledger, db.executed, done, migrations[i..])
    {
      assert migrations[i..][0] == migrations[i] && migrations[i..][1..] == migrations[i + 1..];
      err, done, tail := Visit(db, migrations[i], migrations[i..], l0, x0, todo, scripts, done);
      if err {
        return;
      }
    }
    assert migrations[|migrations|..] == [];
    EndOfTrack(l0, x0, todo, scripts, db.ledger, db.executed, done);
  }

  lemma ProgressStep(l0: Ledger, x0: seq<string>, todo: seq<Migration>, scripts: seq<seq<string>>,
                     l: Ledger, x: seq<string>, done: nat, l': Ledger, x': seq<string>, ran: nat, recorded: bool)
    requires |scripts| == |todo| && done < |todo| && ran <= |scripts[done]|
    requires Progress(l0, x0, todo, scripts, l, x, done, [])
    requires x' == x + scripts[done][..ran] && (recorded ==> ran == |scripts[done]|)
    requires l' == if recorded then l[todo[done].version := todo[done].name] else l
    ensures Progress(l0, x0, todo, scripts, l', x',
                     if recorded then done + 1 else done, if recorded then [] else scripts[done][..ran])
  {
    RecordSnoc(l0, todo, done);
    assert scripts[..done + 1][..done] == scripts[..done];
    if recorded {
      assert scripts[done][..ran] == scripts[done];
    }
  }

  lemma {:induction false} RecordSnoc(l: Ledger, ms: seq<Migration>, k: nat)
    requires k < |ms|
    ensures Record(l, ms[..k + 1]) == Record(l, ms[..k])[ms[k].version := ms[k].name]
    decreases k
  {
    if k == 0 {
      assert ms[..1][1..] == [];
    } else {
      RecordSnoc(l[ms[0].version := ms[0].name], ms[1..], k - 1);
      assert ms[..k + 1][1..] == ms[1..][..k] && ms[..k][1..] == ms[1..][..k - 1];
    }
  }

  // ---------------------------------------------------------------------
  // Rolling back
  // ---------------------------------------------------------------------

  /** `m` has the highest recorded version among `ms`. */
  ghost predicate IsTop(l: Ledger, ms: seq<Migration>, m: Migration) {
    m in ms && m.version in l && forall x :: x in ms && x.version in l ==> x.version <= m.version
  }

  /** RollbackMigration sorts the caller's slice in descending order, in place,
      and takes back only the highest recorded migration. */
  method RollbackMigration(db: Database, migrations: array<Migration>)
    returns (err: bool, ghost undone: Option<Migration>, ghost ran: nat)
    modifies db, migrations
    ensures multiset(migrations[..]) == multiset(old(migrations[..]))
    ensures err <==> db.Faults(db.clock) != db.Faults(old(db.clock))
    ensures err || SortedBy(migrations[..], true)
    ensures undone.Some? ==> IsTop(old(db.ledger), old(migrations[..]), undone.value)
    ensures undone.Some? ==> ran <= |SplitSql(undone.value.downSql)|
    ensures db.executed == old(db.executed)
              + if undone.Some? then SplitSql(undone.value.downSql)[..ran] else []
    ensures db.ledger == old(db.ledger)
         || (undone.Some? && db.ledger == old(db.ledger) - {undone.value.version}
             && ran == |SplitSql(undone.value.downSql)|)
    ensures !err && undone.Some? ==> undone.value.version !in db.ledger
    ensures !err && undone.None? ==> forall m :: m in old(migrations[..]) ==> m.version !in old(db.ledger)
  {
    undone, ran := None, 0;
    err := db.Plain();
    if err {
      return;
    }
    SortSlice(migrations, true);
    ghost var ms := migrations[..];
    SameMembers(ms, old(migrations[..]));
    for i := 0 to migrations.Length
      invariant db.ledger == old(db.ledger) && db.executed == old(db.executed) && migrations[..] == ms
      invariant undone == None && ran == 0 && !err
      invariant db.Faults(db.clock) == db.Faults(old(db.clock))
      invariant forall k :: 0 <= k < i ==> ms[k].version !in db.ledger
    {
      var m := migrations[i];
      assert m == ms[i];
      var applied;
      err, applied := db.IsApplied(m.version);
      if err {
        return;
      }
      if !applied {
        continue;
      }
      assert IsTop(db.ledger, ms, m);
      undone := Some(m);
      err, ran := UndoOne(db, m);
      return;
    }
  }

  method UndoOne(db: Database, m: Migration) returns (err: bool, ghost ran: nat)
    modifies db
    ensures err <==> db.Faults(db.clock) != db.Faults(old(db.clock))
    ensures ran <= |SplitSql(m.downSql)|
    ensures db.executed == old(db.executed) + SplitSql(m.downSql)[..ran]
    ensures db.ledger == old(db.ledger)
         || (db.ledger == old(db.ledger) - {m.version} && ran == |SplitSql(m.downSql)|)
    ensures !err ==> m.version !in db.ledger
  {
    ran := 0;
    err := db.Begin();
    if err {
      return;
    }
    var stmts := SplitSqlMethod(m.downSql);
    err, ran := RunStatements(db, stmts);
    if err {
      return;
    }
    err := db.Delete(m.version);
    if err {
      return;
    }
    err := db.Commit();
  }

  lemma SameMembers(a: seq<Migration>, b: seq<Migration>)
    requires multiset(a) == multiset(b)
    ensures forall m :: m in a <==> m in b
  {
    forall m ensures m in a <==> m in b {
      assert m in a <==> m in multiset(a);
      assert m in b <==> m in multiset(b);
    }
  }

  // ---------------------------------------------------------------------
  // What every sequence of calls keeps
  // ---------------------------------------------------------------------

  ghost predicate Ascending(ms: seq<Migration>) {
    forall i, j :: 0 <= i < j < |ms| ==> ms[i].version < ms[j].version
  }

  /** The versions of the first `n` migrations. */
  function Versions(ms: seq<Migration>, n: nat): set<int>
    requires n <= |ms|
  {
    set i | 0 <= i < n :: ms[i].version
  }

  /** The recorded versions are the first `n` of the list. */
  ghost predicate PrefixAt(l: Ledger, ms: seq<Migration>, n: nat) {
    n <= |ms| && l.Keys == Versions(ms, n)
  }

  /** What RunMigrations guarantees about the ledger, failed or not. */
  ghost predicate Migrated(ms: seq<Migration>, l: Ledger, l': Ledger, done: nat) {
    done <= |Todo(l, ms)| && l' == Record(l, Todo(l, ms)[..done])
  }

  /** What RollbackMigration guarantees about the ledger, failed or not. */
  ghost predicate RolledBack(ms: seq<Migration>, l: Ledger, l': Ledger) {
    l' == l || exists m :: IsTop(l, ms, m) && l' == l - {m.version}
  }

  lemma {:induction false} RecordKeys(l: Ledger, ms: seq<Migration>, n: nat)
    requires n <= |ms|
    ensures Record(l, ms[..n]).Keys == l.Keys + Versions(ms, n)
    decreases n
  {
    if n > 0 {
      RecordKeys(l, ms, n - 1);
      RecordSnoc(l, ms, n - 1);
    }
  }

  lemma {:induction false} TodoOfNone(l: Ledger, ms: seq<Migration>)
    requires Ascending(ms) && forall i :: 0 <= i < |ms| ==> ms[i].version !in l
    ensures Todo(l, ms) == ms
    decreases |ms|
  {
    if ms != [] {
      TodoOfNone(l[ms[0].version := ms[0].name], ms[1..]);
    }
  }

  lemma {:induction false} TodoSkips(l: Ledger, ms: seq<Migration>, n: nat)
    requires n <= |ms| && forall i :: 0 <= i < n ==> ms[i].version in l
    ensures Todo(l, ms) == Todo(l, ms[n..])
    decreases n
  {
    if n > 0 {
      TodoSkips(l, ms[1..], n - 1);
      assert ms[1..][n - 1..] == ms[n..];
    }
  }

  /** What is left to do after a prefix is the rest of the list. */
  lemma TodoOfPrefix(l: Ledger, ms: seq<Migration>, n: nat)
    requires Ascending(ms) && PrefixAt(l, ms, n)
    ensures Todo(l, ms) == ms[n..]
  {
    assert forall i :: 0 <= i < n ==> ms[i].version in l.Keys;
    TodoSkips(l, ms, n);
    TodoOfNone(l, ms[n..]);
  }

  lemma MigrateKeepsPrefix(ms: seq<Migration>, l: Ledger, l': Ledger, n: nat, done: nat)
    requires Ascending(ms) && PrefixAt(l, ms, n) && Migrated(ms, l, l', done)
    ensures PrefixAt(l', ms, n + done)
  {
    TodoOfPrefix(l, ms, n);
    RecordKeys(l, ms[n..], done);
    VersionsSplit(ms, n, done);
  }

  lemma VersionsSplit(ms: seq<Migration>, n: nat, k: nat)
    requires n + k <= |ms|
    ensures Versions(ms, n + k) == Versions(ms, n) + Versions(ms[n..], k)
  {
    forall v ensures v in Versions(ms, n + k) <==> v in Versions(ms, n) + Versions(ms[n..], k) {
      if v in Versions(ms[n..], k) {
        var i :| 0 <= i < k && ms[n..][i].version == v;
        assert ms[n + i].version == v;
      }
      if v in Versions(ms, n + k) {
        var i :| 0 <= i < n + k && ms[i].version == v;
        assert i >= n ==> ms[n..][i - n].version == v;
      }
    }
  }

  lemma LastVersion(ms: seq<Migration>, n: nat)
    requires Ascending(ms) && 0 < n <= |ms|
    ensures Versions(ms, n - 1) == Versions(ms, n) - {ms[n - 1].version}
  {
  }

  lemma TopIsLast(ms: seq<Migration>, l: Ledger, n: nat, m: Migration)
    requires Ascending(ms) && PrefixAt(l, ms, n) && IsTop(l, ms, m)
    ensures n > 0 && m.version == ms[n - 1].version
  {
    var i :| 0 <= i < n && ms[i].version == m.version;
    assert ms[n - 1] in ms && ms[n - 1].version in Versions(ms, n);
  }

  lemma RollbackKeepsPrefix(ms: seq<Migration>, l: Ledger, l': Ledger, n: nat) returns (n': nat)
    requires Ascending(ms) && PrefixAt(l, ms, n) && RolledBack(ms, l, l')
    ensures PrefixAt(l', ms, n') && n - 1 <= n' <= n
  {
    n' := n;
    if l' != l {
      var m :| IsTop(l, ms, m) && l' == l - {m.version};
      TopIsLast(ms, l, n, m);
      LastVersion(ms, n);
      n' := n - 1;
    }
  }

  /** One call of the engine: Migrate that recorded some migrations, or
      Rollback, successful or failed. */
  ghost predicate Call(ms: seq<Migration>, l: Ledger, l': Ledger) {
    RolledBack(ms, l, l') || exists done :: Migrated(ms, l, l', done)
  }

  ghost predicate History(ms: seq<Migration>, ledgers: seq<Ledger>) {
    && ledgers != [] && ledgers[0] == map[]
    && forall i :: 0 <= i < |ledgers| - 1 ==> Call(ms, ledgers[i], ledgers[i + 1])
  }

  /** After any sequence of Migrate and Rollback calls, failing anywhere, the
      recorded versions are a prefix of the ascending version list. */
  lemma {:induction false} AlwaysPrefix(ms: seq<Migration>, ledgers: seq<Ledger>) returns (n: nat)
    requires Ascending(ms) && History(ms, ledgers)
    ensures PrefixAt(ledgers[|ledgers| - 1], ms, n)
    decreases |ledgers|
  {
    if |ledgers| == 1 {
      n := 0;
    } else {
      var k := |ledgers| - 1;
      n := AlwaysPrefix(ms, ledgers[..k]);
      assert ledgers[..k][|ledgers[..k]| - 1] == ledgers[k - 1];
      assert Call(ms, ledgers[k - 1], ledgers[k - 1 + 1]);
      if RolledBack(ms, ledgers[k - 1], ledgers[k]) {
        n := RollbackKeepsPrefix(ms, ledgers[k - 1], ledgers[k], n);
      } else {
        var done :| Migrated(ms, ledgers[k - 1], ledgers[k], done);
        MigrateKeepsPrefix(ms, ledgers[k - 1], ledgers[k], n, done);
        n := n + done;
      }
    }
  }

  /** A successful Migrate records every version and nothing else, and then
      there is nothing left for another one to execute. */
  lemma SuccessIsComplete(ms: seq<Migration>, l: Ledger, l': Ledger, n: nat)
    requires Ascending(ms) && PrefixAt(l, ms, n) && Migrated(ms, l, l', |Todo(l, ms)|)
    ensures l'.Keys == Versions(ms, |ms|) && Todo(l', ms) == []
  {
    TodoOfPrefix(l, ms, n);
    MigrateKeepsPrefix(ms, l, l', n, |ms| - n);
    TodoOfPrefix(l', ms, |ms|);
  }

  // ---------------------------------------------------------------------
  // Loading
  // ---------------------------------------------------------------------

  /** An up file whose name was recognised. */
  datatype UpFile = UpFile(version: int, name: string)

  /** The first file of each name, in directory order. */
  function FirstOfEachName(files: seq<UpFile>): seq<UpFile> {
    if files == [] then []
    else
      var init, last := FirstOfEachName(files[..|files| - 1]), files[|files| - 1];
      if exists i :: 0 <= i < |files| - 1 && files[i].name == last.name then init else init + [last]
  }

  /** The first file of each name, and no other file, is kept. */
  lemma {:induction false} FirstOfEachIff(files: seq<UpFile>, f: UpFile)
    ensures f in FirstOfEachName(files)
       <==> exists i :: 0 <= i < |files| && files[i] == f && forall j :: 0 <= j < i ==> files[j].name != f.name
  {
    if files != [] {
      var n := |files| - 1;
      var init, last := files[..n], files[n];
      FirstOfEachIff(init, f);
      if i :| 0 <= i < n && init[i] == f && forall j :: 0 <= j < i ==> init[j].name != f.name {
        assert files[i] == f && forall j :: 0 <= j < i ==> files[j] == init[j];
      }
      if i :| 0 <= i < |files| && files[i] == f && forall j :: 0 <= j < i ==> files[j].name != f.name {
        assert i < n ==> init[i] == f && forall j :: 0 <= j < i ==> files[j] == init[j];
      }
    }
  }

  /** `m` is the migration of file `f`, its up file as upSql and its down file as
      downSql. */
  predicate MadeFrom(f: UpFile, text: (UpFile, bool) -> Option<string>, m: Migration) {
    && m.version == f.version && m.name == f.name
    && text(f, true) == Some(m.upSql) && text(f, false) == Some(m.downSql)
  }

  predicate Readable(f: UpFile, text: (UpFile, bool) -> Option<string>) {
    text(f, true).Some? && text(f, false).Some?
  }

  function Loaded(f: UpFile, text: (UpFile, bool) -> Option<string>): Option<Migration> {
    var up, down := text(f, true), text(f, false);
    if up.Some? && down.Some? then Some(Migration(f.version, f.name, up.value, down.value)) else None
  }

  ghost predicate DistinctVersions(files: seq<UpFile>) {
    forall i, j :: 0 <= i < j < |files| ==> files[i].version != files[j].version
  }

  /** `ms` holds the first file of each name with its two scripts, by version;
      strictly ascending if no version is used twice. */
  ghost predicate IsLoad(files: seq<UpFile>, text: (UpFile, bool) -> Option<string>, ms: seq<Migration>) {
    var kept := FirstOfEachName(files);
    && |ms| == |kept| && SortedBy(ms, false)
    && (forall f :: f in kept ==> Readable(f, text))
    && (forall m :: m in ms <==> exists f :: f in kept && MadeFrom(f, text, m))
    && (DistinctVersions(kept) ==> Ascending(ms))
  }

  lemma {:induction false} CountsOnce(ms: seq<Migration>, k: nat)
    requires k < |ms| && forall i, j :: 0 <= i < j < |ms| ==> ms[i].version != ms[j].version
    ensures multiset(ms)[ms[k]] == 1
  {
    var n := |ms| - 1;
    assert ms == ms[..n] + [ms[n]];
    if k < n {
      CountsOnce(ms[..n], k);
    } else {
      assert forall i :: 0 <= i < n ==> ms[..n][i].version != ms[n].version;
    }
  }

  lemma CountsTwice(ms: seq<Migration>, i: nat, j: nat)
    requires i < j < |ms| && ms[i] == ms[j]
    ensures multiset(ms)[ms[i]] >= 2
  {
    assert ms == ms[..j] + [ms[j]] + ms[j + 1..];
    assert ms[i] in ms[..j];
  }

  /** Sorting distinct versions makes them strictly ascending. */
  lemma SortedIsAscending(ms: seq<Migration>, sorted: seq<Migration>)
    requires multiset(sorted) == multiset(ms) && SortedBy(sorted, false)
    requires forall i, j :: 0 <= i < j < |ms| ==> ms[i].version != ms[j].version
    ensures Ascending(sorted)
  {
    SameMembers(sorted, ms);
    forall i, j | 0 <= i < j < |sorted| ensures sorted[i].version < sorted[j].version {
      assert InOrder(sorted[i], sorted[j], false);
      assert sorted[i] in ms && sorted[j] in ms;
      var p :| 0 <= p < |ms| && ms[p] == sorted[i];
      var q :| 0 <= q < |ms| && ms[q] == sorted[j];
      if p == q {
        CountsTwice(sorted, i, j);
        CountsOnce(ms, p);
      }
    }
  }

  /** The first loop: one entry per name. */
  method KeepFirst(files: seq<UpFile>) returns (kept: seq<UpFile>)
    ensures kept == FirstOfEachName(files)
  {
    var seen: map<string, bool> := map[];
    kept := [];
    for i := 0 to |files|
      invariant forall name :: name in seen <==> exists k :: 0 <= k < i && files[k].name == name
      invariant kept == FirstOfEachName(files[..i])
    {
      assert files[..i + 1][..i] == files[..i];
      if files[i].name in seen {
        continue;
      }
      seen := seen[files[i].name := true];
      kept := kept + [files[i]];
    }
    assert files[..|files|] == files;
  }

  /** LoadMigrations: fails exactly when an up or down file cannot be read. */
  method LoadMigrations(files: seq<UpFile>, text: (UpFile, bool) -> Option<string>)
    returns (r: Option<seq<Migration>>)
    ensures r.None? <==> exists f :: f in FirstOfEachName(files) && !Readable(f, text)
    ensures r.Some? ==> IsLoad(files, text, r.value)
  {
    var kept := KeepFirst(files);
    var migrations: seq<Migration> := [];
    for i := 0 to |kept|
      invariant |migrations| == i
      invariant forall k :: 0 <= k < i ==> MadeFrom(kept[k], text, migrations[k])
    {
      var m := Loaded(kept[i], text);
      if m.None? {
        assert kept[i] in kept && !Readable(kept[i], text);
        return None;
      }
      migrations := migrations + [m.value];
    }
    var a := new Migration[|migrations|](i requires 0 <= i < |migrations| => migrations[i]);
    assert a[..] == migrations;
    SortSlice(a, false);
    r := Some(a[..]);
    LoadedAll(files, text, kept, migrations, r.value);
  }

  lemma LoadedAll(files: seq<UpFile>, text: (UpFile, bool) -> Option<string>, kept: seq<UpFile>,
                  migrations: seq<Migration>, sorted: seq<Migration>)
    requires kept == FirstOfEachName(files) && |migrations| == |kept|
    requires forall k :: 0 <= k < |kept| ==> MadeFrom(kept[k], text, migrations[k])
    requires multiset(sorted) == multiset(migrations) && SortedBy(sorted, false)
    ensures IsLoad(files, text, sorted)
  {
    if DistinctVersions(kept) {
      SortedIsAscending(migrations, sorted);
    }
    SameMembers(sorted, migrations);
    assert |sorted| == |multiset(sorted)| == |migrations|;
    forall m ensures m in sorted <==> exists f :: f in kept && MadeFrom(f, text, m) {
      if m in sorted {
        var k :| 0 <= k < |migrations| && migrations[k] == m;
        assert kept[k] in kept;
      }
      if f :| f in kept && MadeFrom(f, text, m) {
        var k :| 0 <= k < |kept| && kept[k] == f;
        assert migrations[k] == m;
      }
    }
  }

  /** With distinct versions the sorted list is unique, so every call of
      Migrate and Rollback works on the same list. */
  lemma {:induction false} AscendingIsUnique(a: seq<Migration>, b: seq<Migration>)
    requires Ascending(a) && Ascending(b) && forall m :: m in a <==> m in b
    ensures a == b
  {
    assert a != [] ==> a[0] in b;
    assert b != [] ==> b[0] in a;
    if a != [] {
      assert a[0] in a && b[0] in b;
      var i :| 0 <= i < |b| && b[i] == a[0];
      var j :| 0 <= j < |a| && a[j] == b[0];
      assert a[0] == b[0];
      forall m ensures m in a[1..] <==> m in b[1..] {
        if m in a[1..] {
          var k :| 1 <= k < |a| && a[k] == m;
          assert m in a;
        }
        if m in b[1..] {
          var k :| 1 <= k < |b| && b[k] == m;
          assert m in b;
        }
      }
      AscendingIsUnique(a[1..], b[1..]);
    }
  }
}

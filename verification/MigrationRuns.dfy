/** The migration engine from its entry points: Migrate and Rollback of
    internal/db/migrate.go, any sequence of them, and what becomes of the ledger
    when RunMigrations is given its list in another order. */
module MigrationRuns {
  import opened Common
  import opened Migrations
  import opened SqlSplit

  // ---------------------------------------------------------------------
  // The two entry points
  // ---------------------------------------------------------------------

  /** Some up or down file cannot be read. */
  ghost predicate Unreadable(files: seq<UpFile>, text: (UpFile, bool) -> Option<string>) {
    exists f :: f in FirstOfEachName(files) && !Readable(f, text)
  }

  /** Migrate: load, then run. It fails exactly when a file cannot be read, and
      then touches nothing, or when an operation of the database failed. */
  method Migrate(db: Database, files: seq<UpFile>, text: (UpFile, bool) -> Option<string>)
    returns (err: bool, ghost ms: seq<Migration>, ghost done: nat, ghost tail: seq<string>)
    modifies db
    ensures err <==> Unreadable(files, text) || db.Faults(db.clock) != db.Faults(old(db.clock))
    ensures Unreadable(files, text) ==> db.ledger == old(db.ledger) && db.executed == old(db.executed) && ms == []
    ensures !Unreadable(files, text) ==> IsLoad(files, text, ms)
    ensures var todo := Todo(old(db.ledger), ms);
      && Progress(old(db.ledger), old(db.executed), todo, UpScripts(todo), db.ledger, db.executed, done, tail)
      && (!err ==> done == |todo|)
  {
    var loaded := LoadMigrations(files, text);
    if loaded.None? {
      return true, [], 0, [];
    }
    ms := loaded.value;
    err, done, tail := RunMigrations(db, loaded.value);
  }

  /** Rollback: load, then take back the highest recorded migration `top`; only the
      statements of its down file are executed, in order. */
  method Rollback(db: Database, files: seq<UpFile>, text: (UpFile, bool) -> Option<string>)
    returns (err: bool, ghost ms: seq<Migration>, ghost top: Option<Migration>, ghost ran: nat)
    modifies db
    ensures err <==> Unreadable(files, text) || db.Faults(db.clock) != db.Faults(old(db.clock))
    ensures Unreadable(files, text) ==> db.ledger == old(db.ledger) && db.executed == old(db.executed)
    ensures !Unreadable(files, text) ==> IsLoad(files, text, ms)
    ensures RolledBack(ms, old(db.ledger), db.ledger)
    ensures top.Some? ==>
      && IsTop(old(db.ledger), ms, top.value)
      && ran <= |SplitSql(top.value.downSql)|
      && db.executed == old(db.executed) + SplitSql(top.value.downSql)[..ran]
      && (!err ==> ran == |SplitSql(top.value.downSql)| && db.ledger == old(db.ledger) - {top.value.version})
    ensures top.None? ==> db.executed == old(db.executed) && db.ledger == old(db.ledger)
    ensures !err && top.None? ==> forall m :: m in ms ==> m.version !in db.ledger
  {
    top, ran := None, 0;
    var loaded := LoadMigrations(files, text);
    if loaded.None? {
      return true, [], None, 0;
    }
    ms := loaded.value;
    var list := loaded.value;
    var a := new Migration[|list|](i requires 0 <= i < |list| => list[i]);
    assert a[..] == list;
    err, top, ran := RollbackMigration(db, a);
  }

  /** The recognised file of a migration. */
  function FileOf(m: Migration): UpFile {
    UpFile(m.version, m.name)
  }

  /** Each migration that is loaded has the up and the down script of its file. */
  lemma ScriptsAreFiles(files: seq<UpFile>, text: (UpFile, bool) -> Option<string>, ms: seq<Migration>, m: Migration)
    requires IsLoad(files, text, ms) && m in ms
    ensures FileOf(m) in FirstOfEachName(files)
    ensures text(FileOf(m), true) == Some(m.upSql) && text(FileOf(m), false) == Some(m.downSql)
  {
  }

  /** And exactly the kept files are loaded. */
  lemma LoadedFiles(files: seq<UpFile>, text: (UpFile, bool) -> Option<string>, ms: seq<Migration>, f: UpFile)
    requires IsLoad(files, text, ms)
    ensures f in Files(ms) <==> f in FirstOfEachName(files)
  {
    if f in Files(ms) {
      var i :| 0 <= i < |ms| && Files(ms)[i] == f;
      ScriptsAreFiles(files, text, ms, ms[i]);
    }
    if f in FirstOfEachName(files) {
      assert Readable(f, text);
      var m := Migration(f.version, f.name, text(f, true).value, text(f, false).value);
      assert MadeFrom(f, text, m);
      assert m in ms;
      var i :| 0 <= i < |ms| && ms[i] == m;
      assert Files(ms)[i] == f;
    }
  }

  /** The statements of the up files, one file after the other. */
  function UpStatements(files: seq<UpFile>, text: (UpFile, bool) -> Option<string>): seq<string> {
    if files == [] then [] else SplitSql(text(files[0], true).UnwrapOr("")) + UpStatements(files[1..], text)
  }

  lemma {:induction false} FlattenCons(first: seq<string>, scripts: seq<seq<string>>)
    ensures Flatten([first] + scripts) == first + Flatten(scripts)
  {
    var all := [first] + scripts;
    if scripts == [] {
      assert all[..0] == [];
    } else {
      var n := |scripts| - 1;
      FlattenCons(first, scripts[..n]);
      assert all[..|all| - 1] == [first] + scripts[..n];
    }
  }

  lemma {:induction false} ScriptsAreUpFiles(ms: seq<Migration>, text: (UpFile, bool) -> Option<string>)
    requires forall i :: 0 <= i < |ms| ==> text(FileOf(ms[i]), true) == Some(ms[i].upSql)
    ensures Flatten(UpScripts(ms)) == UpStatements(Files(ms), text)
  {
    if ms != [] {
      ScriptsAreUpFiles(ms[1..], text);
      assert Files(ms)[1..] == Files(ms[1..]) && Files(ms)[0] == FileOf(ms[0]);
      FlattenCons(SplitSql(ms[0].upSql), UpScripts(ms[1..]));
    }
  }

  function Files(ms: seq<Migration>): (fs: seq<UpFile>)
    ensures |fs| == |ms| && forall i :: 0 <= i < |fs| ==> fs[i] == FileOf(ms[i])
  {
    seq(|ms|, i requires 0 <= i < |ms| => FileOf(ms[i]))
  }

  lemma WholeProgress(l0: Ledger, x0: seq<string>, todo: seq<Migration>, scripts: seq<seq<string>>,
                      l: Ledger, x: seq<string>, done: nat, tail: seq<string>)
    requires |scripts| == |todo| == done && Progress(l0, x0, todo, scripts, l, x, done, tail)
    ensures l == Record(l0, todo) && x == x0 + Flatten(scripts)
  {
    var f := Flatten(scripts[..done]);
    assert scripts[..done] == scripts && todo[..done] == todo;
    assert x0 + f + tail == x0 + f;
  }

  /** What a successful Migrate on an empty ledger has executed. */
  lemma FreshProgress(files: seq<UpFile>, text: (UpFile, bool) -> Option<string>, ms: seq<Migration>,
                      x0: seq<string>, l: Ledger, x: seq<string>, done: nat, tail: seq<string>)
    requires IsLoad(files, text, ms) && Ascending(ms) && done == |Todo(map[], ms)|
    requires Progress(map[], x0, Todo(map[], ms), UpScripts(Todo(map[], ms)), l, x, done, tail)
    ensures x == x0 + UpStatements(Files(ms), text) && l.Keys == Versions(ms, |ms|)
  {
    FreshTodo(ms, l, done);
    WholeProgress(map[], x0, ms, UpScripts(ms), l, x, done, tail);
    forall i | 0 <= i < |ms| ensures text(FileOf(ms[i]), true) == Some(ms[i].upSql) {
      ScriptsAreFiles(files, text, ms, ms[i]);
    }
    ScriptsAreUpFiles(ms, text);
  }

  /** A Migrate that succeeds on an empty ledger executes exactly the statements of
      the up files, by ascending version, and records exactly their versions. */
  method MigrateFresh(db: Database, files: seq<UpFile>, text: (UpFile, bool) -> Option<string>)
    returns (err: bool, ghost sorted: seq<UpFile>)
    requires db.ledger == map[] && DistinctVersions(FirstOfEachName(files))
    modifies db
    ensures !err ==>
      && (forall f :: f in sorted <==> f in FirstOfEachName(files))
      && (forall i, j :: 0 <= i < j < |sorted| ==> sorted[i].version < sorted[j].version)
      && !Unreadable(files, text)
      && db.executed == old(db.executed) + UpStatements(sorted, text)
      && (forall v :: v in db.ledger.Keys <==> exists f :: f in sorted && f.version == v)
  {
    ghost var ms, done, tail;
    err, ms, done, tail := Migrate(db, files, text);
    sorted := Files(ms);
    if !err {
      FreshProgress(files, text, ms, old(db.executed), db.ledger, db.executed, done, tail);
      forall f ensures f in sorted <==> f in FirstOfEachName(files) {
        LoadedFiles(files, text, ms, f);
      }
      forall v ensures v in db.ledger.Keys <==> exists f :: f in sorted && f.version == v {
        FileVersions(ms, v);
      }
    }
  }

  lemma FreshTodo(ms: seq<Migration>, l: Ledger, done: nat)
    requires Ascending(ms) && Migrated(ms, map[], l, done) && done == |Todo(map[], ms)|
    ensures Todo(map[], ms) == ms && l.Keys == Versions(ms, |ms|)
  {
    TodoOfNone(map[], ms);
    RecordKeys(map[], ms, |ms|);
  }

  lemma FileVersions(ms: seq<Migration>, v: int)
    ensures v in Versions(ms, |ms|) <==> exists f :: f in Files(ms) && f.version == v
  {
    if v in Versions(ms, |ms|) {
      var i :| 0 <= i < |ms| && ms[i].version == v;
      assert Files(ms)[i] in Files(ms);
    }
    if f :| f in Files(ms) && f.version == v {
      var i :| 0 <= i < |ms| && Files(ms)[i] == f;
      assert ms[i].version == v;
    }
  }

  /** With distinct versions every load gives the same list. */
  lemma LoadsAgree(files: seq<UpFile>, text: (UpFile, bool) -> Option<string>, a: seq<Migration>, b: seq<Migration>)
    requires DistinctVersions(FirstOfEachName(files)) && IsLoad(files, text, a) && IsLoad(files, text, b)
    ensures a == b
  {
    AscendingIsUnique(a, b);
  }

  // ---------------------------------------------------------------------
  // Any sequence of calls
  // ---------------------------------------------------------------------

  datatype Command = Up | Down

  ghost predicate IsPrefix(l: Ledger, ms: seq<Migration>) {
    exists n: nat :: PrefixAt(l, ms, n)
  }

  /** After any sequence of Migrate and Rollback calls on an empty database, with
      operations failing anywhere, the recorded versions are a prefix of the
      ascending version list. */
  method RunCalls(db: Database, files: seq<UpFile>, text: (UpFile, bool) -> Option<string>, calls: seq<Command>)
    returns (ghost ledgers: seq<Ledger>)
    requires db.ledger == map[] && DistinctVersions(FirstOfEachName(files))
    modifies db
    ensures |ledgers| == |calls| + 1 && ledgers[|calls|] == db.ledger
    ensures forall ms :: IsLoad(files, text, ms) ==>
              IsPrefix(db.ledger, ms) && forall i :: 0 <= i <= |calls| ==> IsPrefix(ledgers[i], ms)
  {
    ledgers := [db.ledger];
    for i := 0 to |calls|
      invariant |ledgers| == i + 1 && ledgers[i] == db.ledger
      invariant forall ms :: IsLoad(files, text, ms) ==> History(ms, ledgers)
    {
      ghost var l := db.ledger;
      ghost var loaded, done, tail, top;
      var err;
      if calls[i].Up? {
        err, loaded, done, tail := Migrate(db, files, text);
      } else {
        err, loaded, top, done := Rollback(db, files, text);
      }
      forall ms | IsLoad(files, text, ms) ensures History(ms, ledgers + [db.ledger]) {
        LoadsAgree(files, text, ms, loaded);
        assert calls[i].Up? ==> Migrated(ms, l, db.ledger, done);
        Longer(ms, ledgers, db.ledger);
      }
      ledgers := ledgers + [db.ledger];
    }
    forall ms, i | IsLoad(files, text, ms) && 0 <= i <= |calls| ensures IsPrefix(ledgers[i], ms) {
      assert ledgers[..i + 1][i] == ledgers[i];
      ShorterHistory(ms, ledgers, i);
      var n := AlwaysPrefix(ms, ledgers[..i + 1]);
    }
  }

  lemma Longer(ms: seq<Migration>, ledgers: seq<Ledger>, l: Ledger)
    requires History(ms, ledgers) && Call(ms, ledgers[|ledgers| - 1], l)
    ensures History(ms, ledgers + [l])
  {
    var more := ledgers + [l];
    forall i | 0 <= i < |more| - 1 ensures Call(ms, more[i], more[i + 1]) {
      if i < |ledgers| - 1 {
        assert Call(ms, ledgers[i], ledgers[i + 1]);
      }
    }
  }

  lemma ShorterHistory(ms: seq<Migration>, ledgers: seq<Ledger>, i: nat)
    requires History(ms, ledgers) && i < |ledgers|
    ensures History(ms, ledgers[..i + 1])
  {
    var some := ledgers[..i + 1];
    forall j | 0 <= j < |some| - 1 ensures Call(ms, some[j], some[j + 1]) {
      assert Call(ms, ledgers[j], ledgers[j + 1]);
    }
  }

  // ---------------------------------------------------------------------
  // Repeating a successful Migrate
  // ---------------------------------------------------------------------

  lemma {:induction false} AllRecorded(l: Ledger, ms: seq<Migration>)
    ensures forall m :: m in ms ==> m.version in Record(l, Todo(l, ms))
    ensures forall v :: v in l ==> v in Record(l, Todo(l, ms))
    decreases |ms|
  {
    if ms != [] {
      var m, rest := ms[0], ms[1..];
      var l' := if m.version in l then l else l[m.version := m.name];
      AllRecorded(l', rest);
      assert m.version !in l ==> Todo(l, ms)[0] == m && Todo(l, ms)[1..] == Todo(l', rest);
      assert forall x :: x in ms ==> x == m || x in rest;
    }
  }

  lemma {:induction false} NothingTodo(l: Ledger, ms: seq<Migration>)
    requires forall m :: m in ms ==> m.version in l
    ensures Todo(l, ms) == []
    decreases |ms|
  {
    if ms != [] {
      assert ms[0] in ms;
      NothingTodo(l, ms[1..]);
    }
  }

  lemma Complete(l: Ledger, l': Ledger, ms: seq<Migration>, done: nat)
    requires Migrated(ms, l, l', done) && done == |Todo(l, ms)|
    ensures Todo(l', ms) == [] && forall m :: m in ms ==> m.version in l'
  {
    assert Todo(l, ms)[..done] == Todo(l, ms);
    AllRecorded(l, ms);
    NothingTodo(l', ms);
  }

  /** After a successful Migrate every version is recorded, and another Migrate
      executes nothing and records nothing, whether or not it succeeds itself. If
      no operation fails and every file can be read, both succeed. */
  method MigrateTwice(db: Database, files: seq<UpFile>, text: (UpFile, bool) -> Option<string>)
    returns (first: bool, second: bool, ghost executed: seq<string>, ghost ledger: Ledger)
    requires DistinctVersions(FirstOfEachName(files))
    modifies db
    ensures !first ==> db.executed == executed && db.ledger == ledger
    ensures !first ==> forall f :: f in FirstOfEachName(files) ==> f.version in ledger
    ensures (forall t: nat :: db.io(t) == Ok) && !Unreadable(files, text) ==> !first && !second
  {
    ghost var l, c := db.ledger, db.clock;
    ghost var ms, ms', done, tail;
    first, ms, done, tail := Migrate(db, files, text);
    executed, ledger := db.executed, db.ledger;
    ghost var c1 := db.clock;
    if !first {
      Complete(l, ledger, ms, done);
      forall f | f in FirstOfEachName(files) ensures f.version in ledger {
        var m := Migration(f.version, f.name, text(f, true).value, text(f, false).value);
        assert MadeFrom(f, text, m) && m in ms;
      }
    }
    second, ms', done, tail := Migrate(db, files, text);
    if !first {
      LoadsAgree(files, text, ms, ms');
    }
    if forall t: nat :: db.io(t) == Ok {
      NoFaults(db, c);
      NoFaults(db, c1);
      NoFaults(db, db.clock);
    }
  }

  // ---------------------------------------------------------------------
  // The order of the list
  // ---------------------------------------------------------------------

  ghost predicate Distinct(ms: seq<Migration>) {
    forall i, j :: 0 <= i < j < |ms| ==> ms[i].version != ms[j].version
  }

  /** What RunMigrations applies from a list without repetitions. */
  lemma {:induction false} TodoIsRest(l: Ledger, ms: seq<Migration>)
    requires Distinct(ms)
    ensures Distinct(Todo(l, ms))
    ensures forall m :: m in Todo(l, ms) <==> m in ms && m.version !in l
    decreases |ms|
  {
    if ms != [] {
      var first, rest := ms[0], ms[1..];
      var l' := if first.version in l then l else l[first.version := first.name];
      TodoIsRest(l', rest);
      assert forall m :: m in ms <==> m == first || m in rest;
      assert forall m :: m in rest ==> m.version != first.version;
      if first.version !in l {
        assert forall m :: m in Todo(l', rest) ==> m.version != first.version;
      }
    }
  }

  /** Every point at which RunMigrations on `slice` may stop leaves a prefix. */
  ghost predicate KeepsPrefix(l: Ledger, slice: seq<Migration>, sorted: seq<Migration>) {
    forall k: nat :: k <= |Todo(l, slice)| ==> IsPrefix(Record(l, Todo(l, slice)[..k]), sorted)
  }

  lemma RestKeepsPrefix(l: Ledger, todo: seq<Migration>, sorted: seq<Migration>, n: nat, k: nat)
    requires Ascending(sorted) && PrefixAt(l, sorted, n) && todo == sorted[n..] && k <= |todo|
    ensures PrefixAt(Record(l, todo[..k]), sorted, n + k)
  {
    RecordKeys(l, todo, k);
    VersionsSplit(sorted, n, k);
  }

  /** A prefix grows to a prefix by a new version only if that is the next one. */
  lemma NextVersion(sorted: seq<Migration>, n: nat, v: int, n': nat)
    requires Ascending(sorted) && n <= |sorted| && n' <= |sorted| && v !in Versions(sorted, n)
    requires Versions(sorted, n') == Versions(sorted, n) + {v}
    ensures n' == n + 1 && v == sorted[n].version
  {
    forall i | 0 <= i < |sorted|
      ensures sorted[i].version in Versions(sorted, n) <==> i < n
      ensures sorted[i].version in Versions(sorted, n') <==> i < n'
    {
    }
    assert v in Versions(sorted, n');
    var k :| 0 <= k < n' && sorted[k].version == v;
    forall j | n <= j < n' ensures sorted[j].version == v && j == k {
      assert sorted[j].version in Versions(sorted, n');
    }
    assert sorted[n].version == v && sorted[n' - 1].version == v;
  }

  lemma {:induction false} SameVersions(a: seq<Migration>, b: seq<Migration>, n: nat)
    requires n <= |a| && n <= |b| && forall k :: 0 <= k < n ==> a[k].version == b[k].version
    ensures Versions(a, n) == Versions(b, n)
    decreases n
  {
    if n > 0 {
      SameVersions(a, b, n - 1);
      assert Versions(a, n) == Versions(a, n - 1) + {a[n - 1].version};
      assert Versions(b, n) == Versions(b, n - 1) + {b[n - 1].version};
    }
  }

  lemma PartVersions(todo: seq<Migration>, sorted: seq<Migration>, n: nat, k: nat)
    requires k < |todo| && n + k <= |sorted| && todo[..k] == sorted[n..n + k]
    ensures Versions(sorted, n) + Versions(todo, k + 1) == Versions(sorted, n + k) + {todo[k].version}
    ensures Distinct(todo) && todo[k].version !in Versions(sorted, n) ==> todo[k].version !in Versions(sorted, n + k)
  {
    assert forall i :: 0 <= i < k ==> todo[..k][i] == todo[i] && sorted[n..n + k][i] == sorted[n..][i];
    SameVersions(todo, sorted[n..], k);
    VersionsSplit(sorted, n, k);
    assert Versions(todo, k + 1) == Versions(todo, k) + {todo[k].version};
  }

  lemma NextInOrder(l: Ledger, todo: seq<Migration>, sorted: seq<Migration>, n: nat, k: nat)
    requires Ascending(sorted) && PrefixAt(l, sorted, n) && Distinct(todo)
    requires k < |todo| && todo[k] in sorted && todo[k].version !in l
    requires n + k <= |sorted| && todo[..k] == sorted[n..n + k] && IsPrefix(Record(l, todo[..k + 1]), sorted)
    ensures n + k < |sorted| && todo[k] == sorted[n + k]
  {
    var n' :| PrefixAt(Record(l, todo[..k + 1]), sorted, n');
    RecordKeys(l, todo, k + 1);
    PartVersions(todo, sorted, n, k);
    NextVersion(sorted, n + k, todo[k].version, n');
    SameMigration(sorted, todo[k], n + k);
  }

  lemma {:induction false} PrefixesInOrder(l: Ledger, todo: seq<Migration>, sorted: seq<Migration>, n: nat, k: nat)
    requires Ascending(sorted) && PrefixAt(l, sorted, n) && Distinct(todo) && k <= |todo|
    requires forall m :: m in todo ==> m in sorted && m.version !in l
    requires forall i: nat :: i <= |todo| ==> IsPrefix(Record(l, todo[..i]), sorted)
    ensures n + k <= |sorted| && todo[..k] == sorted[n..n + k]
    decreases k
  {
    if k > 0 {
      PrefixesInOrder(l, todo, sorted, n, k - 1);
      assert IsPrefix(Record(l, todo[..k]), sorted) && todo[k - 1] in todo;
      NextInOrder(l, todo, sorted, n, k - 1);
    }
  }

  lemma SameMigration(sorted: seq<Migration>, m: Migration, i: nat)
    requires Ascending(sorted) && m in sorted && i < |sorted| && m.version == sorted[i].version
    ensures m == sorted[i]
  {
  }

  /** RunMigrations on the migrations in any order, from any ledger that holds a
      prefix: every stopping point leaves a prefix if and only if the unrecorded
      migrations stand in the list in ascending order, that is, exactly if they
      are applied as the ascending list has them. */
  lemma PrefixIffOrdered(l: Ledger, slice: seq<Migration>, sorted: seq<Migration>, n: nat)
    requires Ascending(sorted) && PrefixAt(l, sorted, n) && multiset(slice) == multiset(sorted)
    ensures KeepsPrefix(l, slice, sorted) <==> Todo(l, slice) == sorted[n..]
    ensures KeepsPrefix(l, slice, sorted) <==> Ascending(Todo(l, slice))
  {
    var todo := Todo(l, slice);
    PermutationIsDistinct(slice, sorted);
    TodoIsRest(l, slice);
    SameMembers(slice, sorted);
    RestMembers(l, sorted, n);
    if Ascending(todo) {
      AscendingIsUnique(todo, sorted[n..]);
    }
    if todo == sorted[n..] {
      forall k: nat | k <= |todo| ensures IsPrefix(Record(l, todo[..k]), sorted) {
        RestKeepsPrefix(l, todo, sorted, n, k);
      }
    }
    if KeepsPrefix(l, slice, sorted) {
      PrefixesInOrder(l, todo, sorted, n, |todo|);
      assert todo[..|todo|] == todo;
      AscendingIsUnique(todo, sorted[n..]);
    }
  }

  lemma RestMembers(l: Ledger, sorted: seq<Migration>, n: nat)
    requires Ascending(sorted) && PrefixAt(l, sorted, n)
    ensures Ascending(sorted[n..])
    ensures forall m :: m in sorted[n..] <==> m in sorted && m.version !in l
  {
    forall m ensures m in sorted[n..] <==> m in sorted && m.version !in l {
      if m in sorted {
        var i :| 0 <= i < |sorted| && sorted[i] == m;
        assert i < n ==> m.version in Versions(sorted, n);
        assert i >= n ==> sorted[n..][i - n] == m;
      }
      if m in sorted[n..] {
        var i :| 0 <= i < |sorted[n..]| && sorted[n..][i] == m;
        assert sorted[n + i] == m;
      }
    }
  }

  lemma PermutationIsDistinct(slice: seq<Migration>, sorted: seq<Migration>)
    requires Ascending(sorted) && multiset(slice) == multiset(sorted)
    ensures Distinct(slice)
  {
    SameMembers(slice, sorted);
    forall i, j | 0 <= i < j < |slice| ensures slice[i].version != slice[j].version {
      assert slice[i] in sorted && slice[j] in sorted;
      var p :| 0 <= p < |sorted| && sorted[p] == slice[i];
      var q :| 0 <= q < |sorted| && sorted[q] == slice[j];
      if p == q {
        CountsTwice(slice, i, j);
        CountsOnce(sorted, p);
      }
    }
  }

  /** RollbackMigration leaves the caller's list descending. Given that list,
      RunMigrations keeps the prefix at every stopping point if and only if at
      most one migration is missing. */
  lemma DescendingIff(l: Ledger, slice: seq<Migration>, sorted: seq<Migration>, n: nat)
    requires Ascending(sorted) && PrefixAt(l, sorted, n) && multiset(slice) == multiset(sorted)
    requires SortedBy(slice, true)
    ensures KeepsPrefix(l, slice, sorted) <==> |sorted| - n <= 1
  {
    PrefixIffOrdered(l, slice, sorted, n);
    PermutationIsDistinct(slice, sorted);
    TodoDescends(l, slice);
    TodoIsRest(l, slice);
    SameMembers(slice, sorted);
    RestMembers(l, sorted, n);
    var todo, rest := Todo(l, slice), sorted[n..];
    DescendingAscends(todo);
    if |todo| >= 2 {
      TwoMembers(todo, rest);
    }
    if |rest| >= 2 {
      TwoMembers(rest, todo);
    }
  }

  lemma DescendingAscends(ms: seq<Migration>)
    requires SortedBy(ms, true)
    ensures Ascending(ms) <==> |ms| <= 1
  {
    if |ms| >= 2 {
      assert InOrder(ms[0], ms[1], true);
    }
  }

  lemma TwoMembers(a: seq<Migration>, b: seq<Migration>)
    requires |a| >= 2 && Distinct(a) && forall m :: m in a ==> m in b
    ensures |b| >= 2
  {
    assert a[0] in b && a[1] in b && a[0].version != a[1].version;
  }

  lemma {:induction false} TodoDescends(l: Ledger, slice: seq<Migration>)
    requires SortedBy(slice, true) && Distinct(slice)
    ensures SortedBy(Todo(l, slice), true)
    decreases |slice|
  {
    if slice != [] {
      var first, rest := slice[0], slice[1..];
      var l' := if first.version in l then l else l[first.version := first.name];
      TodoDescends(l', rest);
      TodoIsRest(l', rest);
      assert forall m :: m in rest ==> InOrder(first, m, true);
      if first.version !in l {
        var todo := Todo(l', rest);
        forall j | 0 <= j < |todo| ensures InOrder(first, todo[j], true) {
          assert todo[j] in rest;
        }
      }
    }
  }
}

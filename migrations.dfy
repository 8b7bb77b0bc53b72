// Database start-up: the migration_history table, the base schema file
// applied when the history lacks it, and every other .sql file of the
// migrations directory applied once, in name order, each in its own
// transaction. The database is a class whose fields are the history table
// and the log of scripts that committed; reading files, the driver and the
// clock are outcomes handed in as parameters.

module Migrations {
  import opened Common
  import Ordering

  const SchemaFile: string := "0001_schema.sql"
  const NoDirectory: string := "директория с миграциями не найдена: internal/db/migrations"
  const NoConnection: string := "ошибка соединения с базой данных"
  const HistoryTableFailed: string := "ошибка при создании таблицы migration_history"
  const DirectoryUnreadable: string := "ошибка при чтении директории миграций"
  const HistoryUnreadable: string := "ошибка при получении списка примененных миграций"
  const HistoryRowUnreadable: string := "ошибка при чтении данных о миграции"

  /** An entry of the migrations directory. */
  datatype DirEntry = DirEntry(name: string, isDir: bool)

  /** A migration file and whether the history records it. */
  datatype MigrationState = MigrationState(filename: string, applied: bool)

  // ---------------------------------------------------------------------
  // Which files are migrations

  /** The position of the last '.' of a file name, or -1. */
  function LastDot(name: string): (i: int)
    ensures -1 <= i < |name|
    ensures i >= 0 ==> name[i] == '.'
    ensures forall k :: i < k < |name| ==> name[k] != '.'
  {
    if |name| == 0 then -1
    else if name[|name| - 1] == '.' then |name| - 1
    else LastDot(name[..|name| - 1])
  }

  /** filepath.Ext of a directory entry's name: from the last dot on, or
      "" when there is none. */
  function Ext(name: string): string
  {
    var i := LastDot(name);
    if i < 0 then "" else name[i..]
  }

  /** A name has the extension ".sql" exactly when it ends in ".sql". */
  lemma SqlExtension(name: string)
    ensures Ext(name) == ".sql" <==> |name| >= 4 && name[|name| - 4..] == ".sql"
  {
    var i := LastDot(name);
    if |name| >= 4 && name[|name| - 4..] == ".sql" {
      var d := |name| - 4;
      assert name[d] == name[d..][0] == '.';
      forall k | d < k < |name|
        ensures name[k] != '.'
      {
        assert name[k] == name[d..][k - d];
      }
      assert i == d;
    }
    if Ext(name) == ".sql" {
      assert |name[i..]| == 4;
    }
  }

  /** The entries the start-up applies: files, not directories, whose
      extension is ".sql". */
  predicate IsMigrationFile(e: DirEntry)
  {
    !e.isDir && Ext(e.name) == ".sql"
  }

  /** The names of the migration files, in directory order. */
  function SqlNames(entries: seq<DirEntry>): (names: seq<string>)
    ensures forall n :: n in names ==> exists k :: 0 <= k < |entries| && IsMigrationFile(entries[k]) && entries[k].name == n
    ensures forall k :: 0 <= k < |entries| && IsMigrationFile(entries[k]) ==> entries[k].name in names
  {
    if |entries| == 0 then []
    else
      var init := entries[..|entries| - 1];
      var last := entries[|entries| - 1];
      assert forall k :: 0 <= k < |init| ==> init[k] == entries[k];
      SqlNames(init) + (if IsMigrationFile(last) then [last.name] else [])
  }

  /** The sort key of a file name: the name itself. */
  function Name(s: string): string
  {
    s
  }

  /** The migration files in name order (sort.Strings compares UTF-8
      bytes, which orders strings as their code points do). */
  function Files(entries: seq<DirEntry>): seq<string>
  {
    Ordering.SortBy(SqlNames(entries), Name)
  }

  /** The migration files come sorted, and they are exactly the directory's
      .sql files. */
  lemma FilesAreTheSqlFiles(entries: seq<DirEntry>)
    ensures Ordering.SortedBy(Files(entries), Name)
    ensures forall n :: n in Files(entries) <==> exists k :: 0 <= k < |entries| && IsMigrationFile(entries[k]) && entries[k].name == n
  {
    Ordering.SortBySorted(SqlNames(entries), Name);
    forall n
      ensures n in Files(entries) <==> n in SqlNames(entries)
    {
      assert n in Files(entries) <==> n in multiset(Files(entries));
      assert n in SqlNames(entries) <==> n in multiset(SqlNames(entries));
    }
  }

  /** getMigrationStates' result: each file, applied when the history
      holds it. */
  function StatesOf(files: seq<string>, applied: set<string>): (states: seq<MigrationState>)
    ensures |states| == |files|
  {
    seq(|files|, i requires 0 <= i < |files| => MigrationState(files[i], files[i] in applied))
  }

  /** The files the apply loop runs: those not applied, in order. */
  function Pending(states: seq<MigrationState>): seq<string>
  {
    if |states| == 0 then []
    else
      var last := states[|states| - 1];
      Pending(states[..|states| - 1]) + (if last.applied then [] else [last.filename])
  }

  /** A file is pending exactly when it is a migration file the history
      does not hold. */
  lemma {:induction false} PendingIsUnapplied(files: seq<string>, applied: set<string>)
    ensures forall f :: f in Pending(StatesOf(files, applied)) <==> f in files && f !in applied
  {
    if |files| > 0 {
      var init := files[..|files| - 1];
      assert StatesOf(files, applied)[..|files| - 1] == StatesOf(init, applied);
      PendingIsUnapplied(init, applied);
      assert files == init + [files[|files| - 1]];
    }
  }

  /** Pending files keep the order of the files they come from, so sorted
      files are applied in name order. */
  lemma {:induction false} PendingSorted(files: seq<string>, applied: set<string>)
    requires Ordering.SortedBy(files, Name)
    ensures Ordering.SortedBy(Pending(StatesOf(files, applied)), Name)
  {
    if |files| > 0 {
      var init := files[..|files| - 1];
      var last := files[|files| - 1];
      assert StatesOf(files, applied)[..|files| - 1] == StatesOf(init, applied);
      assert Ordering.SortedBy(init, Name) by {
        forall i, j | 0 <= i < j < |init|
          ensures Ordering.StrLe(Name(init[i]), Name(init[j]))
        {
          assert init[i] == files[i] && init[j] == files[j];
        }
      }
      PendingSorted(init, applied);
      PendingIsUnapplied(init, applied);
      var p := Pending(StatesOf(init, applied));
      if last !in applied {
        var r := p + [last];
        forall i, j | 0 <= i < j < |r|
          ensures Ordering.StrLe(Name(r[i]), Name(r[j]))
        {
          if j == |p| {
            assert r[i] == p[i] && p[i] in init;
            var k :| 0 <= k < |init| && init[k] == p[i];
            assert files[k] == p[i] && files[|files| - 1] == last;
          } else {
            assert r[i] == p[i] && r[j] == p[j];
          }
        }
      }
    }
  }

  // ---------------------------------------------------------------------
  // The history table

  /** The history after recording a file: ON CONFLICT (filename) DO
      NOTHING, so a file already recorded is not added twice. */
  function Record(history: seq<string>, f: string): seq<string>
  {
    if f in history then history else history + [f]
  }

  /** The history after recording files one after the other. */
  function RecordAll(history: seq<string>, fs: seq<string>): seq<string>
    decreases |fs|
  {
    if |fs| == 0 then history
    else RecordAll(Record(history, fs[0]), fs[1..])
  }

  /** No file name appears twice in the history (the UNIQUE constraint). */
  predicate Unique(history: seq<string>)
  {
    forall i, j :: 0 <= i < j < |history| ==> history[i] != history[j]
  }

  /** Recording files keeps the history unique and adds exactly them. */
  lemma {:induction false} RecordAllAdds(history: seq<string>, fs: seq<string>)
    requires Unique(history)
    ensures Unique(RecordAll(history, fs))
    ensures forall f :: f in RecordAll(history, fs) <==> f in history || f in fs
    decreases |fs|
  {
    if |fs| > 0 {
      var h := Record(history, fs[0]);
      assert Unique(h);
      RecordAllAdds(h, fs[1..]);
      assert fs == [fs[0]] + fs[1..];
    }
  }

  /** Recording files that are all new appends them in order. */
  lemma {:induction false} RecordAllAppends(history: seq<string>, fs: seq<string>, f: string)
    requires f !in history && f !in fs
    ensures RecordAll(history, fs + [f]) == RecordAll(history, fs) + [f]
    decreases |fs|
  {
    if |fs| == 0 {
      assert [f][1..] == [];
    } else {
      assert (fs + [f])[0] == fs[0] && (fs + [f])[1..] == fs[1..] + [f];
      RecordAllAppends(Record(history, fs[0]), fs[1..], f);
    }
  }

  /** The filenames a history holds. */
  function AppliedSet(history: seq<string>): set<string>
  {
    set h | h in history
  }

  /** After the pending files are recorded, every migration file is in the
      history, so a second start-up finds nothing to apply. */
  lemma SecondRunIdle(files: seq<string>, history: seq<string>)
    requires Unique(history)
    ensures forall f :: f in files ==> f in RecordAll(history, Pending(StatesOf(files, AppliedSet(history))))
    ensures Pending(StatesOf(files, AppliedSet(RecordAll(history, Pending(StatesOf(files, AppliedSet(history))))))) == []
  {
    var pending := Pending(StatesOf(files, AppliedSet(history)));
    var after := RecordAll(history, pending);
    PendingIsUnapplied(files, AppliedSet(history));
    RecordAllAdds(history, pending);
    NothingPending(files, AppliedSet(after));
  }

  /** When every file is applied, nothing is pending. */
  lemma {:induction false} NothingPending(files: seq<string>, applied: set<string>)
    requires forall f :: f in files ==> f in applied
    ensures Pending(StatesOf(files, applied)) == []
  {
    if |files| > 0 {
      var init := files[..|files| - 1];
      assert StatesOf(files, applied)[..|files| - 1] == StatesOf(init, applied);
      assert forall f :: f in init ==> f in files;
      NothingPending(init, applied);
      assert files[|files| - 1] in files;
    }
  }

  /** A start-up that applies every pending file leaves every migration
      file of the directory recorded and nothing pending. */
  lemma RunCompletes(entries: seq<DirEntry>, before: seq<string>)
    requires Unique(before)
    ensures var after := RecordAll(before, Pending(StatesOf(Files(entries), AppliedSet(before))));
      && (forall k :: 0 <= k < |entries| && IsMigrationFile(entries[k]) ==> entries[k].name in after)
      && Pending(StatesOf(Files(entries), AppliedSet(after))) == []
  {
    SecondRunIdle(Files(entries), before);
    FilesAreTheSqlFiles(entries);
  }

  /** The step of a migration's transaction that fails. */
  datatype Step = ReadFile | Begin | Execute | WriteHistory | Commit

  /** The message of a failed migration, up to the wrapped driver error. */
  function MigrationError(step: Step, filename: string): string
  {
    match step
    case ReadFile => "ошибка при чтении файла " + filename
    case Begin => "ошибка при начале транзакции для миграции " + filename
    case Execute => "ошибка при выполнении миграции " + filename
    case WriteHistory => "ошибка при записи информации о миграции " + filename
    case Commit => "ошибка при фиксации транзакции для миграции " + filename
  }

  /** The message of a failed base schema, up to the wrapped driver error. */
  function SchemaError(step: Step): string
  {
    match step
    case ReadFile => "ошибка при чтении файла 0001_schema.sql"
    case Begin => "ошибка при начале транзакции для схемы"
    case Execute => "ошибка при выполнении схемы"
    case WriteHistory => "ошибка при записи информации о схеме"
    case Commit => "ошибка при фиксации транзакции для схемы"
  }

  /** How many pending files run before the first one that fails. */
  function Applicable(pending: seq<string>, failing: map<string, Step>): (n: nat)
    ensures n <= |pending|
    ensures forall k :: 0 <= k < n ==> pending[k] !in failing
    ensures n < |pending| ==> pending[n] in failing
  {
    if |pending| == 0 || pending[0] in failing then 0
    else
      var n := Applicable(pending[1..], failing);
      assert forall k :: 1 <= k < n + 1 ==> pending[k] == pending[1..][k - 1];
      1 + n
  }

  /** How the history query answers. A missing table reads as an empty
      history; any other error, or a row that cannot be scanned, stops
      the start-up. */
  datatype HistoryQuery = Readable | TableMissing | QueryFails | ScanFails

  class Database {
    /** migration_history's filenames, in insertion order. */
    var history: seq<string>
    /** The scripts whose transactions committed, in order. */
    var executed: seq<string>

    predicate Valid()
      reads this
    {
      Unique(history)
    }

    constructor ()
      ensures Valid() && history == [] && executed == []
    {
      history := [];
      executed := [];
    }

    /** The filenames of the history table, as the query loop gathers
        them into its map. */
    function Applied(): set<string>
      reads this
    {
      AppliedSet(history)
    }

    /** applyMigration: the file's script and its history row commit
        together, or, when a step fails, the transaction is rolled back and
        nothing changes. */
    method ApplyMigration(filename: string, fails: Option<Step>) returns (r: Outcome)
      requires Valid()
      modifies this
      ensures Valid()
      ensures fails.Some? ==>
        r == Fail(MigrationError(fails.value, filename)) && history == old(history) && executed == old(executed)
      ensures fails.None? ==>
        r == Done && history == Record(old(history), filename) && executed == old(executed) + [filename]
    {
      if fails.Some? {
        return Fail(MigrationError(fails.value, filename));
      }
      history := Record(history, filename);
      executed := executed + [filename];
      return Done;
    }

    /** ensureBasicStructureExists: creates the history table if needed,
        and when the history lacks the base schema, or counting it fails,
        applies 0001_schema.sql and records it in one transaction. */
    method EnsureBasicStructure(createFails: bool, countFails: bool, schemaFails: Option<Step>) returns (r: Outcome)
      requires Valid()
      modifies this
      ensures Valid()
      ensures createFails ==> r == Fail(HistoryTableFailed)
      ensures !createFails && !countFails && SchemaFile in old(history) ==> r == Done
      ensures r.Done? <==> !createFails && (schemaFails.None? || (!countFails && SchemaFile in old(history)))
      ensures r.Fail? && !createFails ==> r == Fail(SchemaError(schemaFails.value))
      ensures r.Fail? ==> history == old(history) && executed == old(executed)
      ensures r.Done? && (countFails || SchemaFile !in old(history)) ==>
        history == Record(old(history), SchemaFile) && executed == old(executed) + [SchemaFile]
      ensures r.Done? && !countFails && SchemaFile in old(history) ==>
        history == old(history) && executed == old(executed)
      ensures r.Done? ==> SchemaFile in history
    {
      if createFails {
        return Fail(HistoryTableFailed);
      }
      var count := if SchemaFile in history then 1 else 0;
      if countFails || count == 0 {
        if schemaFails.Some? {
          return Fail(SchemaError(schemaFails.value));
        }
        history := Record(history, SchemaFile);
        executed := executed + [SchemaFile];
      }
      return Done;
    }

    /** The loop of getMigrationStates over the history rows: the set of
        recorded filenames. */
    method ReadHistory() returns (applied: set<string>)
      ensures applied == Applied()
    {
      applied := {};
      for i := 0 to |history|
        invariant applied == set h | h in history[..i]
      {
        assert history[..i + 1] == history[..i] + [history[i]];
        applied := applied + {history[i]};
      }
      assert history[..|history|] == history;
    }

    /** getMigrationStates: the .sql files of the directory in name order,
        each marked applied when the history records it. */
    method GetMigrationStates(entries: Option<seq<DirEntry>>, query: HistoryQuery)
      returns (r: Result<seq<MigrationState>>)
      ensures entries.None? ==> r == Failure(DirectoryUnreadable)
      ensures entries.Some? && query == QueryFails ==> r == Failure(HistoryUnreadable)
      ensures entries.Some? && query == ScanFails ==> r == Failure(HistoryRowUnreadable)
      ensures r.Success? <==> entries.Some? && (query == Readable || query == TableMissing)
      ensures r.Success? && query == Readable ==> r.value == StatesOf(Files(entries.value), Applied())
      ensures r.Success? && query == TableMissing ==> r.value == StatesOf(Files(entries.value), {})
    {
      if entries.None? {
        return Failure(DirectoryUnreadable);
      }
      var sqlFiles: seq<string> := [];
      var dir := entries.value;
      for i := 0 to |dir|
        invariant sqlFiles == SqlNames(dir[..i])
      {
        assert dir[..i + 1][..i] == dir[..i];
        if !dir[i].isDir && Ext(dir[i].name) == ".sql" {
          sqlFiles := sqlFiles + [dir[i].name];
        }
      }
      assert dir[..|dir|] == dir;
      var files := Ordering.SortBy(sqlFiles, Name);
      var applied: set<string> := {};
      if query == QueryFails {
        return Failure(HistoryUnreadable);
      } else if query == ScanFails {
        return Failure(HistoryRowUnreadable);
      } else if query == Readable {
        applied := ReadHistory();
      }
      var result: seq<MigrationState> := [];
      for i := 0 to |files|
        invariant result == StatesOf(files[..i], applied)
      {
        result := result + [MigrationState(files[i], files[i] in applied)];
      }
      assert files[..|files|] == files;
      return Success(result);
    }

    /** The apply loop of InitDatabase: the pending files run in order, and
        the first that fails stops the loop, with the files before it
        applied and recorded. `failing` names the files that fail and at
        which step. */
    method ApplyPending(states: seq<MigrationState>, failing: map<string, Step>) returns (r: Outcome)
      requires Valid()
      modifies this
      ensures Valid()
      ensures var n := Applicable(Pending(states), failing);
        && executed == old(executed) + Pending(states)[..n]
        && history == RecordAll(old(history), Pending(states)[..n])
        && (r == Done <==> n == |Pending(states)|)
        && (r.Fail? ==> r == Fail(MigrationError(failing[Pending(states)[n]], Pending(states)[n])))
    {
      r := Done;
      ghost var pending: seq<string> := [];
      for i := 0 to |states|
        invariant Valid()
        invariant pending == Pending(states[..i])
        invariant Applicable(pending, failing) == |pending|
        invariant executed == old(executed) + pending
        invariant history == RecordAll(old(history), pending)
      {
        assert states[..i + 1][..i] == states[..i];
        if !states[i].applied {
          var f := states[i].filename;
          var step := if f in failing then Some(failing[f]) else None;
          r := ApplyMigration(f, step);
          if r.Fail? {
            StopsAt(states, i, pending, failing);
            return;
          }
          RecordAllStep(old(history), pending, f);
          ApplicableGrows(pending, f, failing);
          pending := pending + [f];
        }
      }
      assert states[..|states|] == states;
      assert Pending(states)[..|pending|] == pending;
      return Done;
    }

    /** InitDatabase: the connection, the directory, the base structure and
        the states are checked in that order, each failure ending the
        start-up; then the pending migrations are applied. */
    method InitDatabase(pingFails: bool, dirExists: bool, createFails: bool, countFails: bool,
                        schemaFails: Option<Step>, entries: Option<seq<DirEntry>>, query: HistoryQuery,
                        failing: map<string, Step>)
      returns (r: Outcome)
      requires Valid()
      modifies this
      ensures Valid()
      ensures pingFails ==> r == Fail(NoConnection) && history == old(history) && executed == old(executed)
      ensures !pingFails && !dirExists ==> r == Fail(NoDirectory) && history == old(history) && executed == old(executed)
      ensures r.Done? ==> SchemaFile in history
      ensures r.Done? && query == Readable ==> entries.Some? && forall k :: 0 <= k < |entries.value| && IsMigrationFile(entries.value[k]) ==> entries.value[k].name in history
      ensures r.Done? && query == Readable ==> entries.Some? && Pending(StatesOf(Files(entries.value), Applied())) == []
    {
      if pingFails {
        return Fail(NoConnection);
      }
      if !dirExists {
        return Fail(NoDirectory);
      }
      r := EnsureBasicStructure(createFails, countFails, schemaFails);
      if r.Fail? {
        return;
      }
      var states := GetMigrationStates(entries, query);
      if states.Failure? {
        return Fail(states.msg);
      }
      ghost var before := history;
      r := ApplyPending(states.value, failing);
      RecordAllAdds(before, Pending(states.value));
      assert Pending(states.value)[..|Pending(states.value)|] == Pending(states.value);
      if r.Done? && query == Readable {
        RunCompletes(entries.value, before);
      }
    }
  }

  /** The pending files of a prefix extended by one more state. */
  lemma PendingExtends(states: seq<MigrationState>, i: nat)
    requires 0 < i <= |states|
    ensures Pending(states[..i]) == Pending(states[..i - 1]) + (if states[i - 1].applied then [] else [states[i - 1].filename])
  {
    assert states[..i][..i - 1] == states[..i - 1];
  }

  /** The pending files of all states split at a state that is not yet
      applied: those before it, its file, and those after it. */
  lemma PendingSplit(states: seq<MigrationState>, i: nat)
    requires i < |states| && !states[i].applied
    ensures Pending(states) == Pending(states[..i]) + [states[i].filename] + Pending(states[i + 1..])
  {
    PendingExtends(states, i + 1);
    PendingAppend(states[..i + 1], states[i + 1..]);
    assert states[..i + 1] + states[i + 1..] == states;
  }

  /** When the pending file of state i is the first that fails, the loop
      stops there: the files before it are the ones Applicable counts. */
  lemma StopsAt(states: seq<MigrationState>, i: nat, pending: seq<string>, failing: map<string, Step>)
    requires i < |states| && !states[i].applied && states[i].filename in failing
    requires pending == Pending(states[..i]) && Applicable(pending, failing) == |pending|
    ensures var n := Applicable(Pending(states), failing);
      && n == |pending| < |Pending(states)|
      && Pending(states)[..n] == pending
      && Pending(states)[n] == states[i].filename
  {
    var f := states[i].filename;
    var all := Pending(states);
    PendingSplit(states, i);
    ApplicableStops(pending, f, states[i + 1..], failing);
    assert all[..|pending|] == pending;
  }

  /** Pending distributes over concatenation: the files of two stretches
      of states run one stretch after the other. */
  lemma {:induction false} PendingAppend(a: seq<MigrationState>, b: seq<MigrationState>)
    ensures Pending(a + b) == Pending(a) + Pending(b)
    decreases |b|
  {
    if |b| == 0 {
      assert a + b == a;
    } else {
      assert (a + b)[..|a + b| - 1] == a + b[..|b| - 1];
      PendingAppend(a, b[..|b| - 1]);
    }
  }

  lemma RecordAllStep(history: seq<string>, fs: seq<string>, f: string)
    ensures RecordAll(history, fs + [f]) == Record(RecordAll(history, fs), f)
  {
    RecordAllSnoc(history, fs, f);
  }

  lemma {:induction false} RecordAllSnoc(history: seq<string>, fs: seq<string>, f: string)
    ensures RecordAll(history, fs + [f]) == Record(RecordAll(history, fs), f)
    decreases |fs|
  {
    if |fs| == 0 {
      assert [f][1..] == [];
    } else {
      assert (fs + [f])[0] == fs[0] && (fs + [f])[1..] == fs[1..] + [f];
      RecordAllSnoc(Record(history, fs[0]), fs[1..], f);
    }
  }

  lemma {:induction false} ApplicableGrows(fs: seq<string>, f: string, failing: map<string, Step>)
    requires Applicable(fs, failing) == |fs| && f !in failing
    ensures Applicable(fs + [f], failing) == |fs| + 1
  {
    if |fs| > 0 {
      assert (fs + [f])[1..] == fs[1..] + [f];
      assert fs[1..] == fs[1..];
      ApplicableGrows(fs[1..], f, failing);
    } else {
      assert [f][1..] == [];
    }
  }

  lemma {:induction false} ApplicableStops(fs: seq<string>, f: string, rest: seq<MigrationState>, failing: map<string, Step>)
    requires Applicable(fs, failing) == |fs| && f in failing
    ensures Applicable(fs + [f] + Pending(rest), failing) == |fs|
  {
    if |fs| > 0 {
      assert (fs + [f] + Pending(rest))[1..] == fs[1..] + [f] + Pending(rest);
      ApplicableStops(fs[1..], f, rest, failing);
    }
  }
}

/** ADD COLUMN migrations run against a cached view of each table's columns. */
module AddColumn {

  /** SQLite compares identifiers without regard to the case of ASCII letters. */
  function FoldedChar(c: char): (folded: char) {
    if 'A' <= c <= 'Z' then (c as int + 32) as char else c
  }

  function Folded(name: string): (folded: string) {
    seq(|name|, i requires 0 <= i < |name| => FoldedChar(name[i]))
  }

  /** Two names are the same to SQLite exactly when they differ at most in the case of ASCII letters. */
  lemma SameFoldIff(a: string, b: string)
    ensures Folded(a) == Folded(b) <==>
              |a| == |b|
              && forall i :: 0 <= i < |a| ==>
                   || a[i] == b[i]
                   || ('a' <= a[i] <= 'z' && b[i] as int + 32 == a[i] as int)
                   || ('A' <= a[i] <= 'Z' && a[i] as int + 32 == b[i] as int)
  {
    if Folded(a) == Folded(b) {
      assert |Folded(a)| == |Folded(b)|;
      forall i | 0 <= i < |a|
        ensures FoldedChar(a[i]) == FoldedChar(b[i])
      {
        assert Folded(a)[i] == Folded(b)[i];
      }
    }
  }

  datatype Statement = AddColumn(table: string, column: string)

  /** Existing tables by folded name, each with its columns as declared. */
  type Tables = map<string, set<string>>

  type Cache = map<string, set<string>>

  function Columns(tables: Tables, table: string): (columns: set<string>) {
    if Folded(table) in tables then tables[Folded(table)] else {}
  }

  /** The table already has a column of that name, however spelled. */
  ghost predicate Clashes(tables: Tables, s: Statement) {
    exists c :: c in Columns(tables, s.table) && Folded(c) == Folded(s.column)
  }

  function WithColumn(tables: Tables, s: Statement): (after: Tables) {
    tables[Folded(s.table) := Columns(tables, s.table) + {s.column}]
  }

  lemma ColumnsOfWith(tables: Tables, s: Statement, table: string)
    ensures Columns(WithColumn(tables, s), table)
            == Columns(tables, table) + if Folded(s.table) == Folded(table) then {s.column} else {}
  {
  }

  class Database {
    var tables: Tables

    constructor (tables: Tables)
      ensures this.tables == tables
    {
      this.tables := tables;
    }

    method ListColumnNames(table: string) returns (columns: set<string>)
      ensures columns == Columns(tables, table)
    {
      columns := Columns(tables, table);
    }

    /** Fails without effect on an unknown table, on a column that exists already, or for a reason of its own. */
    method Execute(s: Statement) returns (ok: bool)
      modifies this
      ensures ok ==> Folded(s.table) in old(tables) && !Clashes(old(tables), s) && tables == WithColumn(old(tables), s)
      ensures !ok ==> tables == old(tables)
    {
      var granted: bool := *;
      var same := set c | c in Columns(tables, s.table) && Folded(c) == Folded(s.column);
      if !granted || Folded(s.table) !in tables || same != {} {
        return false;
      }
      assert forall c :: c in Columns(tables, s.table) && Folded(c) == Folded(s.column) ==> c in same;
      tables := WithColumn(tables, s);
      ok := true;
    }
  }

  // ---------------------------------------------------------------------------------------------
  // What a migration does when every statement it runs succeeds

  datatype Run = Run(tables: Tables, cache: Cache, ran: seq<Statement>)

  function Loaded(run: Run, table: string): (cache: Cache)
    ensures table in cache
  {
    if table in run.cache then run.cache else run.cache[table := Columns(run.tables, table)]
  }

  /** One statement: skipped when the cached columns have it, else run and cached. */
  function Applied(run: Run, s: Statement): (after: Run) {
    var cache := Loaded(run, s.table);
    if s.column in cache[s.table] then Run(run.tables, cache, run.ran)
    else Run(WithColumn(run.tables, s), cache[s.table := cache[s.table] + {s.column}], run.ran + [s])
  }

  function AppliedAll(tables: Tables, statements: seq<Statement>): (run: Run) {
    if statements == [] then Run(tables, map[], [])
    else Applied(AppliedAll(tables, statements[..|statements| - 1]), statements[|statements| - 1])
  }

  lemma NothingApplied(tables: Tables, statements: seq<Statement>)
    ensures AppliedAll(tables, statements[..0]) == Run(tables, map[], [])
  {
  }

  lemma AppliedNext(tables: Tables, statements: seq<Statement>, k: nat)
    requires k < |statements|
    ensures AppliedAll(tables, statements[..k + 1]) == Applied(AppliedAll(tables, statements[..k]), statements[k])
  {
    assert statements[..k + 1][..k] == statements[..k];
  }

  /** The statement the migration would run next names a column that is there already. */
  ghost predicate RunsIntoExisting(run: Run, s: Statement) {
    s.column !in Loaded(run, s.table)[s.table] && Clashes(run.tables, s)
  }

  ghost predicate NoneRunsIntoExisting(tables: Tables, statements: seq<Statement>) {
    forall i :: 0 <= i < |statements| ==> !RunsIntoExisting(AppliedAll(tables, statements[..i]), statements[i])
  }

  /** Applies the statements in order, reading each table's columns once. */
  method ApplyAddColumnStatements(db: Database, statements: seq<Statement>) returns (ok: bool, ghost done: nat)
    modifies db
    ensures done <= |statements| && db.tables == AppliedAll(old(db.tables), statements[..done]).tables
    ensures ok ==> done == |statements| && NoneRunsIntoExisting(old(db.tables), statements)
                   && forall i :: 0 <= i < |statements| ==>
                                    statements[i].column in Columns(db.tables, statements[i].table)
  {
    hide Folded, Columns, Clashes, WithColumn, AppliedAll;
    NothingApplied(db.tables, statements);
    var cache: Cache := map[];
    ghost var run := Run(db.tables, map[], []);
    done := 0;
    for k := 0 to |statements|
      invariant done == k && run == AppliedAll(old(db.tables), statements[..k])
      invariant db.tables == run.tables && cache == run.cache
      invariant forall i :: 0 <= i < k ==> !RunsIntoExisting(AppliedAll(old(db.tables), statements[..i]), statements[i])
    {
      var s := statements[k];
      AppliedNext(old(db.tables), statements, k);
      if s.table !in cache {
        var columns := db.ListColumnNames(s.table);
        cache := cache[s.table := columns];
      }
      if s.column !in cache[s.table] {
        ok := db.Execute(s);
        if !ok { return; }
        cache := cache[s.table := cache[s.table] + {s.column}];
      }
      run := Applied(run, s);
      done := k + 1;
    }
    assert statements[..|statements|] == statements;
    AllNamedArePresent(old(db.tables), statements);
    ok := true;
  }

  // ---------------------------------------------------------------------------------------------
  // The columns afterwards

  ghost predicate Below(run: Run) {
    forall t :: t in run.cache ==> run.cache[t] <= Columns(run.tables, t)
  }

  /** The cache never shows a column the table does not have. */
  lemma {:induction false} CacheIsBelow(tables: Tables, statements: seq<Statement>)
    ensures Below(AppliedAll(tables, statements))
  {
    if statements != [] {
      CacheIsBelow(tables, statements[..|statements| - 1]);
      StaysBelow(AppliedAll(tables, statements[..|statements| - 1]), statements[|statements| - 1]);
    }
  }

  lemma StaysBelow(run: Run, s: Statement)
    requires Below(run)
    ensures Below(Applied(run, s))
  {
    hide Folded, Columns, WithColumn;
    var after := Applied(run, s);
    forall t | t in after.cache
      ensures after.cache[t] <= Columns(after.tables, t)
    {
      ColumnsOfWith(run.tables, s, t);
      assert t != s.table ==> t in run.cache && after.cache[t] == run.cache[t];
      assert Loaded(run, s.table)[s.table] <= Columns(run.tables, s.table);
    }
  }

  /** The columns the statements name for a table. */
  function Named(statements: seq<Statement>, table: string): (columns: set<string>) {
    set s | s in statements && Folded(s.table) == Folded(table) :: s.column
  }

  lemma NamedOneMore(statements: seq<Statement>, s: Statement, table: string)
    ensures Named(statements + [s], table)
            == Named(statements, table) + if Folded(s.table) == Folded(table) then {s.column} else {}
  {
    hide Folded;
    assert forall x :: x in statements + [s] <==> x in statements || x == s;
  }

  /** Exactly the columns named for the table are added to those it had; no other table is touched. */
  lemma {:induction false} ColumnsAreUnion(tables: Tables, statements: seq<Statement>, table: string)
    ensures Columns(AppliedAll(tables, statements).tables, table) == Columns(tables, table) + Named(statements, table)
  {
    if statements != [] {
      hide Folded, Columns, WithColumn, Named;
      var init, last := statements[..|statements| - 1], statements[|statements| - 1];
      ColumnsAreUnion(tables, init, table);
      CacheIsBelow(tables, init);
      var run := AppliedAll(tables, init);
      assert statements == init + [last];
      NamedOneMore(init, last, table);
      ColumnsOfWith(run.tables, last, table);
      SameColumns(run.tables, last.table, table);
      assert Loaded(run, last.table)[last.table] <= Columns(run.tables, last.table);
    }
  }

  lemma SameColumns(tables: Tables, a: string, b: string)
    ensures Folded(a) == Folded(b) ==> Columns(tables, a) == Columns(tables, b)
  {
  }

  lemma AllNamedArePresent(tables: Tables, statements: seq<Statement>)
    ensures var after := AppliedAll(tables, statements).tables;
            forall i :: 0 <= i < |statements| ==> statements[i].column in Columns(after, statements[i].table)
  {
    hide Folded;
    forall i | 0 <= i < |statements|
      ensures statements[i].column in Columns(AppliedAll(tables, statements).tables, statements[i].table)
    {
      ColumnsAreUnion(tables, statements, statements[i].table);
      var s := statements[i];
      assert s in statements;
    }
  }

  /** Running a completed migration again runs no statement and changes nothing. */
  lemma {:induction false} RerunDoesNothing(tables: Tables, statements: seq<Statement>)
    requires forall i :: 0 <= i < |statements| ==> statements[i].column in Columns(tables, statements[i].table)
    ensures var run := AppliedAll(tables, statements);
            && run.tables == tables && run.ran == []
            && forall t :: t in run.cache ==> run.cache[t] == Columns(tables, t)
  {
    if statements != [] {
      hide Folded;
      var init := statements[..|statements| - 1];
      RerunDoesNothing(tables, init);
    }
  }

  lemma CompletedThenRerun(tables: Tables, statements: seq<Statement>)
    ensures var after := AppliedAll(tables, statements).tables;
            AppliedAll(after, statements).tables == after && AppliedAll(after, statements).ran == []
  {
    AllNamedArePresent(tables, statements);
    RerunDoesNothing(AppliedAll(tables, statements).tables, statements);
  }

  // ---------------------------------------------------------------------------------------------
  // When no statement runs into an existing column

  /** The statements before the first one that spells the table exactly so. */
  function BeforeFirst(statements: seq<Statement>, table: string): (before: seq<Statement>) {
    if statements == [] then []
    else
      var init, last := statements[..|statements| - 1], statements[|statements| - 1];
      var before := BeforeFirst(init, table);
      if before == init && last.table != table then statements else before
  }

  /** The columns named under exactly this spelling of the table. */
  function NamedExactly(statements: seq<Statement>, table: string): (columns: set<string>) {
    set s | s in statements && s.table == table :: s.column
  }

  /**
   * What the cache shows a statement about this spelling of the table, read off the initial tables and
   * the earlier statements: the initial columns, those named before the spelling first occurred, and
   * those named under the spelling itself.
   */
  function Shown(tables: Tables, earlier: seq<Statement>, table: string): (columns: set<string>) {
    Columns(tables, table) + Named(BeforeFirst(earlier, table), table) + NamedExactly(earlier, table)
  }

  predicate Occurs(statements: seq<Statement>, table: string) {
    exists i :: 0 <= i < |statements| && statements[i].table == table
  }

  lemma {:induction false} BeforeFirstIsAll(statements: seq<Statement>, table: string)
    ensures BeforeFirst(statements, table) == statements <==> !Occurs(statements, table)
    ensures |BeforeFirst(statements, table)| <= |statements|
  {
    if statements != [] {
      var init, last := statements[..|statements| - 1], statements[|statements| - 1];
      BeforeFirstIsAll(init, table);
      assert statements == init + [last] && statements[|init|] == last;
      assert forall i :: 0 <= i < |init| ==> statements[i] == init[i];
    }
  }

  lemma NamedExactlyOneMore(statements: seq<Statement>, s: Statement, table: string)
    ensures NamedExactly(statements + [s], table)
            == NamedExactly(statements, table) + if s.table == table then {s.column} else {}
  {
    assert forall x :: x in statements + [s] <==> x in statements || x == s;
  }

  /** What the run has loaded, or would load, for a table. */
  function View(run: Run, table: string): (columns: set<string>) {
    Loaded(run, table)[table]
  }

  lemma ViewAfter(run: Run, s: Statement, table: string)
    ensures table in Applied(run, s).cache <==> table in run.cache || table == s.table
    ensures View(Applied(run, s), table)
            == if table == s.table then View(run, table) + {s.column}
               else if table in run.cache then View(run, table) else Columns(Applied(run, s).tables, table)
  {
    hide Columns, WithColumn;
  }

  lemma {:induction false} LoadedWhenOccurs(tables: Tables, statements: seq<Statement>, table: string)
    ensures table in AppliedAll(tables, statements).cache <==> Occurs(statements, table)
  {
    if statements != [] {
      var init, last := statements[..|statements| - 1], statements[|statements| - 1];
      LoadedWhenOccurs(tables, init, table);
      ViewAfter(AppliedAll(tables, init), last, table);
      hide Applied;
      assert statements == init + [last] && statements[|init|] == last;
      assert forall i :: 0 <= i < |init| ==> statements[i] == init[i];
    }
  }

  /** The cache shows exactly what the statements say it shows. */
  lemma {:induction false} CacheShows(tables: Tables, statements: seq<Statement>, table: string)
    ensures View(AppliedAll(tables, statements), table) == Shown(tables, statements, table)
  {
    if !Occurs(statements, table) {
      LoadedWhenOccurs(tables, statements, table);
      BeforeFirstIsAll(statements, table);
      ColumnsAreUnion(tables, statements, table);
      NotNamedExactly(statements, table);
    } else {
      var init, last := statements[..|statements| - 1], statements[|statements| - 1];
      assert statements == init + [last];
      CacheShows(tables, init, table);
      ViewAfter(AppliedAll(tables, init), last, table);
      BeforeFirstIsAll(init, table);
      BeforeFirstIsAll(statements, table);
      NamedExactlyOneMore(init, last, table);
      LoadedWhenOccurs(tables, init, table);
      hide Named, NamedExactly, Columns, Applied;
      OccursEarlier(init, last, table);
    }
  }

  lemma NotNamedExactly(statements: seq<Statement>, table: string)
    requires !Occurs(statements, table)
    ensures NamedExactly(statements, table) == {}
  {
  }

  lemma OccursEarlier(init: seq<Statement>, last: Statement, table: string)
    ensures Occurs(init + [last], table) <==> Occurs(init, table) || last.table == table
  {
    assert (init + [last])[|init|] == last;
    assert forall i :: 0 <= i < |init| ==> (init + [last])[i] == init[i];
  }

  /** The statement is skipped, or the table has no column of that name in any spelling. */
  ghost predicate MeetsNoColumn(tables: Tables, earlier: seq<Statement>, s: Statement) {
    || s.column in Shown(tables, earlier, s.table)
    || forall c :: c in Columns(tables, s.table) + Named(earlier, s.table) ==> Folded(c) != Folded(s.column)
  }

  /**
   * The exact condition, for every migration and every database: no statement runs into an existing
   * column if and only if each finds its column in what the cache shows, or finds no column of that
   * name among the initial and the earlier named ones. It reads only the initial columns and the
   * statements.
   */
  lemma NoneRunsIntoExistingIff(tables: Tables, statements: seq<Statement>)
    ensures NoneRunsIntoExisting(tables, statements) <==>
              forall i :: 0 <= i < |statements| ==> MeetsNoColumn(tables, statements[..i], statements[i])
  {
    hide RunsIntoExisting, MeetsNoColumn, AppliedAll;
    forall i | 0 <= i < |statements|
      ensures RunsIntoExisting(AppliedAll(tables, statements[..i]), statements[i])
              <==> !MeetsNoColumn(tables, statements[..i], statements[i])
    {
      RunsIntoShown(tables, statements[..i], statements[i]);
    }
  }

  lemma RunsIntoShown(tables: Tables, earlier: seq<Statement>, s: Statement)
    ensures RunsIntoExisting(AppliedAll(tables, earlier), s) <==> !MeetsNoColumn(tables, earlier, s)
  {
    hide Folded, Shown, Named;
    CacheShows(tables, earlier, s.table);
    ColumnsAreUnion(tables, earlier, s.table);
  }

  /** Each table is spelled one way throughout the migration. */
  predicate TablesSpelledAlike(statements: seq<Statement>) {
    forall i, j :: 0 <= i < |statements| && 0 <= j < |statements|
                   && Folded(statements[i].table) == Folded(statements[j].table)
                   ==> statements[i].table == statements[j].table
  }

  /** No statement respells a column the table has, or one that an earlier statement names for it. */
  ghost predicate ColumnsSpelledAlike(tables: Tables, statements: seq<Statement>) {
    forall i :: 0 <= i < |statements| ==> NotRespelled(tables, statements[..i], statements[i])
  }

  ghost predicate NotRespelled(tables: Tables, earlier: seq<Statement>, s: Statement) {
    && (forall c :: c in Columns(tables, s.table) && Folded(c) == Folded(s.column) ==> c == s.column)
    && (forall e :: e in earlier && Folded(e.table) == Folded(s.table) && Folded(e.column) == Folded(s.column)
          ==> e.column == s.column)
  }

  /** With one spelling per table, the cache is the table, for every table loaded. */
  lemma {:induction false} CacheAgrees(tables: Tables, statements: seq<Statement>)
    requires TablesSpelledAlike(statements)
    ensures Agrees(AppliedAll(tables, statements), statements)
  {
    if statements != [] {
      var init, last := statements[..|statements| - 1], statements[|statements| - 1];
      TablesOfFewer(statements, |init|);
      CacheAgrees(tables, init);
      assert statements[|init|] == last;
      assert forall i :: 0 <= i < |init| ==> init[i] == statements[i];
      StillAgrees(AppliedAll(tables, init), statements, last);
    }
  }

  ghost predicate Agrees(run: Run, statements: seq<Statement>) {
    forall t :: t in run.cache ==>
      run.cache[t] == Columns(run.tables, t) && exists i :: 0 <= i < |statements| && statements[i].table == t
  }

  lemma StillAgrees(run: Run, statements: seq<Statement>, s: Statement)
    requires TablesSpelledAlike(statements) && s in statements && Agrees(run, statements)
    ensures Agrees(Applied(run, s), statements)
  {
    hide Folded, Columns, WithColumn;
    var after := Applied(run, s);
    forall t | t in after.cache
      ensures after.cache[t] == Columns(after.tables, t)
      ensures exists i :: 0 <= i < |statements| && statements[i].table == t
    {
      ColumnsOfWith(run.tables, s, t);
      if t != s.table {
        assert t in run.cache && after.cache[t] == run.cache[t];
      } else {
        assert Loaded(run, t)[t] == Columns(run.tables, t);
      }
    }
  }

  /** Respelling a column means: the real table, after the earlier statements, has it in another spelling. */
  lemma RespelledIsClash(tables: Tables, earlier: seq<Statement>, s: Statement)
    ensures NotRespelled(tables, earlier, s) <==>
              forall c :: c in Columns(AppliedAll(tables, earlier).tables, s.table) && Folded(c) == Folded(s.column)
                ==> c == s.column
  {
    hide Folded;
    ColumnsAreUnion(tables, earlier, s.table);
    assert forall e :: e in earlier && Folded(e.table) == Folded(s.table) ==> e.column in Named(earlier, s.table);
  }

  /** Two columns of one table never differ in case alone. */
  ghost predicate ColumnsApart(tables: Tables) {
    forall t, c, d :: t in tables && c in tables[t] && d in tables[t] && Folded(c) == Folded(d) ==> c == d
  }

  lemma {:induction false} StaysApart(tables: Tables, statements: seq<Statement>)
    requires ColumnsApart(tables) && NoneRunsIntoExisting(tables, statements)
    ensures ColumnsApart(AppliedAll(tables, statements).tables)
  {
    if statements != [] {
      hide Folded;
      var init, last := statements[..|statements| - 1], statements[|statements| - 1];
      NoneOfFewer(tables, statements);
      StaysApart(tables, init);
      assert !RunsIntoExisting(AppliedAll(tables, init), last);
    }
  }

  lemma NoneOfFewer(tables: Tables, statements: seq<Statement>)
    requires statements != [] && NoneRunsIntoExisting(tables, statements)
    ensures NoneRunsIntoExisting(tables, statements[..|statements| - 1])
  {
    var init := statements[..|statements| - 1];
    assert forall i :: 0 <= i < |init| ==> init[..i] == statements[..i] && init[i] == statements[i];
  }

  lemma TablesOfFewer(statements: seq<Statement>, i: nat)
    requires i <= |statements| && TablesSpelledAlike(statements)
    ensures TablesSpelledAlike(statements[..i])
  {
  }

  /** With one spelling per table a statement runs into an existing column exactly when it respells one. */
  lemma RunsIntoRespelled(tables: Tables, statements: seq<Statement>, i: nat)
    requires i < |statements| && TablesSpelledAlike(statements)
    requires ColumnsApart(AppliedAll(tables, statements[..i]).tables)
    ensures RunsIntoExisting(AppliedAll(tables, statements[..i]), statements[i])
            <==> !NotRespelled(tables, statements[..i], statements[i])
  {
    hide Folded;
    var run, s := AppliedAll(tables, statements[..i]), statements[i];
    TablesOfFewer(statements, i);
    CacheAgrees(tables, statements[..i]);
    RespelledIsClash(tables, statements[..i], s);
    assert Loaded(run, s.table)[s.table] == Columns(run.tables, s.table);
  }

  /**
   * When each table is spelled one way the condition is simpler: no statement runs into an existing
   * column exactly when no statement respells a column.
   */
  lemma OneSpellingPerTable(tables: Tables, statements: seq<Statement>)
    requires ColumnsApart(tables) && TablesSpelledAlike(statements)
    ensures NoneRunsIntoExisting(tables, statements) <==> ColumnsSpelledAlike(tables, statements)
  {
    hide Folded, ColumnsApart;
    Prefixes(tables, statements, |statements|);
  }

  lemma {:induction false} Prefixes(tables: Tables, statements: seq<Statement>, k: nat)
    requires ColumnsApart(tables) && TablesSpelledAlike(statements) && k <= |statements|
    ensures (forall i :: 0 <= i < k ==> !RunsIntoExisting(AppliedAll(tables, statements[..i]), statements[i]))
            <==> (forall i :: 0 <= i < k ==> NotRespelled(tables, statements[..i], statements[i]))
  {
    hide Folded, ColumnsApart, NotRespelled, RunsIntoExisting, TablesSpelledAlike, AppliedAll;
    if k > 0 {
      Prefixes(tables, statements, k - 1);
      if forall i :: 0 <= i < k - 1 ==> !RunsIntoExisting(AppliedAll(tables, statements[..i]), statements[i]) {
        ApartBefore(tables, statements, k - 1);
        RunsIntoRespelled(tables, statements, k - 1);
      }
    }
  }

  lemma ApartBefore(tables: Tables, statements: seq<Statement>, k: nat)
    requires ColumnsApart(tables) && k <= |statements|
    requires forall i :: 0 <= i < k ==> !RunsIntoExisting(AppliedAll(tables, statements[..i]), statements[i])
    ensures ColumnsApart(AppliedAll(tables, statements[..k]).tables)
  {
    hide Folded, ColumnsApart, RunsIntoExisting, AppliedAll;
    var init := statements[..k];
    forall i | 0 <= i < k
      ensures !RunsIntoExisting(AppliedAll(tables, init[..i]), init[i])
    {
      assert init[..i] == statements[..i];
    }
    StaysApart(tables, init);
  }

  /** Spelling one table two ways defeats the cache: the last statement runs although the column was just added. */
  lemma TwoSpellingsDefeatTheCache()
    ensures var tables: Tables := map["t" := {"id"}];
            var statements := [AddColumn("T", "a"), AddColumn("t", "b"), AddColumn("T", "b")];
            ColumnsApart(tables) && RunsIntoExisting(AppliedAll(tables, statements[..2]), statements[2])
  {
    var tables: Tables := map["t" := {"id"}];
    var statements := [AddColumn("T", "a"), AddColumn("t", "b"), AddColumn("T", "b")];
    var earlier := statements[..2];
    assert Folded("T") == "t" && Folded("t") == "t" && Folded("b") == "b";
    assert earlier == [statements[0], statements[1]];
    var first := statements[..1];
    assert earlier[..1] == first && first[..0] == [];
    assert BeforeFirst(first[..0], "T") == [];
    assert first[0].table == "T" && BeforeFirst(first, "T") == [];
    assert BeforeFirst(earlier, "T") == [];
    assert "b" !in Shown(tables, earlier, "T");
    assert statements[1] in earlier && "b" in Named(earlier, "T");
    RunsIntoShown(tables, earlier, statements[2]);
  }

  /** Two spellings alone do no harm: here every statement adds a column of its own. */
  lemma TwoSpellingsMayBeHarmless()
    ensures var statements := [AddColumn("T", "a"), AddColumn("t", "b")];
            !TablesSpelledAlike(statements) && NoneRunsIntoExisting(map["t" := {"id"}], statements)
  {
    var tables: Tables := map["t" := {"id"}];
    var statements := [AddColumn("T", "a"), AddColumn("t", "b")];
    assert Folded("T") == "t" && Folded("t") == "t" && Folded("a") == "a" && Folded("b") == "b" && Folded("id") == "id";
    assert statements[..1] == [statements[0]] && statements[..0] == [];
    assert Folded(statements[0].table) == Folded(statements[1].table);
    NoneRunsIntoExistingIff(tables, statements);
    assert MeetsNoColumn(tables, statements[..0], statements[0]);
    assert MeetsNoColumn(tables, statements[..1], statements[1]);
  }
}

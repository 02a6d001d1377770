/**
 * SqlTableWatcher, the oldest revision of the change trigger: one watcher
 * per user table that polls the change table, leases each change row
 * with one command per row, runs the user's function and releases the
 * leases. Its query fragments are cached on first use, and the worker
 * table is named after the user table itself.
 *
 * The database is abstract: what a query read, and the exception a step
 * threw, are parameters of the method that models the step.
 */
module TableWatcher {
  import opened Common
  import opened ChangeTracking
  import ChangeMonitors
  import TableWatchers

  const WorkerTableNamePrefix := "az_func.Worker_Table_"

  // ---------------------------------------------------------------------
  // BuildWorkerTableName

  /** string.Split(new[] { c }, 2): the text before the first c and the rest, or the whole text. */
  function SplitOnce(s: string, c: char): (parts: seq<string>)
    ensures |parts| == 1 || |parts| == 2
    ensures |parts| == 1 <==> c !in s
    ensures |parts| == 1 ==> parts[0] == s
    ensures |parts| == 2 ==> s == parts[0] + [c] + parts[1] && c !in parts[0]
    decreases |s|
  {
    if |s| == 0 then [s]
    else if s[0] == c then
      assert s == [] + [c] + s[1..];
      ["", s[1..]]
    else
      var rest := SplitOnce(s[1..], c);
      if |rest| == 1 then [s]
      else
        assert s == [s[0]] + s[1..];
        assert s == ([s[0]] + rest[0]) + [c] + rest[1];
        [[s[0]] + rest[0], rest[1]]
  }

  /** The separator splits where it first occurs. */
  lemma {:induction false} SplitOnceAt(a: string, b: string, c: char)
    requires c !in a
    ensures SplitOnce(a + [c] + b, c) == [a, b]
    decreases |a|
  {
    var s := a + [c] + b;
    if |a| == 0 {
      assert s == [c] + b;
      assert s[1..] == b;
    } else {
      assert s[0] == a[0] && s[1..] == a[1..] + [c] + b;
      SplitOnceAt(a[1..], b, c);
      assert [s[0]] + a[1..] == a;
    }
  }

  predicate Bracketed(name: string)
  {
    |name| > 0 && name[0] == '[' && name[|name| - 1] == ']'
  }

  /** One enclosing pair of square brackets removed, if there is one. */
  function Unbracketed(name: string): (r: string)
    ensures Bracketed(name) ==> name == "[" + r + "]"
    ensures !Bracketed(name) ==> r == name
  {
    if Bracketed(name) then
      var r := name[1..|name| - 1];
      assert name == [name[0]] + r + [name[|name| - 1]];
      r
    else name
  }

  /**
   * BuildWorkerTableName: the schema prefix (the text up to the first
   * '.') is dropped, one pair of brackets around the rest is removed, and
   * the az_func worker table prefix is put in front.
   */
  function BuildWorkerTableName(userTable: string): (r: string)
    ensures StartsWith(r, WorkerTableNamePrefix)
    ensures '.' !in userTable ==> r == WorkerTableNamePrefix + Unbracketed(userTable)
  {
    var parts := SplitOnce(userTable, '.');
    var tableName := if |parts| == 2 then parts[1] else userTable;
    WorkerTableNamePrefix + Unbracketed(tableName)
  }

  /** A schema-qualified name keeps only the table part, without its brackets. */
  lemma WorkerTableOfQualifiedName(schema: string, table: string)
    requires '.' !in schema
    ensures BuildWorkerTableName(schema + "." + table) == WorkerTableNamePrefix + Unbracketed(table)
  {
    assert schema + "." + table == schema + ['.'] + table;
    SplitOnceAt(schema, table, '.');
  }

  lemma QualifiedWorkerTableExample()
    ensures BuildWorkerTableName("[dbo]" + "." + "[Products]") == WorkerTableNamePrefix + "Products"
  {
    WorkerTableOfQualifiedName("[dbo]", "[Products]");
    BracketedExample();
  }

  lemma BracketedExample()
    ensures Unbracketed("[Products]") == "Products"
  {
    assert Bracketed("[Products]") && "[Products]" == "[" + "Products" + "]";
  }

  lemma UnqualifiedWorkerTableExample()
    ensures BuildWorkerTableName("[Products]") == WorkerTableNamePrefix + "Products"
  {
    assert '.' !in "[Products]";
    BracketedExample();
  }

  /**
   * Only the first '.' separates: a dot inside a bracketed schema name,
   * as in "[my.schema].[T]", leaves brackets in the worker table name.
   */
  lemma DotInsideSchemaKeptInName(a: string, b: string, t: string)
    requires '.' !in a && '[' !in b
    ensures BuildWorkerTableName("[" + a + "." + b + "].[" + t + "]") == WorkerTableNamePrefix + b + "].[" + t + "]"
  {
    var schema, rest := "[" + a, b + "].[" + t + "]";
    assert '.' !in schema by {
      assert forall i :: 0 < i < |schema| ==> schema[i] == a[i - 1];
    }
    assert rest[0] != '[' by {
      if |b| > 0 {
        assert rest[0] == b[0];
      } else {
        assert rest[0] == ']';
      }
    }
    assert "[" + a + "." + b + "].[" + t + "]" == schema + "." + rest;
    WorkerTableOfQualifiedName(schema, rest);
  }

  // ---------------------------------------------------------------------
  // Cached fragments

  /** The two fragments BuildAcquireLeaseOnRowCommand caches: "k = @k" joined by " AND ", and "@k" joined by ", ". */
  datatype LeaseFragments = LeaseFragments(whereCheck: string, primaryKeyValues: string)

  function KeyEqualsParameter(keys: seq<string>): (r: seq<string>)
    ensures |r| == |keys| && forall i :: 0 <= i < |keys| ==> r[i] == keys[i] + " = @" + keys[i]
  {
    seq(|keys|, i requires 0 <= i < |keys| => keys[i] + " = @" + keys[i])
  }

  function FreshLeaseFragments(keys: seq<string>): LeaseFragments
  {
    LeaseFragments(Join(" AND ", KeyEqualsParameter(keys)), Join(", ", Prefixed("@", keys)))
  }

  /** The cached where-check compares every key with its parameter. */
  lemma LeaseWhereCheckMentionsEveryKey(keys: seq<string>)
    ensures forall i :: 0 <= i < |keys| ==> Contains(FreshLeaseFragments(keys).whereCheck, keys[i] + " = @" + keys[i])
    ensures forall i :: 0 <= i < |keys| ==> Contains(FreshLeaseFragments(keys).primaryKeyValues, "@" + keys[i])
  {
    JoinContainsParts(" AND ", KeyEqualsParameter(keys));
    JoinContainsParts(", ", Prefixed("@", keys));
  }

  /** The change query's fragments as this revision computes them: the user column list has no trailing separator. */
  function FreshCheckFragments(keys: seq<string>, columns: seq<string>): (f: TableWatchers.CheckFragments)
    ensures f.userTableColumnsSelectList == Join(", ", UserSelectItems(columns, keys))
  {
    TableWatchers.CheckFragments(PrimaryKeysSelectList(keys), Join(", ", UserSelectItems(columns, keys)),
                                 JoinCondition(keys, "w"), JoinCondition(keys, "u"))
  }

  /** The select list of the change query up to the change version, as this revision assembles it. */
  function ChangeQuerySelectPrefix(f: TableWatchers.CheckFragments): string
  {
    f.primaryKeysSelectList + ", " + f.userTableColumnsSelectList + ", " + "c.SYS_CHANGE_VERSION"
  }

  /** While some column is not a key, the assembled list is the well-formed one of the later revisions. */
  lemma SelectPrefixWithUserColumns(keys: seq<string>, columns: seq<string>, column: string)
    requires |keys| > 0 && column in columns && column !in keys
    ensures ChangeQuerySelectPrefix(FreshCheckFragments(keys, columns)) == ChangeSelectPrefix(keys, columns)
  {
    assert column in NonKeyColumns(columns, keys);
    JoinThree(", ", KeySelectItems(keys), UserSelectItems(columns, keys), "c.SYS_CHANGE_VERSION");
  }

  /**
   * When every column is a key the user column list is empty, and the
   * select list gets an empty item between two commas.
   */
  lemma AllKeyColumnsLeaveEmptySelectItem(keys: seq<string>, columns: seq<string>)
    requires forall c :: c in columns ==> c in keys
    ensures ChangeQuerySelectPrefix(FreshCheckFragments(keys, columns)) ==
      PrimaryKeysSelectList(keys) + ", , c.SYS_CHANGE_VERSION"
  {
    assert UserSelectItems(columns, keys) == [];
    var p := PrimaryKeysSelectList(keys);
    assert ChangeQuerySelectPrefix(FreshCheckFragments(keys, columns)) == p + ", " + "" + ", " + "c.SYS_CHANGE_VERSION";
    EmptyItemBetweenSeparators(p);
  }

  /** An empty item between two separators leaves ", , " in the text. */
  lemma EmptyItemBetweenSeparators(p: string)
    ensures p + ", " + "" + ", " + "c.SYS_CHANGE_VERSION" == p + ", , c.SYS_CHANGE_VERSION"
  {
    assert ", " + "" + ", " + "c.SYS_CHANGE_VERSION" == ", , c.SYS_CHANGE_VERSION";
    assert p + ", " + "" + ", " + "c.SYS_CHANGE_VERSION" == p + (", " + "" + ", " + "c.SYS_CHANGE_VERSION");
  }

  lemma AllKeyColumnsExample()
    ensures ChangeQuerySelectPrefix(FreshCheckFragments(["Id"], ["Id"])) == "c.Id, , c.SYS_CHANGE_VERSION"
  {
    AllKeyColumnsLeaveEmptySelectItem(["Id"], ["Id"]);
    SingleKeySelectList();
    SingleKeyPrefix();
  }

  /** The select list of the single key "Id". */
  lemma SingleKeySelectList()
    ensures PrimaryKeysSelectList(["Id"]) == "c.Id"
  {
    var items := KeySelectItems(["Id"]);
    assert items == ["c.Id"] by {
      assert |items| == 1 && items[0] == "c." + "Id";
      assert "c." + "Id" == "c.Id";
    }
  }

  /** The single key's list followed by the empty item and the change version. */
  lemma SingleKeyPrefix()
    ensures "c.Id" + ", , c.SYS_CHANGE_VERSION" == "c.Id, , c.SYS_CHANGE_VERSION"
  {
  }

  // ---------------------------------------------------------------------
  // The watcher

  class TableWatcher {
    const userTable: string
    const workerTable: string
    var primaryKeys: seq<(string, string)>
    var userTableColumns: seq<string>
    var rows: seq<Row>
    var state: ChangeMonitors.State
    /** The two groups of _queryStrings: each is empty until its first use. */
    var checkFragments: Option<TableWatchers.CheckFragments>
    var leaseFragments: Option<LeaseFragments>
    /** Whether the polling loop still runs: an exception that escapes a round ends it. */
    var polling: bool

    /**
     * The key dictionary has distinct names, and no step ever moves the
     * watcher out of CheckingForChanges.
     */
    ghost predicate Valid()
      reads this
    {
      Distinct(Names(primaryKeys)) && state == ChangeMonitors.CheckingForChanges
    }

    /** The constructor once its argument checks passed (NormalizeTableName is not part of this model). */
    constructor (table: string, connectionString: string)
      requires TableWatchers.ConstructorArguments(Some(table), Some(connectionString), false).None?
      ensures Valid()
      ensures userTable == table && workerTable == BuildWorkerTableName(table)
      ensures primaryKeys == [] && userTableColumns == [] && rows == []
      ensures checkFragments.None? && leaseFragments.None? && polling
    {
      userTable := table;
      workerTable := BuildWorkerTableName(table);
      primaryKeys := [];
      userTableColumns := [];
      rows := [];
      state := ChangeMonitors.CheckingForChanges;
      checkFragments := None;
      leaseFragments := None;
      polling := true;
    }

    /**
     * GetUserTableSchemaAsync: every key row read is added to the key
     * dictionary with its plain type name, and the column names are
     * appended; a key name already present makes Add throw, keeping the
     * keys added before it and reading no column.
     */
    method GetUserTableSchema(keys: seq<(string, string)>, columns: seq<string>) returns (error: Option<Exception>)
      requires Valid()
      modifies this
      ensures Valid()
      ensures var combined := old(primaryKeys) + keys;
        primaryKeys == combined[..FirstRepeatOf(combined)] &&
        (error.None? <==> Distinct(Names(combined)))
      ensures error.None? ==> userTableColumns == old(userTableColumns) + columns
      ensures error.Some? ==> error.value == Throw(ArgumentException) && userTableColumns == old(userTableColumns)
      ensures rows == old(rows) && checkFragments == old(checkFragments) && leaseFragments == old(leaseFragments)
      ensures polling == old(polling)
    {
      ghost var combined := primaryKeys + keys;
      ghost var names := Names(combined);
      ghost var start := |primaryKeys|;
      assert combined[..start] == primaryKeys;
      assert names[..start] == Names(primaryKeys);
      var i := 0;
      while i < |keys|
        invariant 0 <= i <= |keys|
        invariant primaryKeys == combined[..start + i]
        invariant Names(primaryKeys) == names[..start + i]
        invariant Distinct(names[..start + i])
        invariant state == old(state) && userTableColumns == old(userTableColumns) && rows == old(rows)
        invariant checkFragments == old(checkFragments) && leaseFragments == old(leaseFragments) && polling == old(polling)
      {
        assert names[start + i] == keys[i].0;
        if keys[i].0 in Names(primaryKeys) {
          TableWatchers.FirstRepeatUnique(names, start + i);
          return Some(Throw(ArgumentException));
        }
        assert names[..start + i + 1] == names[..start + i] + [names[start + i]];
        DistinctSnoc(names[..start + i], names[start + i]);
        assert combined[..start + i + 1] == combined[..start + i] + [keys[i]];
        primaryKeys := primaryKeys + [keys[i]];
        i := i + 1;
      }
      assert names[..|names|] == names;
      TableWatchers.FirstRepeatUnique(names, |names|);
      userTableColumns := userTableColumns + columns;
      error := None;
    }

    /** BuildCheckForChangesCommand's cache: computed from the schema on first use, read back unchanged afterwards. */
    method BuildCheckForChangesCommand() returns (fragments: TableWatchers.CheckFragments)
      modifies this
      ensures old(checkFragments).None? ==> fragments == FreshCheckFragments(Names(primaryKeys), userTableColumns)
      ensures old(checkFragments).Some? ==> fragments == old(checkFragments).value
      ensures checkFragments == Some(fragments)
      ensures primaryKeys == old(primaryKeys) && userTableColumns == old(userTableColumns) && rows == old(rows)
      ensures state == old(state) && leaseFragments == old(leaseFragments) && polling == old(polling)
    {
      if checkFragments.None? {
        checkFragments := Some(FreshCheckFragments(Names(primaryKeys), userTableColumns));
      }
      fragments := checkFragments.value;
    }

    /** BuildAcquireLeaseOnRowCommand's cache of the where-check and the key parameter list. */
    method BuildAcquireLeaseOnRowCommand() returns (fragments: LeaseFragments)
      modifies this
      ensures old(leaseFragments).None? ==> fragments == FreshLeaseFragments(Names(primaryKeys))
      ensures old(leaseFragments).Some? ==> fragments == old(leaseFragments).value
      ensures leaseFragments == Some(fragments)
      ensures primaryKeys == old(primaryKeys) && userTableColumns == old(userTableColumns) && rows == old(rows)
      ensures state == old(state) && checkFragments == old(checkFragments) && polling == old(polling)
    {
      if leaseFragments.None? {
        leaseFragments := Some(FreshLeaseFragments(Names(primaryKeys)));
      }
      fragments := leaseFragments.value;
    }

    /**
     * CheckForChangesAsync: the change query's rows are appended to the
     * batch already held (`readError` is the exception the read threw
     * after them, if any), then a lease command is built for every row of
     * the batch; `leaseError` is the exception of those commands or of the
     * commit. Nothing here catches an exception.
     */
    method CheckForChanges(read: seq<Row>, readError: Option<Exception>, leaseError: Option<Exception>)
      returns (thrown: Option<Exception>)
      requires Valid()
      modifies this
      ensures Valid()
      ensures rows == old(rows) + read
      ensures checkFragments == Some(if old(checkFragments).Some? then old(checkFragments).value
                                     else FreshCheckFragments(Names(primaryKeys), userTableColumns))
      ensures readError.Some? ==> thrown == readError && leaseFragments == old(leaseFragments)
      ensures readError.None? ==> thrown == leaseError
      ensures readError.None? && |rows| > 0 ==>
        leaseFragments == Some(if old(leaseFragments).Some? then old(leaseFragments).value
                               else FreshLeaseFragments(Names(primaryKeys)))
      ensures readError.None? && |rows| == 0 ==> leaseFragments == old(leaseFragments)
      ensures primaryKeys == old(primaryKeys) && userTableColumns == old(userTableColumns) && polling == old(polling)
    {
      var _ := BuildCheckForChangesCommand();
      rows := rows + read;
      if readError.Some? {
        return readError;
      }
      var i := 0;
      while i < |rows|
        invariant 0 <= i <= |rows|
        invariant Valid() && rows == old(rows) + read
        invariant checkFragments == Some(if old(checkFragments).Some? then old(checkFragments).value
                                         else FreshCheckFragments(Names(primaryKeys), userTableColumns))
        invariant i == 0 ==> leaseFragments == old(leaseFragments)
        invariant i > 0 ==> leaseFragments == Some(if old(leaseFragments).Some? then old(leaseFragments).value
                                                   else FreshLeaseFragments(Names(primaryKeys)))
        invariant primaryKeys == old(primaryKeys) && userTableColumns == old(userTableColumns) && polling == old(polling)
      {
        var _ := BuildAcquireLeaseOnRowCommand();
        i := i + 1;
      }
      thrown := leaseError;
    }

    /**
     * ReleaseLeasesAsync: the batch is cleared only if every release and
     * the commit succeeded; the finally block always sets
     * CheckingForChanges.
     */
    method ReleaseLeases(releaseError: Option<Exception>)
      requires Valid()
      modifies this
      ensures Valid()
      ensures releaseError.None? ==> rows == []
      ensures releaseError.Some? ==> rows == old(rows)
      ensures state == ChangeMonitors.CheckingForChanges
      ensures primaryKeys == old(primaryKeys) && userTableColumns == old(userTableColumns) && polling == old(polling)
      ensures checkFragments == old(checkFragments) && leaseFragments == old(leaseFragments)
    {
      if releaseError.None? {
        rows := [];
      }
      state := ChangeMonitors.CheckingForChanges;
    }

    /**
     * One pass of the polling loop while it checks for changes: check for
     * changes, build the entries of a non-empty batch, run the user's
     * function and release the leases if it succeeded. An exception from
     * the check or from building the entries leaves the loop. A failed
     * function leaves the batch in place, to be extended by the next pass.
     * The entries handed to the function are returned.
     */
    method PollingRound(read: seq<Row>, readError: Option<Exception>, leaseError: Option<Exception>,
                        functionSucceeded: bool, releaseError: Option<Exception>)
      returns (entries: Option<seq<Entry>>)
      requires Valid() && polling
      modifies this
      ensures Valid()
      ensures readError.Some? || leaseError.Some? ==> !polling && entries.None? && rows == old(rows) + read
      ensures readError.None? && leaseError.None? && |old(rows) + read| == 0 ==> polling && entries.None? && rows == []
      ensures readError.None? && leaseError.None? && |old(rows) + read| > 0 ==>
        var built := Entries(Names(primaryKeys), userTableColumns, old(rows) + read);
        (built.Failure? ==> !polling && entries.None? && rows == old(rows) + read) &&
        (built.Success? ==> polling && entries == Some(built.value)) &&
        (built.Success? && functionSucceeded && releaseError.None? ==> rows == []) &&
        (built.Success? && !(functionSucceeded && releaseError.None?) ==> rows == old(rows) + read)
      ensures primaryKeys == old(primaryKeys) && userTableColumns == old(userTableColumns)
    {
      entries := None;
      var thrown := CheckForChanges(read, readError, leaseError);
      if thrown.Some? {
        polling := false;
        return;
      }
      if |rows| > 0 {
        var built := Entries(Names(primaryKeys), userTableColumns, rows);
        if built.Failure? {
          polling := false;
          return;
        }
        entries := Some(built.value);
        if functionSucceeded {
          ReleaseLeases(releaseError);
        }
      }
    }

    /** One pass of the lease-renewal loop: the held rows are renewed only while processing changes. */
    method RenewLeasesTick() returns (renewed: seq<Row>)
      requires Valid()
      ensures renewed == (if state == ChangeMonitors.ProcessingChanges then rows else [])
    {
      renewed := if state == ChangeMonitors.ProcessingChanges then rows else [];
    }
  }

  /** FirstRepeat over the names of a list of (name, type) pairs. */
  function FirstRepeatOf(keys: seq<(string, string)>): (n: nat)
    ensures n <= |keys|
  {
    TableWatchers.FirstRepeat(Names(keys))
  }

  /**
   * A batch whose function failed stays held, but the renewal loop never
   * renews its leases, because no step enters ProcessingChanges.
   */
  method HeldBatchNeverRenewed(row: Row) returns (held: seq<Row>, renewed: seq<Row>)
    ensures held == [row] && renewed == []
  {
    var watcher := new TableWatcher("dbo.Items", "Server=db");
    var error := watcher.GetUserTableSchema([("Id", "int")], ["Id", "Name"]);
    var entries := watcher.PollingRound([row], None, None, false, None);
    held := watcher.rows;
    renewed := watcher.RenewLeasesTick();
  }
}

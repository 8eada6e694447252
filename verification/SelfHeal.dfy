/**
 The schema self-heal at startup: columns that the model has and the database
 lacks are added, then NULLs in columns the model declares NOT NULL are filled.
 */
module SelfHeal {
  import opened Wrappers

  datatype Value = Null | Flag(flag: bool) | Text(text: string) | Number(number: int)

  /** A scalar Python default, a callable or sequence one, or none. */
  datatype Default = NoDefault | Scalar(value: Value) | Callable

  datatype ModelColumn = ModelColumn(name: string, nullable: bool, boolean: bool, default: Default,
                                     serverDefault: Option<string>)

  datatype ModelTable = ModelTable(name: string, columns: seq<ModelColumn>)

  /** An actual table: which columns it has and whether they take NULL, and its rows. */
  datatype Table = Table(columns: map<string, bool>, rows: seq<map<string, Value>>)

  /**
   What the database answers: whether a table can be read, a column type rendered, a statement
   executed (with or without its default), and which value a default's SQL text gives.
   */
  datatype Server = Server(
    readable: string -> bool, renders: (string, ModelColumn) -> bool, addsWithDefault: (string, ModelColumn) -> bool,
    addsBare: (string, ModelColumn) -> bool, updates: (string, ModelColumn) -> bool, evaluate: string -> Value)

  // ----- texts of defaults -----

  predicate IsSpace(c: char) {
    c == ' ' || c == '\t' || c == '\n' || c == '\r'
  }

  predicate IsQuote(c: char) {
    c == '\'' || c == '"'
  }

  function Strip(s: string, drop: char -> bool): string {
    if s == "" then ""
    else if drop(s[0]) then Strip(s[1..], drop)
    else if drop(s[|s| - 1]) then Strip(s[..|s| - 1], drop)
    else s
  }

  /** A boolean default in SQLite's spelling or PostgreSQL's. */
  function BoolOf(raw: string): Option<bool> {
    var low := Lower(Strip(Strip(raw, IsSpace), IsQuote));
    if low == "0" || low == "false" || low == "f" then Some(false)
    else if low == "1" || low == "true" || low == "t" then Some(true)
    else None
  }

  function RenderServerDefault(c: ModelColumn): Option<string> {
    if c.serverDefault.Some? && c.boolean && BoolOf(c.serverDefault.value).Some?
    then Some(if BoolOf(c.serverDefault.value).value then "true" else "false")
    else c.serverDefault
  }

  /** Null is no known value. A callable default hides the server default. */
  function FillValue(c: ModelColumn): Value {
    match c.default
    case Scalar(v) => v
    case Callable => Null
    case NoDefault =>
      if c.serverDefault.None? then Null
      else if c.boolean && BoolOf(c.serverDefault.value).Some? then Flag(BoolOf(c.serverDefault.value).value)
      else Text(Strip(Strip(c.serverDefault.value, IsSpace), IsQuote))
  }

  /** A recognised boolean default gives new rows and backfilled rows the same value. */
  lemma BooleanDefaultsAgree(server: Server, c: ModelColumn)
    requires c.boolean && c.default.NoDefault? && c.serverDefault.Some? && BoolOf(c.serverDefault.value).Some?
    requires server.evaluate("true") == Flag(true) && server.evaluate("false") == Flag(false)
    ensures RenderServerDefault(c).Some? && server.evaluate(RenderServerDefault(c).value) == FillValue(c)
    ensures FillValue(c) == Flag(BoolOf(c.serverDefault.value).value)
  {
  }

  predicate AllOf(s: string, drop: char -> bool) {
    forall i | 0 <= i < |s| :: drop(s[i])
  }

  predicate EndsKept(s: string, drop: char -> bool) {
    s != "" ==> !drop(s[0]) && !drop(s[|s| - 1])
  }

  /** Stripping takes the edges and stops at the first character on each side that stays. */
  lemma {:induction false} StripTakesEdges(left: string, core: string, right: string, drop: char -> bool)
    requires AllOf(left, drop) && AllOf(right, drop) && EndsKept(core, drop)
    ensures Strip(left + core + right, drop) == core
    decreases |left| + |right|
  {
    var s := left + core + right;
    if left != "" {
      assert s[0] == left[0] && s[1..] == left[1..] + core + right;
      StripTakesEdges(left[1..], core, right, drop);
    } else if right != "" {
      var n := |right| - 1;
      assert s[..|s| - 1] == left + core + right[..n];
      if core == "" {
        assert s == right && s[1..] == left + core + right[1..];
        StripTakesEdges(left, core, right[1..], drop);
      } else {
        assert s[0] == core[0] && s[|s| - 1] == right[n];
        StripTakesEdges(left, core, right[..n], drop);
      }
    } else {
      assert s == core;
    }
  }

  /**
   A default is read alike bare, in quotes, in space around the quotes, and in any case; bare, it is a boolean
   exactly in SQLite's digits and PostgreSQL's long and short words.
   */
  lemma BooleanSpellings(space: string, quotes: string, word: string, quotes': string, space': string)
    requires AllOf(space, IsSpace) && AllOf(space', IsSpace) && AllOf(quotes, IsQuote) && AllOf(quotes', IsQuote)
    requires EndsKept(word, IsSpace) && EndsKept(word, IsQuote)
    ensures BoolOf(space + quotes + word + quotes' + space') == BoolOf(word) == BoolOf(Lower(word))
    ensures BoolOf(word) == Some(false) <==> Lower(word) in {"0", "false", "f"}
    ensures BoolOf(word) == Some(true) <==> Lower(word) in {"1", "true", "t"}
  {
    var quoted := quotes + word + quotes';
    assert space + quotes + word + quotes' + space' == space + quoted + space';
    StripTakesEdges(space, quoted, space', IsSpace);
    StripTakesEdges(quotes, word, quotes', IsQuote);
    StripKeeps(word);
    StripKeeps(Lower(word));
    LowerIsIdempotent(word);
  }

  lemma StripKeeps(word: string)
    requires EndsKept(word, IsSpace) && EndsKept(word, IsQuote)
    ensures Strip(Strip(word, IsSpace), IsQuote) == word
  {
    assert "" + word + "" == word;
    StripTakesEdges("", word, "", IsSpace);
    StripTakesEdges("", word, "", IsQuote);
  }

  // ----- one column, one table -----

  /** What the rows get when a missing column is added, None if every attempt fails. */
  function Added(server: Server, table: string, c: ModelColumn): Option<Value> {
    var default := RenderServerDefault(c);
    if !server.renders(table, c) then None
    else if default.None? then (if server.addsBare(table, c) then Some(Null) else None)
    else if server.addsWithDefault(table, c) then Some(server.evaluate(default.value))
    else if server.addsBare(table, c) then Some(Null)
    else None
  }

  function AddColumn(t: Table, name: string, v: Value): Table {
    Table(t.columns[name := true], seq(|t.rows|, i requires 0 <= i < |t.rows| => t.rows[i][name := v]))
  }

  /** Whether the repair issues its update, and the update succeeds. */
  predicate Fills(server: Server, table: string, actual: map<string, bool>, c: ModelColumn) {
    !c.nullable && c.name in actual && actual[c.name] && FillValue(c) != Null && server.updates(table, c)
  }

  function Fill(row: map<string, Value>, name: string, v: Value): map<string, Value> {
    if name in row && row[name] == Null then row[name := v] else row
  }

  function FillColumn(t: Table, name: string, v: Value): Table {
    Table(t.columns, seq(|t.rows|, i requires 0 <= i < |t.rows| => Fill(t.rows[i], name, v)))
  }

  // ----- cell by cell -----

  function ColumnAt(columns: seq<ModelColumn>, name: string): Option<ModelColumn> {
    if columns == [] then None
    else if columns[|columns| - 1].name == name then Some(columns[|columns| - 1])
    else ColumnAt(columns[..|columns| - 1], name)
  }

  /** The value that the first pass gives a column that was missing. */
  function NewColumn(server: Server, table: string, t: Table, columns: seq<ModelColumn>, name: string): Option<Value> {
    if name in t.columns || ColumnAt(columns, name).None? then None
    else Added(server, table, ColumnAt(columns, name).value)
  }

  ghost predicate RowSynced(server: Server, table: string, t: Table, columns: seq<ModelColumn>,
                            row: map<string, Value>, after: map<string, Value>) {
    && (forall n :: n in after <==> n in row || NewColumn(server, table, t, columns, n).Some?)
    && (forall n | n in after ::
          after[n] == match NewColumn(server, table, t, columns, n)
                      case None => row[n]
                      case Some(v) => v)
  }

  /** The first pass on a table: nothing that was there changes, and missing columns come in nullable. */
  ghost predicate Synced(server: Server, table: string, before: Table, after: Table, columns: seq<ModelColumn>) {
    && |after.rows| == |before.rows|
    && (forall n :: n in after.columns <==> n in before.columns || NewColumn(server, table, before, columns, n).Some?)
    && (forall n | n in after.columns :: after.columns[n] == if n in before.columns then before.columns[n] else true)
    && (forall i | 0 <= i < |before.rows| :: RowSynced(server, table, before, columns, before.rows[i], after.rows[i]))
  }

  /** The value that the second pass puts for a NULL of a column. */
  function FillFor(server: Server, table: string, t: Table, columns: seq<ModelColumn>, name: string): Value {
    var c := ColumnAt(columns, name);
    if c.Some? && Fills(server, table, t.columns, c.value) then FillValue(c.value) else Null
  }

  ghost predicate RowFilled(server: Server, table: string, t: Table, columns: seq<ModelColumn>,
                            row: map<string, Value>, after: map<string, Value>) {
    && after.Keys == row.Keys
    && (forall n | n in row :: after[n] == if row[n] == Null then FillFor(server, table, t, columns, n) else row[n])
  }

  /** The second pass on a table: NULLs of the columns it fills, and nothing else. */
  ghost predicate Filled(server: Server, table: string, before: Table, after: Table, columns: seq<ModelColumn>) {
    && after.columns == before.columns && |after.rows| == |before.rows|
    && (forall i | 0 <= i < |before.rows| :: RowFilled(server, table, before, columns, before.rows[i], after.rows[i]))
  }

  /** Each table has distinct columns, each model distinct tables. */
  ghost predicate DistinctColumns(columns: seq<ModelColumn>) {
    forall i, j | 0 <= i < j < |columns| :: columns[i].name != columns[j].name
  }

  ghost predicate GoodModel(model: seq<ModelTable>) {
    && (forall m | m in model :: DistinctColumns(m.columns))
    && (forall i, j | 0 <= i < j < |model| :: model[i].name != model[j].name)
  }

  lemma ColumnAppended(done: seq<ModelColumn>, c: ModelColumn, name: string)
    ensures ColumnAt(done + [c], name) == if c.name == name then Some(c) else ColumnAt(done, name)
  {
    assert (done + [c])[..|done|] == done;
  }

  lemma {:induction false} ColumnAtFinds(columns: seq<ModelColumn>, name: string)
    ensures ColumnAt(columns, name).Some? ==>
      ColumnAt(columns, name).value in columns && ColumnAt(columns, name).value.name == name
    ensures ColumnAt(columns, name).None? ==> forall c | c in columns :: c.name != name
  {
    if columns != [] {
      var front := columns[..|columns| - 1];
      ColumnAtFinds(front, name);
      assert columns == front + [columns[|columns| - 1]];
    }
  }

  // ----- the two loops over the columns of a table -----

  method SyncTable(server: Server, table: string, t: Table, columns: seq<ModelColumn>) returns (after: Table)
    requires DistinctColumns(columns)
    ensures Synced(server, table, t, after, columns)
  {
    after := t;
    var existing := t.columns.Keys;
    for i := 0 to |columns|
      invariant Synced(server, table, t, after, columns[..i])
    {
      var c := columns[i];
      ghost var sofar := after;
      if c.name !in existing {
        var default := RenderServerDefault(c);
        if server.renders(table, c) {
          if default.Some? && server.addsWithDefault(table, c) {
            after := AddColumn(after, c.name, server.evaluate(default.value));
          } else if server.addsBare(table, c) {
            after := AddColumn(after, c.name, Null);
          }
        }
      }
      SyncStep(server, table, t, sofar, after, columns, i);
    }
    assert columns[..|columns|] == columns;
  }

  lemma NewColumnStep(server: Server, table: string, t: Table, columns: seq<ModelColumn>, i: nat)
    requires i < |columns| && DistinctColumns(columns)
    ensures forall n ::
      NewColumn(server, table, t, columns[..i + 1], n) ==
      if n == columns[i].name && n !in t.columns then Added(server, table, columns[i])
      else NewColumn(server, table, t, columns[..i], n)
    ensures NewColumn(server, table, t, columns[..i], columns[i].name).None?
  {
    assert columns[..i + 1] == columns[..i] + [columns[i]];
    ColumnAtFinds(columns[..i], columns[i].name);
    forall n ensures NewColumn(server, table, t, columns[..i + 1], n) ==
      if n == columns[i].name && n !in t.columns then Added(server, table, columns[i])
      else NewColumn(server, table, t, columns[..i], n)
    {
      ColumnAppended(columns[..i], columns[i], n);
    }
  }

  lemma RowSyncStep(server: Server, table: string, t: Table, columns: seq<ModelColumn>, i: nat,
                    row: map<string, Value>, sofar: map<string, Value>, after: map<string, Value>)
    requires i < |columns| && DistinctColumns(columns)
    requires RowSynced(server, table, t, columns[..i], row, sofar)
    requires after == if columns[i].name in t.columns || Added(server, table, columns[i]).None? then sofar
                      else sofar[columns[i].name := Added(server, table, columns[i]).value]
    ensures RowSynced(server, table, t, columns[..i + 1], row, after)
  {
    NewColumnStep(server, table, t, columns, i);
  }

  lemma SyncStep(server: Server, table: string, t: Table, sofar: Table, after: Table, columns: seq<ModelColumn>, i: nat)
    requires i < |columns| && DistinctColumns(columns)
    requires Synced(server, table, t, sofar, columns[..i])
    requires after == (if columns[i].name in t.columns || Added(server, table, columns[i]).None? then sofar
                       else AddColumn(sofar, columns[i].name, Added(server, table, columns[i]).value))
    ensures Synced(server, table, t, after, columns[..i + 1])
  {
    forall k | 0 <= k < |t.rows|
      ensures RowSynced(server, table, t, columns[..i + 1], t.rows[k], after.rows[k])
    {
      RowSyncStep(server, table, t, columns, i, t.rows[k], sofar.rows[k], after.rows[k]);
    }
    NewColumnStep(server, table, t, columns, i);
  }

  method FillTable(server: Server, table: string, t: Table, columns: seq<ModelColumn>) returns (after: Table)
    requires DistinctColumns(columns)
    ensures Filled(server, table, t, after, columns)
  {
    after := t;
    var actual := t.columns;
    for i := 0 to |columns|
      invariant Filled(server, table, t, after, columns[..i])
    {
      var c := columns[i];
      ghost var sofar := after;
      if !c.nullable && c.name in actual && actual[c.name] && FillValue(c) != Null && server.updates(table, c) {
        after := FillColumn(after, c.name, FillValue(c));
      }
      FillStep(server, table, t, sofar, after, columns, i);
    }
    assert columns[..|columns|] == columns;
  }

  lemma FillStep(server: Server, table: string, t: Table, sofar: Table, after: Table, columns: seq<ModelColumn>, i: nat)
    requires i < |columns| && DistinctColumns(columns)
    requires Filled(server, table, t, sofar, columns[..i])
    requires after == if Fills(server, table, t.columns, columns[i])
                      then FillColumn(sofar, columns[i].name, FillValue(columns[i])) else sofar
    ensures Filled(server, table, t, after, columns[..i + 1])
  {
    var c := columns[i];
    assert columns[..i + 1] == columns[..i] + [c];
    forall n ensures ColumnAt(columns[..i + 1], n) == if c.name == n then Some(c) else ColumnAt(columns[..i], n) {
      ColumnAppended(columns[..i], c, n);
    }
    ColumnAtFinds(columns[..i], c.name);
    forall n ensures FillFor(server, table, t, columns[..i + 1], n) ==
      if n == c.name && Fills(server, table, t.columns, c) then FillValue(c) else FillFor(server, table, t, columns[..i], n) {
    }
    assert FillFor(server, table, t, columns[..i], c.name) == Null;
    forall k | 0 <= k < |t.rows|
      ensures RowFilled(server, table, t, columns[..i + 1], t.rows[k], after.rows[k])
    {
      assert RowFilled(server, table, t, columns[..i], t.rows[k], sofar.rows[k]);
    }
  }

  // ----- the whole schema -----

  function ModelAt(model: seq<ModelTable>, name: string): Option<ModelTable> {
    if model == [] then None
    else if model[|model| - 1].name == name then Some(model[|model| - 1])
    else ModelAt(model[..|model| - 1], name)
  }

  lemma {:induction false} ModelAtFinds(model: seq<ModelTable>, name: string)
    ensures ModelAt(model, name).Some? ==> ModelAt(model, name).value in model && ModelAt(model, name).value.name == name
    ensures ModelAt(model, name).None? ==> forall m | m in model :: m.name != name
  {
    if model != [] {
      var front := model[..|model| - 1];
      ModelAtFinds(front, name);
      assert model == front + [model[|model| - 1]];
    }
  }

  lemma ModelStep(model: seq<ModelTable>, i: nat)
    requires GoodModel(model) && i < |model|
    ensures forall n :: ModelAt(model[..i + 1], n) == if n == model[i].name then Some(model[i]) else ModelAt(model[..i], n)
    ensures ModelAt(model[..i], model[i].name).None? && DistinctColumns(model[i].columns)
  {
    assert model[..i + 1][..i] == model[..i];
    ModelAtFinds(model[..i], model[i].name);
  }

  /** A table of the model that can be read goes through the pass; any other stays. */
  ghost predicate SyncedOne(server: Server, m: Option<ModelTable>, name: string, before: Table, after: Table) {
    if m.Some? && server.readable(name) then Synced(server, name, before, after, m.value.columns) else after == before
  }

  ghost predicate FilledOne(server: Server, m: Option<ModelTable>, name: string, before: Table, after: Table) {
    if m.Some? && server.readable(name) then Filled(server, name, before, after, m.value.columns) else after == before
  }

  ghost predicate HealedOne(server: Server, m: Option<ModelTable>, name: string, before: Table, after: Table) {
    if m.Some? && server.readable(name) then Healed(server, name, before, after, m.value.columns) else after == before
  }

  class Database {
    var tables: map<string, Table>

    /** Each table in a try of its own; a table that cannot be read is skipped. */
    method SyncMissingColumns(server: Server, model: seq<ModelTable>)
      requires GoodModel(model)
      modifies this
      ensures tables.Keys == old(tables).Keys
      ensures forall n | n in tables :: SyncedOne(server, ModelAt(model, n), n, old(tables)[n], tables[n])
    {
      for i := 0 to |model|
        invariant tables.Keys == old(tables).Keys
        invariant forall n | n in tables :: SyncedOne(server, ModelAt(model[..i], n), n, old(tables)[n], tables[n])
      {
        var m := model[i];
        ModelStep(model, i);
        if m.name in tables && server.readable(m.name) {
          assert SyncedOne(server, ModelAt(model[..i], m.name), m.name, old(tables)[m.name], tables[m.name]);
          var after := SyncTable(server, m.name, tables[m.name], m.columns);
          tables := tables[m.name := after];
        }
      }
      assert model[..|model|] == model;
    }

    method BackfillNotNullNulls(server: Server, model: seq<ModelTable>)
      requires GoodModel(model)
      modifies this
      ensures tables.Keys == old(tables).Keys
      ensures forall n | n in tables :: FilledOne(server, ModelAt(model, n), n, old(tables)[n], tables[n])
    {
      for i := 0 to |model|
        invariant tables.Keys == old(tables).Keys
        invariant forall n | n in tables :: FilledOne(server, ModelAt(model[..i], n), n, old(tables)[n], tables[n])
      {
        var m := model[i];
        ModelStep(model, i);
        if m.name in tables && server.readable(m.name) {
          assert FilledOne(server, ModelAt(model[..i], m.name), m.name, old(tables)[m.name], tables[m.name]);
          var after := FillTable(server, m.name, tables[m.name], m.columns);
          tables := tables[m.name := after];
        }
      }
      assert model[..|model|] == model;
    }

    /** The two passes of startup, in order. */
    method Heal(server: Server, model: seq<ModelTable>) returns (ghost between: map<string, Table>)
      requires GoodModel(model) && forall n | n in tables :: WellFormed(tables[n])
      modifies this
      ensures tables.Keys == between.Keys == old(tables).Keys
      ensures forall n | n in tables :: SyncedOne(server, ModelAt(model, n), n, old(tables)[n], between[n])
      ensures forall n | n in tables :: FilledOne(server, ModelAt(model, n), n, between[n], tables[n])
      ensures forall n | n in tables :: HealedOne(server, ModelAt(model, n), n, old(tables)[n], tables[n])
    {
      SyncMissingColumns(server, model);
      between := tables;
      BackfillNotNullNulls(server, model);
      forall n | n in tables ensures HealedOne(server, ModelAt(model, n), n, old(tables)[n], tables[n]) {
        ModelAtFinds(model, n);
        assert SyncedOne(server, ModelAt(model, n), n, old(tables)[n], between[n]);
        if ModelAt(model, n).Some? && server.readable(n) {
          PassesHeal(server, n, old(tables)[n], between[n], tables[n], ModelAt(model, n).value.columns);
        }
      }
    }
  }

  // ----- what a table is like after both passes -----

  /** Rows have the table's columns, and a NOT NULL column holds no NULL. */
  ghost predicate WellFormed(t: Table) {
    && (forall i | 0 <= i < |t.rows| :: t.rows[i].Keys == t.columns.Keys)
    && (forall i, n | 0 <= i < |t.rows| && n in t.columns && !t.columns[n] :: n in t.rows[i] && t.rows[i][n] != Null)
  }

  ghost predicate NullFree(t: Table, name: string) {
    name in t.columns && forall i | 0 <= i < |t.rows| :: name in t.rows[i] && t.rows[i][name] != Null
  }

  /** Additive: no column is altered, only the model's are added, no cell but a NULL one changes, and only to the model's fill value. */
  ghost predicate Additive(before: Table, after: Table, columns: seq<ModelColumn>) {
    && (forall n | n in before.columns :: n in after.columns && after.columns[n] == before.columns[n])
    && (forall n | n in after.columns && n !in before.columns :: after.columns[n] && exists c | c in columns :: c.name == n)
    && |after.rows| == |before.rows|
    && (forall i, n | 0 <= i < |before.rows| && n in before.rows[i] :: n in after.rows[i]
          && (after.rows[i][n] == before.rows[i][n]
              || (before.rows[i][n] == Null && FillsWith(columns, n, after.rows[i][n]))))
  }

  ghost predicate FillsWith(columns: seq<ModelColumn>, name: string, v: Value) {
    exists c | c in columns :: c.name == name && !c.nullable && FillValue(c) == v
  }

  /** Whether the statements that a NOT NULL column needs went through, seen from the table before. */
  predicate Reaches(server: Server, table: string, before: Table, c: ModelColumn) {
    if c.name !in before.columns then
      && Added(server, table, c).Some?
      && (server.updates(table, c) || before.rows == [] || Added(server, table, c).value != Null)
    else
      || !before.columns[c.name] || server.updates(table, c)
      || forall i | 0 <= i < |before.rows| :: c.name in before.rows[i] && before.rows[i][c.name] != Null
  }

  /** Both passes on one table: additive, and the goal is reached exactly for the columns whose statements went through. */
  ghost predicate Healed(server: Server, table: string, before: Table, after: Table, columns: seq<ModelColumn>) {
    && WellFormed(after) && Additive(before, after, columns)
    && (forall c | c in columns && !c.nullable && FillValue(c) != Null ::
          NullFree(after, c.name) <==> Reaches(server, table, before, c))
    && (forall c | c in columns && Added(server, table, c).Some? :: c.name in after.columns)
  }

  lemma {:induction false} ColumnIsFound(columns: seq<ModelColumn>, c: ModelColumn)
    requires c in columns && DistinctColumns(columns)
    ensures ColumnAt(columns, c.name) == Some(c)
  {
    ColumnAtFinds(columns, c.name);
  }

  lemma PassesKeepForm(server: Server, table: string, before: Table, between: Table, after: Table, columns: seq<ModelColumn>)
    requires WellFormed(before)
    requires Synced(server, table, before, between, columns) && Filled(server, table, between, after, columns)
    ensures WellFormed(between) && WellFormed(after)
  {
    forall i | 0 <= i < |before.rows| ensures between.rows[i].Keys == between.columns.Keys {
      assert RowSynced(server, table, before, columns, before.rows[i], between.rows[i]);
      assert forall n :: n in before.rows[i] <==> n in before.columns;
    }
    forall i, n | 0 <= i < |before.rows| && n in between.columns && !between.columns[n]
      ensures n in between.rows[i] && between.rows[i][n] != Null
    {
      assert RowSynced(server, table, before, columns, before.rows[i], between.rows[i]);
    }
    forall i | 0 <= i < |before.rows|
      ensures after.rows[i].Keys == between.rows[i].Keys
      ensures forall n | n in between.rows[i] && between.rows[i][n] != Null :: after.rows[i][n] == between.rows[i][n]
    {
      assert RowFilled(server, table, between, columns, between.rows[i], after.rows[i]);
    }
  }

  lemma PassesAreAdditive(server: Server, table: string, before: Table, between: Table, after: Table, columns: seq<ModelColumn>)
    requires WellFormed(before)
    requires Synced(server, table, before, between, columns) && Filled(server, table, between, after, columns)
    ensures Additive(before, after, columns)
  {
    forall i, n | 0 <= i < |before.rows| && n in before.rows[i]
      ensures n in after.rows[i] && (after.rows[i][n] == before.rows[i][n]
        || (before.rows[i][n] == Null && FillsWith(columns, n, after.rows[i][n])))
    {
      assert RowSynced(server, table, before, columns, before.rows[i], between.rows[i]);
      assert RowFilled(server, table, between, columns, between.rows[i], after.rows[i]);
      assert n in before.columns;
      ColumnAtFinds(columns, n);
    }
    forall n | n in after.columns && n !in before.columns ensures exists c | c in columns :: c.name == n {
      ColumnAtFinds(columns, n);
    }
  }

  lemma PassesReachGoal(server: Server, table: string, before: Table, between: Table, after: Table,
                        columns: seq<ModelColumn>, c: ModelColumn)
    requires WellFormed(before) && c in columns && !c.nullable && FillValue(c) != Null
    requires DistinctColumns(columns)
    requires Synced(server, table, before, between, columns) && Filled(server, table, between, after, columns)
    ensures NullFree(after, c.name) <==> Reaches(server, table, before, c)
  {
    ColumnIsFound(columns, c);
    forall i | 0 <= i < |before.rows|
      ensures c.name in before.columns ==>
        c.name in before.rows[i] && c.name in between.rows[i] && between.rows[i][c.name] == before.rows[i][c.name]
      ensures c.name !in before.columns && Added(server, table, c).Some? ==>
        c.name in between.rows[i] && between.rows[i][c.name] == Added(server, table, c).value
      ensures c.name in between.rows[i] ==> c.name in after.rows[i] && (after.rows[i][c.name] == Null <==>
        between.rows[i][c.name] == Null && !Fills(server, table, between.columns, c))
    {
      assert RowSynced(server, table, before, columns, before.rows[i], between.rows[i]);
      assert RowFilled(server, table, between, columns, between.rows[i], after.rows[i]);
    }
    if c.name in before.columns && !Reaches(server, table, before, c) {
      var i :| 0 <= i < |before.rows| && !(c.name in before.rows[i] && before.rows[i][c.name] != Null);
      assert after.rows[i][c.name] == Null;
    } else if c.name !in before.columns && Added(server, table, c).Some? && !Reaches(server, table, before, c) {
      assert between.rows[0][c.name] == Null;
      assert after.rows[0][c.name] == Null;
    }
  }

  lemma PassesHeal(server: Server, table: string, before: Table, between: Table, after: Table, columns: seq<ModelColumn>)
    requires WellFormed(before)
    requires DistinctColumns(columns)
    requires Synced(server, table, before, between, columns) && Filled(server, table, between, after, columns)
    ensures Healed(server, table, before, after, columns)
  {
    PassesKeepForm(server, table, before, between, after, columns);
    PassesAreAdditive(server, table, before, between, after, columns);
    forall c | c in columns && !c.nullable && FillValue(c) != Null
      ensures NullFree(after, c.name) <==> Reaches(server, table, before, c)
    {
      PassesReachGoal(server, table, before, between, after, columns, c);
    }
    forall c | c in columns && Added(server, table, c).Some? ensures c.name in after.columns {
      ColumnIsFound(columns, c);
    }
  }

  // ----- a second startup -----

  /** All statements that the two passes may issue for these columns go through. */
  predicate AllSucceed(server: Server, table: string, columns: seq<ModelColumn>) {
    forall c | c in columns :: Added(server, table, c).Some? && server.updates(table, c)
  }

  /** After a run without failures a second one, whatever its statements would do, changes nothing. */
  lemma SecondRunChangesNothing(first: Server, second: Server, table: string, before: Table, healed: Table,
                                after: Table, columns: seq<ModelColumn>)
    requires Healed(first, table, before, healed, columns) && AllSucceed(first, table, columns)
    requires Healed(second, table, healed, after, columns)
    ensures after == healed
  {
    forall n ensures n in after.columns <==> n in healed.columns {
      assert forall c | c in columns :: c.name in healed.columns;
    }
    assert forall c | c in columns && !c.nullable && FillValue(c) != Null :: NullFree(healed, c.name) by {
      assert forall c | c in columns :: Reaches(first, table, before, c);
    }
    forall i | 0 <= i < |healed.rows| ensures after.rows[i] == healed.rows[i] {
      assert after.rows[i].Keys == healed.rows[i].Keys;
    }
  }

  /** Two startups: the second changes nothing when the first could read and heal every table. */
  method HealTwice(db: Database, first: Server, second: Server, model: seq<ModelTable>)
    returns (healed: map<string, Table>)
    requires GoodModel(model) && forall n | n in db.tables :: WellFormed(db.tables[n])
    requires forall m | m in model :: first.readable(m.name) && AllSucceed(first, m.name, m.columns)
    modifies db
    ensures healed.Keys == old(db.tables).Keys && db.tables == healed
    ensures forall n | n in healed :: HealedOne(first, ModelAt(model, n), n, old(db.tables)[n], healed[n])
  {
    ghost var between := db.Heal(first, model);
    healed := db.tables;
    forall n | n in healed ensures WellFormed(healed[n]) {
      ModelAtFinds(model, n);
      assert HealedOne(first, ModelAt(model, n), n, old(db.tables)[n], healed[n]);
    }
    between := db.Heal(second, model);
    forall n | n in healed ensures db.tables[n] == healed[n] {
      ModelAtFinds(model, n);
      assert HealedOne(second, ModelAt(model, n), n, healed[n], db.tables[n]);
      if ModelAt(model, n).Some? && second.readable(n) {
        var m := ModelAt(model, n).value;
        SecondRunChangesNothing(first, second, n, old(db.tables)[n], healed[n], db.tables[n], m.columns);
      }
    }
  }
}

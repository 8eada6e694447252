/** The two passes of the self-heal cell by cell, and where the values they write come from. */
module SelfHealRows {
  import opened Wrappers
  import opened SelfHeal

  // ----- where a value comes from -----

  /** A text without the space, then without the quotes, around it. */
  function Bare(s: string): string {
    Strip(Strip(s, IsSpace), IsQuote)
  }

  predicate SpellsFalse(s: string) {
    Lower(Bare(s)) in ["0", "false", "f"]
  }

  predicate SpellsTrue(s: string) {
    Lower(Bare(s)) in ["1", "true", "t"]
  }

  lemma SpacesAndQuotes(c: char)
    ensures IsSpace(c) <==> c in [' ', '\t', '\n', '\r']
    ensures IsQuote(c) <==> c in ['\'', '"']
  {
  }

  /** The value for NULLs: the model's own scalar; nothing for a callable; else the server default, read as a boolean or bare. */
  lemma FillValues(c: ModelColumn)
    ensures c.default.Scalar? ==> FillValue(c) == c.default.value
    ensures c.default == Callable || (c.default == NoDefault && c.serverDefault == None) ==> FillValue(c) == Null
    ensures c.default == NoDefault && c.serverDefault.Some? ==>
      var s := c.serverDefault.value;
      FillValue(c) == if c.boolean && SpellsFalse(s) then Flag(false)
                      else if c.boolean && SpellsTrue(s) then Flag(true)
                      else SelfHeal.Text(Bare(s))
  {
  }

  /** The default of an added column: the server default as it is, but for a boolean's spelling. */
  lemma RenderedDefaults(c: ModelColumn)
    ensures c.serverDefault == None ==> RenderServerDefault(c) == None
    ensures c.serverDefault.Some? ==>
      var s := c.serverDefault.value;
      RenderServerDefault(c) == Some(if c.boolean && SpellsFalse(s) then "false"
                                     else if c.boolean && SpellsTrue(s) then "true" else s)
  {
  }

  // ----- what a model and a table have to be -----

  /** Columns of different names in a table, tables of different names in a model. */
  lemma SmallModelsAreGoodIff(a: ModelColumn, b: ModelColumn, m: ModelTable, n: ModelTable)
    ensures DistinctColumns([a, b]) <==> a.name != b.name
    ensures GoodModel([m, n]) <==> m.name != n.name && DistinctColumns(m.columns) && DistinctColumns(n.columns)
  {
    assert [a, b][0] == a && [a, b][1] == b && [m, n][0] == m && [m, n][1] == n;
    assert m in [m, n] && n in [m, n];
  }

  /** A table whose rows have its columns, and a value in each that does not take NULL. */
  lemma WellFormedIff(t: Table)
    ensures WellFormed(t) <==>
      forall row | row in t.rows ::
        row.Keys == t.columns.Keys && forall n | n in t.columns && t.columns[n] == false :: n in row && row[n] != Null
  {
    if forall row | row in t.rows ::
        row.Keys == t.columns.Keys && forall n | n in t.columns && t.columns[n] == false :: n in row && row[n] != Null {
      forall i | 0 <= i < |t.rows|
        ensures t.rows[i].Keys == t.columns.Keys
        ensures forall n | n in t.columns && !t.columns[n] :: n in t.rows[i] && t.rows[i][n] != Null
      {
        assert t.rows[i] in t.rows;
      }
    }
  }

  // ----- the first pass, column by column -----

  predicate AddedWithDefault(server: Server, table: string, c: ModelColumn) {
    server.renders(table, c) && c.serverDefault.Some? && server.addsWithDefault(table, c)
  }

  /** A second attempt without the default, or the only one. */
  predicate AddedBare(server: Server, table: string, c: ModelColumn) {
    server.renders(table, c) && !(c.serverDefault.Some? && server.addsWithDefault(table, c)) && server.addsBare(table, c)
  }

  lemma AddedIff(server: Server, table: string, c: ModelColumn)
    ensures Added(server, table, c).Some? <==> AddedWithDefault(server, table, c) || AddedBare(server, table, c)
    ensures AddedWithDefault(server, table, c) ==>
      RenderServerDefault(c).Some? && Added(server, table, c) == Some(server.evaluate(RenderServerDefault(c).value))
    ensures AddedBare(server, table, c) ==> Added(server, table, c) == Some(Null)
  {
  }

  /** What the cell of a missing column holds after the first pass. */
  function FirstValue(server: Server, table: string, c: ModelColumn): Value {
    if AddedWithDefault(server, table, c) && RenderServerDefault(c).Some?
    then server.evaluate(RenderServerDefault(c).value) else Null
  }

  /** What the second pass makes of a cell in a column that takes NULL. */
  function Repaired(server: Server, table: string, c: ModelColumn, v: Value): Value {
    if v == Null && !c.nullable && server.updates(table, c) then FillValue(c) else v
  }

  /** A column of the model that the table lacked: there exactly if one of its statements went through, nullable, in every row. */
  lemma MissingColumn(server: Server, table: string, before: Table, between: Table, after: Table,
                      columns: seq<ModelColumn>, c: ModelColumn, i: nat)
    requires WellFormed(before) && DistinctColumns(columns) && c in columns && c.name !in before.columns
    requires Synced(server, table, before, between, columns) && Filled(server, table, between, after, columns)
    ensures c.name in after.columns <==> AddedWithDefault(server, table, c) || AddedBare(server, table, c)
    ensures c.name in after.columns ==> after.columns[c.name]
    ensures c.name in after.columns && i < |before.rows| ==>
      i < |after.rows| && c.name in after.rows[i]
      && after.rows[i][c.name] == Repaired(server, table, c, FirstValue(server, table, c))
  {
    ColumnIsFound(columns, c);
    AddedIff(server, table, c);
    if i < |before.rows| {
      assert RowSynced(server, table, before, columns, before.rows[i], between.rows[i]);
      assert RowFilled(server, table, between, columns, between.rows[i], after.rows[i]);
    }
  }

  /** A column that was there keeps its place; a NULL in it is repaired if the model wants a value and the table takes NULL. */
  lemma PresentColumn(server: Server, table: string, before: Table, between: Table, after: Table,
                      columns: seq<ModelColumn>, c: ModelColumn, i: nat)
    requires WellFormed(before) && DistinctColumns(columns) && c in columns && c.name in before.columns
    requires Synced(server, table, before, between, columns) && Filled(server, table, between, after, columns)
    requires i < |before.rows|
    ensures c.name in after.columns && after.columns[c.name] == before.columns[c.name]
    ensures i < |after.rows| && c.name in before.rows[i] && c.name in after.rows[i]
    ensures after.rows[i][c.name] ==
      if before.columns[c.name] then Repaired(server, table, c, before.rows[i][c.name]) else before.rows[i][c.name]
  {
    ColumnIsFound(columns, c);
    assert RowSynced(server, table, before, columns, before.rows[i], between.rows[i]);
    assert RowFilled(server, table, between, columns, between.rows[i], after.rows[i]);
    assert before.rows[i].Keys == before.columns.Keys;
  }

  /** A column that is no column of the model is left alone, and none comes in. */
  lemma OtherColumn(server: Server, table: string, before: Table, between: Table, after: Table,
                    columns: seq<ModelColumn>, name: string, i: nat)
    requires WellFormed(before) && forall c | c in columns :: c.name != name
    requires Synced(server, table, before, between, columns) && Filled(server, table, between, after, columns)
    ensures name in after.columns <==> name in before.columns
    ensures name in before.columns ==> after.columns[name] == before.columns[name]
    ensures name in before.columns && i < |before.rows| ==>
      i < |after.rows| && name in before.rows[i] && name in after.rows[i] && after.rows[i][name] == before.rows[i][name]
  {
    ColumnAtFinds(columns, name);
    if i < |before.rows| {
      assert RowSynced(server, table, before, columns, before.rows[i], between.rows[i]);
      assert RowFilled(server, table, between, columns, between.rows[i], after.rows[i]);
      assert before.rows[i].Keys == before.columns.Keys;
    }
  }
}

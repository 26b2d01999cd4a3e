/** The INSERT statement, which the Postgres and the MariaDB backends format with
    the same code: the non-default fields' columns, one placeholder per column,
    and a RETURNING clause for the default fields when there are any. */
module InsertCommon {
  import opened Seqs
  import opened Text
  import opened Dialects
  import opened Tables
  import opened Sql

  /** How `insert` runs its query: `execute` when nothing is generated by the
      database, `fetch_one` to read the generated values back. */
  function InsertFetch(t: Table): (r: Fetch)
    ensures r == Execute <==> |DefaultFields(t)| == 0
    ensures r == Execute || r == FetchOne
  {
    if |DefaultFields(t)| == 0 then Execute else FetchOne
  }

  /** The quoted column of each field. */
  function ColumnFragments(fields: seq<TableField>, b: Backend): (r: seq<string>)
    ensures |r| == |fields|
    ensures forall i :: 0 <= i < |fields| ==> r[i] == Column(fields[i], b)
  {
    seq(|fields|, i requires 0 <= i < |fields| => Column(fields[i], b))
  }

  /** The column list of the insert: the non-default fields' quoted columns. */
  function InsertColumns(t: Table, b: Backend): string
  {
    Join(ColumnFragments(InsertableFields(t), b), ", ")
  }

  /** The VALUES list: as many placeholders of a fresh generator as columns. */
  function InsertValues(t: Table, b: Backend): string
  {
    Join(Placeholders(b, |InsertableFields(t)|), ", ")
  }

  /** The RETURNING list: the default fields' SELECT items. */
  function ReturningList(t: Table, b: Backend): string
  {
    Join(SelectFragments(DefaultFields(t), b), ", ")
  }

  /** `insert_sql` as the macro writes it. Whether a RETURNING clause is added is
      decided by whether the joined RETURNING list is empty, which is exactly
      when no field has a database default: the statement has a RETURNING clause,
      listing the default fields' SELECT items in order, exactly when default
      fields exist. */
  function InsertSql(t: Table, b: Backend): (r: string)
    ensures |DefaultFields(t)| == 0 ==> (r ==
      "INSERT INTO " + Name(t, b) + " (" + InsertColumns(t, b) + ") VALUES (" + InsertValues(t, b) + ")")
    ensures |DefaultFields(t)| > 0 ==> (r ==
      "INSERT INTO " + Name(t, b) + " (" + InsertColumns(t, b) + ") VALUES (" + InsertValues(t, b)
      + ") RETURNING " + ReturningList(t, b))
  {
    ReturningEmptyIff(t, b);
    var columns := InsertColumns(t, b);
    var fields := InsertValues(t, b);
    var returningFields := ReturningList(t, b);
    if returningFields == "" then
      "INSERT INTO " + Name(t, b) + " (" + columns + ") VALUES (" + fields + ")"
    else
      "INSERT INTO " + Name(t, b) + " (" + columns + ") VALUES (" + fields + ") RETURNING " + returningFields
  }

  /** The RETURNING list is empty exactly when there are no default fields, since
      every SELECT item holds at least a quoted column. */
  lemma ReturningEmptyIff(t: Table, b: Backend)
    ensures ReturningList(t, b) == "" <==> |DefaultFields(t)| == 0
  {
    var d := DefaultFields(t);
    if |d| > 0 {
      QuotedShape(b, d[0].columnName);
      assert |FmtForSelect(d[0], b)| >= 2;
    }
    JoinEmptyIff(SelectFragments(d, b), ", ");
  }

  // ---------------------------------------------------------------- template

  function ColumnPieces(f: TableField): seq<Piece> { [Ident(f.columnName)] }
  function ValuePieces(f: TableField): seq<Piece> { [Value(FmtAsArgument(f))] }

  function ColumnPiecesEach(fields: seq<TableField>): (r: seq<seq<Piece>>)
    ensures |r| == |fields|
    ensures forall i :: 0 <= i < |fields| ==> r[i] == ColumnPieces(fields[i])
  {
    seq(|fields|, i requires 0 <= i < |fields| => ColumnPieces(fields[i]))
  }

  function ValuePiecesEach(fields: seq<TableField>): (r: seq<seq<Piece>>)
    ensures |r| == |fields|
    ensures forall i :: 0 <= i < |fields| ==> r[i] == ValuePieces(fields[i])
  {
    seq(|fields|, i requires 0 <= i < |fields| => ValuePieces(fields[i]))
  }

  function ColumnsPieces(t: Table): seq<Piece>
  {
    JoinPieces(ColumnPiecesEach(InsertableFields(t)), ", ")
  }

  function ValuesPieces(t: Table): seq<Piece>
  {
    JoinPieces(ValuePiecesEach(InsertableFields(t)), ", ")
  }

  /** `INSERT INTO <table> (<columns>`. */
  function InsertOpenPieces(t: Table): seq<Piece>
  {
    [Lit("INSERT INTO "), Ident(t.table), Lit(" (")] + ColumnsPieces(t)
  }

  /** `INSERT INTO <table> (<columns>) VALUES (<values>`. */
  function InsertValuesPieces(t: Table): seq<Piece>
  {
    InsertOpenPieces(t) + [Lit(") VALUES (")] + ValuesPieces(t)
  }

  /** The insert statement: the non-default fields' columns, each against a value
      slot bound to that field's argument, then `RETURNING` with the default
      fields' SELECT items when there are default fields. */
  function InsertStmt(t: Table): seq<Piece>
  {
    if |DefaultFields(t)| == 0 then InsertValuesPieces(t) + [Lit(")")]
    else InsertValuesPieces(t) + [Lit(") RETURNING ")] + ColumnListPieces(DefaultFields(t))
  }

  /** The column list binds nothing and renders as the joined quoted columns. */
  lemma ColumnsRender(t: Table, b: Backend, issued: nat)
    ensures Render(SyntaxOf(b), ColumnsPieces(t), issued) == InsertColumns(t, b)
    ensures Args(ColumnsPieces(t)) == []
  {
    var fields := InsertableFields(t);
    var ts := ColumnPiecesEach(fields);
    forall i | 0 <= i < |ts|
      ensures Args(ts[i]) == [] && |Args(ts[i])| == 0
      ensures Render(SyntaxOf(b), ts[i], issued) == Column(fields[i], b)
    {
      RenderOne(SyntaxOf(b), Ident(fields[i].columnName), issued);
    }
    RenderEachUniform(SyntaxOf(b), ts, 0, issued);
    assert RenderEach(SyntaxOf(b), ts, issued) == ColumnFragments(fields, b);
    RenderJoin(SyntaxOf(b), ts, ", ", issued);
    ArgsJoin(ts, ", ");
    ArgsEachNone(ts);
  }

  /** The VALUES list holds the placeholders that follow the `issued` already
      taken, and binds the fields' arguments in the same order. */
  lemma ValuesRender(t: Table, b: Backend)
    ensures Render(SyntaxOf(b), ValuesPieces(t), 0) == InsertValues(t, b)
    ensures Args(ValuesPieces(t)) == Map(InsertableFields(t), FmtAsArgument)
  {
    var fields := InsertableFields(t);
    var ts := ValuePiecesEach(fields);
    var args := Map(fields, FmtAsArgument);
    forall i | 0 <= i < |ts|
      ensures Args(ts[i]) == [args[i]] && |Args(ts[i])| == 1
      ensures Render(SyntaxOf(b), ts[i], i) == Placeholder(b, i + 1)
    {
      RenderOne(SyntaxOf(b), Value(FmtAsArgument(fields[i])), i);
    }
    RenderEachUniform(SyntaxOf(b), ts, 1, 0);
    assert RenderEach(SyntaxOf(b), ts, 0) == Placeholders(b, |fields|);
    RenderJoin(SyntaxOf(b), ts, ", ", 0);
    ArgsJoin(ts, ", ");
    ArgsEachSingles(ts, args);
  }

  lemma InsertOpenArgs(t: Table)
    ensures Args(InsertOpenPieces(t)) == []
  {
    var head := [Lit("INSERT INTO "), Ident(t.table), Lit(" (")];
    ArgsThree(head[0], head[1], head[2]);
    ColumnsRender(t, Pg, 0);
    ArgsAppend(head, ColumnsPieces(t));
  }

  lemma InsertOpenRender(t: Table, b: Backend)
    ensures Render(SyntaxOf(b), InsertOpenPieces(t), 0) == "INSERT INTO " + Name(t, b) + " (" + InsertColumns(t, b)
  {
    var d := SyntaxOf(b);
    var head := [Lit("INSERT INTO "), Ident(t.table), Lit(" (")];
    RenderThree(d, head[0], head[1], head[2], 0);
    ArgsThree(head[0], head[1], head[2]);
    ColumnsRender(t, b, 0);
    RenderAppend(d, head, ColumnsPieces(t), 0);
  }

  lemma InsertValuesArgs(t: Table)
    ensures Args(InsertValuesPieces(t)) == Map(InsertableFields(t), FmtAsArgument)
  {
    var s1 := InsertOpenPieces(t);
    var s2 := s1 + [Lit(") VALUES (")];
    InsertOpenArgs(t);
    ArgsSnoc(s1, Lit(") VALUES ("));
    ValuesRender(t, Pg);
    ArgsAppend(s2, ValuesPieces(t));
  }

  lemma InsertValuesRender(t: Table, b: Backend)
    ensures Render(SyntaxOf(b), InsertValuesPieces(t), 0) ==
      "INSERT INTO " + Name(t, b) + " (" + InsertColumns(t, b) + ") VALUES (" + InsertValues(t, b)
  {
    var d := SyntaxOf(b);
    var s1 := InsertOpenPieces(t);
    var s2 := s1 + [Lit(") VALUES (")];
    InsertOpenArgs(t);
    ArgsSnoc(s1, Lit(") VALUES ("));
    InsertOpenRender(t, b);
    RenderSnoc(d, s1, Lit(") VALUES ("), 0);
    ValuesRender(t, b);
    RenderAppend(d, s2, ValuesPieces(t), 0);
  }

  lemma InsertPlainRender(t: Table, b: Backend)
    requires |DefaultFields(t)| == 0
    ensures Render(SyntaxOf(b), InsertStmt(t), 0) ==
      "INSERT INTO " + Name(t, b) + " (" + InsertColumns(t, b) + ") VALUES (" + InsertValues(t, b) + ")"
  {
    var v := InsertValuesPieces(t);
    InsertValuesRender(t, b);
    RenderSnoc(SyntaxOf(b), v, Lit(")"), 0);
  }

  lemma InsertPlainArgs(t: Table)
    requires |DefaultFields(t)| == 0
    ensures Args(InsertStmt(t)) == Map(InsertableFields(t), FmtAsArgument)
  {
    var v := InsertValuesPieces(t);
    InsertValuesArgs(t);
    ArgsSnoc(v, Lit(")"));
  }

  lemma InsertReturningRender(t: Table, b: Backend)
    ensures Render(SyntaxOf(b), InsertValuesPieces(t) + [Lit(") RETURNING ")] + ColumnListPieces(DefaultFields(t)), 0) ==
      "INSERT INTO " + Name(t, b) + " (" + InsertColumns(t, b) + ") VALUES (" + InsertValues(t, b)
      + ") RETURNING " + ReturningList(t, b)
  {
    var s := InsertValuesPieces(t) + [Lit(") RETURNING ")];
    var cols := ColumnListPieces(DefaultFields(t));
    var k := |Args(s)|;
    ReturningOpenRender(t, b);
    ColumnListRender(b, DefaultFields(t), k);
    RenderAppend(SyntaxOf(b), s, cols, 0);
  }

  lemma InsertReturningArgs(t: Table)
    requires |DefaultFields(t)| > 0
    ensures Args(InsertStmt(t)) == Map(InsertableFields(t), FmtAsArgument)
  {
    var d := DefaultFields(t);
    var v := InsertValuesPieces(t);
    var s := v + [Lit(") RETURNING ")];
    InsertValuesArgs(t);
    ArgsSnoc(v, Lit(") RETURNING "));
    ColumnListRender(Pg, d, 0);
    ArgsAppend(s, ColumnListPieces(d));
  }

  lemma ReturningOpenRender(t: Table, b: Backend)
    ensures Render(SyntaxOf(b), InsertValuesPieces(t) + [Lit(") RETURNING ")], 0) ==
      "INSERT INTO " + Name(t, b) + " (" + InsertColumns(t, b) + ") VALUES (" + InsertValues(t, b)
      + ") RETURNING "
  {
    var v := InsertValuesPieces(t);
    InsertValuesRender(t, b);
    RenderSnoc(SyntaxOf(b), v, Lit(") RETURNING "), 0);
  }

  /** `insert_sql` renders the insert statement, so the k-th placeholder binds the
      k-th non-default field's argument, and RETURNING binds nothing. */
  lemma InsertRender(t: Table, b: Backend)
    ensures InsertSql(t, b) == Render(SyntaxOf(b), InsertStmt(t), 0)
    ensures Args(InsertStmt(t)) == Map(InsertableFields(t), FmtAsArgument)
  {
    if |DefaultFields(t)| == 0 {
      InsertPlainRender(t, b);
      InsertPlainArgs(t);
    } else {
      InsertReturningRender(t, b);
      InsertReturningArgs(t);
    }
  }

  // ---------------------------------------------------------------- the returned row

  /** Where `insert` takes a field of the row it returns from: the caller's insert
      struct (`self.<field>`), the generated row by column name
      (`_generated.<name>`), or the generated row by position (`_generated.get(i)`). */
  datatype ValueSource = FromCaller | ByName(name: string) | ByOrdinal(index: nat)

  /** One `field: value` of the `Self::Table { .. }` literal. */
  datatype FieldInit = FieldInit(field: string, source: ValueSource)

  /** The `ormx::Insert` impl: the insert struct, the table struct it yields, the
      query and the returned row's field initialisers in the order written. */
  datatype InsertImpl = InsertImpl(insertIdent: string, tableIdent: string, query: Query, row: seq<FieldInit>)

  function InitField(i: FieldInit): string { i.field }

  /** The non-default fields, each taken from the caller, in declaration order. */
  function CallerInits(t: Table): (r: seq<FieldInit>)
    ensures |r| == |InsertableFields(t)|
    ensures forall i :: 0 <= i < |r| ==> r[i] == FieldInit(InsertableFields(t)[i].field, FromCaller)
  {
    var fields := InsertableFields(t);
    seq(|fields|, i requires 0 <= i < |fields| => FieldInit(fields[i].field, FromCaller))
  }

  /** The query `insert` runs: `insert_sql` with the non-default fields' arguments,
      by `execute` or `fetch_one`. */
  function InsertQuery(t: Table, b: Backend): (q: Query)
    ensures q.sql == Render(SyntaxOf(b), InsertStmt(t), 0)
    ensures q.args == Args(InsertStmt(t)) == Map(InsertableFields(t), FmtAsArgument)
    ensures q.fetch == Execute <==> |DefaultFields(t)| == 0
  {
    InsertRender(t, b);
    Query(InsertSql(t, b), Map(InsertableFields(t), FmtAsArgument), InsertFetch(t))
  }

  /** When the generated part of the row names the default fields in order, the
      returned row initialises every field of the table exactly as often as the
      table declares it: the caller's part and the generated part together are a
      permutation of the declared fields. */
  lemma {:induction false} RowCoversFields(t: Table, generated: seq<FieldInit>)
    requires Map(generated, InitField) == Map(DefaultFields(t), FieldName)
    ensures multiset(Map(CallerInits(t) + generated, InitField)) == multiset(Map(t.fields, FieldName))
  {
    var caller := CallerInits(t);
    assert Map(caller, InitField) == Map(InsertableFields(t), FieldName);
    MapAppend(caller, generated, InitField);
    FilterPartitionMapped(t.fields, IsInsertable, IsDefault, FieldName);
  }
}

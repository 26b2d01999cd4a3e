/** The statements every derived table gets, whatever the dialect: select by id,
    select all (plain and paginated), update by id and delete by id, and the
    `ormx::Table`/`ormx::Delete` impls that carry them.

    Each statement is built twice: as the macro writes it (string formatting and a
    binding generator) and as a template of pieces. The lemmas show the two agree,
    so the text's k-th placeholder binds the k-th argument the macro passes. */
module CommonTable {
  import opened Wrappers
  import opened Seqs
  import opened Text
  import opened Dialects
  import opened Tables
  import opened Sql

  /** `SELECT <column list> FROM <table>`. */
  function SelectFromPieces(t: Table): seq<Piece>
  {
    [Lit("SELECT ")] + ColumnListPieces(t.fields) + [Lit(" FROM ")] + [Ident(t.table)]
  }

  lemma SelectFromRender(t: Table, b: Backend, issued: nat)
    ensures Render(SyntaxOf(b), SelectFromPieces(t), issued) ==
      "SELECT " + SelectColumnList(t, b) + " FROM " + Name(t, b)
    ensures Args(SelectFromPieces(t)) == []
  {
    var cols := ColumnListPieces(t.fields);
    var s2 := [Lit("SELECT ")] + cols;
    var s3 := s2 + [Lit(" FROM ")];
    ColumnListRender(b, t.fields, issued);
    RenderCons(SyntaxOf(b), Lit("SELECT "), cols, issued);
    ArgsCons(Lit("SELECT "), cols);
    RenderSnoc(SyntaxOf(b), s2, Lit(" FROM "), issued);
    ArgsSnoc(s2, Lit(" FROM "));
    RenderSnoc(SyntaxOf(b), s3, Ident(t.table), issued);
    ArgsSnoc(s3, Ident(t.table));
  }

  /** `<prefix> WHERE <id column> = <next binding>`, binding `e`. */
  function WhereIdPieces(prefix: seq<Piece>, t: Table, e: Expr): seq<Piece>
  {
    prefix + [Lit(" WHERE ")] + [Ident(t.id.columnName)] + [Lit(" = ")] + [Value(e)]
  }

  lemma WhereIdRender(b: Backend, prefix: seq<Piece>, t: Table, e: Expr, issued: nat)
    ensures Render(SyntaxOf(b), WhereIdPieces(prefix, t, e), issued) ==
      Render(SyntaxOf(b), prefix, issued) + " WHERE " + Column(t.id, b) + " = "
      + Placeholder(b, issued + |Args(prefix)| + 1)
    ensures Args(WhereIdPieces(prefix, t, e)) == Args(prefix) + [e]
  {
    var s1 := prefix + [Lit(" WHERE ")];
    var s2 := s1 + [Ident(t.id.columnName)];
    var s3 := s2 + [Lit(" = ")];
    RenderSnoc(SyntaxOf(b), prefix, Lit(" WHERE "), issued);
    ArgsSnoc(prefix, Lit(" WHERE "));
    RenderSnoc(SyntaxOf(b), s1, Ident(t.id.columnName), issued);
    ArgsSnoc(s1, Ident(t.id.columnName));
    RenderSnoc(SyntaxOf(b), s2, Lit(" = "), issued);
    ArgsSnoc(s2, Lit(" = "));
    RenderSnoc(SyntaxOf(b), s3, Value(e), issued);
    ArgsSnoc(s3, Value(e));
  }

  // ---------------------------------------------------------------- get

  /** The select-by-id statement: every column of the row whose id is bound. */
  function GetStmt(t: Table): seq<Piece>
  {
    WhereIdPieces(SelectFromPieces(t), t, Local("id"))
  }

  /** `get`'s SQL text as the macro formats it, the placeholder being the first
      item of a fresh binding generator: it is the select-by-id template rendered. */
  function GetSql(t: Table, b: Backend): (r: string)
    ensures r == Render(SyntaxOf(b), GetStmt(t), 0)
  {
    SelectFromRender(t, b, 0);
    WhereIdRender(b, SelectFromPieces(t), t, Local("id"), 0);
    "SELECT " + SelectColumnList(t, b) + " FROM " + Name(t, b)
    + " WHERE " + Column(t.id, b) + " = " + Placeholder(b, 1)
  }

  /** `get`: `query_as!(Self, <sql>, id).fetch_one(db)`. */
  function GetQuery(t: Table, b: Backend): (q: Query)
    ensures q.sql == Render(SyntaxOf(b), GetStmt(t), 0)
    ensures q.args == Args(GetStmt(t)) == [Local("id")]
    ensures q.fetch == FetchOne
  {
    SelectFromRender(t, Pg, 0);
    WhereIdRender(Pg, SelectFromPieces(t), t, Local("id"), 0);
    Query(GetSql(t, b), [Local("id")], FetchOne)
  }

  // ---------------------------------------------------------------- update

  /** One SET item: `<column> = <next binding>`, binding the field's argument. */
  function AssignmentPieces(f: TableField): seq<Piece>
  {
    [Ident(f.columnName), Lit(" = "), Value(FmtAsArgument(f))]
  }

  function AssignmentPiecesEach(fields: seq<TableField>): (r: seq<seq<Piece>>)
    ensures |r| == |fields|
    ensures forall i :: 0 <= i < |fields| ==> r[i] == AssignmentPieces(fields[i])
  {
    seq(|fields|, i requires 0 <= i < |fields| => AssignmentPieces(fields[i]))
  }

  /** `SET` list of the update: every field except the id, in declaration order. */
  function SetListPieces(t: Table): seq<Piece>
  {
    JoinPieces(AssignmentPiecesEach(FieldsExceptId(t)), ", ")
  }

  /** The update statement: every non-id column is set from its own binding, and
      the row is chosen by the id, bound last. */
  function UpdateStmt(t: Table): seq<Piece>
  {
    WhereIdPieces(UpdateSetPieces(t), t, SelfField(t.id.field))
  }

  /** `UPDATE <table> SET <set list>`. */
  function UpdateSetPieces(t: Table): seq<Piece>
  {
    [Lit("UPDATE "), Ident(t.table), Lit(" SET ")] + SetListPieces(t)
  }

  /** The SET items `update` collects: the i-th non-id field's column against the
      generator's (i+1)-th placeholder. */
  function UpdateAssignments(t: Table, b: Backend): (r: seq<string>)
    ensures |r| == |FieldsExceptId(t)|
    ensures forall i :: 0 <= i < |r| ==>
      r[i] == Column(FieldsExceptId(t)[i], b) + " = " + Placeholder(b, i + 1)
  {
    var fields := FieldsExceptId(t);
    seq(|fields|, i requires 0 <= i < |fields| => Column(fields[i], b) + " = " + Placeholder(b, i + 1))
  }

  /** The arguments `update` passes: each non-id field as `fmt_as_argument` makes
      it, in order, then `self.<id>`. */
  function UpdateArgs(t: Table): seq<Expr>
  {
    Map(FieldsExceptId(t), FmtAsArgument) + [SelfField(t.id.field)]
  }

  lemma AssignmentRender(b: Backend, f: TableField, issued: nat)
    ensures Render(SyntaxOf(b), AssignmentPieces(f), issued) == Column(f, b) + " = " + Placeholder(b, issued + 1)
    ensures Args(AssignmentPieces(f)) == [FmtAsArgument(f)]
  {
    RenderThree(SyntaxOf(b), Ident(f.columnName), Lit(" = "), Value(FmtAsArgument(f)), issued);
    ArgsThree(Ident(f.columnName), Lit(" = "), Value(FmtAsArgument(f)));
  }

  /** The SET list renders as the joined assignments, with placeholders numbered
      from `issued + 1`, and binds the non-id fields' arguments in order. */
  lemma SetListRender(t: Table, b: Backend)
    ensures Render(SyntaxOf(b), SetListPieces(t), 0) == Join(UpdateAssignments(t, b), ", ")
    ensures Args(SetListPieces(t)) == Map(FieldsExceptId(t), FmtAsArgument)
  {
    var fields := FieldsExceptId(t);
    var ts := AssignmentPiecesEach(fields);
    var args := Map(fields, FmtAsArgument);
    forall i | 0 <= i < |ts|
      ensures Args(ts[i]) == [args[i]]
      ensures |Args(ts[i])| == 1
      ensures Render(SyntaxOf(b), ts[i], i) == UpdateAssignments(t, b)[i]
    {
      AssignmentRender(b, fields[i], i);
    }
    RenderEachUniform(SyntaxOf(b), ts, 1, 0);
    assert RenderEach(SyntaxOf(b), ts, 0) == UpdateAssignments(t, b);
    RenderJoin(SyntaxOf(b), ts, ", ", 0);
    ArgsJoin(ts, ", ");
    ArgsEachSingles(ts, args);
  }

  /** The update statement renders as `update` formats it, and binds the
      arguments `update` passes. */
  lemma UpdateRender(t: Table, b: Backend)
    ensures Render(SyntaxOf(b), UpdateStmt(t), 0) ==
      "UPDATE " + Name(t, b) + " SET " + Join(UpdateAssignments(t, b), ", ")
      + " WHERE " + Column(t.id, b) + " = " + Placeholder(b, |FieldsExceptId(t)| + 1)
    ensures Args(UpdateStmt(t)) == UpdateArgs(t)
  {
    UpdateSetRender(t, b);
    WhereIdRender(b, UpdateSetPieces(t), t, SelfField(t.id.field), 0);
  }

  lemma UpdateSetRender(t: Table, b: Backend)
    ensures Render(SyntaxOf(b), UpdateSetPieces(t), 0) ==
      "UPDATE " + Name(t, b) + " SET " + Join(UpdateAssignments(t, b), ", ")
    ensures Args(UpdateSetPieces(t)) == Map(FieldsExceptId(t), FmtAsArgument)
    ensures |Args(UpdateSetPieces(t))| == |FieldsExceptId(t)|
  {
    var head := [Lit("UPDATE "), Ident(t.table), Lit(" SET ")];
    SetListRender(t, b);
    RenderThree(SyntaxOf(b), head[0], head[1], head[2], 0);
    ArgsThree(head[0], head[1], head[2]);
    RenderAppend(SyntaxOf(b), head, SetListPieces(t), 0);
    ArgsAppend(head, SetListPieces(t));
  }

  /** `update`: one binding generator numbers the SET items in order and then the
      WHERE clause; the arguments follow the same order. */
  method Update(t: Table, b: Backend) returns (q: Query)
    ensures q.sql ==
      "UPDATE " + Name(t, b) + " SET " + Join(UpdateAssignments(t, b), ", ")
      + " WHERE " + Column(t.id, b) + " = " + Placeholder(b, |FieldsExceptId(t)| + 1)
    ensures q.sql == Render(SyntaxOf(b), UpdateStmt(t), 0)
    ensures q.args == Args(UpdateStmt(t)) == UpdateArgs(t)
    ensures q.fetch == Execute
  {
    var bindings := new Bindings(b);
    var fields := FieldsExceptId(t);
    var assignments: seq<string> := [];
    for i := 0 to |fields|
      invariant bindings.Valid() && bindings.backend == b && bindings.issued == i
      invariant assignments == UpdateAssignments(t, b)[..i]
    {
      var p := bindings.Next();
      var fragment := Column(fields[i], b) + " = " + p;
      assert fragment == UpdateAssignments(t, b)[i];
      assert UpdateAssignments(t, b)[..i + 1] == UpdateAssignments(t, b)[..i] + [fragment];
      assignments := assignments + [fragment];
    }
    assert assignments == UpdateAssignments(t, b);
    var joined := Join(assignments, ", ");
    var p := bindings.Next();
    var sql := "UPDATE " + Name(t, b) + " SET " + joined + " WHERE " + Column(t.id, b) + " = " + p;
    var otherArguments := Map(fields, FmtAsArgument);
    UpdateRender(t, b);
    q := Query(sql, otherArguments + [SelfField(t.id.field)], Execute);
  }

  // ---------------------------------------------------------------- stream_all

  /** The ORDER BY of the select-all statements: the explicit `order_by` text,
      verbatim, or else the id column descending. */
  function OrderByPieces(t: Table): seq<Piece>
  {
    match t.orderBy
    case None => [Ident(t.id.columnName), Lit(" DESC")]
    case Some(order) => [Lit(order)]
  }

  /** The ORDER BY text as `stream_all` formats it: the explicit `order_by`
      exactly when one is given (it is not quoted or extended), and otherwise the
      quoted id column with ` DESC`. It is the ORDER BY template rendered. */
  function OrderBy(t: Table, b: Backend): (r: string)
    ensures r == Render(SyntaxOf(b), OrderByPieces(t), 0)
    ensures t.orderBy.Some? ==> r == t.orderBy.value
    ensures t.orderBy.None? ==> r == Quoted(b, t.id.columnName) + " DESC"
  {
    match t.orderBy
    case None =>
      RenderTwo(SyntaxOf(b), Ident(t.id.columnName), Lit(" DESC"), 0);
      Column(t.id, b) + " DESC"
    case Some(order) =>
      RenderOne(SyntaxOf(b), Lit(order), 0);
      order
  }

  /** The ORDER BY binds nothing. */
  lemma OrderByArgs(t: Table)
    ensures Args(OrderByPieces(t)) == []
  {
    match t.orderBy
    case None => RenderTwo(SyntaxOf(Pg), Ident(t.id.columnName), Lit(" DESC"), 0);
    case Some(order) => RenderOne(SyntaxOf(Pg), Lit(order), 0);
  }

  /** `SELECT <columns> FROM <table> ORDER BY <order>`. */
  function StreamAllStmt(t: Table): seq<Piece>
  {
    SelectFromPieces(t) + [Lit(" ORDER BY ")] + OrderByPieces(t)
  }

  /** `stream_all`'s SQL text as the macro formats it: the select-all template
      rendered. */
  function StreamAllSql(t: Table, b: Backend): (r: string)
    ensures r == Render(SyntaxOf(b), StreamAllStmt(t), 0)
  {
    var s := SelectFromPieces(t) + [Lit(" ORDER BY ")];
    SelectFromRender(t, b, 0);
    RenderSnoc(SyntaxOf(b), SelectFromPieces(t), Lit(" ORDER BY "), 0);
    ArgsSnoc(SelectFromPieces(t), Lit(" ORDER BY "));
    RenderAppend(SyntaxOf(b), s, OrderByPieces(t), 0);
    "SELECT " + SelectColumnList(t, b) + " FROM " + Name(t, b) + " ORDER BY " + OrderBy(t, b)
  }

  /** The select-all statement binds nothing. */
  lemma StreamAllArgs(t: Table)
    ensures Args(StreamAllStmt(t)) == []
  {
    var s := SelectFromPieces(t) + [Lit(" ORDER BY ")];
    SelectFromRender(t, Pg, 0);
    ArgsSnoc(SelectFromPieces(t), Lit(" ORDER BY "));
    OrderByArgs(t);
    ArgsAppend(s, OrderByPieces(t));
  }

  /** `stream_all`: `query_as!(Self, <sql>).fetch(db)`, with no arguments. */
  function StreamAllQuery(t: Table, b: Backend): (q: Query)
    ensures q.sql == Render(SyntaxOf(b), StreamAllStmt(t), 0)
    ensures q.args == Args(StreamAllStmt(t)) == []
    ensures q.fetch == FetchAll
  {
    StreamAllArgs(t);
    Query(StreamAllSql(t, b), [], FetchAll)
  }

  // ---------------------------------------------------------------- stream_all_paginated

  /** The parameters of the generated `stream_all_paginated`, in declaration order. */
  const PaginatedParams: seq<string> := ["offset", "limit"]

  /** The select-all statement with `LIMIT` bound first, `OFFSET` second, and a
      trailing space. */
  function PaginatedStmt(t: Table): seq<Piece>
  {
    LimitPieces(t) + [Lit(" OFFSET ")] + [Value(Local("offset"))] + [Lit(" ")]
  }

  /** `... ORDER BY <order> LIMIT <first binding>`. */
  function LimitPieces(t: Table): seq<Piece>
  {
    StreamAllStmt(t) + [Lit(" LIMIT ")] + [Value(Local("limit"))]
  }

  /** LIMIT binds the statement's first value slot, whatever the syntax. */
  lemma LimitRenderIn(d: Syntax, t: Table)
    ensures Render(d, LimitPieces(t), 0) == Render(d, StreamAllStmt(t), 0) + " LIMIT " + d.placeholder(1)
  {
    var s0 := StreamAllStmt(t);
    var s1 := s0 + [Lit(" LIMIT ")];
    StreamAllArgs(t);
    RenderSnoc(d, s0, Lit(" LIMIT "), 0);
    ArgsSnoc(s0, Lit(" LIMIT "));
    RenderSnoc(d, s1, Value(Local("limit")), 0);
  }

  lemma LimitArgs(t: Table)
    ensures Args(LimitPieces(t)) == [Local("limit")]
  {
    var s0 := StreamAllStmt(t);
    var s1 := s0 + [Lit(" LIMIT ")];
    StreamAllArgs(t);
    ArgsSnoc(s0, Lit(" LIMIT "));
    ArgsSnoc(s1, Value(Local("limit")));
  }

  /** OFFSET binds the statement's second value slot, whatever the syntax. */
  lemma PaginatedRenderIn(d: Syntax, t: Table)
    ensures Render(d, PaginatedStmt(t), 0) ==
      Render(d, LimitPieces(t), 0) + " OFFSET " + d.placeholder(2) + " "
  {
    var s2 := LimitPieces(t);
    var s3 := s2 + [Lit(" OFFSET ")];
    var s4 := s3 + [Value(Local("offset"))];
    LimitArgs(t);
    RenderSnoc(d, s2, Lit(" OFFSET "), 0);
    ArgsSnoc(s2, Lit(" OFFSET "));
    RenderSnoc(d, s3, Value(Local("offset")), 0);
    ArgsSnoc(s3, Value(Local("offset")));
    RenderSnoc(d, s4, Lit(" "), 0);
  }

  lemma PaginatedArgs(t: Table)
    ensures Args(PaginatedStmt(t)) == [Local("limit"), Local("offset")]
  {
    var s2 := LimitPieces(t);
    var s3 := s2 + [Lit(" OFFSET ")];
    var s4 := s3 + [Value(Local("offset"))];
    LimitArgs(t);
    ArgsSnoc(s2, Lit(" OFFSET "));
    ArgsSnoc(s3, Value(Local("offset")));
    ArgsSnoc(s4, Lit(" "));
  }

  lemma PaginatedRender(t: Table, b: Backend)
    ensures Render(SyntaxOf(b), PaginatedStmt(t), 0) ==
      StreamAllSql(t, b) + " LIMIT " + Placeholder(b, 1) + " OFFSET " + Placeholder(b, 2) + " "
  {
    var d := SyntaxOf(b);
    LimitRenderIn(d, t);
    PaginatedRenderIn(d, t);
    assert d.placeholder(1) == Placeholder(b, 1) && d.placeholder(2) == Placeholder(b, 2);
  }

  /** `stream_all_paginated`: a fresh binding generator gives LIMIT the first
      placeholder and OFFSET the second, and the arguments are passed as
      `limit, offset`, the reverse of the function's own parameter order. */
  method StreamAllPaginated(t: Table, b: Backend) returns (q: Query)
    ensures q.sql ==
      StreamAllSql(t, b) + " LIMIT " + Placeholder(b, 1) + " OFFSET " + Placeholder(b, 2) + " "
    ensures q.sql == Render(SyntaxOf(b), PaginatedStmt(t), 0)
    ensures q.args == Args(PaginatedStmt(t)) == [Local(PaginatedParams[1]), Local(PaginatedParams[0])]
    ensures q.fetch == FetchAll
  {
    var bindings := new Bindings(b);
    var order := OrderBy(t, b);
    var limit := bindings.Next();
    var offset := bindings.Next();
    var sql := "SELECT " + SelectColumnList(t, b) + " FROM " + Name(t, b) + " ORDER BY " + order
      + " LIMIT " + limit + " OFFSET " + offset + " ";
    PaginatedRender(t, b);
    PaginatedArgs(t);
    q := Query(sql, [Local("limit"), Local("offset")], FetchAll);
  }

  // ---------------------------------------------------------------- delete

  /** The delete-by-id statement. */
  function DeleteStmt(t: Table): seq<Piece>
  {
    WhereIdPieces([Lit("DELETE FROM "), Ident(t.table)], t, Local("id"))
  }

  /** `delete`'s SQL text as the macro formats it, the placeholder being the first
      item of a fresh binding generator: it is the delete template rendered. */
  function DeleteSql(t: Table, b: Backend): (r: string)
    ensures r == Render(SyntaxOf(b), DeleteStmt(t), 0)
  {
    var head := [Lit("DELETE FROM "), Ident(t.table)];
    RenderTwo(SyntaxOf(b), head[0], head[1], 0);
    WhereIdRender(b, head, t, Local("id"), 0);
    "DELETE FROM " + Name(t, b) + " WHERE " + Column(t.id, b) + " = " + Placeholder(b, 1)
  }

  /** `delete_row`'s query: `query!(<sql>, id).execute(db)`. */
  function DeleteQuery(t: Table, b: Backend): (q: Query)
    ensures q.sql == Render(SyntaxOf(b), DeleteStmt(t), 0)
    ensures q.args == Args(DeleteStmt(t)) == [Local("id")]
    ensures q.fetch == Execute
  {
    var head := [Lit("DELETE FROM "), Ident(t.table)];
    RenderTwo(SyntaxOf(Pg), head[0], head[1], 0);
    WhereIdRender(Pg, head, t, Local("id"), 0);
    Query(DeleteSql(t, b), [Local("id")], Execute)
  }

  /** The `ormx::Delete` impl: the struct it is for, the id type `delete_row`
      takes, its query and the query-result type it imports. */
  datatype DeleteImpl = DeleteImpl(ident: string, idTy: string, query: Query, queryResult: string)

  /** `impl_delete`: nothing unless the table is `deletable`. */
  function ImplDelete(t: Table, b: Backend): (r: Option<DeleteImpl>)
    ensures r.None? <==> !t.deletable
    ensures r.Some? ==> r.value.ident == t.ident && r.value.idTy == t.id.ty
    ensures r.Some? ==> r.value.query.sql == Render(SyntaxOf(b), DeleteStmt(t), 0)
    ensures r.Some? ==> r.value.query.args == [Local("id")] && r.value.query.fetch == Execute
    ensures r.Some? ==> r.value.queryResult == QueryResult(b)
  {
    if !t.deletable then None
    else Some(DeleteImpl(t.ident, t.id.ty, DeleteQuery(t, b), QueryResult(b)))
  }

  /** The error `delete_row` reports. */
  datatype DbError = RowNotFound

  /** The generated `delete_row`'s verdict on the statement's affected-row count. */
  function DeleteRowOutcome(rowsAffected: nat): (r: Outcome<DbError>)
    ensures r == Fail(RowNotFound) <==> rowsAffected == 0
    ensures r.Fail? <==> rowsAffected == 0
  {
    if rowsAffected == 0 then Fail(RowNotFound) else Pass
  }

  /** The delete statement run against a table keyed by its id: the row with that
      id, if any, goes, and the count says whether one did. */
  function ExecuteDelete<K, V>(rows: map<K, V>, id: K): (map<K, V>, nat)
  {
    (rows - {id}, if id in rows then 1 else 0)
  }

  /** `delete_row` fails with `RowNotFound` exactly when no row had the id, and in
      every case no row with that id remains while every other row stays. */
  lemma DeleteRowNotFoundIffAbsent<K, V>(rows: map<K, V>, id: K)
    ensures DeleteRowOutcome(ExecuteDelete(rows, id).1) == Fail(RowNotFound) <==> id !in rows
    ensures id !in ExecuteDelete(rows, id).0
    ensures forall k :: k in rows && k != id ==> k in ExecuteDelete(rows, id).0 && ExecuteDelete(rows, id).0[k] == rows[k]
    ensures forall k :: k in ExecuteDelete(rows, id).0 ==> k in rows
  {
  }

  // ---------------------------------------------------------------- impl_table

  /** The `ormx::Table` impl: the struct, `type Id`, the `id()` body and the four
      queries. */
  datatype TableImpl = TableImpl(
    ident: string,
    idTy: string,
    idExpr: Expr,
    get: Query,
    streamAll: Query,
    streamAllPaginated: Query,
    update: Query)

  /** `impl_table`: every query it carries renders its statement for the backend
      and passes exactly that statement's arguments. */
  method ImplTable(t: Table, b: Backend) returns (r: TableImpl)
    ensures r.ident == t.ident && r.idTy == t.id.ty && r.idExpr == SelfField(t.id.field)
    ensures r.get == GetQuery(t, b) && r.streamAll == StreamAllQuery(t, b)
    ensures r.streamAllPaginated.sql == Render(SyntaxOf(b), PaginatedStmt(t), 0)
    ensures r.streamAllPaginated.args == Args(PaginatedStmt(t))
    ensures r.update.sql == Render(SyntaxOf(b), UpdateStmt(t), 0)
    ensures r.update.args == Args(UpdateStmt(t)) == UpdateArgs(t)
    ensures r.update.fetch == Execute && r.streamAllPaginated.fetch == FetchAll
  {
    var get := GetQuery(t, b);
    var streamAll := StreamAllQuery(t, b);
    var paginated := StreamAllPaginated(t, b);
    var update := Update(t, b);
    r := TableImpl(t.ident, t.id.ty, SelfField(t.id.field), get, streamAll, paginated, update);
  }

  /** MySQL and MariaDB get the very same statements: they differ from each other
      only in the query-result type, which is also the same. */
  lemma MySqlMariaAgree(t: Table)
    ensures GetQuery(t, MySql) == GetQuery(t, Maria)
    ensures StreamAllQuery(t, MySql) == StreamAllQuery(t, Maria)
    ensures Render(SyntaxOf(MySql), PaginatedStmt(t), 0) == Render(SyntaxOf(Maria), PaginatedStmt(t), 0)
    ensures Render(SyntaxOf(MySql), UpdateStmt(t), 0) == Render(SyntaxOf(Maria), UpdateStmt(t), 0)
    ensures ImplDelete(t, MySql) == ImplDelete(t, Maria)
  {
    MySqlMariaRenderAlike(GetStmt(t), 0);
    MySqlMariaRenderAlike(StreamAllStmt(t), 0);
    MySqlMariaRenderAlike(PaginatedStmt(t), 0);
    MySqlMariaRenderAlike(UpdateStmt(t), 0);
    MySqlMariaRenderAlike(DeleteStmt(t), 0);
  }
}

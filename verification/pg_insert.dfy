/** The Postgres `ormx::Insert` impl: the generated values are read back from the
    RETURNING row by column name. */
module PgInsert {
  import opened Wrappers
  import opened Seqs
  import opened Dialects
  import opened Tables
  import opened Sql
  import opened InsertCommon

  /** The default fields, each read from the generated row by its own name. */
  function GeneratedInits(t: Table): (r: seq<FieldInit>)
    ensures |r| == |DefaultFields(t)|
    ensures forall i :: 0 <= i < |r| ==>
      r[i] == FieldInit(DefaultFields(t)[i].field, ByName(DefaultFields(t)[i].field))
    ensures Map(r, InitField) == Map(DefaultFields(t), FieldName)
  {
    var fields := DefaultFields(t);
    seq(|fields|, i requires 0 <= i < |fields| => FieldInit(fields[i].field, ByName(fields[i].field)))
  }

  /** `impl_insert` for Postgres: nothing without an insert struct; otherwise the
      insert query, and a row made of the caller's values followed by the
      generated ones. */
  function ImplInsert(t: Table): (r: Option<InsertImpl>)
    ensures r.None? <==> t.insertable.None?
    ensures r.Some? ==> r.value.insertIdent == t.insertable.value && r.value.tableIdent == t.ident
    ensures r.Some? ==> r.value.query.sql == Render(SyntaxOf(Pg), InsertStmt(t), 0)
    ensures r.Some? ==> r.value.query.args == Args(InsertStmt(t))
    ensures r.Some? ==> (r.value.query.fetch == Execute <==> |DefaultFields(t)| == 0)
    ensures r.Some? ==> r.value.row == CallerInits(t) + GeneratedInits(t)
    ensures r.Some? ==> multiset(Map(r.value.row, InitField)) == multiset(Map(t.fields, FieldName))
  {
    RowCoversFields(t, GeneratedInits(t));
    match t.insertable
    case None => None
    case Some(insertIdent) =>
      Some(InsertImpl(insertIdent, t.ident, InsertQuery(t, Pg), CallerInits(t) + GeneratedInits(t)))
  }

  /** Each generated field is read under the name its RETURNING item gives the
      result column, and with the field's type as an override exactly when the
      field has a custom type. */
  lemma GeneratedReadByReturnedName(t: Table, k: nat)
    requires WellFormed(t)
    requires k < |DefaultFields(t)|
    ensures GeneratedInits(t)[k].source == ByName(ResultName(DefaultFields(t)[k], Pg))
    ensures ResultType(DefaultFields(t)[k], Pg) ==
      if DefaultFields(t)[k].customType then Some(DefaultFields(t)[k].ty) else None
  {
    var f := DefaultFields(t)[k];
    FilterMembers(t.fields, IsDefault);
    var j :| 0 <= j < |t.fields| && t.fields[j] == f;
    ResultNameIsField(f, Pg);
  }
}

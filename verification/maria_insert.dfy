/** The MariaDB `ormx::Insert` impl: the generated values are read back from the
    RETURNING row by position. */
module MariaInsert {
  import opened Wrappers
  import opened Seqs
  import opened Dialects
  import opened Tables
  import opened Sql
  import opened InsertCommon

  /** `(0usize..).take(n)`. */
  function Ordinals(n: nat): (r: seq<nat>)
    ensures |r| == n
    ensures forall k :: 0 <= k < n ==> r[k] == k
  {
    seq(n, k requires 0 <= k < n => k)
  }

  /** The default fields zipped with the ordinals: the k-th is read from column k
      of the generated row. */
  function GeneratedInits(t: Table): (r: seq<FieldInit>)
    ensures |r| == |DefaultFields(t)|
    ensures forall k :: 0 <= k < |r| ==> r[k] == FieldInit(DefaultFields(t)[k].field, ByOrdinal(k))
    ensures Map(r, InitField) == Map(DefaultFields(t), FieldName)
  {
    var fields := DefaultFields(t);
    var ordinals := Ordinals(|fields|);
    seq(|fields|, k requires 0 <= k < |fields| => FieldInit(fields[k].field, ByOrdinal(ordinals[k])))
  }

  /** `impl_insert` for MariaDB: nothing without an insert struct; otherwise the
      insert query, and a row made of the caller's values followed by the
      generated ones. */
  function ImplInsert(t: Table): (r: Option<InsertImpl>)
    ensures r.None? <==> t.insertable.None?
    ensures r.Some? ==> r.value.insertIdent == t.insertable.value && r.value.tableIdent == t.ident
    ensures r.Some? ==> r.value.query.sql == Render(SyntaxOf(Maria), InsertStmt(t), 0)
    ensures r.Some? ==> r.value.query.args == Args(InsertStmt(t))
    ensures r.Some? ==> (r.value.query.fetch == Execute <==> |DefaultFields(t)| == 0)
    ensures r.Some? ==> r.value.row == CallerInits(t) + GeneratedInits(t)
    ensures r.Some? ==> multiset(Map(r.value.row, InitField)) == multiset(Map(t.fields, FieldName))
  {
    RowCoversFields(t, GeneratedInits(t));
    match t.insertable
    case None => None
    case Some(insertIdent) =>
      Some(InsertImpl(insertIdent, t.ident, InsertQuery(t, Maria), CallerInits(t) + GeneratedInits(t)))
  }

  /** The generated fields and the RETURNING columns correspond one to one: the
      k-th default field is read from ordinal k, no two fields share an ordinal,
      and every column of the RETURNING list is read by some field. */
  lemma OrdinalsMatchReturning(t: Table, k: nat)
    requires k < |DefaultFields(t)|
    ensures GeneratedInits(t)[k] == FieldInit(DefaultFields(t)[k].field, ByOrdinal(k))
    ensures forall j :: 0 <= j < |DefaultFields(t)| && j != k ==>
      GeneratedInits(t)[j].source != GeneratedInits(t)[k].source
    ensures forall c :: 0 <= c < |SelectFragments(DefaultFields(t), Maria)| ==>
      exists j :: 0 <= j < |GeneratedInits(t)| && GeneratedInits(t)[j].source == ByOrdinal(c)
  {
    var g := GeneratedInits(t);
    forall c | 0 <= c < |SelectFragments(DefaultFields(t), Maria)|
      ensures exists j :: 0 <= j < |g| && g[j].source == ByOrdinal(c)
    {
      assert g[c].source == ByOrdinal(c);
    }
  }
}

/** The table IR the derive macro parses a struct into, and its formatting helpers:
    field filters, identifier quoting, the per-field SELECT fragment, argument
    expressions and default getter names. */
module Tables {
  import opened Wrappers
  import opened Seqs
  import opened Text
  import opened Dialects

  /** A Rust type, kept opaque (`Named`) except for the reference `&T` the macro adds. */
  datatype Ty = Named(text: string) | RefTo(inner: Ty)

  /** The Rust expressions the macro passes as bound query arguments. */
  datatype Expr =
    | SelfField(name: string)     // self.<name>
    | Local(name: string)         // a parameter of the generated function
    | Ref(operand: Expr)          // &<operand>
    | Cast(operand: Expr, target: Ty)  // <operand> as <target>

  /** `#[ormx(get_one = ..)]` and its siblings: an optional function name and an
      optional argument type. */
  datatype Getter = Getter(func: Option<string>, argTy: Option<Ty>)

  /** One struct field with its column attributes. */
  datatype TableField = TableField(
    field: string,
    ty: string,
    columnName: string,
    customType: bool,
    isDefault: bool,
    getOne: Option<Getter>,
    getOptional: Option<Getter>,
    getMany: Option<Getter>,
    setter: Option<string>,
    byRef: bool)

  /** A derived table: its struct name, SQL table name, id field, all fields in
      declaration order, and the optional insert helper, delete flag and ORDER BY. */
  datatype Table = Table(
    ident: string,
    table: string,
    id: TableField,
    fields: seq<TableField>,
    insertable: Option<string>,
    deletable: bool,
    orderBy: Option<string>)

  /** What the (unmodelled) parser guarantees: the id is one of the fields, field
      names are distinct, and no field name contains `!` (Rust identifiers cannot). */
  ghost predicate WellFormed(t: Table)
  {
    && t.id in t.fields
    && (forall i, j :: 0 <= i < j < |t.fields| ==> t.fields[i].field != t.fields[j].field)
    && (forall i :: 0 <= i < |t.fields| ==> '!' !in t.fields[i].field)
  }

  function FieldName(f: TableField): string { f.field }
  predicate IsInsertable(f: TableField) { !f.isDefault }
  predicate IsDefault(f: TableField) { f.isDefault }
  function NamedOtherThan(id: string): TableField -> bool { (f: TableField) => f.field != id }

  /** `Table::fields_except_id`: every field whose name differs from the id's. */
  function FieldsExceptId(t: Table): (r: seq<TableField>)
    ensures forall i :: 0 <= i < |r| ==> r[i] in t.fields && r[i].field != t.id.field
    ensures forall i :: 0 <= i < |t.fields| && t.fields[i].field != t.id.field ==> t.fields[i] in r
  {
    FilterMembers(t.fields, NamedOtherThan(t.id.field));
    Filter(t.fields, NamedOtherThan(t.id.field))
  }

  /** `Table::insertable_fields`: the fields the caller supplies on insert. */
  function InsertableFields(t: Table): (r: seq<TableField>)
    ensures forall i :: 0 <= i < |r| ==> r[i] in t.fields && !r[i].isDefault
    ensures forall i :: 0 <= i < |t.fields| && !t.fields[i].isDefault ==> t.fields[i] in r
  {
    FilterMembers(t.fields, IsInsertable);
    Filter(t.fields, IsInsertable)
  }

  /** `Table::default_fields`: the fields the database generates. */
  function DefaultFields(t: Table): (r: seq<TableField>)
    ensures forall i :: 0 <= i < |r| ==> r[i] in t.fields && r[i].isDefault
    ensures forall i :: 0 <= i < |t.fields| && t.fields[i].isDefault ==> t.fields[i] in r
  {
    FilterMembers(t.fields, IsDefault);
    Filter(t.fields, IsDefault)
  }

  /** When the field at index i is the only one named like the id, dropping the id
      leaves every other field in its declared order. */
  lemma ExceptIdDropsOnlyId(t: Table, i: nat)
    requires i < |t.fields| && t.fields[i].field == t.id.field
    requires forall j :: 0 <= j < |t.fields| && j != i ==> t.fields[j].field != t.id.field
    ensures FieldsExceptId(t) == t.fields[..i] + t.fields[i + 1..]
  {
    var p := NamedOtherThan(t.id.field);
    forall j | 0 <= j < |t.fields| && j != i
      ensures p(t.fields[j])
    {
    }
    FilterDropsOne(t.fields, i, p);
  }

  /** In a well-formed table, the fields other than the id are the declared
      fields with the id's single declaration removed, order kept. */
  lemma WellFormedExceptId(t: Table)
    requires WellFormed(t)
    ensures exists i ::
      && 0 <= i < |t.fields| && t.fields[i] == t.id
      && FieldsExceptId(t) == t.fields[..i] + t.fields[i + 1..]
  {
    var i :| 0 <= i < |t.fields| && t.fields[i] == t.id;
    forall j | 0 <= j < |t.fields| && j != i
      ensures t.fields[j].field != t.id.field
    {
      if j < i { assert t.fields[j].field != t.fields[i].field; }
      else { assert t.fields[i].field != t.fields[j].field; }
    }
    ExceptIdDropsOnlyId(t, i);
  }

  /** Insertable and default fields partition the fields: every field lands in
      exactly one of them, and merging them back along the default flags gives the
      declaration order. */
  lemma InsertableDefaultPartition(t: Table)
    ensures |InsertableFields(t)| + |DefaultFields(t)| == |t.fields|
    ensures multiset(InsertableFields(t)) + multiset(DefaultFields(t)) == multiset(t.fields)
    ensures Interleave(Map(t.fields, IsInsertable), InsertableFields(t), DefaultFields(t)) == t.fields
  {
    FilterPartition(t.fields, IsInsertable, IsDefault);
  }

  /** `Table::name`. */
  function Name(t: Table, b: Backend): string
  {
    Quoted(b, t.table)
  }

  /** `TableField::column`. */
  function Column(f: TableField, b: Backend): string
  {
    Quoted(b, f.columnName)
  }

  /** The table name is the backend's quote character, the raw name unescaped,
      and the quote character again. */
  lemma NameShape(t: Table, b: Backend)
    ensures |Name(t, b)| == |t.table| + 2
    ensures Name(t, b)[0] == Quote(b) && Name(t, b)[|t.table| + 1] == Quote(b)
    ensures Name(t, b)[1..|t.table| + 1] == t.table
  {
    QuotedShape(b, t.table);
  }

  /** A column is the backend's quote character, the raw column name unescaped,
      and the quote character again. */
  lemma ColumnShape(f: TableField, b: Backend)
    ensures |Column(f, b)| == |f.columnName| + 2
    ensures Column(f, b)[0] == Quote(b) && Column(f, b)[|f.columnName| + 1] == Quote(b)
    ensures Column(f, b)[1..|f.columnName| + 1] == f.columnName
  {
    QuotedShape(b, f.columnName);
  }

  /** The label the result column of a field carries in a SELECT: the field name,
      followed by the `!: Type` override when the field has a custom type. */
  function SelectLabel(f: TableField): string
  {
    if f.customType then f.field + "!: " + f.ty else f.field
  }

  /** `TableField::fmt_for_select`: the bare quoted column when no alias is needed,
      otherwise `column AS label`. */
  function FmtForSelect(f: TableField, b: Backend): (r: string)
    ensures r == Column(f, b) <==> !f.customType && f.field == f.columnName
    ensures r != Column(f, b) ==> r == Column(f, b) + " AS " + Quoted(b, SelectLabel(f))
    ensures r == Column(f, b) ==> SelectLabel(f) == f.columnName
  {
    var q := [Quote(b)];
    if f.customType then
      q + f.columnName + q + " AS " + q + f.field + "!: " + f.ty + q
    else if f.field == f.columnName then
      Column(f, b)
    else
      q + f.columnName + q + " AS " + q + f.field + q
  }

  /** `Table::select_column_list`, before joining: one fragment per field. */
  function SelectFragments(fields: seq<TableField>, b: Backend): (r: seq<string>)
    ensures |r| == |fields|
    ensures forall i :: 0 <= i < |fields| ==> r[i] == FmtForSelect(fields[i], b)
  {
    seq(|fields|, i requires 0 <= i < |fields| => FmtForSelect(fields[i], b))
  }

  /** `Table::select_column_list`. */
  function SelectColumnList(t: Table, b: Backend): (r: string)
    ensures r == "" <==> |t.fields| == 0
  {
    assert |t.fields| > 0 ==> FmtForSelect(t.fields[0], b) != "" by {
      if |t.fields| > 0 {
        ColumnShape(t.fields[0], b);
      }
    }
    JoinEmptyIff(SelectFragments(t.fields, b), ", ");
    Join(SelectFragments(t.fields, b), ", ")
  }

  /** How the query macros read a result-column label: the name before the first
      `!`, and the type after a following `": "` as an override. */
  function DecodeLabel(s: string): (string, Option<string>)
    decreases |s|
  {
    if s == [] then ("", None)
    else if s[0] == '!' then ("", if |s| >= 3 && s[1..3] == ": " then Some(s[3..]) else None)
    else
      var (name, hint) := DecodeLabel(s[1..]);
      ([s[0]] + name, hint)
  }

  lemma {:induction false} DecodeLabelPlain(name: string, rest: string)
    requires '!' !in name
    requires rest == [] || rest[0] == '!'
    ensures DecodeLabel(name + rest).0 == name
    ensures DecodeLabel(name + rest).1 == DecodeLabel(rest).1
    decreases |name|
  {
    if name != [] {
      assert (name + rest)[1..] == name[1..] + rest;
      DecodeLabelPlain(name[1..], rest);
    } else {
      assert name + rest == rest;
    }
  }

  /** Every SELECT fragment hands its value back under the field's own name, with
      the field's type as an override exactly when the field has a custom type. */
  lemma SelectLabelNamesField(f: TableField)
    requires '!' !in f.field
    ensures DecodeLabel(SelectLabel(f)) == (f.field, if f.customType then Some(f.ty) else None)
  {
    if f.customType {
      var rest := "!: " + f.ty;
      assert f.field + "!: " + f.ty == f.field + rest;
      DecodeLabelPlain(f.field, rest);
      assert rest[1..3] == ": " && rest[3..] == f.ty;
    } else {
      assert f.field + [] == f.field;
      DecodeLabelPlain(f.field, []);
    }
  }

  /** The name of the result column a field's SELECT item yields: the column name
      when it is selected bare, otherwise the name its label carries. */
  function ResultName(f: TableField, b: Backend): string
  {
    if FmtForSelect(f, b) == Column(f, b) then f.columnName else DecodeLabel(SelectLabel(f)).0
  }

  /** The type override a field's SELECT item gives its result column, if any. */
  function ResultType(f: TableField, b: Backend): Option<string>
  {
    if FmtForSelect(f, b) == Column(f, b) then None else DecodeLabel(SelectLabel(f)).1
  }

  /** Whatever form `fmt_for_select` takes, the result column is named after the
      field, and is typed by the field's type exactly when it is a custom type. */
  lemma ResultNameIsField(f: TableField, b: Backend)
    requires '!' !in f.field
    ensures ResultName(f, b) == f.field
    ensures ResultType(f, b) == if f.customType then Some(f.ty) else None
  {
    SelectLabelNamesField(f);
  }

  /** `TableField::fmt_as_argument`: `self.<field>`, taken by reference when
      `by_ref`, then cast to its own (possibly referenced) type when `custom_type`. */
  function FmtAsArgument(f: TableField): (e: Expr)
    ensures e.Cast? <==> f.customType
    ensures (if e.Cast? then e.operand else e) ==
            (if f.byRef then Ref(SelfField(f.field)) else SelfField(f.field))
    ensures e.Cast? ==> e.target == (if f.byRef then RefTo(Named(f.ty)) else Named(f.ty))
  {
    var out := SelfField(f.field);
    var ty := Named(f.ty);
    var out := if f.byRef then Ref(out) else out;
    var ty := if f.byRef then RefTo(ty) else ty;
    if f.customType then Cast(out, ty) else out
  }

  /** The static type of an argument expression, given the type of the field it
      reads and the type of the local variable it reads. */
  function TypeOf(e: Expr, fieldTy: Ty, localTy: Ty): Ty
  {
    match e
    case SelfField(_) => fieldTy
    case Local(_) => localTy
    case Ref(operand) => RefTo(TypeOf(operand, fieldTy, localTy))
    case Cast(_, target) => target
  }

  /** The cast `fmt_as_argument` adds never changes the argument's Rust type: it
      names the type the expression already has, a hint for the query macro. */
  lemma ArgumentCastKeepsType(f: TableField, localTy: Ty)
    ensures TypeOf(FmtAsArgument(f), Named(f.ty), localTy) ==
      (if f.byRef then RefTo(Named(f.ty)) else Named(f.ty))
    ensures FmtAsArgument(f).Cast? ==>
      FmtAsArgument(f).target == TypeOf(FmtAsArgument(f).operand, Named(f.ty), localTy)
  {
  }

  /** `Getter::or_fallback`: the explicit function name or `by_<field>`, and the
      explicit argument type or `&<field type>`. */
  function OrFallback(g: Getter, f: TableField): (r: (string, Ty))
    ensures r.0 == (if g.func.Some? then g.func.value else "by_" + f.field)
    ensures r.1 == (if g.argTy.Some? then g.argTy.value else RefTo(Named(f.ty)))
  {
    var ident := match g.func case Some(name) => name case None => "by_" + f.field;
    var arg := match g.argTy case Some(ty) => ty case None => RefTo(Named(f.ty));
    (ident, arg)
  }

  /** Fallback getter names never clash: two fields with different names that
      both rely on the fallback get different getter names. */
  lemma FallbackNamesDistinct(g: Getter, f: TableField, h: Getter, e: TableField)
    requires g.func.None? && h.func.None?
    requires f.field != e.field
    ensures OrFallback(g, f).0 != OrFallback(h, e).0
  {
    var x, y := OrFallback(g, f).0, OrFallback(h, e).0;
    assert x[3..] == f.field;
    assert y[3..] == e.field;
  }
}

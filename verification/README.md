# ormx SQL synthesis in Dafny

This project models the SQL-generating core of the `ormx` derive macros. The
macros turn a Rust struct annotated with `#[ormx(..)]` into impls of
`ormx::Table`, `ormx::Delete` and `ormx::Insert`. Those impls carry SQL text for
`sqlx::query!` / `query_as!` and the argument expressions bound to it. The model
covers:

- The table IR (`Table`, `TableField`) and its helpers: the field filters
  `fields_except_id`, `insertable_fields` and `default_fields`; identifier
  quoting with `name` and `column`; the SELECT item `fmt_for_select` with its
  `!: Type` label; `fmt_as_argument`; and the default getter names of
  `Getter::or_fallback`.
- The three backends. Postgres quotes with `"` and numbers its placeholders
  `$1, $2, …` from a counter (`PgBindings`). MySQL and MariaDB quote with a
  backtick and always yield `?`. Each backend also names its query-result type.
  The binding generator is a class, `Dialects.Bindings`, whose `Next` updates
  the counter in place.
- The statements every table gets: select by id, `UPDATE … SET … WHERE id`,
  select-all with `ORDER BY`, the paginated select-all (LIMIT bound before
  OFFSET, trailing space) and delete by id. It also covers `impl_table`,
  `impl_delete`, and how `delete_row` treats zero affected rows.
- `insert_sql` and `impl_insert` for Postgres and MariaDB. Both list the
  non-default columns and one placeholder per column, and add `RETURNING`
  exactly when default fields exist. That same condition picks `execute` or
  `fetch_one`. The returned row takes the generated values by name (Postgres) or
  by ordinal (MariaDB).
- `set_once` (the duplicate-attribute check) and the `missing_attr` message.

**How argument order is proved.** Every statement has two definitions:

1. As the macro writes it: string formatting, plus a binding generator.
2. As a template: a sequence of `Sql.Piece`s, where a piece is literal text, an
   identifier, or a value slot holding the argument expression.

`Sql.Render` renders a template for any `Dialects.Syntax` (a quote character and
a placeholder for each position). `Sql.Args` lists the slot arguments from left
to right.

For each statement, the as-written function's contract (or, for `update` and
`insert_sql`, a lemma beside it) shows the text equals
`Render(SyntaxOf(b), Stmt(t), 0)`, and that the arguments the macro passes equal
`Args(Stmt(t))`. So the k-th placeholder in the text is bound to the k-th
argument, in every dialect.

Two behaviours follow the code, where a reader might expect otherwise:

- MariaDB reads generated values back with a `RETURNING` clause, then reads the
  columns by ordinal. It does not execute and then read a generated id.
- `set_once` fails with the bare message "duplicate attribute", which does not
  name the attribute.

The model requires the table invariants that the (unmodelled) attribute parser
enforces. `Tables.WellFormed` states them: the id is one of the fields, field
names are distinct, and no field name contains `!`. Lemmas that need them
require them.

## Model

| member | source | states |
|---|---|---|
| Text.Join | ormx-macros/src/table/mod.rs:56-61 | joining nothing gives the empty string; a non-empty join starts with its first part |
| Text.JoinEmptyIff | ormx-macros/src/backend/postgres/insert.rs:56-61 | a join of parts whose first part is non-empty is empty exactly when there are no parts |
| Text.Decimal | ormx-macros/src/backend/postgres/mod.rs:34 | the decimal rendering of a counter is non-empty and all digits |
| Text.DecimalRoundTrip | ormx-macros/src/backend/postgres/mod.rs:34 | reading the decimal rendering back gives the number |
| Text.DecimalInjective | ormx-macros/src/backend/postgres/mod.rs:33-34 | distinct counters render to distinct digit strings |
| Dialects.Quote | ormx-macros/src/backend/postgres/mod.rs:14 | the quote is `"` exactly for Postgres; MySQL and MariaDB use a backtick (mysql/mod.rs:14, mariadb/mod.rs:14) |
| Dialects.QueryResult | ormx-macros/src/backend/postgres/mod.rs:17-19 | Postgres names `sqlx::postgres::PgQueryResult`, and only Postgres; MySQL and MariaDB name `sqlx::mysql::MySqlQueryResult` |
| Dialects.QuotedShape | ormx-macros/src/table/mod.rs:63-66 | a quoted identifier is the quote, the raw identifier, then the quote, 2 longer than the identifier |
| Dialects.Placeholder | ormx-macros/src/backend/postgres/mod.rs:32-35 | the k-th item is `?` exactly for MySQL and MariaDB (mariadb/mod.rs:32-34); a Postgres item starts with `$` and is at least 2 long |
| Dialects.PlaceholderShape | ormx-macros/src/backend/postgres/mod.rs:32-35 | the k-th Postgres placeholder is `$` followed by digits that read back as k; the others are always `?` |
| Dialects.Placeholders | ormx-macros/src/backend/postgres/insert.rs:55 | taking n from a fresh generator gives exactly n placeholders, the i-th being the generator's (i+1)-th item |
| Dialects.PgPlaceholdersIncrease | ormx-macros/src/backend/postgres/mod.rs:32-35 | Postgres placeholders from one generator are pairwise distinct and strictly increasing in number |
| Dialects.StatelessBindings | ormx-macros/src/backend/mariadb/mod.rs:26-34 | a MySQL or MariaDB generator yields `?` at every position, so a fresh one and a used one agree |
| Dialects.Bindings.constructor | ormx-macros/src/backend/postgres/mod.rs:26-27 | a defaulted generator starts with its counter at 0 and nothing issued |
| Dialects.Bindings.Next | ormx-macros/src/backend/postgres/mod.rs:32-35 | each call always yields an item; Postgres adds exactly 1 to its counter and the k-th call yields `$k`; the others stay put and yield `?` |
| Tables.FieldsExceptId | ormx-macros/src/table/mod.rs:43-46 | the result holds only fields of the table not named like the id, and every such field |
| Tables.ExceptIdDropsOnlyId | ormx-macros/src/table/mod.rs:43-46 | when one field is named like the id, the result is the fields with just that one removed, order kept |
| Tables.WellFormedExceptId | ormx-macros/src/table/mod.rs:43-46 | in a well-formed table the id is declared at some index i, and the result is the fields with index i removed, order kept |
| Tables.InsertableFields | ormx-macros/src/table/mod.rs:48-50 | the result holds exactly the table's non-default fields |
| Tables.DefaultFields | ormx-macros/src/table/mod.rs:52-54 | the result holds exactly the table's default fields |
| Tables.InsertableDefaultPartition | ormx-macros/src/table/mod.rs:48-54 | insertable and default fields split the fields: sizes add up, multisets add up, and merging them along the default flags gives the declaration order back |
| Tables.NameShape | ormx-macros/src/table/mod.rs:63-66 | the table name is the backend's quote, the raw name unescaped, then the quote |
| Tables.ColumnShape | ormx-macros/src/table/mod.rs:104-107 | a column is the backend's quote, the raw column name unescaped, then the quote |
| Tables.SelectColumnList | ormx-macros/src/table/mod.rs:56-61 | the column list is empty exactly when the table has no fields |
| Tables.FmtForSelect | ormx-macros/src/table/mod.rs:70-85 | the item is the bare column exactly when the type is not custom and field and column names agree; otherwise it is `column AS "label"` with the field's label |
| Tables.SelectFragments | ormx-macros/src/table/mod.rs:56-61 | one SELECT item per field, default fields included, in field order |
| Tables.SelectLabelNamesField | ormx-macros/src/table/mod.rs:73-84 | decoding a SELECT label gives the field name, and the field type as override exactly for custom types |
| Tables.ResultNameIsField | ormx-macros/src/table/mod.rs:73-84 | whichever of the three forms `fmt_for_select` takes, the result column is named after the field |
| Tables.FmtAsArgument | ormx-macros/src/table/mod.rs:87-102 | the argument is `self.<field>`, taken by reference when `by_ref`, cast exactly when `custom_type`, to the referenced type when both |
| Tables.ArgumentCastKeepsType | ormx-macros/src/table/mod.rs:91-101 | the cast names the type the expression already has, so it never changes the argument's type, whatever the type of any local |
| Tables.OrFallback | ormx-macros/src/table/mod.rs:111-121 | the explicit name or `by_<field>`, and the explicit argument type or `&<field type>` |
| Tables.FallbackNamesDistinct | ormx-macros/src/table/mod.rs:112-115 | two differently named fields that both fall back get different getter names |
| Sql.RenderAppend | ormx-macros/src/backend/common/table.rs:79-85 | rendering two templates in sequence numbers the second one's slots after the first one's |
| Sql.RenderJoin | ormx-macros/src/backend/common/table.rs:77 | rendering joined templates gives the join of the parts, each numbered after the slots before it |
| Sql.RenderEachUniform | ormx-macros/src/backend/common/table.rs:73-76 | when every part has c slots, part i is numbered from c·i on |
| Sql.MySqlMariaRenderAlike | ormx-macros/src/backend/mysql/mod.rs:13-35 | MySQL and MariaDB render every template identically |
| Sql.SelectPiecesRender | ormx-macros/src/table/mod.rs:70-85 | a field's SELECT template renders as `fmt_for_select` and binds nothing |
| Sql.ColumnListRender | ormx-macros/src/table/mod.rs:56-61 | the column-list template renders as `select_column_list` and binds nothing |
| CommonTable.SelectFromRender | ormx-macros/src/backend/common/table.rs:50-53 | `SELECT <column list> FROM <name>` binds nothing |
| CommonTable.WhereIdRender | ormx-macros/src/backend/common/table.rs:50-56 | `WHERE <id column> = ` takes the next placeholder after the prefix's, and its argument comes last |
| CommonTable.GetSql | ormx-macros/src/backend/common/table.rs:50-56 | the get text formatted with the first binding is the select-by-id template rendered from 0 |
| CommonTable.GetQuery | ormx-macros/src/backend/common/table.rs:49-67 | the get query's text is its template rendered, its one argument is `id`, and it is run with `fetch_one` |
| CommonTable.UpdateAssignments | ormx-macros/src/backend/common/table.rs:71-76 | the i-th SET item is the i-th non-id column against the (i+1)-th placeholder |
| CommonTable.AssignmentRender | ormx-macros/src/backend/common/table.rs:74 | `<column> = <next binding>` binds the field's argument |
| CommonTable.SetListRender | ormx-macros/src/backend/common/table.rs:71-77 | the SET list renders as the joined assignments and binds the non-id fields' arguments in order |
| CommonTable.UpdateSetRender | ormx-macros/src/backend/common/table.rs:79-82 | `UPDATE <name> SET <list>` binds one argument per non-id field |
| CommonTable.UpdateRender | ormx-macros/src/backend/common/table.rs:79-94 | the update text's WHERE takes placeholder n+1 for n non-id fields; the arguments are the non-id fields in order, then `self.<id>` |
| CommonTable.Update | ormx-macros/src/backend/common/table.rs:70-100 | the loop's text equals the rendered update template, its arguments are that template's, and it runs with `execute` |
| CommonTable.OrderBy | ormx-macros/src/backend/common/table.rs:104-107 | ORDER BY is the explicit text verbatim when given, else the quoted id column with ` DESC`; it is the ORDER BY template rendered |
| CommonTable.OrderByArgs | ormx-macros/src/backend/common/table.rs:104-107 | the ORDER BY binds nothing |
| CommonTable.StreamAllSql | ormx-macros/src/backend/common/table.rs:104-112 | the select-all text is the select-all template rendered |
| CommonTable.StreamAllArgs | ormx-macros/src/backend/common/table.rs:108-112 | the select-all template binds nothing |
| CommonTable.StreamAllQuery | ormx-macros/src/backend/common/table.rs:102-121 | stream_all passes no argument and fetches a stream |
| CommonTable.LimitRenderIn | ormx-macros/src/backend/common/table.rs:131-137 | in any dialect, LIMIT takes the first placeholder after the select-all text |
| CommonTable.LimitArgs | ormx-macros/src/backend/common/table.rs:131-137 | the statement up to LIMIT binds just `limit` |
| CommonTable.PaginatedRenderIn | ormx-macros/src/backend/common/table.rs:131-137 | in any dialect, OFFSET takes the second placeholder and the text ends in a space |
| CommonTable.PaginatedArgs | ormx-macros/src/backend/common/table.rs:131-137 | the paginated statement binds `limit`, then `offset` |
| CommonTable.PaginatedRender | ormx-macros/src/backend/common/table.rs:131-137 | LIMIT takes placeholder 1 and OFFSET placeholder 2 of the backend, after the select-all text |
| CommonTable.StreamAllPaginated | ormx-macros/src/backend/common/table.rs:124-148 | two `next` calls give LIMIT and OFFSET their placeholders; arguments are passed as `limit, offset`, the reverse of the parameters `offset, limit` |
| CommonTable.DeleteSql | ormx-macros/src/backend/common/table.rs:153-158 | the delete text formatted with the first binding is the delete template rendered from 0 |
| CommonTable.DeleteQuery | ormx-macros/src/backend/common/table.rs:151-170 | `DELETE FROM <name> WHERE <id column> = <first binding>` binds `id` and runs with `execute` |
| CommonTable.ImplDelete | ormx-macros/src/backend/common/table.rs:34-47 | nothing exactly when the table is not deletable; otherwise the delete query and the backend's query-result type |
| CommonTable.DeleteRowOutcome | ormx-macros/src/backend/common/table.rs:171-175 | `RowNotFound` exactly when no row was affected, success otherwise |
| CommonTable.DeleteRowNotFoundIffAbsent | ormx-macros/src/backend/common/table.rs:168-175 | on a table keyed by id, delete_row fails exactly when the id is absent; the row goes and every other row stays |
| CommonTable.ImplTable | ormx-macros/src/backend/common/table.rs:9-32 | the impl carries the id type and `self.<id>`; each query is its template rendered with that template's arguments; get uses `fetch_one`, stream_all and stream_all_paginated `fetch`, update `execute` |
| CommonTable.MySqlMariaAgree | ormx-macros/src/backend/mariadb/mod.rs:13-35 | MySQL and MariaDB get identical get, select-all, paginated, update and delete queries |
| InsertCommon.InsertFetch | ormx-macros/src/backend/postgres/insert.rs:26-30 | `execute` exactly when there are no default fields, otherwise `fetch_one` |
| InsertCommon.ColumnFragments | ormx-macros/src/backend/postgres/insert.rs:54 | one quoted column per field, in order |
| InsertCommon.ReturningEmptyIff | ormx-macros/src/backend/postgres/insert.rs:56-61 | the joined RETURNING list is empty exactly when there are no default fields |
| InsertCommon.InsertSql | ormx-macros/src/backend/postgres/insert.rs:53-77 | RETURNING with the default fields' SELECT items appears exactly when default fields exist; the same code is mariadb/insert.rs:58-84 |
| InsertCommon.ColumnsRender | ormx-macros/src/backend/postgres/insert.rs:54 | the column template renders as the joined non-default columns and binds nothing |
| InsertCommon.ValuesRender | ormx-macros/src/backend/postgres/insert.rs:55 | the VALUES template renders as the first n placeholders and binds the non-default fields' arguments in order |
| InsertCommon.InsertOpenRender | ormx-macros/src/backend/postgres/insert.rs:62-66 | `INSERT INTO <name> (<columns>` as formatted |
| InsertCommon.InsertOpenArgs | ormx-macros/src/backend/postgres/insert.rs:62-66 | the statement head binds nothing |
| InsertCommon.InsertValuesRender | ormx-macros/src/backend/postgres/insert.rs:62-67 | `… VALUES (<placeholders>` as formatted |
| InsertCommon.InsertValuesArgs | ormx-macros/src/backend/postgres/insert.rs:62-67 | the values bind the non-default fields' arguments in order |
| InsertCommon.InsertPlainRender | ormx-macros/src/backend/postgres/insert.rs:61-67 | with no default fields the template renders as the form without RETURNING |
| InsertCommon.InsertPlainArgs | ormx-macros/src/backend/postgres/insert.rs:61-67 | with no default fields the arguments are the non-default fields' |
| InsertCommon.ReturningOpenRender | ormx-macros/src/backend/postgres/insert.rs:69-75 | the statement up to `RETURNING ` renders as formatted |
| InsertCommon.InsertReturningRender | ormx-macros/src/backend/postgres/insert.rs:69-75 | with default fields the template renders as the form with `RETURNING <default items>` |
| InsertCommon.InsertReturningArgs | ormx-macros/src/backend/postgres/insert.rs:69-75 | RETURNING binds nothing, so the arguments are the non-default fields' |
| InsertCommon.InsertRender | ormx-macros/src/backend/postgres/insert.rs:53-77 | `insert_sql` is the insert template rendered: the k-th placeholder binds the k-th non-default field's argument |
| InsertCommon.CallerInits | ormx-macros/src/backend/postgres/insert.rs:45 | each non-default field is taken from the caller, in declaration order |
| InsertCommon.InsertQuery | ormx-macros/src/backend/postgres/insert.rs:23-42 | the insert query is its template rendered, with that template's arguments, run by `execute` exactly without default fields |
| InsertCommon.RowCoversFields | ormx-macros/src/backend/postgres/insert.rs:44-47 | caller values plus generated values initialise the declared fields, as a permutation |
| PgInsert.GeneratedInits | ormx-macros/src/backend/postgres/insert.rs:46 | each default field is read from the generated row by its own name, in order |
| PgInsert.ImplInsert | ormx-macros/src/backend/postgres/insert.rs:11-51 | nothing exactly when there is no insert struct; otherwise the Postgres insert query and the caller-then-generated row, which sets every declared field exactly as often as declared |
| PgInsert.GeneratedReadByReturnedName | ormx-macros/src/backend/postgres/insert.rs:46 | each generated field is read under the name its RETURNING item gives the column, with the custom type as override |
| MariaInsert.Ordinals | ormx-macros/src/backend/mariadb/insert.rs:23 | `(0..).take(n)` is 0, …, n-1 |
| MariaInsert.GeneratedInits | ormx-macros/src/backend/mariadb/insert.rs:22-23 | one initialiser per default field, in order, the k-th read from ordinal k |
| MariaInsert.ImplInsert | ormx-macros/src/backend/mariadb/insert.rs:11-56 | nothing exactly when there is no insert struct; otherwise the MariaDB insert query and the caller-then-generated row, which sets every declared field exactly as often as declared |
| MariaInsert.OrdinalsMatchReturning | ormx-macros/src/backend/mariadb/insert.rs:51 | generated fields and RETURNING columns correspond one to one: field k reads ordinal k, no two share one, and every RETURNING column is read |
| Utils.SetOnceStep | ormx-macros/src/utils.rs:11-16 | the slot then holds `v`; the result is `Ok` exactly when the slot was empty, else "duplicate attribute" |
| Utils.AttrSlot.SetOnce | ormx-macros/src/utils.rs:11-16 | the slot holds `v` afterwards; the result is `Ok` exactly when the slot was empty, else "duplicate attribute" |
| Utils.SetOnceAll | ormx-macros/src/utils.rs:11-16 | one result per call, in call order |
| Utils.SetOnceAllPassIff | ormx-macros/src/utils.rs:11-16 | repeated calls on one slot all succeed exactly when there is at most one call on an empty slot; every later call fails; the last value wins |
| Utils.MissingAttr | ormx-macros/src/utils.rs:18-23 | the message is `missing #[ormx(`, the attribute unchanged, then `)] attribute` |
| Utils.MissingAttrNames | ormx-macros/src/utils.rs:18-23 | the attribute can be read back out of the `missing #[ormx(<a>)] attribute` message |
| Utils.MissingAttrInjective | ormx-macros/src/utils.rs:18-23 | different attributes give different messages |

## Left out

- The MySQL insert: ormx-macros/src/backend/mysql/insert.rs is not part of this
  model. The MySQL backend is covered for quoting, bindings, the query-result type
  and the common statements.
- Getters, setters, the insert struct and `Patch` emission (`common::getters`,
  `setters`, `insert_struct`, `impl_patch`): their sources are not part of this
  model. Only `Getter::or_fallback` is modelled.
- Attribute parsing (`table/parse`, `attrs`): not part of this model. Its
  guarantees are the precondition `Tables.WellFormed`.
- `derive` (ormx-macros/src/table/mod.rs:124-142), `quote!`/`TokenStream`
  assembly and the `stream!` macro. Emitted code is modelled as records (`Query`,
  `TableImpl`, `DeleteImpl`, `InsertImpl`) rather than Rust tokens.
- Tables.OrFallback: field names are plain identifiers. For a raw identifier
  such as `r#type`, the source builds `by_r#type` and `Ident::new` panics during
  expansion; the model returns that string instead of failing.
- Tables.Name and Tables.Column carry no contract of their own: stating the
  quoted shape on them makes every string proof that mentions them much more
  expensive, so `Tables.NameShape` and `Tables.ColumnShape` state it.
- `ty.to_token_stream()`: Rust types are opaque strings (`Ty.Named`). Only the
  `&` that `fmt_as_argument` and `or_fallback` add is modelled.
- The runtime crate (ormx/src/lib.rs), sqlx and the database. No statement is
  executed. CommonTable.ExecuteDelete: a keyed map stands in for the table, with
  the id unique.
- Backend selection by cargo feature (ormx-macros/src/backend/mod.rs). The
  backend is a parameter.
- Dialects.Bindings.Next: `PgBindings.0` is a `usize`. Its overflow after 2^64
  calls is not modelled.
- The example programs.

/** SQL statements as sequences of pieces: literal text, quoted identifiers, and
    value slots that carry the argument bound to them. Rendering a statement for
    a dialect quotes the identifiers and numbers the slots from left to right;
    the arguments, read in the same order, are what the query macro is given. */
module Sql {
  import opened Text
  import opened Dialects
  import opened Tables

  datatype Piece = Lit(text: string) | Ident(name: string) | Value(arg: Expr)

  /** How a generated function runs its query: `execute` (affected rows only),
      `fetch_one` (exactly one row) or `fetch` (a stream of rows). */
  datatype Fetch = Execute | FetchOne | FetchAll

  /** A `sqlx::query!`/`query_as!` call as the macro emits it: the statement text,
      the argument expressions in order, and how it is run. Which macro is used is
      not recorded: `get` and `stream_all` (and the paginated form) decode rows into
      `Self` with `query_as!`, so their result-column names matter (see
      `Tables.ResultNameIsField`); `update`, `delete` and `insert` use `query!`. */
  datatype Query = Query(sql: string, args: seq<Expr>, fetch: Fetch)

  function ValueCount(p: Piece): nat
  {
    if p.Value? then 1 else 0
  }

  function RenderPiece(d: Syntax, p: Piece, issued: nat): string
  {
    match p
    case Lit(text) => text
    case Ident(name) => [d.quote] + name + [d.quote]
    case Value(_) => d.placeholder(issued + 1)
  }

  /** The statement text, when `issued` placeholders have already been taken from
      the generator. */
  function Render(d: Syntax, s: seq<Piece>, issued: nat): string
    decreases |s|
  {
    if s == [] then ""
    else RenderPiece(d, s[0], issued) + Render(d, s[1..], issued + ValueCount(s[0]))
  }

  /** The arguments bound to the value slots, in slot order. */
  function Args(s: seq<Piece>): seq<Expr>
    decreases |s|
  {
    if s == [] then []
    else (if s[0].Value? then [s[0].arg] else []) + Args(s[1..])
  }

  /** Pieces joined with a literal separator, as `join` does for strings. */
  function JoinPieces(ts: seq<seq<Piece>>, sep: string): seq<Piece>
    decreases |ts|
  {
    if |ts| == 0 then []
    else if |ts| == 1 then ts[0]
    else ts[0] + [Lit(sep)] + JoinPieces(ts[1..], sep)
  }

  /** Each part rendered where it stands: a part starts numbering after the slots
      of the parts before it. */
  function RenderEach(d: Syntax, ts: seq<seq<Piece>>, issued: nat): seq<string>
    decreases |ts|
  {
    if ts == [] then []
    else [Render(d, ts[0], issued)] + RenderEach(d, ts[1..], issued + |Args(ts[0])|)
  }

  /** The arguments of the parts, concatenated. */
  function ArgsEach(ts: seq<seq<Piece>>): seq<Expr>
    decreases |ts|
  {
    if ts == [] then [] else Args(ts[0]) + ArgsEach(ts[1..])
  }

  /** Rendering one piece at a time. */
  lemma RenderCons(d: Syntax, p: Piece, s: seq<Piece>, issued: nat)
    ensures Render(d, [p] + s, issued) == RenderPiece(d, p, issued) + Render(d, s, issued + ValueCount(p))
  {
    assert ([p] + s)[1..] == s;
  }

  /** Reading arguments one piece at a time. */
  lemma ArgsCons(p: Piece, s: seq<Piece>)
    ensures Args([p] + s) == (if p.Value? then [p.arg] else []) + Args(s)
    ensures |Args([p] + s)| == ValueCount(p) + |Args(s)|
  {
    assert ([p] + s)[1..] == s;
  }

  lemma ConcatAssoc(x: string, y: string, z: string)
    ensures x + (y + z) == (x + y) + z
  {
  }

  lemma Regroup(whole: string, front: string, head: string, mid: string, tail: string)
    requires whole == head + (mid + tail)
    requires front == head + mid
    ensures whole == front + tail
  {
  }

  /** The arguments of a concatenation are the arguments of its halves. */
  lemma {:induction false} ArgsAppend(x: seq<Piece>, y: seq<Piece>)
    ensures Args(x + y) == Args(x) + Args(y)
    decreases |x|
  {
    if x == [] {
      assert x + y == y;
    } else {
      var p, rest := x[0], x[1..];
      assert x == [p] + rest;
      assert x + y == [p] + (rest + y);
      ArgsCons(p, rest + y);
      ArgsCons(p, rest);
      ArgsAppend(rest, y);
    }
  }

  /** Rendering a concatenation: the second half continues the numbering. */
  lemma {:induction false} RenderAppend(d: Syntax, x: seq<Piece>, y: seq<Piece>, issued: nat)
    ensures Render(d, x + y, issued) == Render(d, x, issued) + Render(d, y, issued + |Args(x)|)
    decreases |x|
  {
    if x == [] {
      assert x + y == y;
    } else {
      var p, rest := x[0], x[1..];
      var k := issued + ValueCount(p);
      var head, mid, tail := RenderPiece(d, p, issued), Render(d, rest, k), Render(d, y, k + |Args(rest)|);
      assert (x + y)[0] == p;
      assert (x + y)[1..] == rest + y;
      RenderAppend(d, rest, y, k);
      assert |Args(x)| == ValueCount(p) + |Args(rest)|;
      Regroup(Render(d, x + y, issued), Render(d, x, issued), head, mid, tail);
    }
  }

  /** Appending one piece: it is rendered after everything before it. */
  lemma RenderSnoc(d: Syntax, x: seq<Piece>, p: Piece, issued: nat)
    ensures Render(d, x + [p], issued) == Render(d, x, issued) + RenderPiece(d, p, issued + |Args(x)|)
  {
    RenderAppend(d, x, [p], issued);
    assert Render(d, [p], issued + |Args(x)|) == RenderPiece(d, p, issued + |Args(x)|) + "";
  }

  /** Appending one piece adds its argument, if it has one, at the end. */
  lemma ArgsSnoc(x: seq<Piece>, p: Piece)
    ensures Args(x + [p]) == Args(x) + (if p.Value? then [p.arg] else [])
  {
    ArgsAppend(x, [p]);
    assert Args([p]) == (if p.Value? then [p.arg] else []) + [];
  }

  /** Rendering a joined list of parts is joining the parts rendered in place. */
  lemma {:induction false} RenderJoin(d: Syntax, ts: seq<seq<Piece>>, sep: string, issued: nat)
    ensures Render(d, JoinPieces(ts, sep), issued) == Join(RenderEach(d, ts, issued), sep)
    decreases |ts|
  {
    if |ts| > 1 {
      var head, tail := ts[0], ts[1..];
      var k := issued + |Args(head)|;
      RenderJoin(d, tail, sep, k);
      RenderAppend(d, head + [Lit(sep)], JoinPieces(tail, sep), issued);
      RenderAppend(d, head, [Lit(sep)], issued);
      ArgsAppend(head, [Lit(sep)]);
      assert Render(d, [Lit(sep)], k) == sep;
      assert Args([Lit(sep)]) == [];
      assert RenderEach(d, ts, issued)[1..] == RenderEach(d, tail, k);
    }
  }

  /** The arguments of a joined list of parts are the parts' arguments in order. */
  lemma {:induction false} ArgsJoin(ts: seq<seq<Piece>>, sep: string)
    ensures Args(JoinPieces(ts, sep)) == ArgsEach(ts)
    decreases |ts|
  {
    if |ts| == 1 {
      assert ArgsEach(ts) == Args(ts[0]) + [];
    } else if |ts| > 1 {
      ArgsJoin(ts[1..], sep);
      ArgsAppend(ts[0] + [Lit(sep)], JoinPieces(ts[1..], sep));
      ArgsAppend(ts[0], [Lit(sep)]);
      assert Args([Lit(sep)]) == [];
    }
  }

  /** When every part carries exactly `c` slots, part i is numbered from
      `issued + c * i`. */
  lemma {:induction false} RenderEachUniform(d: Syntax, ts: seq<seq<Piece>>, c: nat, issued: nat)
    requires forall i :: 0 <= i < |ts| ==> |Args(ts[i])| == c
    ensures |RenderEach(d, ts, issued)| == |ts|
    ensures forall i :: 0 <= i < |ts| ==> RenderEach(d, ts, issued)[i] == Render(d, ts[i], issued + c * i)
  {
    RenderEachLength(d, ts, issued);
    forall i | 0 <= i < |ts|
      ensures RenderEach(d, ts, issued)[i] == Render(d, ts[i], issued + c * i)
    {
      RenderEachAt(d, ts, c, issued, i);
    }
  }

  lemma {:induction false} RenderEachLength(d: Syntax, ts: seq<seq<Piece>>, issued: nat)
    ensures |RenderEach(d, ts, issued)| == |ts|
    decreases |ts|
  {
    if ts != [] {
      RenderEachLength(d, ts[1..], issued + |Args(ts[0])|);
    }
  }

  /** Part i of uniformly-sized parts is rendered after the c * i placeholders before it. */
  lemma {:induction false} RenderEachAt(d: Syntax, ts: seq<seq<Piece>>, c: nat, issued: nat, i: nat)
    requires forall j :: 0 <= j < |ts| ==> |Args(ts[j])| == c
    requires i < |ts|
    ensures i < |RenderEach(d, ts, issued)|
    ensures RenderEach(d, ts, issued)[i] == Render(d, ts[i], issued + c * i)
    decreases i
  {
    RenderEachLength(d, ts, issued);
    var all := RenderEach(d, ts, issued);
    if i > 0 {
      var rest := ts[1..];
      assert |Args(ts[0])| == c;
      var tail := RenderEach(d, rest, issued + c);
      assert all == [Render(d, ts[0], issued)] + tail;
      RenderEachAt(d, rest, c, issued + c, i - 1);
      assert all[i] == tail[i - 1];
      assert rest[i - 1] == ts[i];
      MulStep(c, i);
    } else {
      assert all[0] == Render(d, ts[0], issued);
    }
  }

  lemma MulStep(c: nat, i: nat)
    requires i >= 1
    ensures c + c * (i - 1) == c * i
  {
  }

  /** When part i carries exactly the one argument `args[i]`, the parts' arguments
      are `args`. */
  lemma {:induction false} ArgsEachSingles(ts: seq<seq<Piece>>, args: seq<Expr>)
    requires |ts| == |args|
    requires forall i :: 0 <= i < |ts| ==> Args(ts[i]) == [args[i]]
    ensures ArgsEach(ts) == args
    decreases |ts|
  {
    if ts != [] {
      ArgsEachSingles(ts[1..], args[1..]);
    }
  }

  /** When no part carries an argument, neither does the whole. */
  lemma {:induction false} ArgsEachNone(ts: seq<seq<Piece>>)
    requires forall i :: 0 <= i < |ts| ==> Args(ts[i]) == []
    ensures ArgsEach(ts) == []
    decreases |ts|
  {
    if ts != [] {
      ArgsEachNone(ts[1..]);
    }
  }

  /** MySQL and MariaDB render every statement identically. */
  lemma {:induction false} MySqlMariaRenderAlike(s: seq<Piece>, issued: nat)
    ensures Render(SyntaxOf(MySql), s, issued) == Render(SyntaxOf(Maria), s, issued)
    decreases |s|
  {
    if s != [] {
      MySqlMariaRenderAlike(s[1..], issued + ValueCount(s[0]));
    }
  }

  lemma RenderOne(d: Syntax, x: Piece, issued: nat)
    ensures Render(d, [x], issued) == RenderPiece(d, x, issued)
    ensures Args([x]) == if x.Value? then [x.arg] else []
  {
    assert [x][1..] == [];
  }

  lemma RenderTwo(d: Syntax, x: Piece, y: Piece, issued: nat)
    ensures Render(d, [x, y], issued) == RenderPiece(d, x, issued) + RenderPiece(d, y, issued + ValueCount(x))
    ensures Args([x, y]) == (if x.Value? then [x.arg] else []) + (if y.Value? then [y.arg] else [])
  {
    assert [x, y] == [x] + [y];
    RenderCons(d, x, [y], issued);
    ArgsCons(x, [y]);
    RenderOne(d, y, issued + ValueCount(x));
  }

  lemma RenderThree(d: Syntax, x: Piece, y: Piece, z: Piece, issued: nat)
    ensures Render(d, [x, y, z], issued) ==
      RenderPiece(d, x, issued) + RenderPiece(d, y, issued + ValueCount(x))
      + RenderPiece(d, z, issued + ValueCount(x) + ValueCount(y))
  {
    assert [x, y, z] == [x] + [y, z];
    assert [y, z] == [y] + [z];
    assert [z] == [z] + [];
    RenderCons(d, x, [y, z], issued);
    RenderCons(d, y, [z], issued + ValueCount(x));
    RenderCons(d, z, [], issued + ValueCount(x) + ValueCount(y));
    ConcatAssoc(RenderPiece(d, x, issued), RenderPiece(d, y, issued + ValueCount(x)),
      RenderPiece(d, z, issued + ValueCount(x) + ValueCount(y)));
  }

  lemma ArgsThree(x: Piece, y: Piece, z: Piece)
    ensures Args([x, y, z]) ==
      (if x.Value? then [x.arg] else []) + (if y.Value? then [y.arg] else []) + (if z.Value? then [z.arg] else [])
  {
    assert [x, y, z] == [x] + [y, z];
    assert [y, z] == [y] + [z];
    assert [z] == [z] + [];
    ArgsCons(x, [y, z]);
    ArgsCons(y, [z]);
    ArgsCons(z, []);
  }

  /** The SELECT item of one field: its column, aliased when needed. */
  function SelectPieces(f: TableField): seq<Piece>
  {
    if !f.customType && f.field == f.columnName then [Ident(f.columnName)]
    else [Ident(f.columnName), Lit(" AS "), Ident(SelectLabel(f))]
  }

  function SelectPiecesEach(fields: seq<TableField>): (r: seq<seq<Piece>>)
    ensures |r| == |fields|
    ensures forall i :: 0 <= i < |fields| ==> r[i] == SelectPieces(fields[i])
  {
    seq(|fields|, i requires 0 <= i < |fields| => SelectPieces(fields[i]))
  }

  /** The column list of a SELECT or RETURNING clause: one item per field, in
      order, separated by `", "`. */
  function ColumnListPieces(fields: seq<TableField>): seq<Piece>
  {
    JoinPieces(SelectPiecesEach(fields), ", ")
  }

  /** `fmt_for_select` renders the field's SELECT item and binds nothing. */
  lemma SelectPiecesRender(b: Backend, f: TableField, issued: nat)
    ensures Render(SyntaxOf(b), SelectPieces(f), issued) == FmtForSelect(f, b)
    ensures Args(SelectPieces(f)) == []
  {
    var d := SyntaxOf(b);
    var s := SelectPieces(f);
    if |s| == 3 {
      RenderThree(d, s[0], s[1], s[2], issued);
      ArgsThree(s[0], s[1], s[2]);
    } else {
      assert s[1..] == [];
    }
  }

  /** A column list renders as the `", "`-join of the fields' `fmt_for_select`
      fragments, in field order, and binds nothing. */
  lemma ColumnListRender(b: Backend, fields: seq<TableField>, issued: nat)
    ensures Render(SyntaxOf(b), ColumnListPieces(fields), issued) == Join(SelectFragments(fields, b), ", ")
    ensures Args(ColumnListPieces(fields)) == []
  {
    var d := SyntaxOf(b);
    var ts := SelectPiecesEach(fields);
    forall i | 0 <= i < |ts|
      ensures |Args(ts[i])| == 0
      ensures Render(d, ts[i], issued) == FmtForSelect(fields[i], b)
    {
      SelectPiecesRender(b, fields[i], issued);
    }
    RenderJoin(d, ts, ", ", issued);
    ArgsJoin(ts, ", ");
    RenderEachUniform(d, ts, 0, issued);
    ArgsEachNone(ts);
    assert RenderEach(d, ts, issued) == SelectFragments(fields, b);
  }
}

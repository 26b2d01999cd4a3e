/** The three SQL dialects the derive macros can target, each with its identifier
    quote character, its placeholder generator and the query-result type that
    reports affected rows. */
module Dialects {
  import opened Text

  /** PostgreSQL, MySQL or MariaDB; one is chosen for the whole build. */
  datatype Backend = Pg | MySql | Maria

  /** `Backend::QUOTE`: Postgres quotes identifiers with `"`, MySQL and MariaDB
      share the backtick. */
  function Quote(b: Backend): (c: char)
    ensures c == '"' <==> b == Pg
    ensures b != Pg ==> c == '`'
  {
    match b
    case Pg => '"'
    case MySql => '`'
    case Maria => '`'
  }

  /** `format!("{q}{}{q}", ident)`: an identifier wrapped in the dialect's quote. */
  function Quoted(b: Backend, ident: string): string
  {
    [Quote(b)] + ident + [Quote(b)]
  }

  /** A quoted identifier is the quote character, the raw identifier, and the
      quote character again, so the identifier can be read back from it. */
  lemma QuotedShape(b: Backend, ident: string)
    ensures |Quoted(b, ident)| == |ident| + 2
    ensures Quoted(b, ident)[0] == Quote(b) && Quoted(b, ident)[|ident| + 1] == Quote(b)
    ensures Quoted(b, ident)[1..|ident| + 1] == ident
  {
  }

  /** `Backend::query_result()`: the path of the type `execute` returns; MySQL and
      MariaDB both use sqlx's MySQL type. */
  function QueryResult(b: Backend): (r: string)
    ensures r == "sqlx::postgres::PgQueryResult" <==> b == Pg
    ensures b != Pg ==> r == "sqlx::mysql::MySqlQueryResult"
  {
    match b
    case Pg => "sqlx::postgres::PgQueryResult"
    case MySql => "sqlx::mysql::MySqlQueryResult"
    case Maria => "sqlx::mysql::MySqlQueryResult"
  }

  /** The number a Postgres placeholder `$k` carries. */
  function PlaceholderNumber(p: string): int
  {
    if |p| == 0 then 0 else DecimalValue(p[1..])
  }

  /** The k-th item (counting from 1) of a freshly defaulted `B::Bindings`:
      `$k` for Postgres (PostgreSQL manual, section 4.2.2 "Positional Parameters"),
      `?` for MySQL and MariaDB whatever k is. */
  function Placeholder(b: Backend, k: nat): (r: string)
    ensures r == "?" <==> b != Pg
    ensures b == Pg ==> |r| >= 2 && r[0] == '$'
  {
    if b == Pg then "$" + Decimal(k) else "?"
  }

  /** A Postgres placeholder is `$` followed by the decimal digits of its
      position; the other dialects always use `?`. */
  lemma PlaceholderShape(b: Backend, k: nat)
    ensures b == Pg ==> |Placeholder(b, k)| >= 2 && Placeholder(b, k)[0] == '$'
    ensures b == Pg ==> PlaceholderNumber(Placeholder(b, k)) == k
    ensures b != Pg ==> Placeholder(b, k) == "?"
  {
    if b == Pg {
      DecimalRoundTrip(k);
      assert Placeholder(b, k)[1..] == Decimal(k);
    }
  }

  /** `B::Bindings::default().take(n)`: the first n placeholders of a fresh generator. */
  function Placeholders(b: Backend, n: nat): (r: seq<string>)
    ensures |r| == n
    ensures forall i :: 0 <= i < n ==> r[i] == Placeholder(b, i + 1)
  {
    seq(n, i requires 0 <= i < n => Placeholder(b, i + 1))
  }

  /** Postgres placeholders taken from one generator are pairwise distinct and
      their numbers strictly increase. */
  lemma PgPlaceholdersIncrease(n: nat)
    ensures forall i, j :: 0 <= i < j < n ==>
      PlaceholderNumber(Placeholders(Pg, n)[i]) < PlaceholderNumber(Placeholders(Pg, n)[j])
    ensures forall i, j :: 0 <= i < j < n ==> Placeholders(Pg, n)[i] != Placeholders(Pg, n)[j]
  {
    forall i, j | 0 <= i < j < n
      ensures PlaceholderNumber(Placeholders(Pg, n)[i]) < PlaceholderNumber(Placeholders(Pg, n)[j])
    {
      PlaceholderShape(Pg, i + 1);
      PlaceholderShape(Pg, j + 1);
    }
  }

  /** The MySQL and MariaDB generators keep no state: every item is the same
      whichever position it is taken at. */
  lemma StatelessBindings(b: Backend, j: nat, k: nat)
    requires b != Pg
    ensures Placeholder(b, j) == Placeholder(b, k) == "?"
  {
  }

  /** What a statement's text depends on: the identifier quote character and the
      placeholder for each position (counting from 1). */
  datatype Syntax = Syntax(quote: char, placeholder: nat -> string)

  /** The syntax of a backend: `Backend::QUOTE` and the items of its bindings. */
  function SyntaxOf(b: Backend): Syntax
  {
    Syntax(Quote(b), (k: nat) => Placeholder(b, k))
  }

  /** `B::Bindings`: `PgBindings(usize)` for Postgres, whose counter `next` bumps
      before rendering it; the unit structs `MySqlBindings` and `MariaBindings`,
      whose `next` always yields `?`. `counter` is `PgBindings.0` and stays 0 for
      the other two; `issued` counts the calls to `next`. */
  class Bindings {
    const backend: Backend
    var counter: nat
    ghost var issued: nat

    ghost predicate Valid()
      reads this
    {
      counter == if backend == Pg then issued else 0
    }

    /** `B::Bindings::default()`. */
    constructor (b: Backend)
      ensures Valid()
      ensures backend == b && counter == 0 && issued == 0
    {
      backend := b;
      counter := 0;
      issued := 0;
    }

    /** `Iterator::next`; it never yields `None`, so the sequence is unbounded. */
    method Next() returns (p: string)
      requires Valid()
      modifies this
      ensures Valid()
      ensures issued == old(issued) + 1
      ensures counter == if backend == Pg then old(counter) + 1 else old(counter)
      ensures p == Placeholder(backend, issued)
    {
      if backend == Pg {
        counter := counter + 1;
        p := "$" + Decimal(counter);
      } else {
        p := "?";
      }
      issued := issued + 1;
    }
  }
}

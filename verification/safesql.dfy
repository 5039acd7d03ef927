/** Trusted SQL text, from `safesql/safesql.go`.

    `TrustedSQL` wraps query text. Outside its package it can be obtained from
    a `compileTimeConstant` (a type only an untyped constant, that is a literal
    written at the call site, converts to), from the decimal rendering of an
    `int`, or through the constructor the package installs at initialisation
    into the shared slot of its internal `raw` package, which only the legacy
    conversion package reads. The query wrappers hand the driver the text and
    the bound arguments as two separate channels. */
module Safesql {
  import opened Strconv

  /** A literal written at the call site. The model has no conversion from
      general strings to this type; writing `Literal("...")` stands for
      writing the literal. */
  datatype CompileTimeConstant = Literal(text: string)

  /** The wrapper; its only field is the text. */
  datatype TrustedSQL = TrustedSQL(s: string)

  /** `raw.TrustedSQLCtor`: empty until this package's `init` fills it. */
  datatype CtorSlot = Unset | Installed(ctor: string -> TrustedSQL)

  /** The package `init`: overwrites the slot, whatever it held, with a
      constructor that wraps its argument unchanged. */
  function Init(): (r: CtorSlot)
    ensures r.Installed?
    ensures forall unsafe :: r.ctor(unsafe).s == unsafe
  {
    Installed(unsafe => TrustedSQL(unsafe))
  }

  /** The slot once package initialisation has run. */
  const TrustedSQLCtor: CtorSlot := Init()

  /** `New`: wraps the literal's text as is. */
  function New(text: CompileTimeConstant): (r: TrustedSQL)
    ensures r.s == text.text
  {
    TrustedSQL(text.text)
  }

  /** `NewFromInt`: the text is the canonical decimal rendering of `i`, from
      which `i` can be read back. */
  function NewFromInt(i: GoInt): (r: TrustedSQL)
    ensures IsCanonicalInt(r.s) && ParseInt(r.s) == i
    ensures forall k :: 0 <= k < |r.s| ==> r.s[k] == '-' || IsDigit(r.s[k])
    ensures 0 < |r.s| <= 20
  {
    ItoaRoundTrip(i);
    ItoaLength(i);
    TrustedSQL(Itoa(i))
  }

  /** Distinct integers give distinct query texts. */
  lemma NewFromIntInjective(i: GoInt, j: GoInt)
    requires NewFromInt(i) == NewFromInt(j)
    ensures i == j
  {
    ItoaInjective(i, j);
  }

  /** Every canonical decimal text within Go's `int` range is some
      `NewFromInt` result. */
  lemma NewFromIntCoversCanonical(s: string)
    requires IsCanonicalInt(s) && MinInt <= ParseInt(s) <= MaxInt
    ensures NewFromInt(ParseInt(s)).s == s
  {
    ParseRoundTrip(s);
  }

  /** How a `TrustedSQL` value came to be: the three constructors the package
      offers. */
  datatype Origin = FromLiteral(literal: CompileTimeConstant) | FromInt(i: GoInt) | FromCtor(text: string)

  function Construct(o: Origin): (r: TrustedSQL)
    ensures o.FromLiteral? ==> r.s == o.literal.text
    ensures o.FromInt? ==> IsCanonicalInt(r.s) && ParseInt(r.s) == o.i
    ensures o.FromCtor? ==> r.s == o.text
  {
    match o
    case FromLiteral(t) => New(t)
    case FromInt(i) => NewFromInt(i)
    case FromCtor(text) => TrustedSQLCtor.ctor(text)
  }

  /** Text with a character that no integer rendering contains (a quote, a
      space, a letter) comes from a literal or from the installed constructor. */
  lemma {:induction false} ArbitraryTextNeedsLiteralOrCtor(o: Origin, k: nat)
    requires k < |Construct(o).s|
    requires Construct(o).s[k] != '-' && !IsDigit(Construct(o).s[k])
    ensures o.FromLiteral? || o.FromCtor?
  {
    assert o.FromInt? ==> Construct(o) == NewFromInt(o.i);
  }

  /** The `*sql.DB` handle the wrappers forward to. */
  datatype DB = DB(handle: nat)

  datatype Statement = Query | Exec

  /** What a wrapper hands the `database/sql` driver: the statement kind, the
      context, the query text and the bound arguments. */
  datatype DriverCall<+C, +Arg> = DriverCall(kind: Statement, db: DB, ctx: C, text: string, args: seq<Arg>)

  /** `DB.QueryContext`: forwards the wrapped text and the arguments. */
  function QueryContext<C, Arg>(db: DB, ctx: C, query: TrustedSQL, args: seq<Arg>): (r: DriverCall<C, Arg>)
    ensures r.kind == Query && r.db == db && r.ctx == ctx
    ensures r.text == query.s && r.args == args
  {
    DriverCall(Query, db, ctx, query.s, args)
  }

  /** `DB.ExecContext`: forwards the wrapped text and the arguments. */
  function ExecContext<C, Arg>(db: DB, ctx: C, query: TrustedSQL, args: seq<Arg>): (r: DriverCall<C, Arg>)
    ensures r.kind == Exec && r.db == db && r.ctx == ctx
    ensures r.text == query.s && r.args == args
  {
    DriverCall(Exec, db, ctx, query.s, args)
  }

  /** Bound arguments never reach the text the driver receives: it is the
      same whatever the arguments are. */
  lemma ArgumentsNeverEnterText<C, Arg>(db: DB, ctx: C, query: TrustedSQL, a: seq<Arg>, b: seq<Arg>)
    ensures QueryContext(db, ctx, query, a).text == QueryContext(db, ctx, query, b).text == query.s
    ensures ExecContext(db, ctx, query, a).text == ExecContext(db, ctx, query, b).text == query.s
  {
  }
}

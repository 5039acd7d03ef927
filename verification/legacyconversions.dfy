/** The audited escape hatch of `safesql/lagacyconversions` (package
    `legacyconversions`). It cannot build a `TrustedSQL` itself: it reads the
    constructor that `safesql` installs in the shared slot, once, when the
    package is initialised, and every conversion goes through it. */
module Legacyconversions {
  import opened Runtime
  import Safesql

  const CtorConversionPanic := "interface conversion: interface {} is nil, not func(string) safesql.TrustedSQL"

  /** The package variable `trustedSQLCtor`: a type assertion on the slot,
      which panics while the slot is empty. */
  function LoadCtor(slot: Safesql.CtorSlot): (r: Outcome<string -> Safesql.TrustedSQL>)
    ensures r.Returned? <==> slot.Installed?
    ensures r.Returned? ==> r.value == slot.ctor && r.log == []
  {
    match slot
    case Installed(ctor) => Returned(ctor, [])
    case Unset => Panicked(CtorConversionPanic)
  }

  /** `RiskilyAssumeTrustedSQL`: accepts any string and wraps it unchanged. */
  function RiskilyAssumeTrustedSQL(trusted: string): (r: Safesql.TrustedSQL)
    ensures r.s == trusted
    ensures r == Safesql.Construct(Safesql.FromCtor(trusted))
  {
    // Go initialises an imported package first, so safesql's init has
    // filled the slot by the time this package reads it.
    var load := LoadCtor(Safesql.TrustedSQLCtor);
    assert load.Returned?;
    load.value(trusted)
  }

  /** Distinct strings give distinct values, and text that is also a literal
      gives the same value as `New` of that literal. */
  lemma RiskilyAgreesWithNew(t: Safesql.CompileTimeConstant, a: string, b: string)
    ensures RiskilyAssumeTrustedSQL(t.text) == Safesql.New(t)
    ensures a != b ==> RiskilyAssumeTrustedSQL(a) != RiskilyAssumeTrustedSQL(b)
  {
  }
}

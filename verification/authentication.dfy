/** The older variant of the protocol in `safeauth/authentication.go`
    (package `authentication`), modelled as written.

    Three guards differ from the intended protocol: Grant panics when there
    is NO privilege binding yet, so it can never attach the first one; Check's
    `checked` flag is never reset between required privileges, so only the
    first one is really compared; and the checked marker is bound to nil,
    which Must cannot tell apart from absence. The `Fixed*` members are the
    evidently intended definitions, with the subset, grant-once and
    marker properties proved about them. */
module Authentication {
  import opened Runtime
  import opened Context
  import opened Http
  import Safeauth

  type Privilege = string

  /** Go's `error`: nil, or an error carrying its message. */
  datatype Error = NilError | Errorf(message: string)

  const GrantedTwice := "Grant called multiple times"
  const CheckedBeforeGrant := "Check called before Grant"
  const MissingCheck := "missing privilege check"
  /** A stand-in for the message of a failed type assertion to
      `[]Privilege`; Go's own names the dynamic type it found, or nil. */
  const ConversionPanic := "interface conversion: interface {} is not []authentication.Privilege"

  function MissingPrivilege(p: Privilege): string
  {
    "missing privilege " + p
  }

  /** Grant as written: it panics exactly when the carrier has no privilege
      binding, and otherwise shadows the existing set with `ps`. */
  function Grant<A>(c: Carrier<A>, ps: seq<Privilege>): (r: Outcome<Carrier<A>>)
    ensures r.Panicked? <==> Lookup(c, AuthenticationPrivilege).Nil?
    ensures r.Panicked? ==> r.message == GrantedTwice
    ensures r.Returned? ==>
      && r.log == []
      && Extends(r.value, c)
      && Lookup(r.value, AuthenticationPrivilege) == Privileges(ps)
      && SameExcept(c, r.value, AuthenticationPrivilege)
  {
    if Lookup(c, AuthenticationPrivilege).Nil? then Panicked(GrantedTwice)
    else Returned(WithValue(c, AuthenticationPrivilege, Privileges(ps)), [])
  }

  /** What Check returns when it does not panic. */
  datatype Checked<+A> = Checked(carrier: Carrier<A>, err: Error)

  /** The loop of Check as written, with the `checked` flag carried from one
      required privilege to the next: the privilege it reports, if any. Once
      one privilege is found the flag stays set and nothing fails after. */
  function ScanCarried(granted: seq<Privilege>, required: seq<Privilege>, checked: bool): (missing: Option<Privilege>)
    ensures missing.Some? <==> !checked && |required| > 0 && required[0] !in granted
    ensures missing.Some? ==> missing.value == required[0]
    decreases |required|
  {
    if |required| == 0 then None
    else
      var checked' := checked || required[0] in granted;
      if !checked' then Some(required[0]) else ScanCarried(granted, required[1..], checked')
  }

  /** Check as written. It panics without a privilege binding, and on a
      binding that is not a `[]Privilege` once the loop body runs. It fails,
      naming the first required privilege, exactly when that one is not
      granted; later ones are never compared. On success it binds the checked
      key to nil. */
  function Check<A>(c: Carrier<A>, required: seq<Privilege>): (r: Outcome<Checked<A>>)
    ensures r.Panicked? <==>
      Lookup(c, AuthenticationPrivilege).Nil? || (|required| > 0 && !Lookup(c, AuthenticationPrivilege).Privileges?)
    ensures r.Returned? ==> r.log == []
    ensures r.Returned? && |required| > 0 ==>
      (r.value.err.Errorf? <==> required[0] !in Lookup(c, AuthenticationPrivilege).privileges)
    ensures r.Returned? && |required| == 0 ==> r.value.err == NilError
    ensures r.Returned? && r.value.err.Errorf? ==>
      r.value.carrier == c && r.value.err.message == MissingPrivilege(required[0])
    ensures r.Returned? && r.value.err == NilError ==>
      && Extends(r.value.carrier, c)
      && Lookup(r.value.carrier, AuthenticationChecked) == Nil
      && SameExcept(c, r.value.carrier, AuthenticationChecked)
  {
    var v := Lookup(c, AuthenticationPrivilege);
    if v.Nil? then Panicked(CheckedBeforeGrant)
    else if |required| > 0 && !v.Privileges? then Panicked(ConversionPanic)
    else
      var granted := if v.Privileges? then v.privileges else [];
      match ScanCarried(granted, required, false)
      case Some(p) => Returned(Checked(c, Errorf(MissingPrivilege(p))), [])
      case None => Returned(Checked(WithValue(c, AuthenticationChecked, Nil), NilError), [])
  }

  /** Must: an error exactly when the nearest checked binding is nil. */
  function Must<A>(c: Carrier<A>): (err: Error)
    ensures err.Errorf? <==> Lookup(c, AuthenticationChecked).Nil?
    ensures err.Errorf? ==> err.message == MissingCheck
  {
    if Lookup(c, AuthenticationChecked).Nil? then Errorf(MissingCheck) else NilError
  }

  /** GrantRequestPrivileges: Grant on the request's context, put back into a
      copy of the request. */
  function GrantRequestPrivileges<A>(r: Request<A>, ps: seq<Privilege>): (out: Outcome<Request<A>>)
    ensures out.Panicked? <==> Grant(r.context, ps).Panicked?
    ensures out.Panicked? ==> out.message == Grant(r.context, ps).message
    ensures out.Returned? ==>
      out.value == WithContext(r, Grant(r.context, ps).value) && out.log == []
  {
    match Grant(r.context, ps)
    case Returned(c, log) => Returned(WithContext(r, c), log)
    case Panicked(m) => Panicked(m)
  }

  /** CheckRequestPrivileges: runs Check and discards the carrier it derives,
      so the caller always gets the original request back. */
  function CheckRequestPrivileges<A>(r: Request<A>, ps: seq<Privilege>): (out: Outcome<(Request<A>, Error)>)
    ensures out.Panicked? <==> Check(r.context, ps).Panicked?
    ensures out.Returned? ==> out.value.0 == r && out.value.1 == Check(r.context, ps).value.err
  {
    match Check(r.context, ps)
    case Returned(checked, log) =>
      if checked.err.Errorf? then Returned((r, checked.err), log) else Returned((r, NilError), log)
    case Panicked(m) => Panicked(m)
  }

  /** GetRequestPrivileges: the nearest privilege binding; the unchecked type
      assertion panics when it is absent or not a `[]Privilege`. */
  function GetRequestPrivileges<A>(r: Request<A>): (out: Outcome<seq<Privilege>>)
    ensures out.Returned? <==> Lookup(r.context, AuthenticationPrivilege).Privileges?
    ensures out.Returned? ==> out.value == Lookup(r.context, AuthenticationPrivilege).privileges
  {
    match Lookup(r.context, AuthenticationPrivilege)
    case Privileges(ps) => Returned(ps, [])
    case _ => Panicked(ConversionPanic)
  }

  // ---------------------------------------------------------------------
  // Consequences of the code as written

  /** A sequence of calls to this package's Grant and Check, each applied to
      the carrier the previous one returned. */
  datatype Call = GrantCall(ps: seq<Privilege>) | CheckCall(required: seq<Privilege>)

  function Run<A>(c: Carrier<A>, calls: seq<Call>): Outcome<Carrier<A>>
    decreases |calls|
  {
    if |calls| == 0 then Returned(c, [])
    else
      match calls[0]
      case GrantCall(ps) =>
        (match Grant(c, ps)
         case Returned(c', _) => Run(c', calls[1..])
         case Panicked(m) => Panicked(m))
      case CheckCall(required) =>
        (match Check(c, required)
         case Returned(checked, _) => Run(checked.carrier, calls[1..])
         case Panicked(m) => Panicked(m))
  }

  /** The keys are unexported, so only this package binds them. From any
      carrier with no live checked marker (every carrier built elsewhere),
      Must fails after any run of Grant and Check that does not panic. */
  lemma {:induction false} MustFailsAfterAnyRun<A>(c: Carrier<A>, calls: seq<Call>)
    requires Lookup(c, AuthenticationChecked).Nil?
    ensures Run(c, calls).Returned? ==> Must(Run(c, calls).value).Errorf?
    decreases |calls|
  {
    if |calls| > 0 {
      match calls[0]
      case GrantCall(ps) =>
        if Grant(c, ps).Returned? {
          MustFailsAfterAnyRun(Grant(c, ps).value, calls[1..]);
        }
      case CheckCall(required) =>
        if Check(c, required).Returned? {
          MustFailsAfterAnyRun(Check(c, required).value.carrier, calls[1..]);
        }
    }
  }

  /** From a carrier with no privilege binding, the first call of any run
      panics: neither Grant nor Check can start the protocol. */
  lemma NoRunGetsStarted<A>(c: Carrier<A>, calls: seq<Call>)
    requires Bindings(c, AuthenticationPrivilege) == 0
    requires |calls| > 0
    ensures Run(c, calls).Panicked?
  {
  }

  /** Grant on the root context panics with the message meant for a second
      grant. */
  lemma GrantRefusesFirstGrant<A>(ps: seq<Privilege>)
    ensures Grant<A>(Background, ps) == Panicked(GrantedTwice)
  {
  }

  /** A check for read and delete passes against a grant of read alone. */
  lemma CheckSkipsLaterPrivileges<A>()
    ensures var c: Carrier<A> := WithValue(Background, AuthenticationPrivilege, Privileges(["read"]));
      Check(c, ["read", "delete"]).Returned? && Check(c, ["read", "delete"]).value.err == NilError
  {
    assert "read" in ["read"];
  }

  /** A carrier that passed Check is rejected by Must. */
  lemma MustRejectsCheckedCarrier<A>(c: Carrier<A>, required: seq<Privilege>)
    requires Check(c, required).Returned? && Check(c, required).value.err == NilError
    ensures Must(Check(c, required).value.carrier) == Errorf(MissingCheck)
  {
  }

  /** The request wrappers: a grant is read back unchanged, and a check never
      changes the request. */
  lemma RequestWrappers<A>(r: Request<A>, ps: seq<Privilege>, required: seq<Privilege>)
    ensures GrantRequestPrivileges(r, ps).Returned? ==>
      GetRequestPrivileges(GrantRequestPrivileges(r, ps).value) == Returned(ps, [])
    ensures CheckRequestPrivileges(r, required).Returned? ==> CheckRequestPrivileges(r, required).value.0 == r
  {
  }

  // ---------------------------------------------------------------------
  // The evidently intended definitions

  /** Grant with the guard the panic message describes: it panics exactly when
      a privilege binding already exists. */
  function FixedGrant<A>(c: Carrier<A>, ps: seq<Privilege>): (r: Outcome<Carrier<A>>)
    ensures r.Panicked? <==> !Lookup(c, AuthenticationPrivilege).Nil?
    ensures r.Panicked? ==> r.message == GrantedTwice
    ensures r.Returned? ==>
      && Extends(r.value, c)
      && Lookup(r.value, AuthenticationPrivilege) == Privileges(ps)
      && SameExcept(c, r.value, AuthenticationPrivilege)
  {
    if !Lookup(c, AuthenticationPrivilege).Nil? then Panicked(GrantedTwice)
    else Returned(WithValue(c, AuthenticationPrivilege, Privileges(ps)), [])
  }

  /** The loop with `checked` reset for each required privilege: the first
      required privilege that is not granted, if any. */
  function FirstMissing(granted: seq<Privilege>, required: seq<Privilege>): (missing: Option<Privilege>)
    ensures missing.None? <==> Safeauth.Subset(required, granted)
    ensures missing.Some? ==> missing.value in required && missing.value !in granted
    decreases |required|
  {
    if |required| == 0 then None
    else if required[0] !in granted then Some(required[0])
    else FirstMissing(granted, required[1..])
  }

  /** Check comparing every required privilege and stamping a non-nil marker. */
  function FixedCheck<A>(c: Carrier<A>, required: seq<Privilege>): (r: Outcome<Checked<A>>)
    ensures r.Panicked? <==>
      Lookup(c, AuthenticationPrivilege).Nil? || (|required| > 0 && !Lookup(c, AuthenticationPrivilege).Privileges?)
    ensures r.Returned? && Lookup(c, AuthenticationPrivilege).Privileges? ==>
      (r.value.err == NilError <==> Safeauth.Subset(required, Lookup(c, AuthenticationPrivilege).privileges))
    ensures r.Returned? && r.value.err.Errorf? ==> r.value.carrier == c
    ensures r.Returned? && r.value.err == NilError ==>
      && Extends(r.value.carrier, c)
      && Lookup(r.value.carrier, AuthenticationChecked) == Flag(true)
      && SameExcept(c, r.value.carrier, AuthenticationChecked)
  {
    var v := Lookup(c, AuthenticationPrivilege);
    if v.Nil? then Panicked(CheckedBeforeGrant)
    else if |required| > 0 && !v.Privileges? then Panicked(ConversionPanic)
    else
      var granted := if v.Privileges? then v.privileges else [];
      match FirstMissing(granted, required)
      case Some(p) => Returned(Checked(c, Errorf(MissingPrivilege(p))), [])
      case None => Returned(Checked(WithValue(c, AuthenticationChecked, Flag(true)), NilError), [])
  }

  /** The corrected Grant attaches a first set and refuses a second one. */
  lemma FixedGrantOnce<A>(c: Carrier<A>, first: seq<Privilege>, second: seq<Privilege>)
    requires Bindings(c, AuthenticationPrivilege) == 0
    ensures FixedGrant(c, first).Returned?
    ensures FixedGrant(FixedGrant(c, first).value, second) == Panicked(GrantedTwice)
  {
  }

  /** After a first corrected grant, the corrected Check passes exactly when
      the required privileges are a subset of the grant. */
  lemma FixedCheckIsSubset<A>(c: Carrier<A>, granted: seq<Privilege>, required: seq<Privilege>)
    requires Bindings(c, AuthenticationPrivilege) == 0
    ensures FixedGrant(c, granted).Returned?
    ensures FixedCheck(FixedGrant(c, granted).value, required).Returned?
    ensures FixedCheck(FixedGrant(c, granted).value, required).value.err == NilError <==> Safeauth.Subset(required, granted)
  {
  }

  /** With the corrected marker, Must accepts every carrier the corrected
      Check derived. */
  lemma FixedMustAfterCheck<A>(c: Carrier<A>, required: seq<Privilege>)
    requires FixedCheck(c, required).Returned? && FixedCheck(c, required).value.err == NilError
    ensures Must(FixedCheck(c, required).value.carrier) == NilError
  {
  }
}

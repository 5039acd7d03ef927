/** The privilege capability protocol of `safeauth/safeauth.go`.

    `Grant` binds a privilege set into a carrier once, `Check` compares the
    privileges an action requires with that set and, when it passes, stamps
    the "checked" marker, and `Must` tests for the marker where the
    privileged action actually runs. The package-wide `reportOnly` flag is the
    `mode` parameter: in report-only mode every violation is logged and the
    call goes on as if it had passed. */
module Safeauth {
  import opened Runtime
  import opened Context

  datatype Mode = Strict | ReportOnly

  const GrantedTwice := "Grant called multiple times"
  const CheckedBeforeGrant := "Check called before Grant"
  const MustBeforeCheck := "Must called before Check"

  /** The line logged for a required privilege that was not granted. */
  function CheckFailedFor(p: string): string
  {
    "Check failed for " + p
  }

  /** Every required privilege appears among the granted ones. */
  predicate Subset(required: seq<string>, granted: seq<string>)
  {
    forall i :: 0 <= i < |required| ==> required[i] in granted
  }

  /** The required privileges that are not granted, in the order required. */
  function Missing(granted: seq<string>, required: seq<string>): (m: seq<string>)
    ensures forall p :: p in m <==> p in required && p !in granted
    ensures |m| == 0 <==> Subset(required, granted)
    ensures |m| <= |required|
  {
    if |required| == 0 then []
    else if required[0] in granted then Missing(granted, required[1..])
    else [required[0]] + Missing(granted, required[1..])
  }

  /** The lines report-only mode logs for the missing privileges `m`. */
  function FailureLines(m: seq<string>): (lines: seq<string>)
    ensures |lines| == |m|
    ensures forall i :: 0 <= i < |m| ==> lines[i] == CheckFailedFor(m[i])
  {
    if |m| == 0 then [] else [CheckFailedFor(m[0])] + FailureLines(m[1..])
  }

  /** A carrier with a privilege binding, as Grant's guard sees it (non-nil). */
  predicate HasGrant<A>(c: Carrier<A>)
  {
    !Lookup(c, SafeauthPrivilege).Nil?
  }

  /** `c'` is `c` with the checked marker on top and nothing else changed. */
  ghost predicate Stamped<A>(c: Carrier<A>, c': Carrier<A>)
  {
    && Extends(c', c)
    && Lookup(c', SafeauthChecked) == Flag(true)
    && SameExcept(c, c', SafeauthChecked)
  }

  /** Grant: binds `ps` (a typed slice, never nil even when empty). A second
      grant panics in strict mode and is logged in report-only mode, where the
      new set shadows the old one. */
  function Grant<A>(mode: Mode, c: Carrier<A>, ps: seq<string>): (r: Outcome<Carrier<A>>)
    ensures r.Returned? <==> mode.ReportOnly? || !HasGrant(c)
    ensures r.Panicked? ==> r.message == GrantedTwice
    ensures r.Returned? ==>
      && Extends(r.value, c)
      && Lookup(r.value, SafeauthPrivilege) == Strings(ps)
      && SameExcept(c, r.value, SafeauthPrivilege)
      && Bindings(r.value, SafeauthPrivilege) == Bindings(c, SafeauthPrivilege) + 1
      && Bindings(r.value, SafeauthChecked) == Bindings(c, SafeauthChecked)
      && (r.log == [] <==> !HasGrant(c))
      && (HasGrant(c) ==> r.log == [GrantedTwice])
  {
    var derived := WithValue(c, SafeauthPrivilege, Strings(ps));
    if HasGrant(c) then
      if mode.ReportOnly? then Returned(derived, [GrantedTwice]) else Panicked(GrantedTwice)
    else
      Returned(derived, [])
  }

  /** What Check returns: the (possibly derived) carrier, the verdict, and the
      lines it logged. */
  datatype Checked<+A> = Checked(carrier: Carrier<A>, ok: bool, log: seq<string>)

  /** The loop of Check over the required privileges: strict mode stops at the
      first missing one, report-only mode logs it and continues. */
  datatype Scan = Scan(passed: bool, log: seq<string>)

  function ScanRequired(mode: Mode, granted: seq<string>, required: seq<string>): (r: Scan)
    ensures r.passed <==> mode.ReportOnly? || Subset(required, granted)
    ensures mode.Strict? ==> r.log == []
    ensures mode.ReportOnly? ==> r.log == FailureLines(Missing(granted, required))
    decreases |required|
  {
    if |required| == 0 then Scan(true, [])
    else if required[0] in granted then ScanRequired(mode, granted, required[1..])
    else if mode.ReportOnly? then
      var rest := ScanRequired(mode, granted, required[1..]);
      Scan(rest.passed, [CheckFailedFor(required[0])] + rest.log)
    else Scan(false, [])
  }

  /** The carrier Check derives on success. */
  function Stamp<A>(c: Carrier<A>): (c': Carrier<A>)
    ensures Stamped(c, c')
    ensures Bindings(c', SafeauthPrivilege) == Bindings(c, SafeauthPrivilege)
  {
    WithValue(c, SafeauthChecked, Flag(true))
  }

  /** Check: reads the nearest privilege binding as a `[]string`. Without one,
      strict mode fails and report-only mode logs and stamps anyway. With one,
      every required privilege must be granted (strict), or each missing one is
      logged (report-only). A failed check returns the input carrier. */
  function Check<A>(mode: Mode, c: Carrier<A>, required: seq<string>): (r: Checked<A>)
    ensures r.ok ==> Stamped(c, r.carrier)
    ensures !r.ok ==> mode.Strict? && r.carrier == c
    ensures mode.ReportOnly? ==> r.ok
    ensures mode.Strict? ==>
      (r.ok <==> Lookup(c, SafeauthPrivilege).Strings? && Subset(required, Lookup(c, SafeauthPrivilege).strings))
    ensures mode.Strict? ==> r.log == []
    ensures mode.ReportOnly? && !Lookup(c, SafeauthPrivilege).Strings? ==> r.log == [CheckedBeforeGrant]
    ensures mode.ReportOnly? && Lookup(c, SafeauthPrivilege).Strings? ==>
      r.log == FailureLines(Missing(Lookup(c, SafeauthPrivilege).strings, required))
  {
    match Lookup(c, SafeauthPrivilege)
    case Strings(granted) =>
      var scan := ScanRequired(mode, granted, required);
      if scan.passed then Checked(Stamp(c), true, scan.log) else Checked(c, false, scan.log)
    case _ =>
      if mode.ReportOnly? then Checked(Stamp(c), true, [CheckedBeforeGrant]) else Checked(c, false, [])
  }

  /** What Must returns: the verdict and the lines it logged. */
  datatype Verdict = Verdict(ok: bool, log: seq<string>)

  /** Must: passes when the nearest checked marker is non-nil; otherwise logs
      the violation in both modes and passes only in report-only mode. */
  function Must<A>(mode: Mode, c: Carrier<A>): (r: Verdict)
    ensures r.ok <==> mode.ReportOnly? || !Lookup(c, SafeauthChecked).Nil?
    ensures Lookup(c, SafeauthChecked).Nil? ==> r.log == [MustBeforeCheck]
    ensures !Lookup(c, SafeauthChecked).Nil? ==> r.log == []
  {
    if Lookup(c, SafeauthChecked).Nil? then Verdict(mode.ReportOnly?, [MustBeforeCheck])
    else Verdict(true, [])
  }

  // ---------------------------------------------------------------------
  // Properties of the protocol

  /** The strict-mode protocol invariant over a whole ancestry: every
      privilege binding is a `[]string` placed where none existed yet, and
      every checked marker is `true` and sits on a carrier that had a grant.
      Bindings of other packages' keys are unconstrained. */
  ghost predicate Disciplined<A>(c: Carrier<A>)
  {
    match c
    case Background => true
    case WithValue(p, k, v) =>
      && Disciplined(p)
      && (k == SafeauthPrivilege ==> v.Strings? && Bindings(p, SafeauthPrivilege) == 0)
      && (k == SafeauthChecked ==> v == Flag(true) && Lookup(p, SafeauthPrivilege).Strings?)
  }

  /** Strict Grant and Check, and bindings of other keys, keep the invariant. */
  lemma StrictStepsKeepDiscipline<A>(c: Carrier<A>, ps: seq<string>, k: Key, v: Value<A>)
    requires Disciplined(c)
    ensures Grant(Strict, c, ps).Returned? ==> Disciplined(Grant(Strict, c, ps).value)
    ensures Disciplined(Check(Strict, c, ps).carrier)
    ensures k != SafeauthPrivilege && k != SafeauthChecked ==> Disciplined(WithValue(c, k, v))
  {
    if Grant(Strict, c, ps).Returned? {
      assert !HasGrant(c);
      DisciplinedLookup(c);
    }
  }

  /** Under the invariant the nearest privilege binding is a `[]string`
      exactly when there is any, and there is at most one. */
  lemma {:induction false} DisciplinedLookup<A>(c: Carrier<A>)
    requires Disciplined(c)
    ensures Bindings(c, SafeauthPrivilege) <= 1
    ensures Lookup(c, SafeauthPrivilege).Strings? <==> Bindings(c, SafeauthPrivilege) == 1
    ensures HasGrant(c) <==> Bindings(c, SafeauthPrivilege) == 1
  {
    match c
    case Background =>
    case WithValue(p, k, v) =>
      DisciplinedLookup(p);
  }

  /** Under the invariant, strict Must passes exactly when some ancestor
      carries the checked marker, and a passing Must implies a grant. */
  lemma {:induction false} DisciplinedMust<A>(c: Carrier<A>)
    requires Disciplined(c)
    ensures Must(Strict, c).ok <==> Bindings(c, SafeauthChecked) > 0
    ensures Must(Strict, c).ok ==> Lookup(c, SafeauthPrivilege).Strings?
  {
    match c
    case Background =>
    case WithValue(p, k, v) =>
      DisciplinedMust(p);
      DisciplinedLookup(p);
      DisciplinedLookup(c);
  }

  /** A grant is visible to Check: in strict mode, Check after a first Grant
      passes exactly when the required privileges are a subset of the grant. */
  lemma CheckAfterGrant<A>(c: Carrier<A>, granted: seq<string>, required: seq<string>)
    requires !HasGrant(c)
    ensures Grant(Strict, c, granted).Returned?
    ensures Check(Strict, Grant(Strict, c, granted).value, required).ok <==> Subset(required, granted)
  {
  }

  /** Granting twice in one ancestry, even through derived carriers and even
      when the first grant was empty: strict mode panics, report-only mode
      logs and the newer set wins. */
  lemma GrantTwice<A>(c: Carrier<A>, first: seq<string>, required: seq<string>, second: seq<string>)
    requires !HasGrant(c)
    ensures var c1 := Grant(Strict, c, first).value;
      var c2 := Check(Strict, c1, required).carrier;
      && Grant(Strict, c2, second) == Panicked(GrantedTwice)
      && Grant(ReportOnly, c2, second).Returned?
      && Grant(ReportOnly, c2, second).log == [GrantedTwice]
      && Lookup(Grant(ReportOnly, c2, second).value, SafeauthPrivilege) == Strings(second)
  {
  }

  /** A grant of no privileges is still a grant: Check with nothing required
      passes without taking the "before Grant" path, in either mode. */
  lemma EmptyGrantCounts<A>(mode: Mode, c: Carrier<A>)
    requires !HasGrant(c)
    ensures Grant(mode, c, []).Returned?
    ensures HasGrant(Grant(mode, c, []).value)
    ensures Check(mode, Grant(mode, c, []).value, []) ==
      Checked(Stamp(Grant(mode, c, []).value), true, [])
  {
  }

  /** A Check that fails in strict mode keeps an earlier marker: Must still
      passes on the carrier it returns. */
  lemma FailedCheckKeepsMarker<A>(c: Carrier<A>, required: seq<string>)
    requires Must(Strict, c).ok
    ensures Must(Strict, Check(Strict, c, required).carrier).ok
  {
  }

  /** Two end-to-end scenarios: grant read and write, check read, then
      check delete; and a report-only check with no grant at all. */
  lemma Scenarios<A>()
    ensures var c0: Carrier<A> := Background;
      var c1 := Grant(Strict, c0, ["read", "write"]).value;
      var r2 := Check(Strict, c1, ["read"]);
      && Grant(Strict, c0, ["read", "write"]).Returned?
      && r2.ok
      && !Check(Strict, r2.carrier, ["delete"]).ok
      && Check(ReportOnly, r2.carrier, ["delete"]).ok
      && Check(ReportOnly, r2.carrier, ["delete"]).log == [CheckFailedFor("delete")]
      && Must(Strict, r2.carrier).ok
      && !Must(Strict, c0).ok
    ensures var c0: Carrier<A> := Background;
      var r := Check(ReportOnly, c0, ["write"]);
      r.ok && r.log == [CheckedBeforeGrant] && Must(ReportOnly, r.carrier).ok && Must(Strict, r.carrier).ok
  {
    var c0: Carrier<A> := Background;
    var c1 := Grant(Strict, c0, ["read", "write"]).value;
    assert "read" in ["read", "write"];
    assert "delete" !in ["read", "write"];
    assert Missing(["read", "write"], ["delete"]) == ["delete"];
  }
}

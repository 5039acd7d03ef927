# Privilege capabilities and trusted SQL, in Dafny

This project models the defensive-programming core of a small Go web
application, in two parts. The first is a privilege capability protocol,
`safeauth`. A request's `context.Context` is granted a privilege set once,
with `Grant`. A handler then calls `Check` with the privileges it needs, and
on success gets back a context stamped with a "checked" marker. `Must`, at
the point of use, accepts only a context that bears the marker. A
package-wide report-only flag turns every violation into a log line. The
second part is a trusted-SQL type, `safesql`, whose text can only come from
a call-site literal (`New`), from the decimal rendering of an `int`
(`NewFromInt`), or from the audited escape hatch `RiskilyAssumeTrustedSQL`.
That escape hatch reaches the constructor through a slot that `safesql`
fills at initialisation. The query wrappers pass the text and the bound
arguments to the driver separately.

The project also models:

- the older protocol variant in `safeauth/authentication.go`, as written and
  in a corrected form;
- the application code in `app/auth.go` that uses the core: the `|a|b|c|`
  encoding of a user's privileges, the per-request grant in `Preprocess`,
  the privilege gate of `initialize`, the default-user threshold of
  `createDefault`, and the `Check` that wraps every `/auth/` handler.

Modules:

- `Runtime`: Go calls as values. A call returns a value and its log lines,
  or it panics.
- `Context`: `context.Context` as an immutable chain of bindings, where the
  nearest binding wins. `Nil` stands for Go's nil interface. A typed nil
  slice is a non-nil value.
- `Http`: the request, its context and `WithContext`.
- `Safeauth`: `safeauth/safeauth.go`. The reportOnly flag is a `Mode`
  parameter.
- `Authentication`: `safeauth/authentication.go`, as written, plus the
  `Fixed*` definitions.
- `Strconv`, `Safesql`: `strconv.Itoa` and `safesql/safesql.go`.
- `Legacyconversions`: `safesql/lagacyconversions/lagacyconversions.go`.
- `GoStrings`: `strings.Contains`, `Trim`, `Split` and `Join`, for a
  one-character separator.
- `App`: the parts of `app/auth.go` listed above.

Four behaviours of the code are worth stating plainly:

- Strict `Must` returns false; it does not abort.
- `Must` logs "Must called before Check" in both modes.
- Report-only `Check` logs `Check failed for <p>` for each missing
  privilege.
- The query wrappers in `safesql.go` do not call `Must`.

## Model

| member | source | states |
|---|---|---|
| Safeauth.Grant | safeauth/safeauth.go:18-28 | Grant returns exactly when there is no earlier privilege binding, or in report-only mode. A strict second grant panics with "Grant called multiple times". A report-only second grant logs that line and shadows the old set. The result is one binding above the input: the nearest privilege set is `ps`, every other key looks up as before, and the checked-marker count is unchanged. |
| Safeauth.Missing | safeauth/safeauth.go:43-53 | A privilege is in the list exactly when it is required and not granted. The list is empty exactly when the required set is a subset of the granted one. |
| Safeauth.ScanRequired | safeauth/safeauth.go:43-53 | The loop passes exactly in report-only mode or when every required privilege is granted. It logs nothing in strict mode. In report-only mode it logs one "Check failed for p" line per missing privilege, in the order required. |
| Safeauth.Stamp | safeauth/safeauth.go:54 | The stamped carrier adds only a `true` checked marker on top of the input. Every other key looks up as before. |
| Safeauth.Check | safeauth/safeauth.go:32-55 | In strict mode Check passes exactly when the nearest privilege binding is a `[]string` that contains every required privilege. Report-only Check always passes. With no grant it logs "Check called before Grant"; otherwise it logs one line per missing privilege. A pass returns the input stamped with the marker and nothing else changed. A failure returns the input carrier itself. |
| Safeauth.Must | safeauth/safeauth.go:57-68 | Must passes exactly when a checked marker is bound, or in report-only mode. It logs "Must called before Check" exactly when the marker is absent, whatever the mode. |
| Safeauth.StrictStepsKeepDiscipline | safeauth/safeauth.go:18-55 | Strict Grant and Check preserve the protocol invariant, and so does binding a key of another package. The invariant: each privilege binding is a `[]string` placed where none existed, and each marker is `true` and sits over a grant. |
| Safeauth.DisciplinedLookup | safeauth/safeauth.go:18-28 | Under the invariant a carrier has at most one grant. Grant's nil test and Check's `[]string` test agree on it. |
| Safeauth.DisciplinedMust | safeauth/safeauth.go:57-68 | Under the invariant, strict Must passes exactly when some ancestor bears the marker. A passing Must implies a `[]string` grant upstream. |
| Safeauth.CheckAfterGrant | safeauth/safeauth.go:18-55 | After a first strict Grant, strict Check passes exactly when the required set is a subset of the granted one. |
| Safeauth.GrantTwice | safeauth/safeauth.go:18-28 | A second grant anywhere in the same ancestry, even through a checked carrier and after an empty first grant, panics in strict mode. In report-only mode it is logged and the newer set wins. |
| Safeauth.EmptyGrantCounts | safeauth/safeauth.go:27-42 | A grant of no privileges is still a grant. Check with nothing required then stamps the carrier and logs nothing, in either mode. |
| Safeauth.FailedCheckKeepsMarker | safeauth/safeauth.go:49-51 | A failing strict Check does not remove an earlier marker. |
| Safeauth.Scenarios | safeauth/safeauth.go:18-68 | Strict case: grant read and write, then Check(read) passes, Check(delete) fails, Must passes on the checked carrier and fails on the root. Report-only case: Check(delete) passes and logs "Check failed for delete"; with no grant, Check(write) passes with one logged violation and Must then passes. |
| Authentication.Grant | safeauth/authentication.go:13-18 | As written, Grant panics exactly when there is NO privilege binding. Otherwise it shadows the existing set with `ps` and leaves every other key as it was. |
| Authentication.ScanCarried | safeauth/authentication.go:26-37 | The loop as written, with `checked` never reset, reports a privilege exactly when the first required one is not granted. The privilege it reports is that first one. |
| Authentication.Check | safeauth/authentication.go:22-39 | Check panics exactly when there is no binding, or when the loop runs on a binding that is not a `[]Privilege`. Otherwise it fails exactly when the FIRST required privilege is not granted, with "missing privilege p" and the input carrier. It passes by binding the checked key to nil. |
| Authentication.Must | safeauth/authentication.go:41-46 | Must returns "missing privilege check" exactly when the nearest checked binding is nil. |
| Authentication.GrantRequestPrivileges | safeauth/authentication.go:48-51 | It panics exactly when Grant does. Otherwise it returns the request with Grant's carrier as its context. |
| Authentication.CheckRequestPrivileges | safeauth/authentication.go:53-59 | It panics exactly when Check does. Otherwise it returns the ORIGINAL request together with Check's error. |
| Authentication.GetRequestPrivileges | safeauth/authentication.go:61-63 | It returns the nearest privilege binding exactly when that binding is a `[]Privilege`, and panics otherwise. |
| Authentication.MustFailsAfterAnyRun | safeauth/authentication.go:38-45 | From any carrier with no live marker, Must fails after every run of Grant and Check that does not panic. |
| Authentication.NoRunGetsStarted | safeauth/authentication.go:13-25 | From a carrier with no privilege binding, every non-empty run of Grant and Check panics. |
| Authentication.GrantRefusesFirstGrant | safeauth/authentication.go:14-15 | Grant on the root context panics with the message meant for a second grant. |
| Authentication.CheckSkipsLaterPrivileges | safeauth/authentication.go:26-36 | A check for read and delete passes against a grant of read alone. |
| Authentication.MustRejectsCheckedCarrier | safeauth/authentication.go:38-43 | Every carrier that passed Check is rejected by Must. |
| Authentication.RequestWrappers | safeauth/authentication.go:48-63 | GetRequestPrivileges reads back exactly the set GrantRequestPrivileges attached. CheckRequestPrivileges never changes the request. |
| Authentication.FixedGrant | safeauth/authentication.go:13-18 | With the guard the panic message describes, Grant panics exactly when a binding already exists. Otherwise it attaches `ps` and changes nothing else. |
| Authentication.FirstMissing | safeauth/authentication.go:26-37 | With `checked` reset per privilege, the loop finds nothing exactly when the required set is a subset of the granted one. Whatever it finds is required and not granted. |
| Authentication.FixedCheck | safeauth/authentication.go:22-39 | The corrected Check has the same panics. It passes exactly when every required privilege is granted, and then binds a non-nil marker. |
| Authentication.FixedGrantOnce | safeauth/authentication.go:13-18 | The corrected Grant attaches a first set and refuses a second one. |
| Authentication.FixedCheckIsSubset | safeauth/authentication.go:22-39 | After a first corrected grant, the corrected Check passes exactly when the required set is a subset of the grant. |
| Authentication.FixedMustAfterCheck | safeauth/authentication.go:38-45 | Must accepts every carrier the corrected Check derived. |
| Strconv.FormatNat | safesql/safesql.go:34 | The digits of a natural number are canonical (no leading zero), and they start with '0' exactly for zero. |
| Strconv.Itoa | safesql/safesql.go:34 | The rendering is canonical and starts with '-' exactly for negative numbers. |
| Strconv.ItoaRoundTrip | safesql/safesql.go:34 | Parsing the rendering of any integer gives the integer back. |
| Strconv.ParseRoundTrip | safesql/safesql.go:34 | Rendering the value of any canonical text gives the text back. |
| Strconv.ItoaInjective | safesql/safesql.go:34 | Distinct integers render differently. |
| Strconv.ItoaLength | safesql/safesql.go:33-35 | A 64-bit `int` renders in at most 20 characters. |
| Safesql.Init | safesql/safesql.go:12-17 | The package `init` fills the constructor slot with a constructor that wraps every string unchanged. |
| Safesql.New | safesql/safesql.go:29-31 | The trusted text is exactly the literal's text. |
| Safesql.NewFromInt | safesql/safesql.go:33-35 | The text is the canonical decimal of `i` and parses back to `i`. It has only '-' and digits, and from 1 to 20 characters. |
| Safesql.NewFromIntInjective | safesql/safesql.go:33-35 | Distinct integers give distinct trusted texts. |
| Safesql.NewFromIntCoversCanonical | safesql/safesql.go:33-35 | Every canonical decimal text within the `int` range is the text of some NewFromInt result. |
| Safesql.Construct | safesql/safesql.go:12-35 | Each of the three ways to get a TrustedSQL gives the text its origin promises: the literal, the decimal of the integer, or the string handed to the installed constructor. |
| Safesql.ArbitraryTextNeedsLiteralOrCtor | safesql/safesql.go:23-35 | A trusted text with any character other than '-' and digits came from a literal or through the installed constructor. |
| Safesql.QueryContext | safesql/safesql.go:56-59 | The driver gets a query whose text is exactly the trusted text, with the arguments passed separately and the caller's context and handle. |
| Safesql.ExecContext | safesql/safesql.go:60-63 | The driver gets a statement whose text is exactly the trusted text, with the arguments passed separately and the caller's context and handle. |
| Safesql.ArgumentsNeverEnterText | safesql/safesql.go:56-63 | The text the driver receives does not depend on the bound arguments. |
| Legacyconversions.LoadCtor | safesql/lagacyconversions/lagacyconversions.go:8 | The type assertion on the slot succeeds exactly when a constructor is installed, and yields that constructor. |
| Legacyconversions.RiskilyAssumeTrustedSQL | safesql/lagacyconversions/lagacyconversions.go:10-12 | Any string becomes trusted text unchanged, and only through the constructor `safesql` installed. |
| Legacyconversions.RiskilyAgreesWithNew | safesql/lagacyconversions/lagacyconversions.go:8-12 | The escape hatch gives the same value as New for literal text, and distinct values for distinct strings. |
| GoStrings.Trim | app/auth.go:39 | The result is a contiguous slice of the input, everything outside that slice is the cut character, and the result neither starts nor ends with it. So Trim removes exactly the leading and trailing run of cut characters. |
| GoStrings.Split | app/auth.go:39 | There is always at least one piece, and no piece contains the separator. |
| GoStrings.JoinSplit | app/auth.go:39 | Joining the pieces of a split gives the string back. |
| GoStrings.SplitJoin | app/auth.go:39 | Splitting the join of separator-free pieces gives the pieces back. |
| App.PrivilegeSet | app/auth.go:38-40 | The privilege set has at least one entry, and no entry contains the separator. |
| App.PrivilegeSetDecodes | app/auth.go:38-40 | privilegeSet of the stored form of valid names (each name enclosed by separators) is exactly those names, in order. |
| App.ListedOccurs | app/auth.go:35-37 | Every listed name occurs between two separators in the stored form. |
| App.OccurrenceIsListed | app/auth.go:35-37 | In the stored form, an occurrence of a separator-free `p` enclosed by separators is one of the listed names. |
| App.CanIffInPrivilegeSet | app/auth.go:35-40 | For a well-formed privileges string and a separator-free name, Can holds exactly when the name is in privilegeSet. |
| App.CanAcceptsSeparatorInName | app/auth.go:35-37 | The admin can do "read" + separator + "write", a single name that privilegeSet does not list. |
| App.DefaultUsersDecode | app/auth.go:24-28 | The three default users decode to read/write/delete, read, and read/write. |
| App.AdminDecodes | app/auth.go:25 | The admin's privileges decode to read, write, delete. |
| App.ReaderDecodes | app/auth.go:26 | The reader's privileges decode to read. |
| App.EditorDecodes | app/auth.go:27 | The editor's privileges decode to read, write. |
| App.ClearedUserCannot | app/auth.go:70-72 | A user whose privileges were cleared can do nothing through Can. |
| App.UserForRequest | app/auth.go:54-60 | It returns a user exactly when IsLogged holds, and the user it returns is the one bound in the context. |
| App.Unrecognised | app/auth.go:67-69 | It panics exactly when a strict grant already exists. Otherwise it grants the empty set on the original context and binds no user. |
| App.Recognised | app/auth.go:70-73 | It panics exactly when a strict grant already exists. Otherwise it binds the user with cleared privileges, then grants the privilege set computed before the clearing. |
| App.Preprocess | app/auth.go:64-74 | As written, Preprocess panics exactly when a strict grant already exists or the cookie's id matches no row; the panic is a nil dereference when no row matched and no strict grant existed, and "Grant called multiple times" otherwise. Otherwise it adds exactly one privilege binding: the empty set after a failed lookup, or the user's set above the user binding after a successful one. It leaves the marker untouched and logs nothing in strict mode. |
| App.PreprocessIntended | app/auth.go:64-74 | The corrected Preprocess treats a missing row as a failed recognition. It panics only on a second strict grant, with the same guarantees otherwise. |
| App.PreprocessAgreesOffNoRow | app/auth.go:64-74 | The two definitions agree on every lookup except a missing row. |
| App.PreprocessFreshUnrecognised | app/auth.go:64-69 | On a request with no grant yet, a failed lookup leaves exactly one grant in the ancestry. That grant is the empty set, and the request is logged in exactly when it was before. |
| App.PreprocessPanicsOnUnknownUser | app/auth.go:145-148 | For a fresh request whose cookie names an id with no row, Preprocess panics with a nil dereference. |
| App.PreprocessIntendedUnknownUser | app/auth.go:67-68 | With the intended definition an unknown user is an anonymous request: it is granted the empty set and is not logged in. |
| App.PreprocessClearsStoredUser | app/auth.go:70-72 | After the program's Preprocess recognises a user, the request is logged in, yet the stored user can do nothing through Can. |
| App.AuthMux | app/auth.go:240-243 | The wrapper keeps the rest of the request. Whenever Check can pass, it gives the routes a context that passes Must, bears the marker and keeps the grant. In strict mode without a grant it passes the request on unchanged. |
| App.RequestPipeline | main.go:34-37 | A fresh strict request goes through the program's Preprocess and then the `/auth/` wrapper. Preprocess panics exactly when the cookie's id matches no row. For every other lookup the handler's context has exactly one grant, passes Must and keeps the protocol invariant. |
| App.IntendedPipeline | main.go:34-37 | With the corrected Preprocess the same holds for every lookup, a missing row included: the request is never aborted. |
| App.InsertUsers | app/auth.go:103-108 | There is one INSERT per user from the k-th on, with that user's name, password and privileges as bound arguments, in order. The loop stops after the first failing INSERT and returns its error. It logs "...users initialized" exactly when none fails. |
| App.CreateDefault | app/auth.go:93-111 | It always counts first. A failed count ends it with the count's error. Three or more users end it with nothing inserted. With fewer than three, the statements after the count are the default users' INSERTs in order. If none fails, all three run and both lines are logged. If the INSERT for user i fails, it is the last statement, its error is returned, and only the first line is logged. Every statement carries the caller's context. |
| App.Initialize | app/auth.go:113-128 | Initialisation reaches the database exactly when Check for read and write passes; otherwise it returns "cannot initialize: don't have write access". The first statement creates the table. If that fails, it is the only statement and its error is returned. Otherwise the statements, error and log lines of `createDefault` follow. Every statement carries the checked context. |
| App.InitializeGate | app/auth.go:113-117 | In strict mode the database is touched exactly when the context was granted both read and write. Every statement issued carries a context that passes strict Must. |
| App.StartupInitializes | main.go:16-17 | The startup grant of read, write and delete passes the gate. With an empty table and no failures, the statements are CREATE TABLE, the count query and the three defaults' INSERTs, in that order, all on the checked context. No error is returned, and both lines are logged. |

## Left out

- The HTTP routes of `setupRoutes` (the login form, logout, the static files) and the cookies of `login`/`logout`: they are I/O around the core. Only the `Check` wrapper at lines 240-243 is modelled.
- `getUserFromDB` and `getUserCount`: their database reads are abstract outcomes, given as parameters. For `getUserFromDB` the outcomes are a user, no row, or an error. For `getUserCount` they are a count or an error. `getUserCount` ignores the error of `rows.Scan`, so a failed scan appears as the count 0.
- The `Check` inside `getUserFromDB` is left out. It runs on the throwaway carrier, which always has a grant and requires nothing, so it passes and logs nothing.
- The Go heap: Preprocess stores a pointer to the user and then clears the privileges through it. The model stores the user with privileges already cleared, which is what every later reader sees.
- `debug.PrintStack` output and `log.Fatalf` in `Auth` are left out; only the `log.Println` lines are modelled, and only on calls that return.
- A panicking call keeps only its panic message: `Panicked` drops the lines logged before the panic. For example, report-only `Preprocess` on a request that already has a grant, with no matching row, logs "Grant called multiple times" and then panics; the model shows only the nil dereference.
- Go strings are byte sequences; the model uses `seq<char>`. The separator `|` is ASCII, and for valid UTF-8 text a byte-wise substring match agrees with a character-wise one; invalid UTF-8 is not modelled.
- `Grant` stores a reference to the caller's slice, so a later write to that slice would change the grant. A Dafny `seq` is a value, and the model cannot express that aliasing; the application never writes to a slice after granting it.
- The global `reportOnly` flag and `SetReportOnly` are left out. The flag is the `mode` parameter, fixed before any request.
- The type-level guarantee of `compileTimeConstant` is left out, because Dafny has no untyped constants. `Literal("...")` stands for a literal at the call site. Nothing stops Dafny code from building a `TrustedSQL` directly, so the model cannot restate that the type is unforgeable.
- `safesql/internal/raw` is not part of this model. Its slot is the `CtorSlot` value.
- `OpenDB`, the `Result`/`Rows` aliases and the `database/sql` driver are left out. A statement is the `DriverCall` the wrapper hands over.
- The other routes of `main.go` (`/`, `/echo`, `/notes/`) are left out; they are outside the core.
- A `Must` call inside the query executor is left out, because these wrappers do not make one.
- Strconv.Itoa: modelled on unbounded integers. The 64-bit bound appears only in `NewFromInt` and `ItoaLength`, which take a `GoInt`.

## Findings

| source | as written | input that shows it | evidently intended | confidence | as-written member | corrected member |
|---|---|---|---|---|---|---|
| safeauth/authentication.go:14 | Grant panics when there is no privilege binding | Grant on `context.Background()` with any privileges | panic only when a binding already exists | not executed | Authentication.GrantRefusesFirstGrant | Authentication.FixedGrantOnce |
| safeauth/authentication.go:26-36 | `checked` is set once and never reset, so only the first required privilege is compared | grant `read`, then Check for `read`, `delete`: it passes | every required privilege must be granted | not executed | Authentication.CheckSkipsLaterPrivileges | Authentication.FixedCheckIsSubset |
| safeauth/authentication.go:38 | the checked marker is bound to nil, which Must cannot tell from absence | any Check that passes, then Must on its carrier | a non-nil marker, so Must accepts a checked carrier | not executed | Authentication.MustRejectsCheckedCarrier | Authentication.FixedMustAfterCheck |
| app/auth.go:146-147 | with no matching row and no error, `getUserFromDB` returns a nil user and a nil error, and Preprocess dereferences the user at line 71 | a `userid` cookie naming an id that is not in the table | treat a missing row as failed recognition (line 68) | not executed | App.PreprocessPanicsOnUnknownUser | App.PreprocessIntendedUnknownUser |

/** The parts of `app/auth.go` that feed the core: the `|a|b|c|` encoding
    of a user's privileges, the per-request grant in `Preprocess`, the
    privilege gate of `initialize`, the default-user threshold of
    `createDefault`, and the Check that wraps every `/auth/` handler.

    The database is not modelled: a user lookup is an abstract outcome, and
    each statement is the `DriverCall` the query wrappers hand the driver,
    with the database's answers given as parameters. */
module App {
  import opened Runtime
  import opened Context
  import opened Http
  import opened GoStrings
  import Safeauth
  import Safesql

  /** A row of the users table. Preprocess stores a pointer to it in the
      request context and then clears its privileges through that pointer,
      so every later reader sees the cleared record. */
  datatype User = User(id: int, name: string, password: string, privileges: string)

  /** `user.Can`: the privileges string contains `|priv|`. */
  predicate Can(u: User, priv: string)
  {
    Contains(u.privileges, "|" + priv + "|")
  }

  /** `user.privilegeSet`: the pieces between `|`s, outer `|`s trimmed. */
  function PrivilegeSet(u: User): (ps: seq<string>)
    ensures |ps| >= 1
    ensures forall i :: 0 <= i < |ps| ==> '|' !in ps[i]
  {
    Split(Trim(u.privileges, '|'), '|')
  }

  const DefaultUsers: seq<User> := [
    User(0, "admin", "admin", "|read|write|delete|"),
    User(0, "reader", "reader", "|read|"),
    User(0, "editor", "editor", "|read|write|")
  ]

  // ---------------------------------------------------------------------
  // The privilege encoding

  /** A privilege name as the encoding allows it: non-empty, no `|`. */
  predicate ValidPrivilege(p: string)
  {
    |p| > 0 && '|' !in p
  }

  predicate ValidPrivileges(names: seq<string>)
  {
    forall i :: 0 <= i < |names| ==> ValidPrivilege(names[i])
  }

  /** The stored form `|a1|...|an|` of a non-empty list of names. */
  function Encode(names: seq<string>): string
    requires |names| >= 1
  {
    "|" + Join(names, '|') + "|"
  }

  /** The join of valid names is non-empty and neither starts nor ends with `|`. */
  lemma {:induction false} JoinEnds(names: seq<string>)
    requires |names| >= 1 && ValidPrivileges(names)
    ensures var j := Join(names, '|'); |j| > 0 && j[0] != '|' && j[|j| - 1] != '|'
    decreases |names|
  {
    assert ValidPrivilege(names[0]);
    assert names[0][0] in names[0];
    if |names| > 1 {
      JoinEnds(names[1..]);
      var rest := Join(names[1..], '|');
      assert Join(names, '|') == names[0] + ['|'] + rest;
    } else {
      assert names[0][|names[0]| - 1] in names[0];
    }
  }

  /** Decoding undoes encoding: `privilegeSet` of `|a1|...|an|` is `[a1, ..., an]`. */
  lemma PrivilegeSetDecodes(u: User, names: seq<string>)
    requires |names| >= 1 && ValidPrivileges(names)
    requires u.privileges == Encode(names)
    ensures PrivilegeSet(u) == names
  {
    var j := Join(names, '|');
    JoinEnds(names);
    var s := u.privileges;
    assert s[1..] == j + "|";
    assert TrimLeft(s, '|') == TrimLeft(j + "|", '|') == j + "|";
    assert (j + "|")[..|j|] == j;
    assert TrimRight(j + "|", '|') == TrimRight(j, '|') == j;
    assert Trim(s, '|') == j;
    SplitJoin(names, '|');
  }

  /** `Encode` peeled one name at a time. */
  lemma EncodeCons(names: seq<string>)
    requires |names| >= 1
    ensures |names| == 1 ==> Encode(names) == "|" + names[0] + "|"
    ensures |names| >= 2 ==> Encode(names) == "|" + names[0] + Encode(names[1..])
  {
  }

  /** Every listed name occurs between two `|`s. */
  lemma {:induction false} ListedOccurs(names: seq<string>, p: string)
    requires |names| >= 1 && p in names
    ensures Contains(Encode(names), "|" + p + "|")
    decreases |names|
  {
    var t := "|" + p + "|";
    EncodeCons(names);
    if names[0] == p {
      var tail := if |names| == 1 then "" else Encode(names[1..])[1..];
      assert |names| >= 2 ==> Encode(names[1..]) == "|" + tail;
      assert Encode(names) == t + tail;
      assert OccursAt(Encode(names), t, 0);
    } else {
      var rest := names[1..];
      assert p in rest;
      ListedOccurs(rest, p);
      var i :| 0 <= i <= |Encode(rest)| && OccursAt(Encode(rest), t, i);
      OccursAtShift("|" + names[0], Encode(rest), t, i);
      assert Encode(names) == ("|" + names[0]) + Encode(rest);
    }
  }

  /** An occurrence of `|p|`, for `p` without `|`, is one of the names. */
  lemma {:induction false} OccurrenceIsListed(names: seq<string>, p: string, i: int)
    requires |names| >= 1 && ValidPrivileges(names) && '|' !in p
    requires OccursAt(Encode(names), "|" + p + "|", i)
    ensures p in names
    decreases |names|
  {
    var t := "|" + p + "|";
    var a := names[0];
    assert ValidPrivilege(a);
    var x := "|" + a;
    var tail := if |names| == 1 then "|" else Encode(names[1..]);
    EncodeCons(names);
    var s := Encode(names);
    assert s == x + tail;
    assert tail[0] == '|';
    assert forall k :: 0 <= k < |a| ==> s[1 + k] == a[k];
    assert s[1 + |a|] == '|';
    assert forall k :: 0 <= k < |p| ==> t[1 + k] == p[k];
    assert t[0] == '|' && t[|p| + 1] == '|';
    if i == 0 {
      if |p| < |a| {
        NoSeparatorAt(a, |p|);
        assert false;
      }
      if |p| > |a| {
        NoSeparatorAt(p, |a|);
        assert false;
      }
      assert forall k :: 0 <= k < |p| ==> p[k] == a[k];
      assert p == a;
    } else {
      if i <= |a| {
        NoSeparatorAt(a, i - 1);
        assert false;
      }
      OccursAtUnshift(x, tail, t, i);
      assert |names| >= 2;
      OccurrenceIsListed(names[1..], p, i - |x|);
      assert p in names[1..];
    }
  }

  /** No character of a name is the separator. */
  lemma NoSeparatorAt(a: string, k: int)
    requires '|' !in a && 0 <= k < |a|
    ensures a[k] != '|'
  {
  }

  /** For a well-formed privileges string and a name without `|`, `Can`
      holds exactly when the name is in `privilegeSet`. */
  lemma CanIffInPrivilegeSet(u: User, names: seq<string>, p: string)
    requires |names| >= 1 && ValidPrivileges(names)
    requires u.privileges == Encode(names)
    requires '|' !in p
    ensures Can(u, p) <==> p in PrivilegeSet(u)
  {
    PrivilegeSetDecodes(u, names);
    if p in names {
      ListedOccurs(names, p);
    }
    if Can(u, p) {
      var i :| 0 <= i <= |u.privileges| && OccursAt(u.privileges, "|" + p + "|", i);
      OccurrenceIsListed(names, p, i);
    }
  }

  /** The encoding does not guard against a `|` inside the argument of Can:
      the admin can do "read|write", which is not one of its privileges. */
  lemma CanAcceptsSeparatorInName()
    ensures Can(DefaultUsers[0], "read|write")
    ensures "read|write" !in PrivilegeSet(DefaultUsers[0])
  {
    var u := DefaultUsers[0];
    var t := "|" + "read|write" + "|";
    assert t == "|read|write|";
    assert OccursAt(u.privileges, t, 0);
    assert Can(u, "read|write");
    AdminDecodes();
  }

  /** The default users decode to the privilege lists they are written with. */
  lemma DefaultUsersDecode()
    ensures PrivilegeSet(DefaultUsers[0]) == ["read", "write", "delete"]
    ensures PrivilegeSet(DefaultUsers[1]) == ["read"]
    ensures PrivilegeSet(DefaultUsers[2]) == ["read", "write"]
  {
    AdminDecodes();
    ReaderDecodes();
    EditorDecodes();
  }

  lemma AdminDecodes()
    ensures PrivilegeSet(DefaultUsers[0]) == ["read", "write", "delete"]
  {
    var names := ["read", "write", "delete"];
    assert ValidPrivileges(names) by {
      assert ValidPrivilege("read") && ValidPrivilege("write") && ValidPrivilege("delete");
    }
    assert Join(names, '|') == "read|write|delete";
    assert DefaultUsers[0].privileges == Encode(names);
    PrivilegeSetDecodes(DefaultUsers[0], names);
  }

  lemma ReaderDecodes()
    ensures PrivilegeSet(DefaultUsers[1]) == ["read"]
  {
    var names := ["read"];
    assert ValidPrivileges(names) by {
      assert ValidPrivilege("read");
    }
    assert DefaultUsers[1].privileges == Encode(names);
    PrivilegeSetDecodes(DefaultUsers[1], names);
  }

  lemma EditorDecodes()
    ensures PrivilegeSet(DefaultUsers[2]) == ["read", "write"]
  {
    var names := ["read", "write"];
    assert ValidPrivileges(names) by {
      assert ValidPrivilege("read") && ValidPrivilege("write");
    }
    assert Join(names, '|') == "read|write";
    assert DefaultUsers[2].privileges == Encode(names);
    PrivilegeSetDecodes(DefaultUsers[2], names);
  }

  /** A cleared privileges string grants nothing through Can. */
  lemma ClearedUserCannot(u: User, p: string)
    requires u.privileges == ""
    ensures !Can(u, p)
  {
  }

  // ---------------------------------------------------------------------
  // Per-request grant

  /** The outcome of `getUserFromDB`: a user, no error and no user (the id
      in the cookie matches no row), or an error (no cookie, a failed query
      or scan). */
  datatype UserLookup = Found(user: User) | NoRow | LookupFailed(message: string)

  const NilDereference := "runtime error: invalid memory address or nil pointer dereference"

  /** `IsLogged`: a user is bound in the request context. */
  predicate IsLogged(r: Request<User>)
  {
    Lookup(r.context, AppUser).Payload?
  }

  /** `UserForRequest`: the bound user, or an error when there is none. */
  function UserForRequest(r: Request<User>): (out: Result<User>)
    ensures out.Ok? <==> IsLogged(r)
    ensures out.Ok? ==> Lookup(r.context, AppUser) == Payload(out.value)
  {
    match Lookup(r.context, AppUser)
    case Payload(u) => Ok(u)
    case _ => Err("no user for the request")
  }

  /** What a returned Preprocess promises whatever the lookup: the request's
      other parts are kept, there is one more privilege binding than the
      request had (the throwaway grant is not in the ancestry), the checked
      marker is untouched, and nothing is logged in strict mode. */
  ghost predicate Granted(mode: Safeauth.Mode, r: Request<User>, r': Request<User>, log: seq<string>)
  {
    && r'.rest == r.rest
    && Bindings(r'.context, SafeauthPrivilege) == Bindings(r.context, SafeauthPrivilege) + 1
    && Bindings(r'.context, SafeauthChecked) == Bindings(r.context, SafeauthChecked)
    && (mode.Strict? ==> log == [])
  }

  /** Failed recognition: the empty set is granted and no user is bound. */
  ghost predicate AdmittedAnonymous(mode: Safeauth.Mode, r: Request<User>, r': Request<User>, log: seq<string>)
  {
    && Granted(mode, r, r', log)
    && Extends(r'.context, r.context)
    && Lookup(r'.context, SafeauthPrivilege) == Strings([])
    && Lookup(r'.context, AppUser) == Lookup(r.context, AppUser)
  }

  /** Recognition of `u`: the user, with cleared privileges, is bound, and
      on top of it the user's privilege set is granted. */
  ghost predicate AdmittedAs(mode: Safeauth.Mode, r: Request<User>, u: User, r': Request<User>, log: seq<string>)
  {
    && Granted(mode, r, r', log)
    && r'.context.WithValue?
    && Extends(r'.context.parent, r.context)
    && Lookup(r'.context, SafeauthPrivilege) == Strings(PrivilegeSet(u))
    && Lookup(r'.context, AppUser) == Payload(u.(privileges := ""))
  }

  ghost predicate Admitted(mode: Safeauth.Mode, r: Request<User>, lookup: UserLookup, r': Request<User>, log: seq<string>)
  {
    if lookup.Found? then AdmittedAs(mode, r, lookup.user, r', log) else AdmittedAnonymous(mode, r, r', log)
  }

  /** Lines 67-68: recognition failed; the original context is granted the
      empty set. */
  function Unrecognised(mode: Safeauth.Mode, r: Request<User>, log: seq<string>): (out: Outcome<Request<User>>)
    requires mode.Strict? ==> log == []
    ensures out.Panicked? <==> mode.Strict? && Safeauth.HasGrant(r.context)
    ensures out.Panicked? ==> out.message == Safeauth.GrantedTwice
    ensures out.Returned? ==> AdmittedAnonymous(mode, r, out.value, out.log)
  {
    match Safeauth.Grant(mode, r.context, [])
    case Returned(c, log') => Returned(WithContext(r, c), log + log')
    case Panicked(m) => Panicked(m)
  }

  /** Lines 70-73: the user is bound, then the original context is granted
      the user's privilege set, computed before the privileges are cleared. */
  function Recognised(mode: Safeauth.Mode, r: Request<User>, u: User, log: seq<string>): (out: Outcome<Request<User>>)
    requires mode.Strict? ==> log == []
    ensures out.Panicked? <==> mode.Strict? && Safeauth.HasGrant(r.context)
    ensures out.Panicked? ==> out.message == Safeauth.GrantedTwice
    ensures out.Returned? ==> AdmittedAs(mode, r, u, out.value, out.log)
  {
    var ps := PrivilegeSet(u);
    var ctx := WithValue(r.context, AppUser, Payload(u.(privileges := "")));
    assert Lookup(ctx, SafeauthPrivilege) == Lookup(r.context, SafeauthPrivilege);
    assert Bindings(ctx, SafeauthPrivilege) == Bindings(r.context, SafeauthPrivilege);
    assert Bindings(ctx, SafeauthChecked) == Bindings(r.context, SafeauthChecked);
    assert Extends(ctx, r.context);
    match Safeauth.Grant(mode, ctx, ps)
    case Returned(c, log') => Returned(WithContext(r, c), log + log')
    case Panicked(m) => Panicked(m)
  }

  /** `Preprocess` as written. The lookup runs under a throwaway carrier
      granted nothing (line 66); the request is then granted on its original
      context. When the lookup returns neither user nor error, the nil user
      is dereferenced at line 71. */
  function Preprocess(mode: Safeauth.Mode, r: Request<User>, lookup: UserLookup): (out: Outcome<Request<User>>)
    ensures out.Panicked? <==> (mode.Strict? && Safeauth.HasGrant(r.context)) || lookup.NoRow?
    ensures out.Panicked? && lookup.NoRow? && !(mode.Strict? && Safeauth.HasGrant(r.context)) ==>
      out.message == NilDereference
    ensures out.Returned? ==> Admitted(mode, r, lookup, out.value, out.log)
  {
    match Safeauth.Grant(mode, r.context, [])
    case Panicked(m) => Panicked(m)
    case Returned(_, log) =>
      match lookup
      case LookupFailed(_) => Unrecognised(mode, r, log)
      case NoRow => Panicked(NilDereference)
      case Found(u) => Recognised(mode, r, u, log)
  }

  /** `Preprocess` with a missing row treated as failed recognition, as the
      comment at line 68 describes. */
  function PreprocessIntended(mode: Safeauth.Mode, r: Request<User>, lookup: UserLookup): (out: Outcome<Request<User>>)
    ensures out.Panicked? <==> mode.Strict? && Safeauth.HasGrant(r.context)
    ensures out.Panicked? ==> out.message == Safeauth.GrantedTwice
    ensures out.Returned? ==> Admitted(mode, r, lookup, out.value, out.log)
  {
    match Safeauth.Grant(mode, r.context, [])
    case Panicked(m) => Panicked(m)
    case Returned(_, log) =>
      match lookup
      case Found(u) => Recognised(mode, r, u, log)
      case _ => Unrecognised(mode, r, log)
  }

  /** The two definitions differ only when the lookup finds no row. */
  lemma PreprocessAgreesOffNoRow(mode: Safeauth.Mode, r: Request<User>, lookup: UserLookup)
    requires !lookup.NoRow?
    ensures Preprocess(mode, r, lookup) == PreprocessIntended(mode, r, lookup)
  {
  }

  /** On a fresh request a failed recognition leaves exactly one grant in the
      ancestry, the empty set, and binds no user. */
  lemma PreprocessFreshUnrecognised(mode: Safeauth.Mode, r: Request<User>, message: string)
    requires Bindings(r.context, SafeauthPrivilege) == 0
    ensures Preprocess(mode, r, LookupFailed(message)).Returned?
    ensures var r' := Preprocess(mode, r, LookupFailed(message)).value;
      && Bindings(r'.context, SafeauthPrivilege) == 1
      && Lookup(r'.context, SafeauthPrivilege) == Strings([])
      && (IsLogged(r') <==> IsLogged(r))
  {
    assert !Safeauth.HasGrant(r.context);
    var out := Preprocess(mode, r, LookupFailed(message));
    assert AdmittedAnonymous(mode, r, out.value, out.log);
  }

  /** A cookie naming an id with no row makes Preprocess panic. */
  lemma PreprocessPanicsOnUnknownUser(mode: Safeauth.Mode, r: Request<User>)
    requires !Safeauth.HasGrant(r.context)
    ensures Preprocess(mode, r, NoRow) == Panicked(NilDereference)
  {
  }

  /** With the intended definition an unknown user is an anonymous request:
      granted the empty set and not logged in. */
  lemma PreprocessIntendedUnknownUser(mode: Safeauth.Mode, r: Request<User>)
    requires !Safeauth.HasGrant(r.context) && !IsLogged(r)
    ensures PreprocessIntended(mode, r, NoRow).Returned?
    ensures var r' := PreprocessIntended(mode, r, NoRow).value;
      Lookup(r'.context, SafeauthPrivilege) == Strings([]) && !IsLogged(r')
  {
  }

  /** After Preprocess the stored user can do nothing through Can, even
      though the request was granted the user's privileges. */
  lemma PreprocessClearsStoredUser(mode: Safeauth.Mode, r: Request<User>, u: User, p: string)
    requires Preprocess(mode, r, Found(u)).Returned?
    ensures var r' := Preprocess(mode, r, Found(u)).value;
      IsLogged(r') && UserForRequest(r').Ok? && !Can(UserForRequest(r').value, p)
  {
    PreprocessAgreesOffNoRow(mode, r, Found(u));
  }

  // ---------------------------------------------------------------------
  // The /auth/ handlers' wrapper

  /** The handler installed by `setupRoutes`: Check with nothing required,
      then the routes run on the resulting context. */
  function AuthMux(mode: Safeauth.Mode, r: Request<User>): (out: Outcome<Request<User>>)
    ensures out.Returned? && out.value.rest == r.rest
    ensures (mode.ReportOnly? || Lookup(r.context, SafeauthPrivilege).Strings?) ==>
      && Safeauth.Must(mode, out.value.context).ok
      && Lookup(out.value.context, SafeauthChecked) == Flag(true)
      && Lookup(out.value.context, SafeauthPrivilege) == Lookup(r.context, SafeauthPrivilege)
    ensures mode.Strict? && !Lookup(r.context, SafeauthPrivilege).Strings? ==> out.value == r
  {
    var checked := Safeauth.Check(mode, r.context, []);
    Returned(WithContext(r, checked.carrier), checked.log)
  }

  /** A fresh request in strict mode, as the server runs it: Preprocess
      panics exactly when the cookie's id matches no row; otherwise, after
      the wrapper, the handler's context has exactly one grant, bears the
      checked marker, and satisfies the protocol invariant. */
  lemma RequestPipeline(r: Request<User>, lookup: UserLookup)
    requires Safeauth.Disciplined(r.context) && !Safeauth.HasGrant(r.context)
    ensures Preprocess(Safeauth.Strict, r, lookup).Returned? <==> !lookup.NoRow?
    ensures !lookup.NoRow? ==>
      var r1 := Preprocess(Safeauth.Strict, r, lookup).value;
      var r2 := AuthMux(Safeauth.Strict, r1).value;
      && Bindings(r2.context, SafeauthPrivilege) == 1
      && Safeauth.Must(Safeauth.Strict, r2.context).ok
      && Safeauth.Disciplined(r2.context)
  {
    if lookup.NoRow? {
      PreprocessPanicsOnUnknownUser(Safeauth.Strict, r);
    } else {
      PreprocessAgreesOffNoRow(Safeauth.Strict, r, lookup);
      IntendedPipeline(r, lookup);
    }
  }

  /** The same pipeline with the intended Preprocess, for every lookup. */
  lemma IntendedPipeline(r: Request<User>, lookup: UserLookup)
    requires Safeauth.Disciplined(r.context) && !Safeauth.HasGrant(r.context)
    ensures PreprocessIntended(Safeauth.Strict, r, lookup).Returned?
    ensures var r1 := PreprocessIntended(Safeauth.Strict, r, lookup).value;
      var r2 := AuthMux(Safeauth.Strict, r1).value;
      && Bindings(r2.context, SafeauthPrivilege) == 1
      && Safeauth.Must(Safeauth.Strict, r2.context).ok
      && Safeauth.Disciplined(r2.context)
  {
    Safeauth.DisciplinedLookup(r.context);
    var r1 := PreprocessIntended(Safeauth.Strict, r, lookup).value;
    var c := r.context;
    if lookup.Found? {
      var ctx := WithValue(c, AppUser, Payload(lookup.user.(privileges := "")));
      Safeauth.StrictStepsKeepDiscipline(c, [], AppUser, Payload(lookup.user.(privileges := "")));
      Safeauth.StrictStepsKeepDiscipline(ctx, PrivilegeSet(lookup.user), AppUser, Nil);
    } else {
      Safeauth.StrictStepsKeepDiscipline(c, [], AppUser, Nil);
    }
    assert Safeauth.Disciplined(r1.context);
    Safeauth.DisciplinedLookup(r1.context);
    Safeauth.StrictStepsKeepDiscipline(r1.context, [], AppUser, Nil);
  }

  // ---------------------------------------------------------------------
  // Initialisation

  const CountUsers := Safesql.New(Safesql.Literal("SELECT COUNT(*) FROM users"))
  const InsertUser := Safesql.New(Safesql.Literal("INSERT INTO users(name, password, privileges) VALUES(?,?,?)"))
  const CreateUsersTable := Safesql.New(Safesql.Literal(
    "\n\t\tCREATE TABLE IF NOT EXISTS users(id INTEGER PRIMARY KEY AUTOINCREMENT, name TEXT, password TEXT, privileges TEXT)"))

  const CannotInitialize := "cannot initialize: don't have write access"
  const InitializingUsers := "Default users not found, initializing..."
  const UsersInitialized := "...users initialized"

  /** The answer to the count query: a number, or an error (a failed query,
      no row, a failed scan). */
  datatype UserCount = Counted(n: int) | CountFailed(message: string)

  /** Which INSERT of the default users fails, if any. */
  datatype InsertFailure = NoInsertFailure | InsertFailsAt(index: nat, message: string)

  /** The database's answers during initialisation. */
  datatype Store = Store(createTable: Option<string>, count: UserCount, insert: InsertFailure)

  /** The statements a step hands the driver, the error it returns, and the
      lines it logs. */
  datatype Effects = Effects(calls: seq<Safesql.DriverCall<Carrier<User>, string>>, err: Option<string>, log: seq<string>)

  /** The bound arguments of the INSERT for `u`. */
  function UserArgs(u: User): seq<string>
  {
    [u.name, u.password, u.privileges]
  }

  /** The loop of `createDefault` from the `k`-th user on: one INSERT per
      user, stopping at the first that fails. */
  function InsertUsers(db: Safesql.DB, ctx: Carrier<User>, users: seq<User>, k: nat, failure: InsertFailure): (r: Effects)
    requires k <= |users|
    ensures |r.calls| <= |users| - k
    ensures forall j :: 0 <= j < |r.calls| ==>
      r.calls[j] == Safesql.ExecContext(db, ctx, InsertUser, UserArgs(users[k + j]))
    ensures r.err.None? <==> !(failure.InsertFailsAt? && k <= failure.index < |users|)
    ensures r.err.None? ==> |r.calls| == |users| - k && r.log == [UsersInitialized]
    ensures r.err.Some? ==> |r.calls| == failure.index - k + 1 && r.err.value == failure.message && r.log == []
    decreases |users| - k
  {
    if k == |users| then Effects([], None, [UsersInitialized])
    else
      var call := Safesql.ExecContext(db, ctx, InsertUser, UserArgs(users[k]));
      if failure.InsertFailsAt? && failure.index == k then Effects([call], Some(failure.message), [])
      else
        var rest := InsertUsers(db, ctx, users, k + 1, failure);
        Effects([call] + rest.calls, rest.err, rest.log)
  }

  /** `createDefault`: count the users, and insert the defaults only when
      there are fewer than three. */
  function CreateDefault(db: Safesql.DB, ctx: Carrier<User>, count: UserCount, failure: InsertFailure): (r: Effects)
    ensures |r.calls| >= 1 && r.calls[0] == Safesql.QueryContext(db, ctx, CountUsers, [])
    ensures count.CountFailed? ==> |r.calls| == 1 && r.err == Some(count.message) && r.log == []
    ensures count.Counted? && count.n >= 3 ==> |r.calls| == 1 && r.err.None? && r.log == []
    ensures |r.calls| <= 1 + |DefaultUsers|
    ensures count.Counted? && count.n < 3 ==>
      forall j :: 1 <= j < |r.calls| ==>
        r.calls[j] == Safesql.ExecContext(db, ctx, InsertUser, UserArgs(DefaultUsers[j - 1]))
    ensures count.Counted? && count.n < 3 && !(failure.InsertFailsAt? && failure.index < |DefaultUsers|) ==>
      && r.err.None?
      && |r.calls| == 1 + |DefaultUsers|
      && r.log == [InitializingUsers, UsersInitialized]
    ensures count.Counted? && count.n < 3 && failure.InsertFailsAt? && failure.index < |DefaultUsers| ==>
      && r.err == Some(failure.message)
      && |r.calls| == failure.index + 2
      && r.log == [InitializingUsers]
    ensures forall j :: 0 <= j < |r.calls| ==> r.calls[j].ctx == ctx
  {
    var countCall := Safesql.QueryContext(db, ctx, CountUsers, []);
    match count
    case CountFailed(m) => Effects([countCall], Some(m), [])
    case Counted(v) =>
      if !(v < 3) then Effects([countCall], None, [])
      else
        var inserts := InsertUsers(db, ctx, DefaultUsers, 0, failure);
        Effects([countCall] + inserts.calls, inserts.err, [InitializingUsers] + inserts.log)
  }

  /** `initialize`: nothing reaches the database unless Check for read and
      write passes; then the table is created and the defaults inserted, all
      with the checked context. */
  function Initialize(mode: Safeauth.Mode, db: Safesql.DB, ctx: Carrier<User>, store: Store): (r: Effects)
    ensures var checked := Safeauth.Check(mode, ctx, ["read", "write"]);
      && (|r.calls| > 0 <==> checked.ok)
      && (!checked.ok ==> r.err == Some(CannotInitialize) && r.log == checked.log)
      && (checked.ok ==> r.calls[0] == Safesql.ExecContext(db, checked.carrier, CreateUsersTable, []))
      && (checked.ok && store.createTable.Some? ==>
            |r.calls| == 1 && r.err == store.createTable && r.log == checked.log)
      && (checked.ok && store.createTable.None? ==>
            var defaults := CreateDefault(db, checked.carrier, store.count, store.insert);
            r.calls[1..] == defaults.calls && r.err == defaults.err && r.log == checked.log + defaults.log)
      && (forall j :: 0 <= j < |r.calls| ==> r.calls[j].ctx == checked.carrier)
  {
    var checked := Safeauth.Check(mode, ctx, ["read", "write"]);
    if !checked.ok then Effects([], Some(CannotInitialize), checked.log)
    else
      var create := Safesql.ExecContext(db, checked.carrier, CreateUsersTable, []);
      match store.createTable
      case Some(m) => Effects([create], Some(m), checked.log)
      case None =>
        var defaults := CreateDefault(db, checked.carrier, store.count, store.insert);
        Effects([create] + defaults.calls, defaults.err, checked.log + defaults.log)
  }

  /** In strict mode initialisation touches the database exactly when the
      context was granted both read and write, and every statement it issues
      carries a context that passes Must. */
  lemma InitializeGate(mode: Safeauth.Mode, db: Safesql.DB, ctx: Carrier<User>, store: Store)
    ensures var r := Initialize(mode, db, ctx, store);
      && (mode.Strict? ==>
            (|r.calls| > 0 <==>
               Lookup(ctx, SafeauthPrivilege).Strings?
               && "read" in Lookup(ctx, SafeauthPrivilege).strings
               && "write" in Lookup(ctx, SafeauthPrivilege).strings))
      && (forall j :: 0 <= j < |r.calls| ==> Safeauth.Must(Safeauth.Strict, r.calls[j].ctx).ok)
  {
    var granted := Lookup(ctx, SafeauthPrivilege);
    var required := ["read", "write"];
    if granted.Strings? {
      assert Safeauth.Subset(required, granted.strings) <==>
        "read" in granted.strings && "write" in granted.strings by {
        assert required[0] == "read" && required[1] == "write";
      }
    }
  }

  /** The startup context of `main` (a grant of read, write and delete on the
      root context) passes the gate, and with an empty table and no failures
      initialisation creates the table and inserts the three default users. */
  lemma StartupInitializes(db: Safesql.DB)
    ensures var startup := Safeauth.Grant(Safeauth.Strict, Background, ["read", "write", "delete"]);
      var r := Initialize(Safeauth.Strict, db, startup.value, Store(None, Counted(0), NoInsertFailure));
      var c := Safeauth.Check(Safeauth.Strict, startup.value, ["read", "write"]).carrier;
      && startup.Returned?
      && r.err.None?
      && |r.calls| == 2 + |DefaultUsers|
      && r.calls[0] == Safesql.ExecContext(db, c, CreateUsersTable, [])
      && r.calls[1] == Safesql.QueryContext(db, c, CountUsers, [])
      && (forall j :: 0 <= j < |DefaultUsers| ==>
            r.calls[2 + j] == Safesql.ExecContext(db, c, InsertUser, UserArgs(DefaultUsers[j])))
      && r.log == [InitializingUsers, UsersInitialized]
  {
    var startup := Safeauth.Grant(Safeauth.Strict, Background, ["read", "write", "delete"]);
    InitializeGate(Safeauth.Strict, db, startup.value, Store(None, Counted(0), NoInsertFailure));
    assert "read" in ["read", "write", "delete"] && "write" in ["read", "write", "delete"];
  }
}

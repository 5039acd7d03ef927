/** Go's `context.Context` as an explicit, immutable chain of bindings.
    `context.WithValue` derives a child; `Value` returns the nearest binding
    of a key and nil when there is none. Every key the program uses is an
    unexported struct type of its own package, so the keys are an
    enumeration here and never collide. */
module Context {

  /** The context keys of the program, one per unexported key type. */
  datatype Key =
    | SafeauthPrivilege        // safeauth.privilegeKey
    | SafeauthChecked          // safeauth.checkedKey
    | AuthenticationPrivilege  // authentication.privilegeKey
    | AuthenticationChecked    // authentication.checkedKey
    | AppUser                  // app.userKey

  /** The dynamic values bound in a context. `Nil` is Go's nil interface;
      a typed nil slice is `Strings([])` or `Privileges([])`, which is not nil.
      `Payload` holds the value the application stores (its user record). */
  datatype Value<+A> =
    | Nil
    | Strings(strings: seq<string>)         // []string
    | Privileges(privileges: seq<string>)   // []authentication.Privilege
    | Flag(flag: bool)
    | Payload(payload: A)

  /** A carrier: the root context, or a binding on top of a parent. */
  datatype Carrier<+A> = Background | WithValue(parent: Carrier<A>, key: Key, val: Value<A>)

  /** Number of bindings of `k` anywhere in the ancestry of `c`. */
  function Bindings<A>(c: Carrier<A>, k: Key): nat
  {
    match c
    case Background => 0
    case WithValue(p, k', _) => (if k' == k then 1 else 0) + Bindings(p, k)
  }

  /** `c.Value(k)`: the value of the nearest binding of `k`, nil when absent. */
  function Lookup<A>(c: Carrier<A>, k: Key): (v: Value<A>)
    ensures Bindings(c, k) == 0 ==> v.Nil?
  {
    match c
    case Background => Nil
    case WithValue(p, k', v') => if k' == k then v' else Lookup(p, k)
  }

  /** `c'` is `c` with exactly one more binding on top. */
  ghost predicate Extends<A>(c': Carrier<A>, c: Carrier<A>)
  {
    c'.WithValue? && c'.parent == c
  }

  /** Every key other than `k` looks up to the same value in `c` and `c'`. */
  ghost predicate SameExcept<A>(c: Carrier<A>, c': Carrier<A>, k: Key)
  {
    forall k' :: k' != k ==> Lookup(c', k') == Lookup(c, k')
  }
}

/** The part of `net/http.Request` the core touches: its context. Everything
    else a request carries (method, URL, headers, body) is one opaque field
    that `WithContext` copies unchanged. */
module Http {
  import opened Context

  datatype Request<+A> = Request(context: Carrier<A>, rest: string)

  /** `r.WithContext(c)`: a shallow copy of `r` whose context is `c`. */
  function WithContext<A>(r: Request<A>, c: Carrier<A>): (r': Request<A>)
    ensures r'.context == c && r'.rest == r.rest
  {
    r.(context := c)
  }
}

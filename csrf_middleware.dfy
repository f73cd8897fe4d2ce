/** The double-submit CSRF check: the token in the `csrf-token` cookie must be repeated in
    the `x-csrf-token` header. */
module CsrfMiddleware {
  import opened Common

  /** A token as the request carries it: absent, or a string that JavaScript treats as
      missing when empty. */
  predicate Present(token: Option<string>) {
    token.Some? && token.value != []
  }

  /** `protectCsrf`: the request passes exactly when both tokens are present, non-empty
      and equal; otherwise it is refused with 403. */
  function ProtectCsrf(cookie: Option<string>, header: Option<string>): (r: Outcome)
    ensures r == Pass <==> cookie.Some? && cookie.value != [] && cookie == header
    ensures r.Fail? ==> r.error == Forbidden
    ensures !Present(cookie) || !Present(header) ==> r == Fail(Forbidden)
    ensures Present(cookie) && Present(header) && cookie.value != header.value ==> r == Fail(Forbidden)
  {
    if !Present(cookie) || !Present(header) || cookie.value != header.value then Fail(Forbidden) else Pass
  }

  /** Which of the two places carries which copy does not matter. */
  lemma ProtectCsrfSymmetric(cookie: Option<string>, header: Option<string>)
    ensures ProtectCsrf(cookie, header) == ProtectCsrf(header, cookie)
  {
  }
}

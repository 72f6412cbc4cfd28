/** The GraphQL request guard: reads and subscriptions pass, mutations need
    the admin key as a bearer token. */
module Auth {
  import opened Common

  datatype Operation = Query | Mutation | Subscription

  /** What the guard reads from a request: the operation type and the value
      of its `authorization` header (header names are case-insensitive, so
      this is whichever spelling the client sent). */
  datatype Request = Request(operation: Operation, authorization: Option<string>)

  const BearerPrefix := "Bearer "

  /** `authChecker`: with no admin key (unset or empty) everything is refused;
      otherwise the header must be exactly `Bearer ` followed by the key. */
  function AuthChecker(adminKey: Option<string>, authorization: Option<string>): (ok: bool)
    ensures ok <==>
      && adminKey.Some? && |adminKey.value| > 0
      && authorization.Some? && |authorization.value| == |BearerPrefix| + |adminKey.value|
      && authorization.value[..|BearerPrefix|] == BearerPrefix
      && authorization.value[|BearerPrefix|..] == adminKey.value
  {
    if adminKey.None? || adminKey.value == "" then false
    else
      var expected := BearerPrefix + adminKey.value;
      assert expected[..|BearerPrefix|] == BearerPrefix && expected[|BearerPrefix|..] == adminKey.value;
      assert authorization.Some? && |authorization.value| == |expected|
             && authorization.value[..|BearerPrefix|] == BearerPrefix
             && authorization.value[|BearerPrefix|..] == adminKey.value
             ==> authorization.value == authorization.value[..|BearerPrefix|] + authorization.value[|BearerPrefix|..];
      authorization == Some(expected)
  }

  /** `requestCheck`: only mutations are checked. */
  function RequestCheck(req: Request, adminKey: Option<string>): (ok: bool)
    ensures req.operation != Mutation ==> ok
    ensures req.operation == Mutation ==> ok == AuthChecker(adminKey, req.authorization)
    ensures ok ==> req.operation != Mutation || (adminKey.Some? && req.authorization == Some(BearerPrefix + adminKey.value))
  {
    req.operation != Mutation || AuthChecker(adminKey, req.authorization)
  }

  /** For a given key exactly one header value is accepted, and no header is
      accepted when the key is unset or empty. */
  lemma {:induction false} OneAcceptedHeader(adminKey: Option<string>, a: string, b: string)
    requires AuthChecker(adminKey, Some(a)) && AuthChecker(adminKey, Some(b))
    ensures a == b
  {
    assert a == a[..|BearerPrefix|] + a[|BearerPrefix|..];
    assert b == b[..|BearerPrefix|] + b[|BearerPrefix|..];
  }

  /** The bearer header built from a non-empty key is accepted, and a missing
      header never is. */
  lemma BearerAccepted(key: string)
    requires |key| > 0
    ensures AuthChecker(Some(key), Some(BearerPrefix + key))
    ensures !AuthChecker(Some(key), None)
    ensures !AuthChecker(None, Some(BearerPrefix + key)) && !AuthChecker(Some(""), Some(BearerPrefix))
  {
  }
}

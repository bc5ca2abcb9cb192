/** findCookieValue (main.go:359-377): the value of the first cookie with a given name. */
module Cookies {
  import opened Wrappers

  datatype Cookie = Cookie(name: string, value: string)

  datatype CookieError =
    | CookiesUnavailable(cause: string)  // page.Cookies failed; its error is returned unchanged
    | CookieNotFound(name: string)       // no cookie with the name, or the first one has an empty value

  /** The text of the error findCookieValue returns. */
  function ErrorMessage(e: CookieError): string {
    match e
    case CookiesUnavailable(cause) => cause
    case CookieNotFound(name) => "cookie with name " + name + " not Found"
  }

  /** Index of the first cookie called `name`, or |cookies| when there is none. */
  function FirstNamed(cookies: seq<Cookie>, name: string): (k: nat)
    ensures k <= |cookies|
    ensures forall j :: 0 <= j < k ==> cookies[j].name != name
    ensures k < |cookies| ==> cookies[k].name == name
  {
    if cookies == [] || cookies[0].name == name then 0 else 1 + FirstNamed(cookies[1..], name)
  }

  /**
    `fetched` is what page.Cookies returned. The search stops at the first
    cookie with the name, so a later cookie with the same name is never
    consulted, and an empty value counts as not found.
   */
  method FindCookieValue(fetched: Result<seq<Cookie>, string>, name: string) returns (r: Result<string, CookieError>)
    ensures fetched.Err? ==> r == Err(CookiesUnavailable(fetched.error))
    ensures fetched.Ok? ==>
      var cookies, k := fetched.value, FirstNamed(fetched.value, name);
      && (r.Ok? <==> k < |cookies| && cookies[k].value != "")
      && (r.Ok? ==> r.value == cookies[k].value)
      && (r.Err? ==> r.error == CookieNotFound(name))
    ensures r.Err? ==>
      ErrorMessage(r.error) == (if fetched.Err? then fetched.error else "cookie with name " + name + " not Found")
  {
    if fetched.Err? {
      return Err(CookiesUnavailable(fetched.error));
    }
    var cookies := fetched.value;
    var value := "";
    var i := 0;
    ghost var at := |cookies|;
    while i < |cookies|
      invariant 0 <= i <= |cookies|
      invariant forall j :: 0 <= j < i ==> cookies[j].name != name
      invariant value == ""
    {
      if cookies[i].name == name {
        value := cookies[i].value;
        at := i;
        break;
      }
      i := i + 1;
    }
    assert at == FirstNamed(cookies, name);
    assert at < |cookies| ==> value == cookies[at].value;
    if value == "" {
      return Err(CookieNotFound(name));
    }
    return Ok(value);
  }
}

/**
 * The browser services the form code talks to, reduced to what it observes:
 * session storage as a string-to-string map, and the network as the log of
 * the requests sent. A response is an abstract value handed in by the caller.
 */
module Browser {
  import opened Wrappers

  const ApiSessionUrl: string := "http://localhost:4000/api/session"
  const ApiFormUrl: string := "http://localhost:4000/api/form"

  datatype HttpMethod = GET | POST

  /** The two requests the form issues: the session handshake and the form submission. */
  datatype Request = SessionRequest | FormRequest(email: string, csrfToken: string) {

    function Method(): HttpMethod {
      if SessionRequest? then GET else POST
    }

    function Url(): string {
      if SessionRequest? then ApiSessionUrl else ApiFormUrl
    }

    function Headers(): map<string, string> {
      match this
      case SessionRequest => map[]
      case FormRequest(_, token) =>
        map["content-type" := "application/json; charset=utf-8", "x-token-recaptcha" := token]
    }
  }

  /** A response as far as its status and its headers, under lower-case names. */
  datatype Response = Response(status: int, headers: map<string, string>) {

    /** `resp.headers.get(name)`. */
    function Header(name: string): Option<string> {
      if name in headers then Some(headers[name]) else None
    }
  }

  /** The tab's `sessionStorage`. */
  class SessionStorage {
    var items: map<string, string>

    constructor (items: map<string, string>)
      ensures this.items == items
    {
      this.items := items;
    }

    /** `getItem(key)`: `None` is JavaScript's `null`. */
    function GetItem(key: string): Option<string>
      reads this
    {
      if key in items then Some(items[key]) else None
    }

    /** `setItem(key, value)`. */
    method SetItem(key: string, value: string)
      modifies this
      ensures items == old(items)[key := value]
    {
      items := items[key := value];
    }
  }

  /** The network as far as the form can tell: every request sent so far, in order. */
  class Network {
    var sent: seq<Request>

    constructor ()
      ensures sent == []
    {
      sent := [];
    }

    /** Issues `req`; what comes back is supplied by the caller of the operation. */
    method Send(req: Request)
      modifies this
      ensures sent == old(sent) + [req]
    {
      sent := sent + [req];
    }
  }
}

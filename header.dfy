/**
 * The parts of Go's `http.Header` and `http.Request` the model uses: a map
 * from header names to their values, and a request as its method, URL,
 * headers, host and content length. Names are kept as given; Go's
 * canonicalisation of the name (`content-type` becomes `Content-Type`) is
 * not modelled.
 */
module HttpHeader {
  import opened Wrappers
  import opened Credentials

  type Header = map<string, seq<string>>

  /** Header.Get: the first value under the name, or "" when there is none. */
  function Get(header: Header, key: string): string {
    if key in header && header[key] != [] then header[key][0] else ""
  }

  /** Header.Set: the name's values become exactly the one value given. */
  function Set(header: Header, key: string, value: string): Header {
    header[key := [value]]
  }

  /** After Set, Get gives the value set under that name, and every other name keeps its values. */
  lemma SetGet(header: Header, key: string, value: string)
    ensures Get(Set(header, key, value), key) == value
    ensures forall k :: k != key ==> (k in Set(header, key, value) <==> k in header)
    ensures forall k :: k != key && k in header ==> Set(header, key, value)[k] == header[k]
  {
  }

  /** A second Set under the same name replaces the first. */
  lemma SetSet(header: Header, key: string, first: string, second: string)
    ensures Set(Set(header, key, first), key, second) == Set(header, key, second)
  {
  }

  /** A request; `host` is "" unless it was set, and the URL's host then applies. */
  datatype Request = Request(httpMethod: string, url: string, header: Header, host: string, contentLength: int)

  /**
   * http.NewRequest with no body: the URL as `parseUrl` resolves it, no
   * headers and no content, or the error of the parse.
   */
  function NewRequest(httpMethod: string, url: string, parseUrl: string -> Result<string>): (r: Result<Request>)
    ensures r.Err? <==> parseUrl(url).Err?
    ensures r.Ok? ==> r.value == Request(httpMethod, parseUrl(url).value, map[], "", 0)
  {
    var u :- parseUrl(url);
    Ok(Request(httpMethod, u, map[], "", 0))
  }

  /** Request.SetBasicAuth: the Authorization header becomes `Basic` and the credentials. */
  function SetBasicAuth(req: Request, username: string, password: string): (r: Request)
    ensures Get(r.header, "Authorization") == "Basic " + BasicAuth(username, password)
    ensures forall k :: k != "Authorization" ==> (k in r.header <==> k in req.header)
    ensures r == req.(header := r.header)
  {
    req.(header := Set(req.header, "Authorization", "Basic " + BasicAuth(username, password)))
  }
}

/** requester.Work as the command line builds it, and the body and proxy steps both builders share. */
module RequesterWork {
  import opened Wrappers
  import opened Base64
  import opened HttpHeader

  /** math.MaxInt32, the request count of a run bounded by a duration. */
  const MaxInt32: int := 2147483647

  /** heyUA and defaultUserAgent. */
  const HeyUA: string := "hey/0.0.1"

  datatype Work = Work(
    request: Request, requestBody: seq<byte>,
    n: int, c: int, qps: real, timeout: int, debug: bool,
    disableCompression: bool, disableKeepAlives: bool, disableRedirects: bool,
    h2: bool, proxyAddr: Option<string>, output: string)

  /** The proxy URL, when one is given and parses. */
  function ProxyOf(proxyAddr: string, parseUrl: string -> Result<string>): Result<Option<string>> {
    if proxyAddr == "" then Ok(None)
    else
      var u :- parseUrl(proxyAddr);
      Ok(Some(u))
  }

  /** The body: the file's bytes when `-D` is given, else the bytes of `-d`. */
  function BodyOf(body: string, bodyFile: string, readFile: string -> Result<seq<byte>>): Result<seq<byte>> {
    if bodyFile != "" then readFile(bodyFile) else Ok(if body != "" then Utf8(body) else [])
  }
}

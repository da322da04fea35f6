/**
 * NewWork of internal/parser/work.go: validate the counts, build the
 * headers, read the body and make the request of a run. Reading the body
 * file and parsing a URL are parameters: `readFile(path)` is the file's
 * bytes or the error of ioutil.ReadFile, `parseUrl(u)` the URL or the error
 * of url.Parse.
 */
module ParserWork {
  import opened Wrappers
  import opened Text
  import opened Base64
  import opened Credentials
  import opened HttpHeader
  import opened Matchers
  import opened HeaderLines
  import opened RequesterWork
  import opened ParserConfig

  const ValidateError: string := "-n and -c must be greater than 1"

  // ---------------------------------------------------------------- validate

  /** The concurrency validate leaves: N when C is larger. */
  function ClampedC(n: int, c: int): int {
    if n < c then n else c
  }

  /** validate's error, judged on N and the clamped C. */
  function Validated(n: int, c: int): Option<string> {
    if n <= 0 || ClampedC(n, c) <= 0 then Some(ValidateError) else None
  }

  /**
   * validate fails exactly when N or C is not positive; when it passes, the
   * concurrency is between 1 and N, and it is C unless C was larger than N.
   */
  lemma ValidatedMeaning(n: int, c: int)
    ensures Validated(n, c).None? <==> n > 0 && c > 0
    ensures ClampedC(n, c) <= n && ClampedC(n, c) <= c && (ClampedC(n, c) == c || c > n)
    ensures Validated(n, c).None? ==> 1 <= ClampedC(n, c) <= n
  {
  }

  /** validate: C becomes N when N is smaller, then N and C must both be positive. */
  method Validate(conf: Config) returns (err: Option<string>)
    modifies conf
    ensures conf.c == ClampedC(old(conf.n), old(conf.c))
    ensures conf.n == old(conf.n) && conf.dur == old(conf.dur) && conf.settings == old(conf.settings)
    ensures err == Validated(old(conf.n), old(conf.c))
  {
    if conf.n < conf.c {
      conf.c := conf.n;
    }
    if conf.n <= 0 || conf.c <= 0 {
      return Some(ValidateError);
    }
    return None;
  }

  // ---------------------------------------------------------------- newHttpHeader

  /** setHeader: sets the value only when it is not empty. */
  function SetHeader(h: Header, key: string, value: string): (r: Header)
    ensures value == "" ==> r == h
    ensures value != "" ==> key in r && r[key] == [value]
    ensures forall k :: k != key ==> (k in r <==> k in h) && (k in h ==> r[k] == h[k])
  {
    if value != "" then Set(h, key, value) else h
  }

  /** The four headers set from their own flags, each only when given. */
  function FlagHeaders(s: Settings): Header {
    var h := SetHeader(map[], "Content-Type", s.contentType);
    var h := SetHeader(h, "Accept", s.accept);
    var h := SetHeader(h, "Host", s.hostHeader);
    SetHeader(h, "User-Agent", s.userAgent)
  }

  /** The Authorization header of `-a`, when it is given and splits into user and password. */
  function WithAuth(h: Header, authHeader: string): Result<Header> {
    if authHeader == "" then Ok(h)
    else
      var m :- ParseInputWithRegexp(authHeader, AuthPattern);
      Ok(Set(h, "Authorization", "Basic " + BasicAuth(m[1], m[2])))
  }

  /** The default User-Agent, when no value is left under that name. */
  function DefaultAgent(h: Header): Header {
    if Get(h, "User-Agent") == "" then Set(h, "User-Agent", HeyUA) else h
  }

  /** What newHttpHeader returns. */
  function HttpHeaderOf(s: Settings): Result<Header> {
    var h :- WithAuth(FlagHeaders(s), s.authHeader);
    var h :- ApplyHeaders(h, s.headerSlice);
    Ok(DefaultAgent(h))
  }

  /** newHttpHeader: the flag headers, the Authorization of `-a`, the `-H` lines, then the default User-Agent. */
  method NewHttpHeader(s: Settings) returns (r: Result<Header>)
    ensures r == HttpHeaderOf(s)
  {
    var header: Header := map[];
    header := SetHeader(header, "Content-Type", s.contentType);
    header := SetHeader(header, "Accept", s.accept);
    header := SetHeader(header, "Host", s.hostHeader);
    header := SetHeader(header, "User-Agent", s.userAgent);
    assert header == FlagHeaders(s);
    if s.authHeader != "" {
      var m := ParseInputWithRegexp(s.authHeader, AuthPattern);
      if m.Err? {
        assert WithAuth(FlagHeaders(s), s.authHeader) == Err(m.msg);
        return Err(m.msg);
      }
      header := Set(header, "Authorization", "Basic " + BasicAuth(m.value[1], m.value[2]));
    }
    assert WithAuth(FlagHeaders(s), s.authHeader) == Ok(header);
    var lines := SetHeaderLines(header, s.headerSlice);
    if lines.Err? {
      return Err(lines.msg);
    }
    header := lines.value;
    ghost var h2 := header;
    var ua := Get(header, "User-Agent");
    if ua == "" {
      header := Set(header, "User-Agent", HeyUA);
    }
    assert header == DefaultAgent(h2);
    return Ok(header);
  }

  /**
   * The value a header ends with, by precedence: the last `-H` line that
   * names it; else, for Authorization, the credentials of `-a`; else the
   * flag that sets it, when given; else, for User-Agent, the default.
   */
  function Expected(s: Settings, key: string): Option<string>
    requires s.authHeader != "" ==> AuthMatch(s.authHeader).Some?
  {
    match LastValue(s.headerSlice, key)
    case Some(v) => Some(v)
    case None =>
      if key == "Authorization" && s.authHeader != "" then
        var m := AuthMatch(s.authHeader).value;
        Some("Basic " + BasicAuth(m[1], m[2]))
      else if FlagValue(s, key) != "" then Some(FlagValue(s, key))
      else if key == "User-Agent" then Some(HeyUA)
      else None
  }

  /** newHttpHeader fails exactly when `-a` is given and does not split, or a `-H` line does not match. */
  lemma HttpHeaderErrors(s: Settings)
    ensures HttpHeaderOf(s).Ok? <==>
      && (s.authHeader != "" ==> AuthMatch(s.authHeader).Some?)
      && forall i :: 0 <= i < |s.headerSlice| ==> HeaderMatch(s.headerSlice[i]).Some?
    ensures s.authHeader != "" && AuthMatch(s.authHeader).None? ==> HttpHeaderOf(s) == Err(ParseError(s.authHeader))
  {
    var w := WithAuth(FlagHeaders(s), s.authHeader);
    if w.Ok? {
      ApplyHeadersOk(w.value, s.headerSlice);
    }
  }

  /** A failing `-H` line, with a good `-a`, gives the error that names the first such line. */
  lemma HttpHeaderLineError(s: Settings)
    requires s.authHeader != "" ==> AuthMatch(s.authHeader).Some?
    requires HttpHeaderOf(s).Err?
    ensures exists i :: FirstBad(s.headerSlice, i) && HttpHeaderOf(s).msg == ParseError(s.headerSlice[i])
  {
    var w := WithAuth(FlagHeaders(s), s.authHeader);
    ApplyHeadersError(w.value, s.headerSlice);
  }

  /** Every name the built headers hold has the one value Expected gives, and no other name is set. */
  lemma HttpHeaderValues(s: Settings, key: string)
    requires HttpHeaderOf(s).Ok?
    ensures s.authHeader != "" ==> AuthMatch(s.authHeader).Some?
    ensures var h := HttpHeaderOf(s).value;
      && (key in h <==> Expected(s, key).Some?)
      && (key in h ==> h[key] == [Expected(s, key).value])
  {
    HttpHeaderErrors(s);
    var h1 := WithAuth(FlagHeaders(s), s.authHeader).value;
    var h2 := ApplyHeaders(h1, s.headerSlice).value;
    assert HttpHeaderOf(s).value == DefaultAgent(h2);
    ApplyHeadersLast(h1, s.headerSlice, key);
    WithAuthAt(s, key);
    if key == "User-Agent" {
      LastValueNonEmpty(s.headerSlice, key);
    }
  }

  /**
   * Before the `-H` lines, a name holds the credentials of `-a` when it is
   * Authorization and `-a` is given, else the value of its flag when given.
   */
  lemma WithAuthAt(s: Settings, key: string)
    requires s.authHeader != "" ==> AuthMatch(s.authHeader).Some?
    ensures WithAuth(FlagHeaders(s), s.authHeader).Ok?
    ensures var h := WithAuth(FlagHeaders(s), s.authHeader).value;
      && (key in h <==> (key == "Authorization" && s.authHeader != "") || FlagValue(s, key) != "")
      && (key == "Authorization" && s.authHeader != "" ==>
            h[key] == ["Basic " + BasicAuth(AuthMatch(s.authHeader).value[1], AuthMatch(s.authHeader).value[2])])
      && (key in h && (key != "Authorization" || s.authHeader == "") ==> h[key] == [FlagValue(s, key)])
  {
    FlagHeadersAt(s, key);
  }

  /** FlagHeaders holds each of the four names exactly when its flag is given. */
  lemma FlagHeadersAt(s: Settings, key: string)
    ensures var h := FlagHeaders(s);
      && (key in h <==> FlagValue(s, key) != "")
      && (key in h ==> h[key] == [FlagValue(s, key)])
  {
  }

  /** The flag behind each of the four names newHttpHeader sets first; "" for any other name. */
  function FlagValue(s: Settings, key: string): string {
    if key == "Content-Type" then s.contentType
    else if key == "Accept" then s.accept
    else if key == "Host" then s.hostHeader
    else if key == "User-Agent" then s.userAgent
    else ""
  }

  // ---------------------------------------------------------------- NewWork

  /** What NewWork returns for a configuration whose counts are `n`, `c` and `dur` before validation. */
  function WorkOf(n: int, c: int, dur: int, s: Settings,
                  readFile: string -> Result<seq<byte>>, parseUrl: string -> Result<string>): Result<Work>
  {
    if Validated(n, c).Some? then Err(ValidateError)
    else
      var proxy :- ProxyOf(s.proxyAddr, parseUrl);
      var body :- BodyOf(s.body, s.bodyFile, readFile);
      var header :- HttpHeaderOf(s);
      var req :- NewRequest(ToUpper(s.m), s.url, parseUrl);
      Ok(Work(req.(contentLength := |body|, header := header), body,
        if dur > 0 then MaxInt32 else n, ClampedC(n, c), s.q, s.t, s.debug,
        s.disableCompression, s.disableCompression, s.disableRedirects, s.h2, proxy, s.output))
  }

  /**
   * NewWork: validate (which may lower C), N to MaxInt32 for a timed run,
   * the proxy, the upper-cased method, the body, the headers and the request.
   */
  method NewWork(conf: Config, readFile: string -> Result<seq<byte>>, parseUrl: string -> Result<string>)
    returns (r: Result<Work>)
    modifies conf
    ensures r == WorkOf(old(conf.n), old(conf.c), old(conf.dur), old(conf.settings), readFile, parseUrl)
    ensures conf.c == ClampedC(old(conf.n), old(conf.c))
    ensures conf.n == (if Validated(old(conf.n), old(conf.c)).None? && conf.dur > 0 then MaxInt32 else old(conf.n))
    ensures conf.dur == old(conf.dur) && conf.settings == old(conf.settings)
  {
    var err := Validate(conf);
    if err.Some? {
      return Err(err.value);
    }
    if conf.dur > 0 {
      conf.n := MaxInt32;
    }
    var s := conf.settings;
    var proxyUrl: Option<string> := None;
    if s.proxyAddr != "" {
      var u := parseUrl(s.proxyAddr);
      if u.Err? {
        return Err(u.msg);
      }
      proxyUrl := Some(u.value);
    }
    var verb := ToUpper(s.m);
    var bodyAll: seq<byte> := [];
    if s.body != "" {
      bodyAll := Utf8(s.body);
    }
    if s.bodyFile != "" {
      var slurp := readFile(s.bodyFile);
      if slurp.Err? {
        return Err(slurp.msg);
      }
      bodyAll := slurp.value;
    }
    var header := NewHttpHeader(s);
    if header.Err? {
      return Err(header.msg);
    }
    var req := NewRequest(verb, s.url, parseUrl);
    if req.Err? {
      return Err(req.msg);
    }
    var request := req.value.(contentLength := |bodyAll|, header := header.value);
    return Ok(Work(request, bodyAll, conf.n, conf.c, s.q, s.t, s.debug,
      s.disableCompression, s.disableCompression, s.disableRedirects, s.h2, proxyUrl, s.output));
  }

  /**
   * The steps fail in order: validate, the proxy, the body file, the
   * headers, the request URL; each error is that of the first failing step.
   */
  lemma WorkErrors(n: int, c: int, dur: int, s: Settings,
                   readFile: string -> Result<seq<byte>>, parseUrl: string -> Result<string>)
    ensures var r := WorkOf(n, c, dur, s, readFile, parseUrl);
      && (n <= 0 || c <= 0 ==> r == Err(ValidateError))
      && (n > 0 && c > 0 && s.proxyAddr != "" && parseUrl(s.proxyAddr).Err? ==> r == Err(parseUrl(s.proxyAddr).msg))
      && (n > 0 && c > 0 && ProxyOf(s.proxyAddr, parseUrl).Ok? && s.bodyFile != "" && readFile(s.bodyFile).Err? ==>
            r == Err(readFile(s.bodyFile).msg))
      && ((n > 0 && c > 0 && ProxyOf(s.proxyAddr, parseUrl).Ok? && BodyOf(s.body, s.bodyFile, readFile).Ok?
            && HttpHeaderOf(s).Err?) ==> r == Err(HttpHeaderOf(s).msg))
      && (r.Ok? <==> (n > 0 && c > 0 && ProxyOf(s.proxyAddr, parseUrl).Ok? && BodyOf(s.body, s.bodyFile, readFile).Ok?
            && HttpHeaderOf(s).Ok? && parseUrl(s.url).Ok?))
  {
    ValidatedMeaning(n, c);
  }

  /**
   * A built Work: N is MaxInt32 for a timed run, C is between 1 and N as
   * given, the body is the file's or `-d`'s bytes and ContentLength its
   * length, and, as written, DisableKeepAlives is the DisableCompression flag.
   */
  lemma WorkFields(n: int, c: int, dur: int, s: Settings,
                   readFile: string -> Result<seq<byte>>, parseUrl: string -> Result<string>)
    requires WorkOf(n, c, dur, s, readFile, parseUrl).Ok?
    ensures var w := WorkOf(n, c, dur, s, readFile, parseUrl).value;
      && w.n == (if dur > 0 then MaxInt32 else n)
      && 1 <= w.c <= n && w.c == (if c > n then n else c)
      && w.requestBody == (if s.bodyFile != "" then readFile(s.bodyFile).value else Utf8(s.body))
      && w.request.contentLength == |w.requestBody|
      && w.request.httpMethod == ToUpper(s.m) && w.request.url == parseUrl(s.url).value
      && w.request.header == HttpHeaderOf(s).value
      && w.proxyAddr == (if s.proxyAddr == "" then None else Some(parseUrl(s.proxyAddr).value))
      && w.disableKeepAlives == s.disableCompression && w.disableCompression == s.disableCompression
      && w.disableRedirects == s.disableRedirects && w.qps == s.q && w.timeout == s.t && w.output == s.output
  {
    ValidatedMeaning(n, c);
  }

  /** `-n 5` with the default 50 workers runs 5 workers, and so does `-n 1 -c 100` with 1. */
  lemma ValidateSamples()
    ensures ClampedC(5, 50) == 5 && Validated(5, 50) == None
    ensures ClampedC(1, 100) == 1 && Validated(1, 100) == None
  {
  }
}

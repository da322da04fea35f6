/**
 * newWork of work.go: the request and the settings of a run, from the
 * parsed command line. Reading the body file and parsing a URL are
 * parameters, as in ParserWork.
 *
 * As written, newWork builds its `header` map and never hands it to the
 * request: `http.NewRequest` gives the request a map of its own, and only
 * SetBasicAuth writes into that one. WorkOfAsWritten models that code;
 * WorkOf, which NewWork implements, is the code with `req.Header = header`
 * right after the request is made, so that SetBasicAuth and the User-Agent
 * both go into the headers that are sent.
 */
module MainWork {
  import opened Wrappers
  import opened Text
  import opened Base64
  import opened Credentials
  import opened HttpHeader
  import opened Matchers
  import opened HeaderLines
  import opened RequesterWork
  import opened Flags

  /** Content-Type first, even when empty, then every `-H` line in order, then `-A` when given. */
  function BuiltHeader(conf: Config): Result<Header> {
    var h :- ApplyHeaders(Set(map[], "Content-Type", conf.contentType), conf.headerSlice);
    Ok(if conf.accept != "" then Set(h, "Accept", conf.accept) else h)
  }

  /** The user and the password of `-a`; both empty when `-a` is not given. */
  function CredentialsOf(authHeader: string): Result<(string, string)> {
    if authHeader == "" then Ok(("", ""))
    else
      var m :- ParseInputWithRegexp(authHeader, AuthPattern);
      Ok((m[1], m[2]))
  }

  /** SetBasicAuth, only when there is a user or a password. */
  function WithCredentials(req: Request, username: string, password: string): Request {
    if username != "" || password != "" then SetBasicAuth(req, username, password) else req
  }

  /** The Host of the request, when `-host` is given. */
  function WithHost(req: Request, hostHeader: string): Request {
    if hostHeader != "" then req.(host := hostHeader) else req
  }

  /** The User-Agent sent: `-U` then heyUA; else the one already set then heyUA; else heyUA alone. */
  function AgentOf(given: string, userAgent: string): string {
    if userAgent != "" then userAgent + " " + HeyUA
    else if given == "" then HeyUA
    else given + " " + HeyUA
  }

  /** The headers once the User-Agent is composed. */
  function WithAgent(h: Header, userAgent: string): Header {
    Set(h, "User-Agent", AgentOf(Get(h, "User-Agent"), userAgent))
  }

  /** What newWork has gathered when the request is made. */
  datatype Parts = Parts(header: Header, username: string, password: string,
                         body: seq<byte>, proxy: Option<string>, req: Request)

  /**
   * The steps of newWork up to ContentLength, in order: the headers, the
   * credentials, the body, the proxy, the request; the first that fails
   * gives the error.
   */
  function PartsOf(conf: Config, readFile: string -> Result<seq<byte>>, parseUrl: string -> Result<string>): Result<Parts> {
    var header :- BuiltHeader(conf);
    var credentials :- CredentialsOf(conf.authHeader);
    var body :- BodyOf(conf.body, conf.bodyFile, readFile);
    var proxy :- ProxyOf(conf.proxyAddr, parseUrl);
    var req :- NewRequest(ToUpper(conf.m), conf.url, parseUrl);
    Ok(Parts(header, credentials.0, credentials.1, body, proxy, req.(contentLength := |body|)))
  }

  /** The Work of a request; Debug is not set, and DisableKeepAlives is taken from disableCompression. */
  function WorkFrom(conf: Config, req: Request, p: Parts): Work {
    Work(req, p.body, conf.n, conf.c, conf.q, conf.t, false,
      conf.disableCompression, conf.disableCompression, conf.disableRedirects,
      conf.h2, p.proxy, conf.output)
  }

  /** The request as written: SetBasicAuth and `-host` act on the request's own, empty headers. */
  function AsWrittenRequest(conf: Config, p: Parts): Request {
    WithHost(WithCredentials(p.req, p.username, p.password), conf.hostHeader)
  }

  /** The request with the built headers attached, then the credentials, `-host` and the User-Agent. */
  function CorrectedRequest(conf: Config, p: Parts): Request {
    var req := WithHost(WithCredentials(p.req.(header := p.header), p.username, p.password), conf.hostHeader);
    req.(header := WithAgent(req.header, conf.userAgent))
  }

  /** newWork as written: the built headers and the User-Agent end in a map the request never sees. */
  function WorkOfAsWritten(conf: Config, readFile: string -> Result<seq<byte>>, parseUrl: string -> Result<string>): Result<Work> {
    var p :- PartsOf(conf, readFile, parseUrl);
    Ok(WorkFrom(conf, AsWrittenRequest(conf, p), p))
  }

  /** newWork with the built headers attached to the request. */
  function WorkOf(conf: Config, readFile: string -> Result<seq<byte>>, parseUrl: string -> Result<string>): Result<Work> {
    var p :- PartsOf(conf, readFile, parseUrl);
    Ok(WorkFrom(conf, CorrectedRequest(conf, p), p))
  }

  /** The header steps of newWork: Content-Type, the `-H` lines, then Accept. */
  method BuildHeader(conf: Config) returns (r: Result<Header>)
    ensures r == BuiltHeader(conf)
  {
    var header: Header := map[];
    header := Set(header, "Content-Type", conf.contentType);
    var lines := SetHeaderLines(header, conf.headerSlice);
    if lines.Err? {
      return Err(lines.msg);
    }
    header := lines.value;
    if conf.accept != "" {
      header := Set(header, "Accept", conf.accept);
    }
    return Ok(header);
  }

  /** The steps of newWork up to the request and its ContentLength. */
  method Gather(conf: Config, readFile: string -> Result<seq<byte>>, parseUrl: string -> Result<string>)
    returns (r: Result<Parts>)
    ensures r == PartsOf(conf, readFile, parseUrl)
  {
    var verb := ToUpper(conf.m);
    var built := BuildHeader(conf);
    if built.Err? {
      return Err(built.msg);
    }
    var header := built.value;
    var username, password := "", "";
    if conf.authHeader != "" {
      var m := ParseInputWithRegexp(conf.authHeader, AuthPattern);
      if m.Err? {
        return Err(m.msg);
      }
      username, password := m.value[1], m.value[2];
    }
    assert CredentialsOf(conf.authHeader) == Ok((username, password));
    var bodyAll: seq<byte> := [];
    if conf.body != "" {
      bodyAll := Utf8(conf.body);
    }
    if conf.bodyFile != "" {
      var slurp := readFile(conf.bodyFile);
      if slurp.Err? {
        return Err(slurp.msg);
      }
      bodyAll := slurp.value;
    }
    var proxyUrl: Option<string> := None;
    if conf.proxyAddr != "" {
      var u := parseUrl(conf.proxyAddr);
      if u.Err? {
        return Err(u.msg);
      }
      proxyUrl := Some(u.value);
    }
    var made := NewRequest(verb, conf.url, parseUrl);
    if made.Err? {
      return Err(made.msg);
    }
    return Ok(Parts(header, username, password, bodyAll, proxyUrl, made.value.(contentLength := |bodyAll|)));
  }

  /** newWork, step by step, with the headers attached to the request. */
  method NewWork(conf: Config, readFile: string -> Result<seq<byte>>, parseUrl: string -> Result<string>)
    returns (r: Result<Work>)
    ensures r == WorkOf(conf, readFile, parseUrl)
  {
    var p :- Gather(conf, readFile, parseUrl);
    var req := p.req;
    req := req.(header := p.header);
    if p.username != "" || p.password != "" {
      req := SetBasicAuth(req, p.username, p.password);
    }
    if conf.hostHeader != "" {
      req := req.(host := conf.hostHeader);
    }
    assert req == WithHost(WithCredentials(p.req.(header := p.header), p.username, p.password), conf.hostHeader);
    // req.Header and header are one map from here on
    var header := req.header;
    var ua := Get(header, "User-Agent");
    if ua == "" {
      ua := HeyUA;
    } else {
      ua := ua + " " + HeyUA;
    }
    assert conf.userAgent == "" ==> ua == AgentOf(Get(header, "User-Agent"), conf.userAgent);
    var sent := Set(header, "User-Agent", ua);
    if conf.userAgent != "" {
      ua := conf.userAgent + " " + HeyUA;
      SetSet(header, "User-Agent", sent["User-Agent"][0], ua);
      sent := Set(sent, "User-Agent", ua);
    }
    assert sent == WithAgent(header, conf.userAgent);
    req := req.(header := sent);
    return Ok(WorkFrom(conf, req, p));
  }

  /**
   * The precedence of the sent headers: User-Agent is composed last;
   * Authorization comes from `-a` when given; Accept from `-A` when given;
   * otherwise the last `-H` line that names the header; and Content-Type,
   * set first, is `-T` when no line names it.
   */
  function Expected(conf: Config, key: string): Option<string>
    requires conf.authHeader != "" ==> AuthMatch(conf.authHeader).Some?
  {
    if key == "User-Agent" then
      Some(AgentOf(match LastValue(conf.headerSlice, key) case Some(v) => v case None => "", conf.userAgent))
    else if key == "Authorization" && conf.authHeader != "" then
      var m := AuthMatch(conf.authHeader).value;
      Some("Basic " + BasicAuth(m[1], m[2]))
    else if key == "Accept" && conf.accept != "" then Some(conf.accept)
    else match LastValue(conf.headerSlice, key)
      case Some(v) => Some(v)
      case None => if key == "Content-Type" then Some(conf.contentType) else None
  }

  /** The steps before the request fail in order, each with its own error. */
  lemma PartsErrors(conf: Config, readFile: string -> Result<seq<byte>>, parseUrl: string -> Result<string>)
    ensures var r := PartsOf(conf, readFile, parseUrl);
      && (r.Ok? <==>
            && (forall i :: 0 <= i < |conf.headerSlice| ==> HeaderMatch(conf.headerSlice[i]).Some?)
            && (conf.authHeader != "" ==> AuthMatch(conf.authHeader).Some?)
            && (conf.bodyFile != "" ==> readFile(conf.bodyFile).Ok?)
            && (conf.proxyAddr != "" ==> parseUrl(conf.proxyAddr).Ok?)
            && parseUrl(conf.url).Ok?)
      && (BuiltHeader(conf).Err? ==> exists i :: FirstBad(conf.headerSlice, i) && r == Err(ParseError(conf.headerSlice[i])))
      && (BuiltHeader(conf).Ok? && conf.authHeader != "" && AuthMatch(conf.authHeader).None? ==>
            r == Err(ParseError(conf.authHeader)))
  {
    var h0 := Set(map[], "Content-Type", conf.contentType);
    ApplyHeadersOk(h0, conf.headerSlice);
    if BuiltHeader(conf).Err? {
      ApplyHeadersError(h0, conf.headerSlice);
    }
  }

  /** NewWork fails exactly when the parts do, with their error, as written and corrected alike. */
  lemma WorkErrors(conf: Config, readFile: string -> Result<seq<byte>>, parseUrl: string -> Result<string>)
    ensures WorkOf(conf, readFile, parseUrl).Ok? <==> PartsOf(conf, readFile, parseUrl).Ok?
    ensures WorkOfAsWritten(conf, readFile, parseUrl).Ok? <==> PartsOf(conf, readFile, parseUrl).Ok?
    ensures PartsOf(conf, readFile, parseUrl).Err? ==>
      WorkOf(conf, readFile, parseUrl) == WorkOfAsWritten(conf, readFile, parseUrl) == Err(PartsOf(conf, readFile, parseUrl).msg)
  {
  }

  /**
   * A built Work: the upper-cased method, the URL, the body of `-D` over
   * `-d` and its length, the Host of `-host`, and the settings copied one
   * to one, except DisableKeepAlives, which is disableCompression.
   */
  lemma WorkFields(conf: Config, readFile: string -> Result<seq<byte>>, parseUrl: string -> Result<string>)
    requires WorkOf(conf, readFile, parseUrl).Ok?
    ensures var w := WorkOf(conf, readFile, parseUrl).value;
      && w.request.httpMethod == ToUpper(conf.m) && w.request.url == parseUrl(conf.url).value
      && w.requestBody == (if conf.bodyFile != "" then readFile(conf.bodyFile).value else Utf8(conf.body))
      && w.request.contentLength == |w.requestBody|
      && w.request.host == conf.hostHeader
      && w.proxyAddr == (if conf.proxyAddr == "" then None else Some(parseUrl(conf.proxyAddr).value))
      && w.n == conf.n && w.c == conf.c && w.qps == conf.q && w.timeout == conf.t && !w.debug
      && w.disableCompression == conf.disableCompression && w.disableKeepAlives == conf.disableCompression
      && w.disableRedirects == conf.disableRedirects && w.h2 == conf.h2 && w.output == conf.output
      && WorkOfAsWritten(conf, readFile, parseUrl).value == w.(request := WorkOfAsWritten(conf, readFile, parseUrl).value.request)
  {
    var p := PartsOf(conf, readFile, parseUrl).value;
    SetBasicAuthKeeps(p.req, p.username, p.password);
    SetBasicAuthKeeps(p.req.(header := p.header), p.username, p.password);
  }

  /** SetBasicAuth changes the headers and nothing else of the request. */
  lemma SetBasicAuthKeeps(req: Request, username: string, password: string)
    ensures var r := WithCredentials(req, username, password);
      r.httpMethod == req.httpMethod && r.url == req.url && r.host == req.host && r.contentLength == req.contentLength
  {
  }

  /** The credentials of a given `-a` always have a user and a password, so SetBasicAuth always runs. */
  lemma CredentialsGiven(authHeader: string)
    requires authHeader != "" && AuthMatch(authHeader).Some?
    ensures CredentialsOf(authHeader).Ok?
    ensures var cr := CredentialsOf(authHeader).value;
      cr.0 != "" && cr.1 != "" && cr.0 + ":" + cr.1 == AuthMatch(authHeader).value[0]
  {
    AuthMatchJoin(authHeader);
    AuthMatchSpec(authHeader);
  }

  /** The headers built from the flags and the `-H` lines hold, by name, what Expected gives, for every name but User-Agent, and but Authorization when `-a` is given. */
  lemma BuiltHeaderAt(conf: Config, key: string)
    requires BuiltHeader(conf).Ok? && (conf.authHeader != "" ==> AuthMatch(conf.authHeader).Some?)
    requires key != "User-Agent" && (key != "Authorization" || conf.authHeader == "")
    ensures var h := BuiltHeader(conf).value;
      && (key in h <==> Expected(conf, key).Some?)
      && (key in h ==> h[key] == [Expected(conf, key).value])
  {
    var h0 := Set(map[], "Content-Type", conf.contentType);
    ApplyHeadersLast(h0, conf.headerSlice, key);
  }

  /** Without `-U`, the User-Agent composed is that of the last `-H` line naming it, or none. */
  lemma BuiltHeaderAgent(conf: Config)
    requires BuiltHeader(conf).Ok?
    ensures Get(BuiltHeader(conf).value, "User-Agent") == match LastValue(conf.headerSlice, "User-Agent") case Some(v) => v case None => ""
  {
    var h0 := Set(map[], "Content-Type", conf.contentType);
    ApplyHeadersLast(h0, conf.headerSlice, "User-Agent");
  }

  /** Every name the sent headers hold has the one value Expected gives, and no other name is sent. */
  lemma HeaderValues(conf: Config, readFile: string -> Result<seq<byte>>, parseUrl: string -> Result<string>, key: string)
    requires WorkOf(conf, readFile, parseUrl).Ok?
    ensures conf.authHeader != "" ==> AuthMatch(conf.authHeader).Some?
    ensures var h := WorkOf(conf, readFile, parseUrl).value.request.header;
      && (key in h <==> Expected(conf, key).Some?)
      && (key in h ==> h[key] == [Expected(conf, key).value])
  {
    PartsErrors(conf, readFile, parseUrl);
    var p := PartsOf(conf, readFile, parseUrl).value;
    SentHeaderAt(conf, p, key);
  }

  /** The headers of the corrected request, name by name, from the gathered parts. */
  lemma SentHeaderAt(conf: Config, p: Parts, key: string)
    requires BuiltHeader(conf) == Ok(p.header) && CredentialsOf(conf.authHeader) == Ok((p.username, p.password))
    ensures conf.authHeader != "" ==> AuthMatch(conf.authHeader).Some?
    ensures var h := CorrectedRequest(conf, p).header;
      && (key in h <==> Expected(conf, key).Some?)
      && (key in h ==> h[key] == [Expected(conf, key).value])
  {
    if conf.authHeader != "" {
      CredentialsGiven(conf.authHeader);
    }
    var hc := WithCredentials(p.req.(header := p.header), p.username, p.password).header;
    assert CorrectedRequest(conf, p).header == WithAgent(hc, conf.userAgent);
    assert hc == if p.username != "" || p.password != "" then Set(p.header, "Authorization", "Basic " + BasicAuth(p.username, p.password)) else p.header;
    if key == "User-Agent" {
      BuiltHeaderAgent(conf);
    } else if key != "Authorization" || conf.authHeader == "" {
      BuiltHeaderAt(conf, key);
      assert (key in hc <==> key in p.header) && (key in hc ==> hc[key] == p.header[key]);
    }
  }

  /**
   * As written, the request is sent with no header but Authorization, and
   * that one only when `-a` is given: Content-Type, Accept, the `-H` lines
   * and the User-Agent are all lost, while the corrected request carries
   * Content-Type and User-Agent always.
   */
  lemma HeaderDropped(conf: Config, readFile: string -> Result<seq<byte>>, parseUrl: string -> Result<string>)
    requires PartsOf(conf, readFile, parseUrl).Ok?
    ensures conf.authHeader != "" ==> AuthMatch(conf.authHeader).Some?
    ensures WorkOfAsWritten(conf, readFile, parseUrl).value.request.header ==
      if conf.authHeader == "" then map[]
      else map["Authorization" := ["Basic " + BasicAuth(AuthMatch(conf.authHeader).value[1], AuthMatch(conf.authHeader).value[2])]]
    ensures "Content-Type" in WorkOf(conf, readFile, parseUrl).value.request.header
    ensures "User-Agent" in WorkOf(conf, readFile, parseUrl).value.request.header
  {
    PartsErrors(conf, readFile, parseUrl);
    if conf.authHeader != "" {
      CredentialsGiven(conf.authHeader);
    }
    HeaderValues(conf, readFile, parseUrl, "Content-Type");
    HeaderValues(conf, readFile, parseUrl, "User-Agent");
  }

  /** The three ways the User-Agent is composed. */
  lemma AgentSamples()
    ensures AgentOf("", "") == "hey/0.0.1"
    ensures AgentOf("curl/8", "") == "curl/8" + " " + "hey/0.0.1"
    ensures AgentOf("curl/8", "bench") == "bench" + " " + "hey/0.0.1"
  {
  }
}

/**
 * The Config of flags.go and the checks parseFlags runs once the flag
 * package has bound the command line. Binding the flags is the flag
 * package's work: the model starts from the values it bound, `parsed`, the
 * positional arguments it left, `args`, and the value of the deprecated
 * `-h` flag, `h`.
 */
module Flags {
  import opened Wrappers
  import opened RequesterWork

  datatype Config = Config(
    url: string, m: string, headerSlice: seq<string>,
    body: string, bodyFile: string, accept: string, contentType: string,
    authHeader: string, hostHeader: string, userAgent: string,
    output: string,
    c: int, n: int, q: real, t: int,
    /** The `-z` duration, in nanoseconds. */
    dur: int,
    h2: bool, cpus: int,
    disableCompression: bool, disableKeepAlives: bool, disableRedirects: bool,
    proxyAddr: string)

  /** The values the flags are bound with before the command line is read; `cpus` is runtime.GOMAXPROCS(-1). */
  function Defaults(cpus: int): Config {
    Config("", "GET", [], "", "", "", "text/html", "", "", "", "",
      50, 200, 0.0, 20, 0, false, cpus, false, false, false, "")
  }

  const NoUrlError: string := ""
  const ConcurrencyError: string := "-c cannot be smaller than 1"
  const CountsError: string := "-n and -c cannot be smaller than 1"
  const FewerError: string := "-n cannot be less than -c"
  const DeprecatedError: string := "flag '-h' is deprecated, please use '-H' instead"

  /** The counts a run accepts: a positive C, and for a run without a duration also a positive N no smaller than C. */
  predicate CountsAccepted(conf: Config) {
    conf.c > 0 && (conf.dur > 0 || (conf.n > 0 && conf.n >= conf.c))
  }

  /**
   * parseFlags after flags.Parse: the URL is the first positional argument;
   * a timed run gets N = MaxInt32 and needs only C > 0, any other run needs
   * N and C positive and N no smaller than C; the deprecated `-h` is
   * refused only after the counts pass.
   */
  function ParseFlags(parsed: Config, args: seq<string>, h: string): (r: Result<Config>)
    ensures r.Ok? <==> |args| >= 1 && CountsAccepted(parsed) && h == ""
    ensures r.Ok? ==> r.value == parsed.(url := args[0], n := if parsed.dur > 0 then MaxInt32 else parsed.n)
    ensures r.Ok? ==> 1 <= r.value.c && (parsed.dur <= 0 ==> r.value.c <= r.value.n)
    ensures |args| == 0 ==> r == Err(NoUrlError)
    ensures |args| >= 1 && parsed.dur > 0 && parsed.c <= 0 ==> r == Err(ConcurrencyError)
    ensures |args| >= 1 && parsed.dur <= 0 && (parsed.n <= 0 || parsed.c <= 0) ==> r == Err(CountsError)
    ensures |args| >= 1 && parsed.dur <= 0 && parsed.n > 0 && parsed.c > 0 && parsed.n < parsed.c ==> r == Err(FewerError)
    ensures |args| >= 1 && CountsAccepted(parsed) && h != "" ==> r == Err(DeprecatedError)
  {
    if |args| < 1 then Err(NoUrlError)
    else
      var conf := parsed.(url := args[0]);
      if conf.dur > 0 then
        var conf := conf.(n := MaxInt32);
        if conf.c <= 0 then Err(ConcurrencyError) else Deprecated(conf, h)
      else if conf.n <= 0 || conf.c <= 0 then Err(CountsError)
      else if conf.n < conf.c then Err(FewerError)
      else Deprecated(conf, h)
  }

  /** The last check of parseFlags: the deprecated `-h` flag must be empty. */
  function Deprecated(conf: Config, h: string): Result<Config> {
    if h != "" then Err(DeprecatedError) else Ok(conf)
  }

  /** The defaults with a URL and nothing else pass the checks, and the URL is taken. */
  lemma DefaultsAccepted(cpus: int, url: string)
    ensures ParseFlags(Defaults(cpus), [url], "") == Ok(Defaults(cpus).(url := url))
    ensures ParseFlags(Defaults(cpus), [url], "").value.n == 200 && ParseFlags(Defaults(cpus), [url], "").value.c == 50
  {
  }

  /** `-z` without `-n`: the default N of 200 gives way to MaxInt32, even below a large C. */
  lemma TimedRunSample(cpus: int, url: string)
    ensures ParseFlags(Defaults(cpus).(dur := 10_000_000_000, c := 500), [url], "").Ok?
    ensures ParseFlags(Defaults(cpus).(dur := 10_000_000_000, c := 500), [url], "").value.n == MaxInt32
    ensures ParseFlags(Defaults(cpus).(c := 500), [url], "") == Err(FewerError)
  {
  }
}

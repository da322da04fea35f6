/**
 * The Config of internal/parser/config.go. N, C and Dur, which validate and
 * NewWork read and write, are fields of their own; the other settings, which
 * they only read, are held as one value. ContentType, Accept and HostHeader
 * are read by newHttpHeader although config.go does not declare them; they
 * are part of the settings here.
 */
module ParserConfig {
  datatype Settings = Settings(
    url: string, m: string, headerSlice: seq<string>,
    body: string, bodyFile: string, authHeader: string, userAgent: string,
    contentType: string, accept: string, hostHeader: string,
    debug: bool, output: string, q: real, t: int, h2: bool, cpus: int,
    disableCompression: bool, disableKeepAlives: bool, disableRedirects: bool,
    proxyAddr: string)

  class Config {
    var n: int
    var c: int
    /** The duration of the run, in nanoseconds; 0 when none was given. */
    var dur: int
    var settings: Settings

    constructor (n: int, c: int, dur: int, settings: Settings)
      ensures this.n == n && this.c == c && this.dur == dur && this.settings == settings
    {
      this.n, this.c, this.dur, this.settings := n, c, dur, settings;
    }
  }
}

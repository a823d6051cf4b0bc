/**
 * The run configuration (internal/config/config.go): the zero configuration,
 * the parallelism-mode parser and the validation done after the flags are read.
 * Flag parsing itself is not modelled: a `Flags` value stands for what the
 * flag variables hold once the command line has been parsed.
 */
module Config {
  import opened Wrappers

  /** A named string type in the source: any string converts to it. */
  type ParallelismMode = string

  const ModeMaxInFlight: ParallelismMode := "max-in-flight"
  const ModeRpsStrict: ParallelismMode := "as-rps"

  /** Nanoseconds per second; a Go `time.Duration` counts nanoseconds. */
  const Second: int := 1_000_000_000

  /** The body is kept as the characters of the flag value (its UTF-8 bytes are not modelled). */
  datatype Config = Config(
    parallelism: int,
    numRequests: nat,
    url: string,
    verb: string,
    headers: seq<string>,
    body: string,
    parallelismMode: ParallelismMode,
    timeout: int)

  /** The two fatal configuration errors. */
  datatype ConfigError = UrlRequired | InvalidParallelismMode

  predicate IsKnownMode(m: string) {
    m == ModeMaxInFlight || m == ModeRpsStrict
  }

  /** A fresh configuration: empty (not nil) header list and body, every other field zero. */
  function New(): (c: Config)
    ensures c.headers == [] && c.body == []
    ensures c.parallelism == 0 && c.numRequests == 0 && c.timeout == 0
    ensures c.url == "" && c.verb == "" && c.parallelismMode == ""
  {
    Config(0, 0, "", "", [], [], "", 0)
  }

  /** Go's `(ParallelismMode, error)` pair; `err == None` is a nil error. */
  datatype ModeParse = ModeParse(mode: ParallelismMode, err: Option<ConfigError>)

  function ToParallelismMode(pMode: string): (r: ModeParse)
    ensures r.err.None? <==> pMode == "max-in-flight" || pMode == "as-rps"
    ensures r.err.None? ==> r.mode == pMode
    ensures r.err.Some? ==> r.mode == "" && r.err.value == InvalidParallelismMode
  {
    var cast: ParallelismMode := pMode;
    if cast == ModeMaxInFlight || cast == ModeRpsStrict then
      ModeParse(cast, None)
    else
      ModeParse("", Some(InvalidParallelismMode))
  }

  /** Parsing is idempotent: feeding the parsed mode back in gives the same answer, error included. */
  lemma ModeParseIdempotent(s: string)
    ensures ToParallelismMode(ToParallelismMode(s).mode) == ToParallelismMode(s)
  {
  }

  /** The mode flag's default value is one the parser accepts. */
  lemma DefaultModeAccepted()
    ensures ToParallelismMode(DefaultFlags().parallelismMode) == ModeParse(ModeMaxInFlight, None)
  {
  }

  /** What the flag variables hold after `pflag.Parse`. */
  datatype Flags = Flags(
    parallelismMode: string,
    url: string,
    verb: string,
    parallelism: int,
    numRequests: nat,
    headers: seq<string>,
    timeout: int,
    body: string)

  /** The default registered with each flag. */
  function DefaultFlags(): Flags {
    Flags(ModeMaxInFlight, "", "GET", 100, 1000, [], 20 * Second, "")
  }

  /**
   * The steps of `FromFlags` after parsing: copy the flag values into a fresh
   * configuration, insist on a URL, then parse the mode. `body` is whatever the
   * body variable held at the moment it was copied.
   */
  function Assemble(f: Flags, body: string): Result<Config, ConfigError> {
    var cfg := New().(
      parallelism := f.parallelism,
      numRequests := f.numRequests,
      url := f.url,
      verb := f.verb,
      headers := f.headers,
      timeout := f.timeout,
      body := body);
    if cfg.url == "" then
      Err(UrlRequired)
    else
      var pm := ToParallelismMode(f.parallelismMode);
      if pm.err.Some? then Err(pm.err.value) else Ok(cfg.(parallelismMode := pm.mode))
  }

  /**
   * `FromFlags` as written: the body variable is copied into the configuration
   * before the command line is parsed, so the copy is always the flag's default.
   */
  function FromFlagsAsWritten(f: Flags): (r: Result<Config, ConfigError>)
    ensures f.url == "" ==> r == Err(UrlRequired)
    ensures f.url != "" && !IsKnownMode(f.parallelismMode) ==> r == Err(InvalidParallelismMode)
    ensures r.Ok? <==> f.url != "" && IsKnownMode(f.parallelismMode)
    ensures r.Ok? ==> r.value == Config(f.parallelism, f.numRequests, f.url, f.verb,
                                        f.headers, "", f.parallelismMode, f.timeout)
  {
    Assemble(f, DefaultFlags().body)
  }

  /** The as-written assembly never carries the body given on the command line. */
  lemma AsWrittenDropsBody(f: Flags)
    requires f.url != "" && IsKnownMode(f.parallelismMode) && f.body != ""
    ensures FromFlagsAsWritten(f).Ok? && FromFlagsAsWritten(f).value.body == ""
    ensures FromFlagsAsWritten(f).value.body != f.body
  {
  }

  /** `FromFlags` with the body copied after parsing, as evidently intended. */
  function FromFlags(f: Flags): (r: Result<Config, ConfigError>)
    ensures f.url == "" ==> r == Err(UrlRequired)
    ensures f.url != "" && !IsKnownMode(f.parallelismMode) ==> r == Err(InvalidParallelismMode)
    ensures r.Ok? <==> f.url != "" && IsKnownMode(f.parallelismMode)
    ensures r.Ok? ==> r.value == Config(f.parallelism, f.numRequests, f.url, f.verb,
                                        f.headers, f.body, f.parallelismMode, f.timeout)
  {
    Assemble(f, f.body)
  }

  /** With every flag at its default and only a URL given, the configuration is accepted. */
  lemma DefaultsWithUrlAccepted(url: string)
    requires url != ""
    ensures FromFlags(DefaultFlags().(url := url))
         == Ok(Config(100, 1000, url, "GET", [], "", ModeMaxInFlight, 20 * Second))
  {
  }
}

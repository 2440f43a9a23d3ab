/** The configuration schema (`config.go`) and password resolution (`auth.go`). */
module Schema {
  import opened Prelude

  datatype EnableMode = Disabled | Enabled | Auto

  datatype DriverConfig = DriverConfig(maxPoolSize: int, maxLifetime: int, acquisitionTimeout: int)

  datatype Global = Global(defaultModule: string, scrapeTimeout: int, collectConcurrency: int, driver: DriverConfig)

  datatype SlowQuery = SlowQuery(enabled: bool, minSeconds: real, top: int, exposeQueryText: bool, timeout: int)

  datatype Module = Module(
    timeout: int,
    collectors: map<string, EnableMode>,
    slowQuery: SlowQuery,
    perCollectorTimeout: map<string, int>)

  datatype Bolt = Bolt(
    scheme: string,
    username: string,
    password: string,
    passwordFile: string,
    database: string,
    auth: string)

  datatype JolokiaAuth = JolokiaAuth(username: string, password: string, passwordFile: string)

  datatype Jolokia = Jolokia(url: string, auth: Option<JolokiaAuth>)

  datatype Target = Target(name: string, address: string, moduleName: string, bolt: Bolt, jolokia: Option<Jolokia>)

  datatype ConfigData = ConfigData(
    global: Global,
    modules: map<string, Module>,
    targets: seq<Target>,
    defaultTarget: Option<Target>,
    path: string)

  /**
   What one call can see of the machine: environment variables, readable files,
   and the password files whose mode `checkSecretFileMode` accepts.
   */
  datatype World = World(env: map<string, string>, files: map<string, string>, acceptedModes: set<string>)

  datatype PasswordError = NotConfigured | Unreadable(path: string)

  predicate TrailingSpace(c: char) {
    c == '\r' || c == '\n' || c == '\t' || c == ' '
  }

  /** `strings.TrimRight` with the cut set used for secret files. */
  function TrimRight(s: string): string {
    if s != [] && TrailingSpace(s[|s| - 1]) then TrimRight(s[..|s| - 1]) else s
  }

  function ReadSecret(path: string, w: World): Result<string, PasswordError> {
    if path in w.files then Ok(TrimRight(w.files[path])) else Err(Unreadable(path))
  }

  function ResolveBoltPassword(b: Bolt, w: World): Result<string, PasswordError> {
    if b.auth == "none" then Ok("")
    else if b.password != "" then Ok(b.password)
    else if b.passwordFile != "" then ReadSecret(b.passwordFile, w)
    else Err(NotConfigured)
  }

  function ResolveJolokiaPassword(j: Option<JolokiaAuth>, w: World): Result<string, PasswordError> {
    if j.None? then Ok("")
    else if j.value.password != "" then Ok(j.value.password)
    else if j.value.passwordFile != "" then ReadSecret(j.value.passwordFile, w)
    else Err(NotConfigured)
  }

  /** What is cut off is exactly the blanks, tabs and line ends that the text ends in. */
  lemma {:induction false} TrimRightExact(s: string)
    ensures var n := |TrimRight(s)|;
            && n <= |s| && TrimRight(s) == s[..n]
            && (n > 0 ==> s[n - 1] !in {'\r', '\n', '\t', ' '})
            && forall i :: n <= i < |s| ==> s[i] in {'\r', '\n', '\t', ' '}
    decreases |s|
  {
    if s != [] && TrailingSpace(s[|s| - 1]) {
      TrimRightExact(s[..|s| - 1]);
    }
  }

  /** Where a Bolt password comes from: nowhere without authentication, else the setting, else the file. */
  lemma {:induction false} BoltPasswordIs(b: Bolt, w: World)
    ensures b.auth == "none" ==> ResolveBoltPassword(b, w) == Ok("")
    ensures b.auth != "none" && |b.password| > 0 ==> ResolveBoltPassword(b, w) == Ok(b.password)
    ensures b.auth != "none" && |b.password| == 0 && |b.passwordFile| > 0 && b.passwordFile in w.files ==>
              ResolveBoltPassword(b, w) == Ok(TrimRight(w.files[b.passwordFile]))
    ensures b.auth != "none" && |b.password| == 0 && |b.passwordFile| > 0 && b.passwordFile !in w.files ==>
              ResolveBoltPassword(b, w) == Err(Unreadable(b.passwordFile))
    ensures b.auth != "none" && |b.password| == 0 && |b.passwordFile| == 0 ==>
              ResolveBoltPassword(b, w) == Err(NotConfigured)
  {
  }
}

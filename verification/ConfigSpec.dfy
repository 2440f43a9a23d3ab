/** Defaults, validation and target lookup (`config.go`) as functions of the configuration value. */
module ConfigSpec {
  import opened Prelude
  import opened Schema
  import opened Secrets

  const SECOND := 1_000_000_000

  // ----- defaults -----

  function Or(x: int, default: int): int {
    if x == 0 then default else x
  }

  function DefaultedGlobal(g: Global): Global {
    Global(
      if g.defaultModule == "" then "default" else g.defaultModule,
      Or(g.scrapeTimeout, 10 * SECOND),
      Or(g.collectConcurrency, 8),
      DriverConfig(
        Or(g.driver.maxPoolSize, 4),
        Or(g.driver.maxLifetime, 3600 * SECOND),
        Or(g.driver.acquisitionTimeout, 5 * SECOND)))
  }

  function DefaultedModule(m: Module, scrapeTimeout: int): Module {
    m.(timeout := Or(m.timeout, scrapeTimeout),
       slowQuery := m.slowQuery.(
         top := Or(m.slowQuery.top, 10),
         minSeconds := if m.slowQuery.minSeconds == 0.0 then 5.0 else m.slowQuery.minSeconds,
         timeout := Or(m.slowQuery.timeout, 5 * SECOND)))
  }

  function WithPort(address: string): string {
    if ':' in address then address else address + ":7687"
  }

  function DefaultedTarget(t: Target): Target {
    t.(address := WithPort(t.address),
       bolt := t.bolt.(
         scheme := if t.bolt.scheme == "" then "neo4j" else t.bolt.scheme,
         database := if t.bolt.database == "" then "neo4j" else t.bolt.database))
  }

  function Defaulted(d: ConfigData): ConfigData {
    var g := DefaultedGlobal(d.global);
    d.(global := g,
       modules := map name | name in d.modules :: DefaultedModule(d.modules[name], g.scrapeTimeout),
       targets := seq(|d.targets|, i requires 0 <= i < |d.targets| => DefaultedTarget(d.targets[i])),
       defaultTarget := if d.defaultTarget.Some? then Some(DefaultedTarget(d.defaultTarget.value)) else None)
  }

  // ----- validation -----

  datatype BoltError = BadScheme | NoAuthOffLocalhost | NoUsername | NoPassword | TwoPasswords | BadFileMode

  datatype JolokiaError = NoUrl | NoJolokiaUsername | NoJolokiaPassword | BadJolokiaFileMode

  datatype ConfigError =
    | FileUnreadable(path: string)
    | SecretUnreadable(path: string)
    | Unparsable
    | NoModules
    | DefaultModuleUndefined
    | UnknownCollector(moduleName: string, collector: string)
    | NameMissing(index: nat)
    | NameTwice(name: string)
    | AddressMissing(name: string)
    | ModuleUndefined(name: string, moduleName: string)
    | BadBolt(name: string, bolt: BoltError)
    | BadJolokia(name: string, jolokia: JolokiaError)
    | BadDefaultTarget(bolt: BoltError)
    | NoPath

  const COLLECTORS: set<string> :=
    {"server", "bolt", "databases", "transactions", "indexes", "constraints", "apoc_kernel", "apoc_store", "apoc_tx",
     "apoc_ids", "apoc_meta", "jolokia", "settings"}

  const SCHEMES: set<string> := {"neo4j", "bolt", "neo4j+s", "bolt+s", "neo4j+ssc", "bolt+ssc"}

  const DEFAULT_LABEL := "default_target"

  /** The part of an address before its last colon. */
  function Host(address: string): string {
    if ':' !in address then address
    else if address[|address| - 1] == ':' then address[..|address| - 1]
    else Host(address[..|address| - 1])
  }

  predicate IsLocalhost(address: string) {
    address == DEFAULT_LABEL || Host(address) in {"localhost", "127.0.0.1", "::1", ""}
  }

  function CheckBolt(address: string, b: Bolt, w: World): Option<BoltError> {
    if b.scheme !in SCHEMES then Some(BadScheme)
    else if b.auth == "none" then if IsLocalhost(address) then None else Some(NoAuthOffLocalhost)
    else if b.username == "" then Some(NoUsername)
    else if b.password == "" && b.passwordFile == "" then Some(NoPassword)
    else if b.password != "" && b.passwordFile != "" then Some(TwoPasswords)
    else if b.passwordFile != "" && b.passwordFile !in w.acceptedModes then Some(BadFileMode)
    else None
  }

  function CheckJolokia(j: Jolokia, w: World): Option<JolokiaError> {
    if j.url == "" then Some(NoUrl)
    else if j.auth.None? then None
    else if j.auth.value.username == "" then Some(NoJolokiaUsername)
    else if j.auth.value.password == "" && j.auth.value.passwordFile == "" then Some(NoJolokiaPassword)
    else if j.auth.value.passwordFile != "" && j.auth.value.passwordFile !in w.acceptedModes then
      Some(BadJolokiaFileMode)
    else None
  }

  function ModuleOf(t: Target, g: Global): string {
    if t.moduleName == "" then g.defaultModule else t.moduleName
  }

  predicate NamedBefore(targets: seq<Target>, i: nat)
    requires i < |targets|
  {
    exists j :: 0 <= j < i && targets[j].name == targets[i].name
  }

  /** What is wrong with target `i`, if anything. */
  function CheckTarget(d: ConfigData, i: nat, w: World): Option<ConfigError>
    requires i < |d.targets|
  {
    var t := d.targets[i];
    if t.name == "" then Some(NameMissing(i))
    else if NamedBefore(d.targets, i) then Some(NameTwice(t.name))
    else if t.address == "" then Some(AddressMissing(t.name))
    else if ModuleOf(t, d.global) !in d.modules then Some(ModuleUndefined(t.name, ModuleOf(t, d.global)))
    else if CheckBolt(t.address, t.bolt, w).Some? then Some(BadBolt(t.name, CheckBolt(t.address, t.bolt, w).value))
    else if t.jolokia.Some? && CheckJolokia(t.jolokia.value, w).Some? then
      Some(BadJolokia(t.name, CheckJolokia(t.jolokia.value, w).value))
    else None
  }

  /** The first complaint about the targets from number `i` on, then about the default target. */
  function CheckTargets(d: ConfigData, i: nat, w: World): Option<ConfigError>
    requires i <= |d.targets|
    decreases |d.targets| - i
  {
    if i < |d.targets| then
      if CheckTarget(d, i, w).Some? then CheckTarget(d, i, w) else CheckTargets(d, i + 1, w)
    else if d.defaultTarget.Some? && CheckBolt(DEFAULT_LABEL, d.defaultTarget.value.bolt, w).Some? then
      Some(BadDefaultTarget(CheckBolt(DEFAULT_LABEL, d.defaultTarget.value.bolt, w).value))
    else None
  }

  /** A module mentions a collector that does not exist. */
  predicate Mentions(modules: map<string, Module>, name: string, collector: string) {
    name in modules && (collector in modules[name].collectors || collector in modules[name].perCollectorTimeout)
  }

  ghost predicate CollectorsKnown(modules: map<string, Module>) {
    forall name, collector :: Mentions(modules, name, collector) ==> collector in COLLECTORS
  }

  /** `validate` returns nil. */
  ghost predicate Accepted(d: ConfigData, w: World) {
    && d.modules != map[]
    && d.global.defaultModule in d.modules
    && CollectorsKnown(d.modules)
    && CheckTargets(d, 0, w).None?
  }

  /** `validate` writes the default module into targets that name none. */
  function WithModules(d: ConfigData): ConfigData {
    d.(targets := seq(|d.targets|, i requires 0 <= i < |d.targets| =>
         d.targets[i].(moduleName := ModuleOf(d.targets[i], d.global))))
  }

  // ----- loading -----

  type Parser = string -> Option<ConfigData>

  /** `LoadFile`: read, expand, parse, default, validate. */
  ghost function Load(path: string, w: World, parse: Parser): Option<ConfigData> {
    if path !in w.files || Expanded(w.files[path], w).Err? then None
    else
      var parsed := parse(Expanded(w.files[path], w).value);
      if parsed.None? then None
      else
        var d := Defaulted(parsed.value.(path := path));
        if Accepted(d, w) then Some(WithModules(d)) else None
  }

  type Loader = (string, World) -> Option<ConfigData>

  ghost function LoaderOf(parse: Parser): Loader {
    (path, w) => Load(path, w, parse)
  }

  /** `Reload`: a successful load replaces the current value, anything else leaves it alone. */
  ghost function Reloaded(current: ConfigData, w: World, load: Loader): ConfigData {
    if current.path != "" && load(current.path, w).Some? then load(current.path, w).value else current
  }

  /** One reload after another, `worlds[i]` being what the i-th of them finds. */
  ghost function ReloadedAll(current: ConfigData, worlds: seq<World>, load: Loader): ConfigData
    decreases |worlds|
  {
    if |worlds| == 0 then current
    else Reloaded(ReloadedAll(current, worlds[..|worlds| - 1], load), worlds[|worlds| - 1], load)
  }

  // ----- lookup -----

  function ByName(targets: seq<Target>, name: string): Option<Target> {
    if targets == [] then None else if targets[0].name == name then Some(targets[0]) else ByName(targets[1..], name)
  }

  function ByAddress(targets: seq<Target>, address: string): Option<Target> {
    if targets == [] then None
    else if targets[0].address == address then Some(targets[0]) else ByAddress(targets[1..], address)
  }

  /** The default target made to fit an address. */
  function Fallback(d: ConfigData, address: string): Option<Target> {
    if d.defaultTarget.None? then None
    else
      var t := d.defaultTarget.value;
      Some(DefaultedTarget(t.(address := address, moduleName := ModuleOf(t, d.global))))
  }

  function FindTarget(d: ConfigData, query: string): Option<Target> {
    if ByName(d.targets, query).Some? then ByName(d.targets, query)
    else if ByAddress(d.targets, WithPort(query)).Some? then ByAddress(d.targets, WithPort(query))
    else Fallback(d, WithPort(query))
  }
}

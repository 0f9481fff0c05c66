/**
 * How `NTLMProxy` settles its options (src/index.js constructor) and how
 * `validateConfig` rejects them.
 *
 * The explicit option object and the process environment are both bags of
 * named strings. The environment is the one seen after the configuration file
 * has been loaded into it. A JavaScript string is truthy exactly when it is
 * present and non-empty, so `a || b` picks `a` when `a` is a non-empty string.
 */
module Config {
  import opened Wrappers
  import opened Text

  type Bag = map<string, string>

  function Lookup(bag: Bag, name: string): Option<string> {
    if name in bag then Some(bag[name]) else None
  }

  /** JavaScript truthiness of an optional string. */
  predicate Truthy(v: Option<string>) {
    v.Some? && v.value != ""
  }

  /** `a || b` */
  function Or(a: Option<string>, b: Option<string>): (r: Option<string>)
    ensures Truthy(r) <==> Truthy(a) || Truthy(b)
    ensures Truthy(a) ==> r == a
    ensures !Truthy(a) ==> r == b
  {
    if Truthy(a) then a else b
  }

  /** `a || fallback`, where the fallback is a literal string. */
  function OrElse(a: Option<string>, fallback: string): string {
    if Truthy(a) then a.value else fallback
  }

  /** `this.options` after construction. */
  datatype ProxyOptions = ProxyOptions(
    port: Option<nat>,          // None stands for NaN
    host: string,
    target: Option<string>,     // "host:port" of the upstream proxy
    username: Option<string>,
    password: Option<string>,
    domain: string,
    workstation: string,
    tls: bool,
    cert: Option<string>,
    key: Option<string>,
    verbose: bool)

  /** The default port `8080` is a number, so it bypasses `parseInt`'s text. */
  const DefaultPort: nat := 8080
  const DefaultHost := "localhost"
  const DefaultDomain := ""
  const DefaultWorkstation := "localhost"

  /** `options[name] || process.env[variable]` */
  function Setting(options: Bag, name: string, env: Bag, variable: string): Option<string> {
    Or(Lookup(options, name), Lookup(env, variable))
  }

  /** A flag: the option when truthy, else whether the variable is exactly "true". */
  predicate Flag(options: Bag, name: string, env: Bag, variable: string) {
    Truthy(Lookup(options, name)) || Lookup(env, variable) == Some("true")
  }

  /**
   * The constructor's `this.options`. The host and workstation always have a
   * value, and the port is NaN only when some port text was given.
   */
  function ResolveOptions(options: Bag, env: Bag): (r: ProxyOptions)
    ensures r.host != "" && r.workstation != ""
    ensures r.port.None? ==> Truthy(Lookup(options, "port")) || Truthy(Lookup(env, "PROXY_PORT"))
  {
    var port := Setting(options, "port", env, "PROXY_PORT");
    ProxyOptions(
      port := if Truthy(port) then ParseInt(port.value) else Some(DefaultPort),
      host := OrElse(Setting(options, "host", env, "PROXY_HOST"), DefaultHost),
      target := Setting(options, "target", env, "TARGET_PROXY"),
      username := Setting(options, "username", env, "NTLM_USERNAME"),
      password := Setting(options, "password", env, "NTLM_PASSWORD"),
      domain := OrElse(Setting(options, "domain", env, "NTLM_DOMAIN"), DefaultDomain),
      workstation := OrElse(Setting(options, "workstation", env, "NTLM_WORKSTATION"), DefaultWorkstation),
      tls := Flag(options, "tls", env, "TLS_ENABLED"),
      cert := Setting(options, "cert", env, "TLS_CERT_PATH"),
      key := Setting(options, "key", env, "TLS_KEY_PATH"),
      verbose := Flag(options, "verbose", env, "VERBOSE"))
  }

  datatype ConfigError = MissingTarget | MissingCredentials | MissingTlsFiles

  /** The text of the error `validateConfig` throws for each failing check. */
  function Message(e: ConfigError): string {
    match e
    case MissingTarget =>
      "Target proxy server is required. Use --target option or set TARGET_PROXY in .env"
    case MissingCredentials =>
      "NTLM credentials are required. Use --username/--password options or set NTLM_USERNAME/NTLM_PASSWORD in .env"
    case MissingTlsFiles =>
      "TLS certificate and key files are required when TLS is enabled"
  }

  // The three texts differ in length. Each length, and each pair, is proved on
  // its own, which keeps the long literals out of one another's proof.
  lemma TargetMessageLength()
    ensures |Message(MissingTarget)| == 80
  {
  }

  lemma CredentialsMessageLength()
    ensures |Message(MissingCredentials)| == 107
  {
  }

  lemma TlsMessageLength()
    ensures |Message(MissingTlsFiles)| == 62
  {
  }

  lemma TargetAndCredentialsMessagesDiffer()
    ensures Message(MissingTarget) != Message(MissingCredentials)
  {
    TargetMessageLength();
    CredentialsMessageLength();
  }

  lemma TargetAndTlsMessagesDiffer()
    ensures Message(MissingTarget) != Message(MissingTlsFiles)
  {
    TargetMessageLength();
    TlsMessageLength();
  }

  lemma CredentialsAndTlsMessagesDiffer()
    ensures Message(MissingCredentials) != Message(MissingTlsFiles)
  {
    CredentialsMessageLength();
    TlsMessageLength();
  }

  /** Each failing check throws its own text, so the message tells which check failed. */
  lemma MessageIdentifiesCheck(e1: ConfigError, e2: ConfigError)
    ensures Message(e1) == Message(e2) <==> e1 == e2
  {
    match (e1, e2)
    case (MissingTarget, MissingCredentials) => TargetAndCredentialsMessagesDiffer();
    case (MissingCredentials, MissingTarget) => TargetAndCredentialsMessagesDiffer();
    case (MissingTarget, MissingTlsFiles) => TargetAndTlsMessagesDiffer();
    case (MissingTlsFiles, MissingTarget) => TargetAndTlsMessagesDiffer();
    case (MissingCredentials, MissingTlsFiles) => CredentialsAndTlsMessagesDiffer();
    case (MissingTlsFiles, MissingCredentials) => CredentialsAndTlsMessagesDiffer();
    case _ =>
  }

  /** What a proxy that passed validation may rely on. */
  ghost predicate Acceptable(o: ProxyOptions) {
    && Truthy(o.target)
    && Truthy(o.username) && Truthy(o.password)
    && (o.tls ==> Truthy(o.cert) && Truthy(o.key))
  }

  /**
   * `validateConfig`: the checks run in order target, credentials, TLS, and the
   * first one that fails is reported.
   */
  function ValidateConfig(o: ProxyOptions): (r: Outcome<ConfigError>)
    ensures r.Pass? <==> Acceptable(o)
    ensures r == Fail(MissingTarget) <==> !Truthy(o.target)
    ensures r == Fail(MissingCredentials) <==>
      Truthy(o.target) && !(Truthy(o.username) && Truthy(o.password))
    ensures r == Fail(MissingTlsFiles) <==>
      Truthy(o.target) && Truthy(o.username) && Truthy(o.password) && o.tls &&
      !(Truthy(o.cert) && Truthy(o.key))
  {
    if !Truthy(o.target) then Fail(MissingTarget)
    else if !Truthy(o.username) || !Truthy(o.password) then Fail(MissingCredentials)
    else if o.tls && (!Truthy(o.cert) || !Truthy(o.key)) then Fail(MissingTlsFiles)
    else Pass
  }

  predicate Validated(o: ProxyOptions) {
    ValidateConfig(o).Pass?
  }

  /** Options of a proxy whose construction did not throw. */
  type ValidOptions = o: ProxyOptions | Validated(o)
    witness ProxyOptions(Some(DefaultPort), DefaultHost, Some("proxy:3128"), Some("user"), Some("secret"),
                         DefaultDomain, DefaultWorkstation, false, None, None, false)

  /** With neither options nor environment, every option takes its default. */
  lemma Defaults()
    ensures ResolveOptions(map[], map[]) ==
      ProxyOptions(Some(8080), "localhost", None, None, None, "", "localhost", false, None, None, false)
  {
  }

  /** A non-empty explicit option wins over the environment, whatever the environment holds. */
  lemma ExplicitOptionsWin(options: Bag, env: Bag)
    ensures var o := ResolveOptions(options, env);
      && (Truthy(Lookup(options, "host")) ==> o.host == options["host"])
      && (Truthy(Lookup(options, "target")) ==> o.target == Some(options["target"]))
      && (Truthy(Lookup(options, "username")) ==> o.username == Some(options["username"]))
      && (Truthy(Lookup(options, "password")) ==> o.password == Some(options["password"]))
      && (Truthy(Lookup(options, "domain")) ==> o.domain == options["domain"])
      && (Truthy(Lookup(options, "workstation")) ==> o.workstation == options["workstation"])
      && (Truthy(Lookup(options, "cert")) ==> o.cert == Some(options["cert"]))
      && (Truthy(Lookup(options, "key")) ==> o.key == Some(options["key"]))
      && (Truthy(Lookup(options, "port")) ==> o.port == ParseInt(options["port"]))
      && (Truthy(Lookup(options, "tls")) ==> o.tls)
      && (Truthy(Lookup(options, "verbose")) ==> o.verbose)
  {
  }

  /**
   * An absent or empty option falls back to its environment variable, then to
   * the default, whatever the other options hold.
   */
  lemma EnvironmentThenDefault(options: Bag, env: Bag)
    ensures var o := ResolveOptions(options, env);
      && (!Truthy(Lookup(options, "host")) ==>
            o.host == (if Truthy(Lookup(env, "PROXY_HOST")) then env["PROXY_HOST"] else "localhost"))
      && (!Truthy(Lookup(options, "target")) ==> o.target == Lookup(env, "TARGET_PROXY"))
      && (!Truthy(Lookup(options, "username")) ==> o.username == Lookup(env, "NTLM_USERNAME"))
      && (!Truthy(Lookup(options, "password")) ==> o.password == Lookup(env, "NTLM_PASSWORD"))
      && (!Truthy(Lookup(options, "domain")) ==>
            o.domain == (if Truthy(Lookup(env, "NTLM_DOMAIN")) then env["NTLM_DOMAIN"] else ""))
      && (!Truthy(Lookup(options, "workstation")) ==>
            o.workstation == (if Truthy(Lookup(env, "NTLM_WORKSTATION")) then env["NTLM_WORKSTATION"] else "localhost"))
      && (!Truthy(Lookup(options, "cert")) ==> o.cert == Lookup(env, "TLS_CERT_PATH"))
      && (!Truthy(Lookup(options, "key")) ==> o.key == Lookup(env, "TLS_KEY_PATH"))
      && (!Truthy(Lookup(options, "port")) ==>
            o.port == (if Truthy(Lookup(env, "PROXY_PORT")) then ParseInt(env["PROXY_PORT"]) else Some(8080)))
      && (!Truthy(Lookup(options, "tls")) ==> (o.tls <==> Lookup(env, "TLS_ENABLED") == Some("true")))
      && (!Truthy(Lookup(options, "verbose")) ==> (o.verbose <==> Lookup(env, "VERBOSE") == Some("true")))
  {
  }

  /**
   * The command line of the repository's executable sets only the port, the
   * host and the configuration file: the upstream and the credentials come
   * from the environment.
   */
  lemma CommandLineWithEnvironment(port: string, host: string, config: string, env: Bag)
    requires port != "" && host != "" && config != ""
    ensures var o := ResolveOptions(map["port" := port, "host" := host, "config" := config], env);
      && o.port == ParseInt(port) && o.host == host
      && o.target == Lookup(env, "TARGET_PROXY")
      && o.username == Lookup(env, "NTLM_USERNAME") && o.password == Lookup(env, "NTLM_PASSWORD")
  {
  }

  /**
   * Any non-empty `tls` option string turns TLS on, even "false"; the
   * environment variable turns it on only when it is exactly "true".
   */
  lemma TlsTruthiness(env: Bag)
    ensures ResolveOptions(map["tls" := "false"], env).tls
    ensures ResolveOptions(map[], map["TLS_ENABLED" := "TRUE"]).tls == false
    ensures ResolveOptions(map[], map["TLS_ENABLED" := "true"]).tls
  {
  }

  /** Missing target and missing credentials together are reported as the missing target. */
  lemma TargetCheckedFirst(env: Bag)
    requires "TARGET_PROXY" !in env && "NTLM_USERNAME" !in env
    ensures ValidateConfig(ResolveOptions(map[], env)) == Fail(MissingTarget)
  {
  }

  /** The configuration of the repository's usage example passes validation. */
  lemma UsageExampleValid(env: Bag)
    ensures var o := ResolveOptions(map[
        "port" := "8080", "host" := "localhost", "target" := "corporate-proxy.company.com:8080",
        "username" := "your-username", "password" := "your-password", "domain" := "COMPANY",
        "workstation" := "localhost", "verbose" := "true"], env);
      Validated(o) <==> !o.tls || (Truthy(o.cert) && Truthy(o.key))
  {
  }
}

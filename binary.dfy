/**
  How the editor extension finds the server executable
  (`editors/code/src/binary.ts`): an untrusted workspace may only use the
  executable bundled with the extension; otherwise the configured strategy
  orders the bundled executable, the one found on the `PATH` and the one
  at a configured path. The file system and the `PATH` search are
  parameters: `fileExists` stands for `fs.existsSync`, `environment` for what
  `which` found (or `None`). A string is truthy when it is not empty, as in
  the extension's language.
*/
module Binary {
  import opened Wrappers

  /** `ExecutableStrategy`; any other configured value is kept as it is. */
  datatype Strategy = Bundled | Environment | Path | Unrecognised(value: string)

  /** The fixed facts the resolution depends on. */
  datatype Setup = Setup(
    trusted: bool,
    bundledExecutable: string,
    environment: Option<string>,
    fileExists: string -> bool)

  const UNTRUSTED_ERROR: string := "Workspace is not trusted and failed to find executable in bundled location"
  const BUNDLED_ERROR: string := "Failed to find bundled executable and fallback environment executable"
  const ENVIRONMENT_ERROR: string := "Failed to find environment executable and fallback bundled executable"
  const PATH_ERROR: string := "Failed to find executable at `flir.executablePath`"
  const UNREACHABLE_ERROR: string := "Unreachable"

  predicate Truthy(p: Option<string>)
  {
    p.Some? && p.value != []
  }

  /** `flirBinaryFromBundled`: the bundled executable exactly when it exists. */
  function FromBundled(env: Setup): (r: Option<string>)
    ensures r.Some? <==> env.fileExists(env.bundledExecutable)
    ensures r.Some? ==> r.value == env.bundledExecutable
  {
    if !env.fileExists(env.bundledExecutable) then None else Some(env.bundledExecutable)
  }

  /** `flirBinaryFromEnvironment`: what the `PATH` search found, when it is truthy. */
  function FromEnvironment(env: Setup): (r: Option<string>)
    ensures r.Some? <==> Truthy(env.environment)
    ensures r.Some? ==> Some(r.value) == env.environment
  {
    if !Truthy(env.environment) then None else env.environment
  }

  /** `flirBinaryFromPath`: the configured path, when one is given and it exists. */
  function FromPath(env: Setup, executablePath: Option<string>): (r: Option<string>)
    ensures r.Some? <==> Truthy(executablePath) && env.fileExists(executablePath.value)
    ensures r.Some? ==> Some(r.value) == executablePath
  {
    if !Truthy(executablePath) then None
    else if !env.fileExists(executablePath.value) then None
    else executablePath
  }

  /** `resolveFlirBinaryPath`: a path, or the message of the error thrown. */
  function Resolve(env: Setup, strategy: Strategy, executablePath: Option<string>): (r: Result<string, string>)
    ensures !env.trusted ==>
              r == if Truthy(FromBundled(env)) then Ok(env.bundledExecutable) else Err(UNTRUSTED_ERROR)
    ensures env.trusted && strategy.Path? ==>
              r == if Truthy(FromPath(env, executablePath)) then Ok(executablePath.value) else Err(PATH_ERROR)
    ensures env.trusted && strategy.Unrecognised? ==> r == Err(UNREACHABLE_ERROR)
  {
    if !env.trusted then
      var bundledPath := FromBundled(env);
      if Truthy(bundledPath) then Ok(bundledPath.value) else Err(UNTRUSTED_ERROR)
    else if strategy == Bundled then
      var bundledPath := FromBundled(env);
      if Truthy(bundledPath) then Ok(bundledPath.value)
      else
        var environmentPath := FromEnvironment(env);
        if Truthy(environmentPath) then Ok(environmentPath.value) else Err(BUNDLED_ERROR)
    else if strategy == Environment then
      var environmentPath := FromEnvironment(env);
      if Truthy(environmentPath) then Ok(environmentPath.value)
      else
        var bundledPath := FromBundled(env);
        if Truthy(bundledPath) then Ok(bundledPath.value) else Err(ENVIRONMENT_ERROR)
    else if strategy == Path then
      var path := FromPath(env, executablePath);
      if Truthy(path) then Ok(path.value) else Err(PATH_ERROR)
    else Err(UNREACHABLE_ERROR)
  }

  /** The bundled executable can be used: it exists and its name is not empty. */
  predicate BundledUsable(env: Setup)
  {
    env.fileExists(env.bundledExecutable) && env.bundledExecutable != []
  }

  // ----- Properties -----------------------------------------------------------------

  /** In an untrusted workspace the strategy and the configured path are ignored. */
  lemma UntrustedIgnoresStrategy(env: Setup, s: Strategy, t: Strategy, p: Option<string>, q: Option<string>)
    requires !env.trusted
    ensures Resolve(env, s, p) == Resolve(env, t, q)
    ensures Resolve(env, s, p).Ok? <==> BundledUsable(env)
  {
  }

  /** The `bundled` strategy: bundled first, then the `PATH`, then an error. */
  lemma BundledFirst(env: Setup, p: Option<string>)
    requires env.trusted
    ensures BundledUsable(env) ==> Resolve(env, Bundled, p) == Ok(env.bundledExecutable)
    ensures !BundledUsable(env) && Truthy(env.environment) ==> Resolve(env, Bundled, p) == Ok(env.environment.value)
    ensures !BundledUsable(env) && !Truthy(env.environment) ==> Resolve(env, Bundled, p) == Err(BUNDLED_ERROR)
  {
  }

  /** The `environment` strategy: the `PATH` first, then bundled, then an error. */
  lemma EnvironmentFirst(env: Setup, p: Option<string>)
    requires env.trusted
    ensures Truthy(env.environment) ==> Resolve(env, Environment, p) == Ok(env.environment.value)
    ensures !Truthy(env.environment) && BundledUsable(env) ==> Resolve(env, Environment, p) == Ok(env.bundledExecutable)
    ensures !Truthy(env.environment) && !BundledUsable(env) ==> Resolve(env, Environment, p) == Err(ENVIRONMENT_ERROR)
  {
  }

  /** The `path` strategy never falls back: without a usable configured path it fails. */
  lemma PathNeverFallsBack(env: Setup, p: Option<string>)
    requires env.trusted
    ensures Resolve(env, Path, p).Ok? <==> Truthy(p) && env.fileExists(p.value)
    ensures Resolve(env, Path, p).Ok? ==> Resolve(env, Path, p).value == p.value
  {
  }

  /** The two fallback strategies differ only when both executables are available. */
  lemma FallbacksAgreeUnlessBoth(env: Setup, p: Option<string>)
    requires env.trusted
    requires !(BundledUsable(env) && Truthy(env.environment))
    ensures Resolve(env, Bundled, p).Ok? <==> Resolve(env, Environment, p).Ok?
    ensures Resolve(env, Bundled, p).Ok? ==> Resolve(env, Bundled, p) == Resolve(env, Environment, p)
  {
  }

  /**
    Whatever the strategy, a resolved path is a candidate that was found: the
    bundled executable when it exists, what the `PATH` search found, or the
    configured path when it exists.
  */
  lemma ResolvedIsFound(env: Setup, s: Strategy, p: Option<string>)
    requires Resolve(env, s, p).Ok?
    ensures var path := Resolve(env, s, p).value;
            path != [] &&
            ((path == env.bundledExecutable && env.fileExists(path))
             || Some(path) == env.environment
             || (Some(path) == p && env.fileExists(path)))
  {
  }
}

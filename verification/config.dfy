/** `config.Load`: command-line flags, then environment variables, then a
    JSON file named by `-c`, merged into one `Config`. The process
    environment and the file system are inputs. */
module Config {
  import opened Results

  datatype Config = Config(
    serverAddr: string,
    baseURL: string,
    fileStoragePath: string,
    databaseDSN: string,
    enableHTTPS: bool,
    storageType: string,
    configPath: string,
    trustedSubnet: string)

  const DefaultServerAddr := "localhost:8080"
  const DefaultBaseURL := "http://localhost:8080"
  const DefaultStorageType := "file"
  const DefaultFileStoragePath := "/tmp/short-url-db.json"

  /** The flags present on the command line (`-a -b -storage -f -d -s -c -t`);
      None for a flag that was not given. */
  datatype Flags = Flags(
    a: Option<string>,
    b: Option<string>,
    storage: Option<string>,
    f: Option<string>,
    d: Option<string>,
    s: Option<bool>,
    c: Option<string>,
    t: Option<string>)

  const NoFlags := Flags(None, None, None, None, None, None, None, None)

  /** The configuration after `flag.Parse`: each flag's value or its default. */
  function ParseFlags(fl: Flags): (cfg: Config)
    ensures cfg.serverAddr == (if fl.a.Some? then fl.a.value else DefaultServerAddr)
    ensures cfg.baseURL == (if fl.b.Some? then fl.b.value else DefaultBaseURL)
    ensures cfg.storageType == (if fl.storage.Some? then fl.storage.value else DefaultStorageType)
    ensures cfg.fileStoragePath == (if fl.f.Some? then fl.f.value else DefaultFileStoragePath)
    ensures cfg.databaseDSN == (if fl.d.Some? then fl.d.value else "")
    ensures cfg.enableHTTPS <==> fl.s == Some(true)
    ensures cfg.configPath == (if fl.c.Some? then fl.c.value else "")
    ensures cfg.trustedSubnet == (if fl.t.Some? then fl.t.value else "")
  {
    Config(fl.a.GetOr(DefaultServerAddr), fl.b.GetOr(DefaultBaseURL), fl.f.GetOr(DefaultFileStoragePath),
           fl.d.GetOr(""), fl.s.GetOr(false), fl.storage.GetOr(DefaultStorageType), fl.c.GetOr(""), fl.t.GetOr(""))
  }

  /** `os.Getenv`: an unset variable reads as the empty string. */
  function Getenv(env: map<string, string>, name: string): string {
    if name in env then env[name] else ""
  }

  /** A non-empty environment value replaces the current one; an empty one does not. */
  function Override(current: string, envValue: string): string {
    if envValue != "" then envValue else current
  }

  /** The environment step: five variables, each overriding its flag when non-empty. */
  function ApplyEnv(cfg: Config, env: map<string, string>): (r: Config)
    ensures Getenv(env, "SERVER_ADDRESS") != "" ==> r.serverAddr == env["SERVER_ADDRESS"]
    ensures Getenv(env, "SERVER_ADDRESS") == "" ==> r.serverAddr == cfg.serverAddr
    ensures Getenv(env, "BASE_URL") != "" ==> r.baseURL == env["BASE_URL"]
    ensures Getenv(env, "BASE_URL") == "" ==> r.baseURL == cfg.baseURL
    ensures Getenv(env, "STORAGE_TYPE") != "" ==> r.storageType == env["STORAGE_TYPE"]
    ensures Getenv(env, "STORAGE_TYPE") == "" ==> r.storageType == cfg.storageType
    ensures Getenv(env, "FILE_STORAGE_PATH") != "" ==> r.fileStoragePath == env["FILE_STORAGE_PATH"]
    ensures Getenv(env, "FILE_STORAGE_PATH") == "" ==> r.fileStoragePath == cfg.fileStoragePath
    ensures Getenv(env, "DATABASE_DSN") != "" ==> r.databaseDSN == env["DATABASE_DSN"]
    ensures Getenv(env, "DATABASE_DSN") == "" ==> r.databaseDSN == cfg.databaseDSN
    ensures r.enableHTTPS == cfg.enableHTTPS && r.configPath == cfg.configPath && r.trustedSubnet == cfg.trustedSubnet
  {
    cfg.(serverAddr := Override(cfg.serverAddr, Getenv(env, "SERVER_ADDRESS")),
         baseURL := Override(cfg.baseURL, Getenv(env, "BASE_URL")),
         storageType := Override(cfg.storageType, Getenv(env, "STORAGE_TYPE")),
         fileStoragePath := Override(cfg.fileStoragePath, Getenv(env, "FILE_STORAGE_PATH")),
         databaseDSN := Override(cfg.databaseDSN, Getenv(env, "DATABASE_DSN")))
  }

  /** Flags, then environment, then the database switch: the configuration
      `Load` returns when the JSON file cannot be used. */
  function BeforeJson(fl: Flags, env: map<string, string>): (cfg: Config)
    ensures cfg.databaseDSN != "" ==> cfg.storageType == "db"
    ensures cfg.databaseDSN == "" ==> cfg.storageType == ApplyEnv(ParseFlags(fl), env).storageType
    ensures cfg.configPath == fl.c.GetOr("")
  {
    var e := ApplyEnv(ParseFlags(fl), env);
    if e.databaseDSN != "" then e.(storageType := "db") else e
  }

  /** The JSON step: a field is taken from the file only when it is still
      empty; HTTPS is switched on when the file says so. The storage type is
      never read from the file. */
  function MergeJson(cfg: Config, j: Config): (r: Config)
    ensures r.storageType == cfg.storageType && r.configPath == cfg.configPath
    ensures r.enableHTTPS == (cfg.enableHTTPS || j.enableHTTPS)
  {
    Config(if cfg.serverAddr == "" then j.serverAddr else cfg.serverAddr,
           if cfg.baseURL == "" then j.baseURL else cfg.baseURL,
           if cfg.fileStoragePath == "" then j.fileStoragePath else cfg.fileStoragePath,
           if cfg.databaseDSN == "" then j.databaseDSN else cfg.databaseDSN,
           if !cfg.enableHTTPS || j.enableHTTPS then j.enableHTTPS else cfg.enableHTTPS,
           cfg.storageType,
           cfg.configPath,
           if cfg.trustedSubnet == "" then j.trustedSubnet else cfg.trustedSubnet)
  }

  /** `Load`. `readJson` is `os.ReadFile` followed by `json.Unmarshal`:
      None when the file cannot be read or parsed. */
  function Load(fl: Flags, env: map<string, string>, readJson: string -> Option<Config>): (r: Config)
    ensures readJson(fl.c.GetOr("")).None? ==> r == BeforeJson(fl, env)
    ensures r.storageType == BeforeJson(fl, env).storageType
    ensures r.configPath == fl.c.GetOr("")
    ensures BeforeJson(fl, env).serverAddr != "" ==> r.serverAddr == BeforeJson(fl, env).serverAddr
    ensures BeforeJson(fl, env).baseURL != "" ==> r.baseURL == BeforeJson(fl, env).baseURL
    ensures BeforeJson(fl, env).fileStoragePath != "" ==> r.fileStoragePath == BeforeJson(fl, env).fileStoragePath
    ensures BeforeJson(fl, env).databaseDSN != "" ==> r.databaseDSN == BeforeJson(fl, env).databaseDSN
    ensures BeforeJson(fl, env).trustedSubnet != "" ==> r.trustedSubnet == BeforeJson(fl, env).trustedSubnet
  {
    var cfg := BeforeJson(fl, env);
    match readJson(cfg.configPath)
    case None => cfg
    case Some(j) => MergeJson(cfg, j)
  }

  // ----- precedence rules -----

  /** With no flag, no environment and no usable JSON file, the defaults apply. */
  lemma LoadDefaults(readJson: string -> Option<Config>)
    requires readJson("").None?
    ensures Load(NoFlags, map[], readJson) ==
            Config(DefaultServerAddr, DefaultBaseURL, DefaultFileStoragePath, "", false, DefaultStorageType, "", "")
  {
  }

  /** A non-empty environment variable wins over its flag and over the file. */
  lemma EnvironmentWins(fl: Flags, env: map<string, string>, readJson: string -> Option<Config>)
    ensures Getenv(env, "SERVER_ADDRESS") != "" ==> Load(fl, env, readJson).serverAddr == Getenv(env, "SERVER_ADDRESS")
    ensures Getenv(env, "BASE_URL") != "" ==> Load(fl, env, readJson).baseURL == Getenv(env, "BASE_URL")
    ensures Getenv(env, "FILE_STORAGE_PATH") != "" ==> Load(fl, env, readJson).fileStoragePath == Getenv(env, "FILE_STORAGE_PATH")
    ensures Getenv(env, "DATABASE_DSN") != "" ==> Load(fl, env, readJson).databaseDSN == Getenv(env, "DATABASE_DSN")
    ensures Getenv(env, "STORAGE_TYPE") != "" && BeforeJson(fl, env).databaseDSN == "" ==>
              Load(fl, env, readJson).storageType == Getenv(env, "STORAGE_TYPE")
  {
  }

  /** An empty or unset environment variable leaves the flag's value in place. */
  lemma EmptyEnvironmentKeepsFlag(fl: Flags, env: map<string, string>)
    ensures Getenv(env, "SERVER_ADDRESS") == "" ==> BeforeJson(fl, env).serverAddr == ParseFlags(fl).serverAddr
    ensures Getenv(env, "BASE_URL") == "" ==> BeforeJson(fl, env).baseURL == ParseFlags(fl).baseURL
    ensures Getenv(env, "FILE_STORAGE_PATH") == "" ==> BeforeJson(fl, env).fileStoragePath == ParseFlags(fl).fileStoragePath
    ensures Getenv(env, "DATABASE_DSN") == "" ==> BeforeJson(fl, env).databaseDSN == ParseFlags(fl).databaseDSN
  {
  }

  /** A DSN known before the file is read forces the database backend,
      whatever `-storage` or STORAGE_TYPE said. */
  lemma DsnForcesDatabase(fl: Flags, env: map<string, string>, readJson: string -> Option<Config>)
    requires BeforeJson(fl, env).databaseDSN != ""
    ensures Load(fl, env, readJson).storageType == "db"
  {
  }

  /** An unreadable or unparsable file leaves the flag/environment result untouched. */
  lemma UnusableJsonIgnored(fl: Flags, env: map<string, string>, readJson: string -> Option<Config>)
    requires readJson(BeforeJson(fl, env).configPath).None?
    ensures Load(fl, env, readJson) == BeforeJson(fl, env)
  {
  }

  /** The file only fills fields that are still empty: a non-empty value from
      a flag or the environment is kept, an empty one is replaced by the file's. */
  lemma JsonFillsOnlyEmptyFields(fl: Flags, env: map<string, string>, readJson: string -> Option<Config>)
    requires readJson(BeforeJson(fl, env).configPath).Some?
    ensures var pre, j, r := BeforeJson(fl, env), readJson(BeforeJson(fl, env).configPath).value, Load(fl, env, readJson);
            && r.serverAddr == (if pre.serverAddr != "" then pre.serverAddr else j.serverAddr)
            && r.baseURL == (if pre.baseURL != "" then pre.baseURL else j.baseURL)
            && r.fileStoragePath == (if pre.fileStoragePath != "" then pre.fileStoragePath else j.fileStoragePath)
            && r.databaseDSN == (if pre.databaseDSN != "" then pre.databaseDSN else j.databaseDSN)
            && r.trustedSubnet == (if pre.trustedSubnet != "" then pre.trustedSubnet else j.trustedSubnet)
            && r.storageType == pre.storageType
  {
  }

  /** HTTPS ends up on exactly when the flag or the file switches it on. */
  lemma HttpsIsFlagOrJson(fl: Flags, env: map<string, string>, readJson: string -> Option<Config>)
    ensures Load(fl, env, readJson).enableHTTPS <==>
              fl.s.GetOr(false) || (readJson(BeforeJson(fl, env).configPath).Some? &&
                                    readJson(BeforeJson(fl, env).configPath).value.enableHTTPS)
  {
  }

  /** A DSN that only the file supplies does not switch the storage type,
      because the switch runs before the merge. */
  lemma JsonOnlyDsnKeepsStorageType(fl: Flags, env: map<string, string>, readJson: string -> Option<Config>)
    requires BeforeJson(fl, env).databaseDSN == ""
    requires readJson(BeforeJson(fl, env).configPath).Some?
    requires readJson(BeforeJson(fl, env).configPath).value.databaseDSN != ""
    ensures Load(fl, env, readJson).databaseDSN != ""
    ensures Load(fl, env, readJson).storageType == BeforeJson(fl, env).storageType
  {
  }
}

/** The `Storage` interface and `NewStorage`, which picks a backend from the
    configured storage type. */
module StorageFactory {
  import opened Results
  import opened Records
  import Config
  import MemoryStorage
  import FileStorage
  import DatabaseStorage

  /** The backend `NewStorage` selects, with the setting it is built from. */
  datatype Backend = InMemory | File(path: string) | Database(dsn: string)

  /** `NewStorage`: "memory", "file" and "db" select their backend; any other
      string, the empty one included, falls back to memory. */
  function NewStorage(cfg: Config.Config): (b: Backend)
    ensures b.File? <==> cfg.storageType == "file"
    ensures b.Database? <==> cfg.storageType == "db"
    ensures b.InMemory? <==> cfg.storageType != "file" && cfg.storageType != "db"
    ensures b.File? ==> b.path == cfg.fileStoragePath
    ensures b.Database? ==> b.dsn == cfg.databaseDSN
  {
    match cfg.storageType
    case "memory" => InMemory
    case "file" => File(cfg.fileStoragePath)
    case "db" => Database(cfg.databaseDSN)
    case _ => InMemory
  }

  /** A running backend. */
  datatype Instance =
    | MemoryInstance(mem: MemoryStorage.InMemoryStorage<ShortenedData>)
    | FileInstance(fs: FileStorage.FileStorage)
    | DatabaseInstance(table: DatabaseStorage.Table)

  /** Starting the selected backend: memory starts empty, the file backend
      replays its file, the database backend connects to a table whose rows
      are given; `dbFault` is an error from the database driver. */
  function Open(b: Backend, codec: FileStorage.Codec, disk: FileStorage.Disk, table: DatabaseStorage.Table,
                dbFault: Option<string>): (r: Result<Instance, Error>)
    ensures b.InMemory? ==> r == Ok(MemoryInstance(MemoryStorage.New()))
    ensures b.File? ==> (r.Ok? <==> FileStorage.NewFileStorage(codec, b.path, disk).Ok?)
    ensures b.File? && r.Ok? ==> r.value == FileInstance(FileStorage.NewFileStorage(codec, b.path, disk).value)
    ensures b.Database? ==> (r.Ok? <==> dbFault.None?)
    ensures b.Database? && r.Ok? ==> r.value == DatabaseInstance(table)
    ensures b.Database? && r.Err? ==> Message(r.error) == dbFault.value
  {
    match b
    case InMemory => Ok(MemoryInstance(MemoryStorage.New()))
    case File(path) =>
      (match FileStorage.NewFileStorage(codec, path, disk)
       case Ok(fs) => Ok(FileInstance(fs))
       case Err(e) => Err(e))
    case Database(_) =>
      (match DatabaseStorage.NewDBStorage(table, dbFault)
       case Ok(t) => Ok(DatabaseInstance(t))
       case Err(e) => Err(e))
  }

  /** Whether a backend holds a record under a short code. */
  ghost predicate Holds(inst: Instance, key: string) {
    match inst
    case MemoryInstance(mem) => key in mem.data
    case FileInstance(fs) => key in fs.mem.data
    case DatabaseInstance(t) => exists i :: 0 <= i < |t| && t[i].shortURL == key
  }

  /** `Get` through the interface. */
  function Get(inst: Instance, key: string): (r: Result<ShortenedData, Error>)
    ensures r.Ok? <==> Holds(inst, key)
    ensures inst.MemoryInstance? && r.Ok? ==> r.value == inst.mem.data[key]
    ensures inst.FileInstance? && r.Ok? ==> r.value == inst.fs.mem.data[key]
    ensures inst.DatabaseInstance? && r.Ok? ==> r.value.shortURL == key
    ensures r.Err? ==> Message(r.error) == "key not found: " + key
  {
    match inst
    case MemoryInstance(mem) => MemoryStorage.Get(mem, key)
    case FileInstance(fs) => FileStorage.Get(fs, key)
    case DatabaseInstance(t) => DatabaseStorage.Get(t, key, None)
  }

  /** A configuration whose DSN is known before the JSON file is read always
      selects the database backend with that DSN. */
  lemma DsnSelectsDatabase(fl: Config.Flags, env: map<string, string>, readJson: string -> Option<Config.Config>)
    requires Config.BeforeJson(fl, env).databaseDSN != ""
    ensures NewStorage(Config.Load(fl, env, readJson)) == Database(Config.Load(fl, env, readJson).databaseDSN)
  {
  }

  /** With no flags, no environment and no file the service runs on the file
      backend at the default path. */
  lemma DefaultsSelectFile(readJson: string -> Option<Config.Config>)
    requires readJson("").None?
    ensures NewStorage(Config.Load(Config.NoFlags, map[], readJson)) == File(Config.DefaultFileStoragePath)
  {
  }

  /** The `Storage` interface, over a backend state `S`: the reads see the
      state, `store` and `delete` also yield the next one. */
  datatype Storage<!S> = Storage(
    store: (S, ShortenedData) -> (S, Stored),
    get: (S, string) -> Result<ShortenedData, Error>,
    batch: (S, string) -> Result<seq<ShortenedData>, Error>,
    delete: (S, string, string) -> (S, Option<Error>),
    statistic: S -> Option<Statistic>,
    ping: S -> Option<Error>)

  /** The same backend with every delete reporting success: each delete has
      the same effect on the state as before, and no error. */
  function Quiet<S>(st: Storage<S>): (q: Storage<S>)
    ensures q.(delete := st.delete) == st
  {
    st.(delete := (s: S, userID: string, code: string) => (st.delete(s, userID, code).0, None))
  }

  lemma QuietDelete<S>(st: Storage<S>, s: S, userID: string, code: string)
    ensures Quiet(st).delete(s, userID, code) == (st.delete(s, userID, code).0, None)
  {
  }

  /** The database backend's `Store` behind the interface. */
  function DbStore(t: DatabaseStorage.Table, d: ShortenedData): (DatabaseStorage.Table, Stored) {
    var step := DatabaseStorage.Store(t, d, None);
    (step.table, Stored(step.result, step.err))
  }

  /** The database backend with a healthy connection. */
  const Db: Storage<DatabaseStorage.Table> := Storage(
    (t, d) => DbStore(t, d),
    (t, key) => DatabaseStorage.Get(t, key, None),
    (t, userID) => DatabaseStorage.GetBatchByUserID(t, userID, None),
    (t, userID, code) => DatabaseStorage.DeleteByUserIDAndShort(t, userID, code, None),
    t => DatabaseStorage.GetStatistic(t, None),
    t => DatabaseStorage.Ping(None))

  /** The state of the file backend: the store, the file, and the order in
      which `Save` visits the keys. Go randomises that order on every
      rewrite; this binding keeps insertion order, one of the orders a
      `range` over the map may take. */
  datatype FileSt = FileSt(fs: FileStorage.FileStorage, disk: FileStorage.Disk, order: seq<string>)

  type FileState = st: FileSt | FileStorage.Enumerates(st.order, st.fs.mem.data.Keys)
    witness FileSt(FileStorage.FileStorage(MemoryStorage.New(), ""), FileStorage.Absent, [])

  /** The file backend's `Store` behind the interface: a new code joins the
      end of the visiting order. */
  function FileStore(c: FileStorage.Codec, st: FileState, d: ShortenedData): (r: (FileState, Stored))
    ensures r.0.fs == FileStorage.Bind(st.fs, d)
    ensures r.1.data == Blank
    ensures r.1.err.Some? <==> st.disk.Denied?
  {
    var keys := st.fs.mem.data.Keys;
    var order := if d.shortURL in keys then st.order else st.order + [d.shortURL];
    assert FileStorage.Enumerates(order, keys + {d.shortURL});
    var step := FileStorage.Store(c, st.fs, d, order, st.disk);
    (FileSt(step.storage, step.disk, order), Stored(step.result, step.err))
  }

  /** The file backend, writing records with the codec `c`. */
  function FileBackend(c: FileStorage.Codec): Storage<FileState> {
    Storage(
      (st: FileState, d: ShortenedData) => FileStore(c, st, d),
      (st: FileState, key: string) => FileStorage.Get(st.fs, key),
      (st: FileState, userID: string) => FileStorage.GetBatchByUserID(st.fs, userID),
      (st: FileState, userID: string, code: string) => (st, FileStorage.DeleteByUserIDAndShort(st.fs, userID, code).1),
      (st: FileState) => FileStorage.GetStatistic(st.fs),
      (st: FileState) => FileStorage.Ping(st.fs))
  }
}

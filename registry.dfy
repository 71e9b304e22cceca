/**
 * The autoloader object: the closure of index.js with its `path`, `cache` and `logger`, the
 * construction that validates the components directory, and the `get` / `loadFiles` surface.
 * Each method is proved to do what the matching function of module Components describes.
 */
module Registry {
  import opened JsStrings
  import opened Errors
  import opened Components

  /** The logging collaborator, seen as the list of lines it has received. */
  class Logger {
    var entries: seq<LogEntry>

    constructor ()
      ensures entries == []
    {
      entries := [];
    }

    method Log(level: Severity, subject: string)
      modifies this
      ensures entries == old(entries) + [LogEntry(level, subject)]
    {
      entries := entries + [LogEntry(level, subject)];
    }
  }

  /**
   * The completion callback handed to `loadFiles`, seen as the number of times it was called and
   * the autoloader's cache and log as they stood at its last call.
   */
  class Callback {
    var calls: nat
    ghost var seenCache: Cache
    ghost var seenLog: seq<LogEntry>

    constructor ()
      ensures calls == 0
    {
      calls := 0;
    }

    /** Called by the autoloader `a`: records the cache and the log lines `a` holds at that moment. */
    method Invoke(a: Autoloader)
      modifies this
      ensures calls == old(calls) + 1 && seenCache == a.cache && seenLog == a.logger.entries
    {
      calls := calls + 1;
      seenCache, seenLog := a.cache, a.logger.entries;
    }
  }

  /** What `fs.statSync` tells about the components path: it threw, or it describes a file or a directory. */
  datatype StatResult = StatThrew | Stat(isDirectory: bool)

  datatype PathResult = PathOk(path: string) | PathError(error: JsError)

  /**
   * `setPath`: a path that cannot be stat'ed or is not a directory is reported once at fatal
   * severity and gives COMPOSANT_PATH_NOT_FOUND; a directory gives its normalised path and
   * logs nothing.
   */
  method SetPath(composantsPath: string, stat: StatResult, logger: Logger) returns (r: PathResult)
    modifies logger
    ensures stat == Stat(true) ==> r == PathOk(Normalize(composantsPath)) && logger.entries == old(logger.entries)
    ensures stat != Stat(true) ==>
              r == PathError(ErrorWithCode(ComposantPathNotFound)) &&
              logger.entries == old(logger.entries) + [LogEntry(Fatal, composantsPath)]
  {
    if stat.StatThrew? || !stat.isDirectory {
      logger.Log(Fatal, composantsPath);
      return PathError(ErrorWithCode(ComposantPathNotFound));
    }
    var p := composantsPath;
    if LastIndexOf(p, '/') != |p| - 1 {
      p := p + "/";
    }
    r := PathOk(p);
  }

  /** The result of calling the module's exported function: the autoloader, or the path error. */
  datatype Created = Failed(error: JsError) | Ready(autoloader: Autoloader)

  /**
   * The exported function of index.js: validate the path, then hand out a fresh autoloader
   * with an empty cache, or the error when validation failed (no autoloader exists then).
   */
  method Create(composantsPath: string, stat: StatResult, load: Loader, logger: Logger) returns (r: Created)
    modifies logger
    ensures r.Ready? <==> stat == Stat(true)
    ensures r.Failed? ==>
              r.error == ErrorWithCode(ComposantPathNotFound) &&
              logger.entries == old(logger.entries) + [LogEntry(Fatal, composantsPath)]
    ensures r.Ready? ==>
              fresh(r.autoloader) &&
              r.autoloader.path == Normalize(composantsPath) && r.autoloader.cache == map[] &&
              (composantsPath != "" ==> EndsWithSlash(r.autoloader.path)) &&
              r.autoloader.load == load && r.autoloader.logger == logger &&
              logger.entries == old(logger.entries)
  {
    var result := SetPath(composantsPath, stat, logger);
    match result
    case PathError(e) =>
      r := Failed(e);
    case PathOk(p) =>
      var a := new Autoloader(p, load, logger);
      r := Ready(a);
  }

  class Autoloader {
    /** The components directory, assigned once by `setPath`. */
    const path: string
    /** `require(...)(imports)` for a resolved path. */
    const load: Loader
    const logger: Logger
    /** Components already loaded, and recorded failures, by name. */
    var cache: Cache

    constructor (path: string, load: Loader, logger: Logger)
      ensures this.path == path && this.load == load && this.logger == logger && cache == map[]
    {
      this.path := path;
      this.load := load;
      this.logger := logger;
      cache := map[];
    }

    /** `fetch(file)`: log, call the factory of `path + file`, map its failures to COMPOSANT_NOT_FOUND. */
    method Fetch(file: string) returns (v: Value)
      modifies logger
      ensures v == FetchValue(load(path + file))
      ensures logger.entries == old(logger.entries) + FetchTrace(file, load(path + file))
    {
      logger.Log(Debug, file);
      match load(path + file)
      case Loaded(value) =>
        v := value;
      case ModuleNotFound =>
        logger.Log(Warn, file);
        v := Failure(ErrorWithCode(ComposantNotFound));
      case OtherFailure =>
        logger.Log(Error, file);
        v := Failure(ErrorWithCode(ComposantNotFound));
    }

    /** `get(name)`: fetch and store when the slot is undefined, then return the slot. */
    method Get(name: string) returns (v: Value)
      modifies this, logger
      ensures var s := GetStep(old(cache), path, load, name);
              cache == s.cache && v == s.result && logger.entries == old(logger.entries) + s.log
    {
      if name !in cache || cache[name] == Undefined {
        var composant := Fetch(name);
        cache := cache[name := composant];
      }
      v := cache[name];
    }

    /** The walk's 'file' listener: derive the component name and `get` it when it is a `.js` file. */
    method HandleFile(event: WalkEvent)
      modifies this, logger
      ensures var e := Visit(old(cache), path, load, event);
              cache == e.cache && logger.entries == old(logger.entries) + e.log
    {
      var root := RemoveFirst(event.root, path);
      if root != "" {
        root := root + "/";
      }
      if IsJsFile(event.fileName) {
        assert root + event.fileName == ComponentName(path, event.root, event.fileName);
        var _ := Get(root + event.fileName);
      }
    }

    /**
     * `loadFiles(callback)`: for each file the walk reports, derive its component name and `get`
     * it when it is a `.js` file; once the walk has ended, call the callback once, when the
     * cache and the log already hold the whole pass.
     */
    method LoadFiles(walk: seq<WalkEvent>, callback: Callback)
      modifies this, logger, callback
      ensures var e := Warm(old(cache), path, load, walk);
              cache == e.cache && logger.entries == old(logger.entries) + e.log
      ensures callback.calls == old(callback.calls) + 1
      ensures callback.seenCache == cache && callback.seenLog == logger.entries
    {
      ghost var cache0, log0 := cache, logger.entries;
      ghost var done := Effect(cache0, []);
      var i := 0;
      while i < |walk|
        invariant 0 <= i <= |walk|
        invariant done == Warm(cache0, path, load, walk[..i])
        invariant cache == done.cache && logger.entries == log0 + done.log
        invariant callback.calls == old(callback.calls)
      {
        WarmSnoc(cache0, path, load, walk[..i], walk[i]);
        assert walk[..i + 1] == walk[..i] + [walk[i]];
        ghost var v := Visit(done.cache, path, load, walk[i]);
        HandleFile(walk[i]);
        AppendLog(log0, done.log, v.log);
        done := Effect(v.cache, done.log + v.log);
        i := i + 1;
      }
      assert walk[..i] == walk;
      callback.Invoke(this);
    }
  }
}

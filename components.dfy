/**
 * The autoloader's behaviour as values: base-path normalisation, what one `fetch` returns and
 * logs, what one `get` does to the cache, the component names a directory walk yields, and the
 * cache and log after a warm pass. The stateful object in module Registry is proved to follow
 * these functions; the lemmas here state what the autoloader promises across several calls.
 */
module Components {
  import opened JsStrings
  import opened Errors

  /**
   * What a cache slot or a `get` can hold: JavaScript `undefined`, a component built by a
   * factory (opaque, identified by a number) or an error object.
   */
  datatype Value = Undefined | Component(id: nat) | Failure(error: JsError)

  /**
   * What `require(path + file)(imports)` does: the factory returns a value (possibly
   * `undefined`), or it throws a value whose `code` is 'MODULE_NOT_FOUND', or it throws any
   * other value except `null` and `undefined` (whose `code` is not 'MODULE_NOT_FOUND').
   */
  datatype LoadOutcome = Loaded(value: Value) | ModuleNotFound | OtherFailure

  /** The module system and the factories, as a function of the resolved path. */
  type Loader = string -> LoadOutcome

  datatype Severity = Debug | Warn | Error | Fatal

  /** A log line, reduced to its severity and the component name or path it is about. */
  datatype LogEntry = LogEntry(level: Severity, subject: string)

  type Cache = map<string, Value>

  /** One `(root, fileStats)` pair delivered by the directory walk's 'file' event. */
  datatype WalkEvent = WalkEvent(root: string, fileName: string)

  /** The outcome of one `get`: the new cache, the log lines it appended, and what it returned. */
  datatype Step = Step(cache: Cache, log: seq<LogEntry>, result: Value)

  /** The outcome of several `get`s in a row: the new cache and the log lines appended. */
  datatype Effect = Effect(cache: Cache, log: seq<LogEntry>)

  // ----- Base path -------------------------------------------------------------------------

  predicate EndsWithSlash(p: string)
  {
    p != [] && p[|p| - 1] == '/'
  }

  /**
   * The trailing-slash step of `setPath`: a slash is appended unless `lastIndexOf('/')` is the
   * last index. For the empty path `lastIndexOf` gives -1 == length - 1, so it stays empty.
   */
  function Normalize(p: string): (r: string)
    ensures EndsWithSlash(p) ==> r == p
    ensures !EndsWithSlash(p) && p != "" ==> r == p + "/"
    ensures p != "" ==> EndsWithSlash(r)
    ensures p == "" ==> r == ""
  {
    if LastIndexOf(p, '/') != |p| - 1 then p + "/" else p
  }

  /** Normalising a normalised path changes nothing. */
  lemma NormalizeIdempotent(p: string)
    ensures Normalize(Normalize(p)) == Normalize(p)
  {
  }

  /** A directory named with or without its trailing slash gets the same base path. */
  lemma NormalizeIgnoresTrailingSlash(p: string)
    requires p != "" && !EndsWithSlash(p)
    ensures Normalize(p + "/") == Normalize(p)
  {
  }

  // ----- fetch -----------------------------------------------------------------------------

  /** What `fetch` returns: the factory's value unchanged, or the one COMPOSANT_NOT_FOUND error. */
  function FetchValue(outcome: LoadOutcome): (v: Value)
    ensures outcome.Loaded? ==> v == outcome.value
    ensures !outcome.Loaded? ==> v == Failure(ErrorWithCode(ComposantNotFound))
  {
    match outcome
    case Loaded(value) => value
    case ModuleNotFound => Failure(ErrorWithCode(ComposantNotFound))
    case OtherFailure => Failure(ErrorWithCode(ComposantNotFound))
  }

  /**
   * What `fetch(name)` logs: one debug line before the attempt, then a warning when the module
   * was not found, an error for any other failure, and nothing more on success.
   */
  function FetchTrace(name: string, outcome: LoadOutcome): (t: seq<LogEntry>)
    ensures 1 <= |t| <= 2 && t[0] == LogEntry(Debug, name)
    ensures |t| == 1 <==> outcome.Loaded?
    ensures outcome.ModuleNotFound? ==> t[1] == LogEntry(Warn, name)
    ensures outcome.OtherFailure? ==> t[1] == LogEntry(Error, name)
    ensures forall i :: 0 <= i < |t| ==> t[i].subject == name
  {
    match outcome
    case Loaded(_) => [LogEntry(Debug, name)]
    case ModuleNotFound => [LogEntry(Debug, name), LogEntry(Warn, name)]
    case OtherFailure => [LogEntry(Debug, name), LogEntry(Error, name)]
  }

  // ----- get -------------------------------------------------------------------------------

  /** Reading the property `cache[name]`: an absent key reads as `undefined`. */
  function Read(cache: Cache, name: string): Value
  {
    if name in cache then cache[name] else Undefined
  }

  /** `cache[name] !== undefined`: the key is present and does not hold `undefined`. */
  predicate IsDefined(cache: Cache, name: string)
    ensures IsDefined(cache, name) <==> Read(cache, name) != Undefined
  {
    name in cache && cache[name] != Undefined
  }

  /**
   * One `get(name)` against a cache, with `base` the stored path and `load` the module system.
   * A defined slot is returned as it is; otherwise `fetch` runs once and its result is stored,
   * failures included. Only the slot `name` can change and no key disappears.
   */
  function GetStep(cache: Cache, base: string, load: Loader, name: string): (s: Step)
    ensures name in s.cache && s.cache[name] == s.result
    ensures s.cache.Keys == cache.Keys + {name}
    ensures forall k :: k in cache && k != name ==> s.cache[k] == cache[k]
    ensures IsDefined(cache, name) ==> s.result == cache[name] && s.cache == cache && s.log == []
    ensures !IsDefined(cache, name) ==>
              s.result == FetchValue(load(base + name)) && s.log == FetchTrace(name, load(base + name))
  {
    if IsDefined(cache, name) then Step(cache, [], cache[name])
    else
      var v := FetchValue(load(base + name));
      Step(cache[name := v], FetchTrace(name, load(base + name)), v)
  }

  /** A failed load is cached: the second `get` returns the same error and logs nothing. */
  lemma FailureIsNotRetried(cache: Cache, base: string, load: Loader, name: string)
    requires !IsDefined(cache, name) && !load(base + name).Loaded?
    ensures var first := GetStep(cache, base, load, name);
            var second := GetStep(first.cache, base, load, name);
            first.result == Failure(ErrorWithCode(ComposantNotFound)) &&
            second.result == first.result && second.cache == first.cache && second.log == []
  {
  }

  /** A factory that returns `undefined` leaves the slot looking empty: the next `get` fetches again. */
  lemma UndefinedIsRefetched(cache: Cache, base: string, load: Loader, name: string)
    requires !IsDefined(cache, name) && load(base + name) == Loaded(Undefined)
    ensures var first := GetStep(cache, base, load, name);
            var second := GetStep(first.cache, base, load, name);
            first.result == Undefined && second.result == Undefined &&
            second.log == [LogEntry(Debug, name)]
  {
    var first := GetStep(cache, base, load, name);
    assert !IsDefined(first.cache, name);
    var second := GetStep(first.cache, base, load, name);
    assert second.log == [second.log[0]];
  }

  /** `get` for each name in turn. */
  function GetAll(cache: Cache, base: string, load: Loader, names: seq<string>): (e: Effect)
    ensures e.cache.Keys == cache.Keys + set n | n in names
    ensures forall k :: IsDefined(cache, k) ==> IsDefined(e.cache, k) && e.cache[k] == cache[k]
    decreases |names|
  {
    if names == [] then Effect(cache, [])
    else
      var prev := GetAll(cache, base, load, names[..|names| - 1]);
      var s := GetStep(prev.cache, base, load, names[|names| - 1]);
      Effect(s.cache, prev.log + s.log)
  }

  /** Unfolds `GetAll` by its last name. */
  lemma GetAllSnoc(cache: Cache, base: string, load: Loader, names: seq<string>, name: string)
    ensures var prev := GetAll(cache, base, load, names);
            var s := GetStep(prev.cache, base, load, name);
            GetAll(cache, base, load, names + [name]) == Effect(s.cache, prev.log + s.log)
  {
    assert (names + [name])[..|names|] == names;
  }

  /** Log lines appended in two batches are the lines of both batches in order. */
  lemma AppendLog(log: seq<LogEntry>, first: seq<LogEntry>, second: seq<LogEntry>)
    ensures (log + first) + second == log + (first + second)
  {
  }

  /** How many times `fetch(name)` ran, read off its debug lines in a log. */
  function Fetches(log: seq<LogEntry>, name: string): nat
  {
    if log == [] then 0
    else Fetches(log[..|log| - 1], name) + (if log[|log| - 1] == LogEntry(Debug, name) then 1 else 0)
  }

  lemma {:induction false} FetchesAppend(a: seq<LogEntry>, b: seq<LogEntry>, name: string)
    ensures Fetches(a + b, name) == Fetches(a, name) + Fetches(b, name)
    decreases |b|
  {
    if b == [] {
      assert a + b == a;
    } else {
      assert (a + b)[..|a + b| - 1] == a + b[..|b| - 1];
      FetchesAppend(a, b[..|b| - 1], name);
    }
  }

  /** A log whose lines all concern other names records no fetch of `name`. */
  lemma {:induction false} FetchesOther(log: seq<LogEntry>, name: string)
    requires forall i :: 0 <= i < |log| ==> log[i].subject != name
    ensures Fetches(log, name) == 0
    decreases |log|
  {
    if log != [] {
      FetchesOther(log[..|log| - 1], name);
    }
  }

  /** One `fetch(name)` logs exactly one debug line for `name`. */
  lemma FetchTraceCountsOnce(name: string, outcome: LoadOutcome)
    ensures Fetches(FetchTrace(name, outcome), name) == 1
  {
    var t := FetchTrace(name, outcome);
    var head := [LogEntry(Debug, name)];
    assert Fetches(head, name) == 1 by {
      assert head[..0] == [];
    }
    if |t| == 2 {
      assert t[..1] == head;
    }
  }

  /**
   * When the factory for `name` does not return `undefined`, `name` is defined after a run of
   * `get`s exactly when it was defined before or was requested.
   */
  lemma {:induction false} DefinedAfterGetAll(cache: Cache, base: string, load: Loader, names: seq<string>, name: string)
    requires load(base + name) != Loaded(Undefined)
    ensures IsDefined(GetAll(cache, base, load, names).cache, name) <==> IsDefined(cache, name) || name in names
    decreases |names|
  {
    if names != [] {
      var init := names[..|names| - 1];
      var last := names[|names| - 1];
      assert names == init + [last];
      assert name in names <==> name in init || name == last;
      DefinedAfterGetAll(cache, base, load, init, name);
    }
  }

  /**
   * At-most-once loading. When the factory for `name` does not return `undefined`, a run of
   * `get`s fetches `name` exactly once if it was not cached and is requested, and never otherwise.
   */
  lemma {:induction false} LoadedAtMostOnce(cache: Cache, base: string, load: Loader, names: seq<string>, name: string)
    requires load(base + name) != Loaded(Undefined)
    ensures Fetches(GetAll(cache, base, load, names).log, name) ==
              if IsDefined(cache, name) || name !in names then 0 else 1
    decreases |names|
  {
    if names != [] {
      var init := names[..|names| - 1];
      var last := names[|names| - 1];
      assert names == init + [last];
      assert name in names <==> name in init || name == last;
      LoadedAtMostOnce(cache, base, load, init, name);
      DefinedAfterGetAll(cache, base, load, init, name);
      var prev := GetAll(cache, base, load, init);
      var s := GetStep(prev.cache, base, load, last);
      assert GetAll(cache, base, load, names).log == prev.log + s.log;
      FetchesAppend(prev.log, s.log, name);
      if last != name {
        FetchesOther(s.log, name);
      } else if !IsDefined(prev.cache, name) {
        FetchTraceCountsOnce(name, load(base + name));
      }
    }
  }

  // ----- Warm pass -------------------------------------------------------------------------

  /**
   * The `/\.js$/` test on a file name: the escaped dot is a literal '.', and `$` anchors the
   * match at the end, so exactly the last three characters are looked at.
   */
  predicate IsJsFile(fileName: string)
    ensures IsJsFile(fileName) <==>
              |fileName| >= 3 && fileName[|fileName| - 3] == '.' &&
              fileName[|fileName| - 2] == 'j' && fileName[|fileName| - 1] == 's'
  {
    if |fileName| < 3 then false
    else
      var t := fileName[|fileName| - 3..];
      assert t[0] == fileName[|fileName| - 3] && t[1] == fileName[|fileName| - 2] && t[2] == fileName[|fileName| - 1];
      EndsWith(fileName, ".js")
  }

  /**
   * The component name of a walked file: the first occurrence of the base path is removed from
   * the walk root, and a non-empty remainder is joined to the file name with '/'.
   */
  function ComponentName(base: string, root: string, fileName: string): (n: string)
    ensures StartsWith(root, base) && root == base ==> n == fileName
    ensures StartsWith(root, base) && root != base ==> n == root[|base|..] + "/" + fileName
    ensures EndsWith(n, fileName)
  {
    var rel := RemoveFirst(root, base);
    if rel != "" then rel + "/" + fileName else fileName
  }

  /**
   * The component names a walk resolves, in walk order: those of its `.js` files. There are no
   * more of them than events, and each passes the `.js` test itself.
   */
  function WalkNames(base: string, walk: seq<WalkEvent>): (names: seq<string>)
    ensures |names| <= |walk|
    ensures forall i :: 0 <= i < |names| ==> IsJsFile(names[i])
    decreases |walk|
  {
    if walk == [] then []
    else
      var init := WalkNames(base, walk[..|walk| - 1]);
      var e := walk[|walk| - 1];
      if IsJsFile(e.fileName) then
        ComponentNameIsJs(base, e.root, e.fileName);
        init + [ComponentName(base, e.root, e.fileName)]
      else init
  }

  /** A name derived from a `.js` file passes the `.js` test itself. */
  lemma ComponentNameIsJs(base: string, root: string, fileName: string)
    requires IsJsFile(fileName)
    ensures IsJsFile(ComponentName(base, root, fileName))
  {
    var n := ComponentName(base, root, fileName);
    assert n[|n| - 3..] == fileName[|fileName| - 3..];
  }

  /** The `.js` file at position `i` of the walk, and its component name. */
  predicate ResolvesAt(base: string, walk: seq<WalkEvent>, i: int, n: string)
  {
    0 <= i < |walk| && IsJsFile(walk[i].fileName) && ComponentName(base, walk[i].root, walk[i].fileName) == n
  }

  /** Unfolds `WalkNames` by its last event. */
  lemma WalkNamesSnoc(base: string, walk: seq<WalkEvent>, e: WalkEvent)
    ensures WalkNames(base, walk + [e]) ==
              if IsJsFile(e.fileName) then WalkNames(base, walk) + [ComponentName(base, e.root, e.fileName)]
              else WalkNames(base, walk)
  {
    assert (walk + [e])[..|walk|] == walk;
  }

  /** Every name the walk yields comes from one of its `.js` files. */
  lemma {:induction false} WalkNamesSound(base: string, walk: seq<WalkEvent>, n: string)
    requires n in WalkNames(base, walk)
    ensures exists i :: ResolvesAt(base, walk, i, n)
    decreases |walk|
  {
    var k := |walk| - 1;
    var init, e := walk[..k], walk[k];
    assert walk == init + [e];
    WalkNamesSnoc(base, init, e);
    if n in WalkNames(base, init) {
      WalkNamesSound(base, init, n);
      var i :| ResolvesAt(base, init, i, n);
      assert walk[i] == init[i];
      assert ResolvesAt(base, walk, i, n);
    } else {
      assert ResolvesAt(base, walk, k, n);
    }
  }

  lemma PrefixTransitive(a: seq<string>, b: seq<string>, c: seq<string>)
    requires a <= b && b <= c
    ensures a <= c
  {
    assert c[..|a|] == b[..|a|];
  }

  /** The last event of a walk can only add a name after the others. */
  lemma WalkNamesStep(base: string, walk: seq<WalkEvent>)
    requires walk != []
    ensures WalkNames(base, walk[..|walk| - 1]) <= WalkNames(base, walk)
  {
    var k := |walk| - 1;
    var prev := WalkNames(base, walk[..k]);
    if IsJsFile(walk[k].fileName) {
      assert WalkNames(base, walk) == prev + [ComponentName(base, walk[k].root, walk[k].fileName)];
    }
  }

  /** The names of a prefix of the walk are a prefix of the walk's names: later events only add. */
  lemma {:induction false} WalkNamesGrow(base: string, walk: seq<WalkEvent>, j: nat)
    requires j <= |walk|
    ensures WalkNames(base, walk[..j]) <= WalkNames(base, walk)
    decreases |walk| - j
  {
    if j == |walk| {
      assert walk[..j] == walk;
    } else {
      var init := walk[..|walk| - 1];
      WalkNamesGrow(base, init, j);
      assert init[..j] == walk[..j];
      WalkNamesStep(base, walk);
      PrefixTransitive(WalkNames(base, walk[..j]), WalkNames(base, init), WalkNames(base, walk));
    }
  }

  /** Every `.js` file of the walk has its name among those the walk yields. */
  lemma WalkNamesComplete(base: string, walk: seq<WalkEvent>, i: int, n: string)
    requires ResolvesAt(base, walk, i, n)
    ensures n in WalkNames(base, walk)
  {
    var upto := walk[..i + 1];
    assert upto[..i] == walk[..i] && upto[i] == walk[i];
    assert n in WalkNames(base, upto);
    WalkNamesGrow(base, walk, i + 1);
  }

  /** A name is resolved by a walk exactly when some `.js` file of the walk derives it. */
  lemma WalkNamesExactly(base: string, walk: seq<WalkEvent>, n: string)
    ensures n in WalkNames(base, walk) <==> exists i :: ResolvesAt(base, walk, i, n)
  {
    if n in WalkNames(base, walk) {
      WalkNamesSound(base, walk, n);
    }
    if exists i :: ResolvesAt(base, walk, i, n) {
      var i :| ResolvesAt(base, walk, i, n);
      WalkNamesComplete(base, walk, i, n);
    }
  }

  /**
   * The 'file' handler of `loadFiles` for one event: a `.js` file is resolved under its derived
   * name, any other file leaves cache and log alone.
   */
  function Visit(cache: Cache, base: string, load: Loader, event: WalkEvent): (e: Effect)
    ensures !IsJsFile(event.fileName) ==> e == Effect(cache, [])
    ensures IsJsFile(event.fileName) ==> e.cache.Keys == cache.Keys + {ComponentName(base, event.root, event.fileName)}
  {
    if IsJsFile(event.fileName) then
      var s := GetStep(cache, base, load, ComponentName(base, event.root, event.fileName));
      Effect(s.cache, s.log)
    else Effect(cache, [])
  }

  /** `loadFiles`: the 'file' handler applied to every event of the walk, in walk order. */
  function Warm(cache: Cache, base: string, load: Loader, walk: seq<WalkEvent>): (e: Effect)
    ensures cache.Keys <= e.cache.Keys
    ensures forall k :: IsDefined(cache, k) ==> IsDefined(e.cache, k) && e.cache[k] == cache[k]
    ensures |e.log| <= 2 * |walk|
    decreases |walk|
  {
    if walk == [] then Effect(cache, [])
    else
      var prev := Warm(cache, base, load, walk[..|walk| - 1]);
      var v := Visit(prev.cache, base, load, walk[|walk| - 1]);
      Effect(v.cache, prev.log + v.log)
  }

  /** Unfolds `Warm` by its last walk event: the pass so far, then that event's handler. */
  lemma WarmSnoc(cache: Cache, base: string, load: Loader, walk: seq<WalkEvent>, event: WalkEvent)
    ensures var prev := Warm(cache, base, load, walk);
            var v := Visit(prev.cache, base, load, event);
            Warm(cache, base, load, walk + [event]) == Effect(v.cache, prev.log + v.log)
  {
    assert (walk + [event])[..|walk|] == walk;
  }

  /** The warm pass is the same as a `get` of each name the walk yields, in walk order. */
  lemma {:induction false} WarmIsGetAll(cache: Cache, base: string, load: Loader, walk: seq<WalkEvent>)
    ensures Warm(cache, base, load, walk) == GetAll(cache, base, load, WalkNames(base, walk))
    decreases |walk|
  {
    if walk != [] {
      var init := walk[..|walk| - 1];
      var e := walk[|walk| - 1];
      WarmIsGetAll(cache, base, load, init);
      if IsJsFile(e.fileName) {
        GetAllSnoc(cache, base, load, WalkNames(base, init), ComponentName(base, e.root, e.fileName));
      }
    }
  }

  /**
   * After a warm pass the cache holds an entry for the derived name of every `.js` file walked,
   * gains no other key, and keeps every slot that was already defined.
   */
  lemma WarmCoversJsFiles(cache: Cache, base: string, load: Loader, walk: seq<WalkEvent>, k: string)
    ensures var e := Warm(cache, base, load, walk);
            (k in e.cache <==> k in cache || exists i :: ResolvesAt(base, walk, i, k)) &&
            (IsDefined(cache, k) ==> e.cache[k] == cache[k])
  {
    WarmIsGetAll(cache, base, load, walk);
    WalkNamesExactly(base, walk, k);
  }

  /** The names the files `root/a.js`, `root/sub/b.js` and `root/notes.txt` get under the base path `root/`. */
  lemma ExampleTreeNames()
    ensures ComponentName("root/", "root/", "a.js") == "a.js" && IsJsFile("a.js")
    ensures ComponentName("root/", "root/sub", "b.js") == "sub/b.js" && IsJsFile("b.js")
    ensures !IsJsFile("notes.txt")
  {
    assert StartsWith("root/", "root/");
    assert StartsWith("root/sub", "root/") && "root/sub"[5..] == "sub";
  }

  /** A tree of the three files `root/a.js`, `root/sub/b.js` and `root/notes.txt`, warmed into an empty cache. */
  lemma WarmExampleTree(load: Loader, walk: seq<WalkEvent>)
    requires walk == [WalkEvent("root/", "a.js"), WalkEvent("root/sub", "b.js"), WalkEvent("root/", "notes.txt")]
    ensures Warm(map[], "root/", load, walk).cache.Keys == {"a.js", "sub/b.js"}
  {
    ExampleTreeNames();
    var base, empty: Cache := "root/", map[];
    var w0, w1, w2 := walk[..0], walk[..1], walk[..2];
    assert w0 + [walk[0]] == w1 && w1 + [walk[1]] == w2 && w2 + [walk[2]] == walk;
    var e0 := Warm(empty, base, load, w0);
    assert e0.cache == empty by {
      assert w0 == [];
    }
    var e1 := Warm(empty, base, load, w1);
    assert e1.cache.Keys == {"a.js"} by {
      WarmSnoc(empty, base, load, w0, walk[0]);
    }
    var e2 := Warm(empty, base, load, w2);
    assert e2.cache.Keys == {"a.js", "sub/b.js"} by {
      WarmSnoc(empty, base, load, w1, walk[1]);
    }
    WarmSnoc(empty, base, load, w2, walk[2]);
  }
}

/** The script cache: bounded, least recently used out first, and never stale while times tell changes apart. */
module ScriptCache {
  import opened Collections

  datatype Path = Path(name: string)

  datatype File = File(content: string, mtime: int)

  type FileSystem = map<Path, File>

  datatype Entry = Entry(content: string, mtime: int, lastUsed: int)

  type Cache = map<Path, Entry>

  datatype Settings = Settings(enabled: bool, maxSize: nat, ttlSeconds: int)

  /** The modification time of a path; 0 if it cannot be read. */
  function MTime(fs: FileSystem, path: Path): int {
    if path in fs then fs[path].mtime else 0
  }

  predicate IsValid(s: Settings, e: Entry, mtime: int, now: int) {
    e.mtime == mtime && !(s.ttlSeconds > 0 && now - e.lastUsed > s.ttlSeconds * 1000)
  }

  predicate Hit(s: Settings, cache: Cache, path: Path, fs: FileSystem, now: int) {
    s.enabled && path in cache && IsValid(s, cache[path], MTime(fs, path), now)
  }

  /** How many entries an eviction removes. */
  function Overflow(size: nat, maxSize: nat): nat {
    if size <= maxSize then 0 else if (size - maxSize) / 10 < 1 then 1 else (size - maxSize) / 10
  }

  /** No entry outside `gone` was used before an entry inside it. */
  ghost predicate OldestGone(cache: Cache, gone: set<Path>) {
    && gone <= cache.Keys
    && forall p, q :: p in gone && q in cache.Keys - gone ==> cache[p].lastUsed <= cache[q].lastUsed
  }

  ghost predicate Evicted(cache: Cache, maxSize: nat, gone: set<Path>, kept: Cache) {
    OldestGone(cache, gone) && |gone| == Overflow(|cache|, maxSize) && kept == cache - gone
  }

  /** One call and what came of it. `gone` is what the call evicted. */
  datatype Event =
    | Load(path: Path, fs: FileSystem, now: int, text: Option<string>, gone: set<Path>, after: Cache)
    | Clear(after: Cache)

  ghost predicate Step(s: Settings, cache: Cache, e: Event) {
    match e
    case Clear(after) => after == map[]
    case Load(path, fs, now, text, gone, after) =>
      if Hit(s, cache, path, fs, now) then
        && text == Some(cache[path].content) && gone == {}
        && after == cache[path := cache[path].(lastUsed := now)]
      else if path !in fs then
        text == None && gone == {} && after == cache
      else
        && text == Some(fs[path].content)
        && if s.enabled then
             && Evicted(cache, s.maxSize, gone, cache - gone)
             && after == (cache - gone)[path := Entry(fs[path].content, fs[path].mtime, now)]
           else
             gone == {} && after == cache
  }

  ghost predicate Run(s: Settings, cache: Cache, events: seq<Event>)
    decreases |events|
  {
    events == [] || (Step(s, cache, events[0]) && Run(s, events[0].after, events[1..]))
  }

  function Before(cache: Cache, events: seq<Event>, i: nat): Cache
    requires i < |events|
  {
    if i == 0 then cache else events[i - 1].after
  }

  /** The states the file system can be in, and all loads of a run happen in one of them. */
  ghost predicate Within(events: seq<Event>, world: iset<FileSystem>) {
    forall i :: 0 <= i < |events| && events[i].Load? ==> events[i].fs in world
  }

  /** Modification times tell contents apart, and a file that exists from one that does not. */
  ghost predicate TimesTell(world: iset<FileSystem>) {
    forall fs: FileSystem, fs': FileSystem, p ::
      fs in world && fs' in world && p in fs && MTime(fs, p) == MTime(fs', p) ==>
      p in fs' && fs'[p].content == fs[p].content
  }

  ghost predicate HeldIn(world: iset<FileSystem>, p: Path, e: Entry) {
    exists fs: FileSystem :: fs in world && p in fs && fs[p] == File(e.content, e.mtime)
  }

  /** Every cached text is what the file held, with that time, in some state of the file system. */
  ghost predicate Fresh(cache: Cache, world: iset<FileSystem>) {
    forall p :: p in cache ==> HeldIn(world, p, cache[p])
  }

  /** The load gave what the file holds at that moment, and an error exactly when there is no file. */
  predicate Current(e: Event) {
    e.Load? ==> e.text == if e.path in e.fs then Some(e.fs[e.path].content) else None
  }

  predicate Bounded(cache: Cache, s: Settings) {
    |cache| <= s.maxSize + 1
  }

  lemma SizeAfterUpdate(cache: Cache, path: Path, e: Entry)
    ensures |cache[path := e]| == |cache| + (if path in cache then 0 else 1)
  {
    assert cache[path := e].Keys == cache.Keys + {path};
  }

  lemma SizeAfterRemoval(cache: Cache, gone: set<Path>)
    requires gone <= cache.Keys
    ensures |cache - gone| == |cache| - |gone|
  {
    assert (cache - gone).Keys == cache.Keys - gone;
    assert |cache.Keys - gone| == |cache.Keys| - |gone|;
  }

  lemma StepStaysBounded(s: Settings, cache: Cache, e: Event)
    requires Step(s, cache, e) && Bounded(cache, s)
    ensures Bounded(e.after, s) && (e.Load? ==> |e.gone| <= 1 && OldestGone(cache, e.gone))
  {
    if e.Load? {
      if Hit(s, cache, e.path, e.fs, e.now) {
        SizeAfterUpdate(cache, e.path, cache[e.path].(lastUsed := e.now));
      } else if e.path in e.fs && s.enabled {
        SizeAfterRemoval(cache, e.gone);
        SizeAfterUpdate(cache - e.gone, e.path, Entry(e.fs[e.path].content, e.fs[e.path].mtime, e.now));
      }
    }
  }

  lemma HeldAnyTime(world: iset<FileSystem>, p: Path, e: Entry, t: int)
    requires HeldIn(world, p, e)
    ensures HeldIn(world, p, e.(lastUsed := t))
  {
  }

  lemma StepStaysFresh(s: Settings, cache: Cache, e: Event, world: iset<FileSystem>)
    requires Step(s, cache, e) && Fresh(cache, world) && (e.Load? ==> e.fs in world)
    ensures Fresh(e.after, world)
  {
    if e.Load? {
      if e.path in cache {
        HeldAnyTime(world, e.path, cache[e.path], e.now);
      }
      if e.path in e.fs {
        assert HeldIn(world, e.path, Entry(e.fs[e.path].content, e.fs[e.path].mtime, e.now));
      }
      hide HeldIn, Evicted, MTime, IsValid;
    }
  }

  lemma StepIsCurrent(s: Settings, cache: Cache, e: Event, world: iset<FileSystem>)
    requires Step(s, cache, e) && Fresh(cache, world) && (e.Load? ==> e.fs in world) && TimesTell(world)
    ensures Current(e)
  {
    hide Evicted;
    if e.Load? && Hit(s, cache, e.path, e.fs, e.now) {
      var held := File(cache[e.path].content, cache[e.path].mtime);
      var fs: FileSystem :| fs in world && e.path in fs && fs[e.path] == held;
      assert MTime(fs, e.path) == MTime(e.fs, e.path);
    }
  }

  /** Over every run the cache holds at most one entry too many, and a load evicts at most one, of the oldest. */
  lemma {:induction false} AlwaysBounded(s: Settings, cache: Cache, events: seq<Event>, i: nat)
    requires Run(s, cache, events) && Bounded(cache, s) && i < |events|
    ensures Bounded(events[i].after, s)
    ensures events[i].Load? ==> |events[i].gone| <= 1 && OldestGone(Before(cache, events, i), events[i].gone)
    decreases |events|
  {
    hide Step, Bounded, OldestGone;
    StepStaysBounded(s, cache, events[0]);
    if i > 0 {
      AlwaysBounded(s, events[0].after, events[1..], i - 1);
    }
  }

  /** Over every run of loads and clears, each load gives what its file holds then, if times tell changes apart. */
  lemma {:induction false} EveryLoadIsCurrent(s: Settings, cache: Cache, events: seq<Event>, world: iset<FileSystem>,
                                              i: nat)
    requires Run(s, cache, events) && Within(events, world) && Fresh(cache, world) && TimesTell(world) && i < |events|
    ensures Current(events[i])
    decreases |events|
  {
    hide Step, Fresh, Current, TimesTell;
    var first, rest := events[0], events[1..];
    StepStaysFresh(s, cache, first, world);
    StepIsCurrent(s, cache, first, world);
    if i > 0 {
      assert forall k :: 0 <= k < |rest| ==> rest[k] == events[k + 1];
      EveryLoadIsCurrent(s, first.after, rest, world, i - 1);
    }
  }

  /** With the cache switched off every load reads the file. */
  lemma {:induction false} UncachedIsCurrent(s: Settings, cache: Cache, events: seq<Event>, i: nat)
    requires Run(s, cache, events) && !s.enabled && i < |events|
    ensures Current(events[i])
    decreases |events|
  {
    if i > 0 {
      UncachedIsCurrent(s, events[0].after, events[1..], i - 1);
    }
  }

  /** A path is loaded in one state of the file system and again, at the same moment, in another. */
  function LoadTwice(s: Settings, path: Path, fs: FileSystem, fs': FileSystem): seq<Event>
    requires path in fs
  {
    var e := Entry(fs[path].content, fs[path].mtime, 0);
    [Load(path, fs, 0, Some(e.content), {}, map[path := e]),
     Load(path, fs', 0, Some(e.content), {}, map[path := e])]
  }

  /** If the time is the same, the second load sees what the first one saw. */
  lemma SameTimeIsStale(s: Settings, path: Path, fs: FileSystem, fs': FileSystem)
    requires s.enabled && path in fs && MTime(fs, path) == MTime(fs', path)
    ensures Run(s, map[], LoadTwice(s, path, fs, fs'))
    ensures Current(LoadTwice(s, path, fs, fs')[1]) <==> path in fs' && fs'[path].content == fs[path].content
  {
    var events := LoadTwice(s, path, fs, fs');
    var empty: Cache := map[];
    var e := Entry(fs[path].content, fs[path].mtime, 0);
    assert OldestGone(empty, {}) && empty - {} == empty && empty[path := e] == map[path := e];
    assert Step(s, empty, events[0]);
    assert events[0].after[path := e] == events[0].after;
    assert Hit(s, events[0].after, path, fs', 0);
    assert Step(s, events[0].after, events[1]);
    assert events[1..] == [events[1]] && events[1..][1..] == [];
  }

  ghost predicate AlwaysCurrent(s: Settings, world: iset<FileSystem>) {
    forall events, i :: Run(s, map[], events) && Within(events, world) && 0 <= i < |events| ==> Current(events[i])
  }

  /**
   * For every set of states the file system can be in: all loads of all runs are current if and only if
   * the cache is off or modification times tell those states apart.
   */
  lemma CurrentExactly(s: Settings, world: iset<FileSystem>)
    ensures AlwaysCurrent(s, world) <==> !s.enabled || TimesTell(world)
  {
    hide Step, Current, Run;
    if !s.enabled || TimesTell(world) {
      forall events, i | Run(s, map[], events) && Within(events, world) && 0 <= i < |events|
        ensures Current(events[i])
      {
        if s.enabled {
          EveryLoadIsCurrent(s, map[], events, world, i);
        } else {
          UncachedIsCurrent(s, map[], events, i);
        }
      }
    }
    if AlwaysCurrent(s, world) && s.enabled {
      forall fs: FileSystem, fs': FileSystem, p
        | fs in world && fs' in world && p in fs && MTime(fs, p) == MTime(fs', p)
        ensures p in fs' && fs'[p].content == fs[p].content
      {
        SameTimeIsStale(s, p, fs, fs');
        assert Within(LoadTwice(s, p, fs, fs'), world);
        assert Current(LoadTwice(s, p, fs, fs')[1]);
      }
    }
  }

  /** The entry used longest ago; ties go to any of them. */
  method Oldest(cache: Cache) returns (path: Path)
    requires |cache| > 0
    ensures path in cache && forall q :: q in cache ==> cache[path].lastUsed <= cache[q].lastUsed
  {
    var rest := cache.Keys;
    path :| path in rest;
    rest := rest - {path};
    while rest != {}
      invariant path in cache && rest <= cache.Keys
      invariant forall q :: q in cache && q !in rest ==> cache[path].lastUsed <= cache[q].lastUsed
      decreases rest
    {
      var q :| q in rest;
      if cache[q].lastUsed < cache[path].lastUsed {
        path := q;
      }
      rest := rest - {q};
    }
  }

  lemma OneMoreGone(cache: Cache, gone: set<Path>, victim: Path)
    requires OldestGone(cache, gone) && victim in cache.Keys - gone
    requires forall q :: q in cache - gone ==> cache[victim].lastUsed <= (cache - gone)[q].lastUsed
    ensures OldestGone(cache, gone + {victim}) && cache - gone - {victim} == cache - (gone + {victim})
  {
    forall p, q | p in gone + {victim} && q in cache.Keys - (gone + {victim})
      ensures cache[p].lastUsed <= cache[q].lastUsed
    {
      assert q in cache - gone && (cache - gone)[q] == cache[q];
      assert q in cache.Keys - gone;
    }
  }

  lemma GoneIsCached(cache: Cache, gone: set<Path>)
    requires OldestGone(cache, gone)
    ensures gone <= cache.Keys
  {
  }

  /** Evict the entries used longest ago when the cache is over its size. */
  method EvictIfNeeded(cache: Cache, maxSize: nat) returns (kept: Cache, gone: set<Path>)
    ensures Evicted(cache, maxSize, gone, kept)
  {
    kept, gone := cache, {};
    assert cache - {} == cache && OldestGone(cache, {});
    hide OldestGone;
    if |cache| <= maxSize {
      return;
    }
    var overage := |cache| - maxSize;
    var toRemove := if overage / 10 < 1 then 1 else overage / 10;
    for i := 0 to toRemove
      invariant OldestGone(cache, gone) && kept == cache - gone && |gone| == i
    {
      GoneIsCached(cache, gone);
      SizeAfterRemoval(cache, gone);
      var victim := Oldest(kept);
      OneMoreGone(cache, gone, victim);
      kept := kept - {victim};
      gone := gone + {victim};
    }
  }

  class ScriptStore {
    const settings: Settings
    var cache: Cache

    constructor (settings: Settings)
      ensures this.settings == settings && cache == map[]
    {
      this.settings, cache := settings, map[];
    }

    /** The cached part of load_service_module: a step of the runs above. */
    method LoadSource(path: Path, fs: FileSystem, now: int) returns (text: Option<string>, gone: set<Path>)
      modifies this
      ensures Step(settings, old(cache), Load(path, fs, now, text, gone, cache))
    {
      gone := {};
      if settings.enabled && path in cache && IsValid(settings, cache[path], MTime(fs, path), now) {
        text := Some(cache[path].content);
        cache := cache[path := cache[path].(lastUsed := now)];
      } else if path !in fs {
        text := None;
      } else {
        text := Some(fs[path].content);
        if settings.enabled {
          var kept;
          kept, gone := EvictIfNeeded(cache, settings.maxSize);
          cache := kept[path := Entry(fs[path].content, fs[path].mtime, now)];
        }
      }
    }

    method ClearCache()
      modifies this
      ensures Step(settings, old(cache), Clear(cache))
    {
      cache := map[];
    }
  }
}

/**
 The class of src/debug/suggestion.cpp with its index, cache, access times and counters updated in
 place.  Every method is tied to a step of the machine in `SuggestionCache`.
 */
module SuggestionEngine {
  import opened Common
  import opened SuggestionCache

  /** `keys` lists each key of `times` once, in the order of their times. */
  ghost predicate SortsByTime(keys: seq<string>, times: map<string, int>) {
    && (forall key :: key in keys <==> key in times)
    && (forall i, j :: 0 <= i < j < |keys| ==> keys[i] != keys[j] && times[keys[i]] <= times[keys[j]])
  }

  /** Some key of a set with the least time. */
  method Oldest(keys: set<string>, times: map<string, int>) returns (oldest: string)
    requires keys != {} && keys <= times.Keys
    ensures oldest in keys && forall key :: key in keys ==> times[oldest] <= times[key]
  {
    oldest :| oldest in keys;
    var rest := keys - {oldest};
    while rest != {}
      invariant rest <= keys && oldest in keys
      invariant forall key :: key in keys - rest ==> times[oldest] <= times[key]
      decreases rest
    {
      var key :| key in rest;
      if times[key] < times[oldest] {
        oldest := key;
      }
      rest := rest - {key};
    }
  }

  lemma SortedAppend(keys: seq<string>, times: map<string, int>, rest: set<string>, key: string)
    requires SortsByTime(keys, times - rest) && key in rest && rest <= times.Keys
    requires forall k :: k in times.Keys - rest ==> times[k] <= times[key]
    ensures SortsByTime(keys + [key], times - (rest - {key}))
  {
  }

  /** The keys in an order that the sort by access time may produce. */
  method SortKeys(times: map<string, int>) returns (keys: seq<string>)
    ensures SortsByTime(keys, times)
  {
    keys := [];
    var rest := times.Keys;
    while rest != {}
      invariant rest <= times.Keys && SortsByTime(keys, times - rest)
      invariant forall k, r :: k in times.Keys - rest && r in rest ==> times[k] <= times[r]
      decreases rest
    {
      var key := Oldest(rest, times);
      SortedAppend(keys, times, rest, key);
      hide SortsByTime;
      keys := keys + [key];
      rest := rest - {key};
    }
    assert times - rest == times;
  }

  lemma EraseNext<V>(m: map<string, V>, keys: seq<string>, i: nat)
    requires i < |keys|
    ensures m - Members(keys[..i]) - {keys[i]} == m - Members(keys[..i + 1])
  {
    assert keys[..i + 1] == keys[..i] + [keys[i]];
    assert Members(keys[..i + 1]) == Members(keys[..i]) + {keys[i]};
  }

  /** The first keys of the sort are a choice of oldest entries. */
  lemma FirstAreOldest(memo: Memo, maxCacheSize: nat, keys: seq<string>, n: nat)
    requires memo.accessTime.Keys == memo.cache.Keys && SortsByTime(keys, memo.accessTime)
    requires n == if ToRemove(maxCacheSize) <= |keys| then ToRemove(maxCacheSize) else |keys|
    ensures |keys| == |memo.cache| && IsOldest(memo, maxCacheSize, Members(keys[..n]))
  {
    MembersCount(keys);
    MembersCount(keys[..n]);
    assert Members(keys) == memo.accessTime.Keys;
    assert |memo.cache| == |memo.cache.Keys|;
    assert Members(keys[..n]) <= memo.accessTime.Keys;
    FirstComeFirst(keys, memo.accessTime, n);
    hide SortsByTime, Members, ToRemove;
  }

  /** What is not among the first keys has no earlier time. */
  lemma FirstComeFirst(keys: seq<string>, times: map<string, int>, n: nat)
    requires SortsByTime(keys, times) && n <= |keys|
    ensures forall gone, kept :: gone in Members(keys[..n]) && kept in times.Keys - Members(keys[..n]) ==>
                                   times[gone] <= times[kept]
  {
    forall gone, kept | gone in Members(keys[..n]) && kept in times.Keys - Members(keys[..n])
      ensures times[gone] <= times[kept]
    {
      var i :| 0 <= i < n && keys[i] == gone;
      var j :| 0 <= j < |keys| && keys[j] == kept;
      assert forall k :: 0 <= k < n ==> keys[k] in keys[..n];
      assert j >= n;
    }
  }

  lemma NoMembers(keys: seq<string>)
    ensures Members(keys[..0]) == {}
  {
  }

  /** A call of `suggest` at `now`: its answer, and the step from `s` to `s'`. */
  ghost predicate Suggested(rank: Ranking, s: Engine, s': Engine, input: string, m: MatchType, now: int,
                            evicted: set<string>, result: Option<seq<string>>)
  {
    var e := Event.Suggest(input, m, now, evicted);
    Enabled(s, e) && s' == Step(rank, s, e) && result == Answer(rank, s, input, m) && Shape(s')
  }

  lemma SuggestedEmpty(rank: Ranking, s: Engine, m: MatchType, now: int)
    requires Shape(s)
    ensures Suggested(rank, s, s, [], m, now, {}, None)
  {
  }

  lemma SuggestedHit(rank: Ranking, s: Engine, input: string, m: MatchType, now: int)
    requires Shape(s) && input != [] && Hits(s, input, m)
    ensures Suggested(rank, s, AfterHit(s), input, m, now, {}, Some(s.memo.cache[MakeCacheKey(input, m, s.caseSensitive)]))
  {
    hide IndexOf, MemoShape, MakeCacheKey;
  }

  lemma SuggestedMiss(rank: Ranking, s: Engine, memo: Memo, input: string, m: MatchType, now: int, evicted: set<string>)
    requires Shape(s) && input != [] && !Hits(s, input, m) && MakesRoom(s.memo, s.maxCacheSize, evicted)
    requires memo == Insert(s.memo, MakeCacheKey(input, m, s.caseSensitive), Process(rank, s, input, m), now, evicted)
    ensures Suggested(rank, s, AfterMiss(s, memo), input, m, now, evicted, Some(Process(rank, s, input, m)))
  {
    MissShape(rank, s, Event.Suggest(input, m, now, evicted));
    hide IndexOf, MakesRoom, Insert, Process, MakeCacheKey, Shape, AfterMiss;
  }

  class SuggestionEngine {
    const rank: Ranking
    const maxCacheSize: nat
    var settings: Settings
    var caseSensitive: bool
    var index: map<string, string>
    var cache: map<string, seq<string>>
    var cacheAccessTime: map<string, int>
    var stats: Stats
    ghost var inserted: nat
    ghost var born: map<string, nat>

    ghost function State(): Engine
      reads this
    {
      Engine(settings, caseSensitive, maxCacheSize, index, Memoized(), stats)
    }

    ghost function Memoized(): Memo
      reads `cache, `cacheAccessTime, `inserted, `born
    {
      Memo(cache, cacheAccessTime, inserted, born)
    }

    constructor (rank: Ranking, settings: Settings, caseSensitive: bool, maxCacheSize: nat)
      ensures this.rank == rank
      ensures State() == NewEngine(settings, caseSensitive, maxCacheSize) && Shape(State())
    {
      this.rank, this.settings, this.caseSensitive, this.maxCacheSize := rank, settings, caseSensitive, maxCacheSize;
      cache, cacheAccessTime, inserted, born := map[], map[], 0, map[];
      stats := Stats(0, 0, 0, 0, |settings.dataset|);
      new;
      BuildIndex();
    }

    method BuildIndex()
      modifies `index
      ensures index == IndexOf(settings.dataset, caseSensitive)
    {
      index := map[];
      var dataset := settings.dataset;
      for i := 0 to |dataset|
        invariant index == IndexOf(dataset[..i], caseSensitive)
      {
        assert dataset[..i + 1][..i] == dataset[..i];
        var key := if caseSensitive then dataset[i] else ToLower(dataset[i]);
        if key !in index {
          index := index[key := dataset[i]];
        }
      }
      assert dataset[..|dataset|] == dataset;
    }

    /** Removes the oldest fifth, at least one entry. */
    method Evict() returns (ghost evicted: set<string>)
      requires cache.Keys == cacheAccessTime.Keys
      modifies `cache, `cacheAccessTime
      ensures old(IsOldest(Memoized(), maxCacheSize, evicted))
      ensures cache == old(cache) - evicted && cacheAccessTime == old(cacheAccessTime) - evicted
    {
      hide IsOldest, SortsByTime, Members;
      var toRemove := maxCacheSize / 5;
      if toRemove < 1 {
        toRemove := 1;
      }
      var keys := SortKeys(cacheAccessTime);
      var i := 0;
      NoMembers(keys);
      while i < toRemove && i < |keys|
        invariant 0 <= i <= |keys| && i <= toRemove
        invariant cache == old(cache) - Members(keys[..i])
        invariant cacheAccessTime == old(cacheAccessTime) - Members(keys[..i])
      {
        EraseNext(old(cache), keys, i);
        EraseNext(old(cacheAccessTime), keys, i);
        cache := cache - {keys[i]};
        cacheAccessTime := cacheAccessTime - {keys[i]};
        i := i + 1;
      }
      evicted := Members(keys[..i]);
      FirstAreOldest(old(Memoized()), maxCacheSize, keys, i);
    }

    /** Adds an entry, making room first when the cache is full. */
    method Store(key: string, value: seq<string>, now: int) returns (ghost evicted: set<string>)
      requires cache.Keys == cacheAccessTime.Keys
      modifies `cache, `cacheAccessTime, `inserted, `born
      ensures old(MakesRoom(Memoized(), maxCacheSize, evicted))
      ensures Memoized() == old(Insert(Memoized(), key, value, now, evicted))
    {
      hide IsOldest;
      evicted := {};
      if |cache| >= maxCacheSize {
        evicted := Evict();
      } else {
        assert cache - {} == cache && cacheAccessTime - {} == cacheAccessTime;
      }
      cache := cache[key := value];
      cacheAccessTime := cacheAccessTime[key := now];
      inserted, born := inserted + 1, (born - evicted)[key := inserted];
    }

    /** `suggest` after a failed lookup. */
    method Miss(key: string, input: string, m: MatchType, now: int)
      returns (suggestions: seq<string>, ghost evicted: set<string>)
      requires cache.Keys == cacheAccessTime.Keys
      modifies `cache, `cacheAccessTime, `inserted, `born, `stats
      ensures suggestions == old(Process(rank, State(), input, m))
      ensures old(MakesRoom(Memoized(), maxCacheSize, evicted))
      ensures Memoized() == old(Insert(Memoized(), key, Process(rank, State(), input, m), now, evicted))
      ensures State() == AfterMiss(old(State()), Memoized())
    {
      hide Insert, MakesRoom, Limited;
      stats := stats.(calls := stats.calls + 1, misses := stats.misses + 1);
      suggestions := Limited(rank(index, caseSensitive, settings.tuning, input, m), settings.maxSuggestions);
      evicted := Store(key, suggestions, now);
      stats := stats.(cacheSize := |cache|);
    }

    method Hit(key: string) returns (suggestions: seq<string>)
      requires key in cache
      modifies `stats
      ensures suggestions == cache[key] && State() == old(AfterHit(State()))
    {
      stats := stats.(calls := stats.calls + 1, hits := stats.hits + 1);
      suggestions := cache[key];
    }

    method Suggest(input: string, m: MatchType, now: int) returns (result: Option<seq<string>>, ghost evicted: set<string>)
      requires Shape(State())
      modifies this
      ensures Suggested(rank, old(State()), State(), input, m, now, evicted, result)
    {
      ghost var s := State();
      assert cache.Keys == cacheAccessTime.Keys;
      hide IndexOf, Insert, MakesRoom, MakeCacheKey, Process, Shape, Suggested, AfterHit, AfterMiss;
      if input == [] {
        SuggestedEmpty(rank, s, m, now);
        return None, {};
      }
      var key := MakeCacheKey(input, m, caseSensitive);
      var suggestions: seq<string>;
      if key in cache {
        SuggestedHit(rank, s, input, m, now);
        suggestions := Hit(key);
        return Some(suggestions), {};
      }
      suggestions, evicted := Miss(key, input, m, now);
      SuggestedMiss(rank, s, Memoized(), input, m, now, evicted);
      return Some(suggestions), evicted;
    }

    method ClearCache()
      requires Shape(State())
      modifies this
      ensures State() == old(Step(rank, State(), Event.ClearCache)) && Shape(State())
      ensures cache == map[] && cacheAccessTime == map[] && stats == old(stats).(cacheSize := 0)
    {
      cache, cacheAccessTime, born := map[], map[], map[];
      stats := stats.(cacheSize := 0);
    }

    method SetCaseSensitivity(caseSensitive: bool)
      requires Shape(State())
      modifies this
      ensures State() == old(Step(rank, State(), Event.SetCaseSensitivity(caseSensitive))) && Shape(State())
    {
      if this.caseSensitive != caseSensitive {
        this.caseSensitive := caseSensitive;
        BuildIndex();
      }
    }

    /** The cached answers stay. */
    method SetDataset(dataset: seq<string>)
      requires Shape(State())
      modifies this
      ensures State() == old(Step(rank, State(), SetSettings(settings.(dataset := dataset)))) && Shape(State())
    {
      settings := settings.(dataset := dataset);
      BuildIndex();
      stats := stats.(datasetSize := |dataset|);
    }

    method UpdateDataset(newItems: seq<string>)
      requires Shape(State())
      modifies this
      ensures State() == old(Step(rank, State(), SetSettings(settings.(dataset := settings.dataset + newItems))))
      ensures Shape(State())
    {
      settings := settings.(dataset := settings.dataset + newItems);
      BuildIndex();
      stats := stats.(datasetSize := |settings.dataset|);
    }

    /** Neither rebuilds the index nor clears the cache. */
    method SetMaxSuggestions(maxSuggestions: int)
      requires Shape(State())
      modifies this
      ensures State() == old(Step(rank, State(), SetSettings(settings.(maxSuggestions := maxSuggestions)))) && Shape(State())
    {
      settings := settings.(maxSuggestions := maxSuggestions);
    }

    method SetWeight(item: string, weight: real)
      requires Shape(State())
      modifies this
      ensures var tuning := old(settings.tuning).(weights := old(settings.tuning.weights)[item := weight]);
              State() == old(Step(rank, State(), SetSettings(settings.(tuning := tuning)))) && Shape(State())
    {
      settings := settings.(tuning := settings.tuning.(weights := settings.tuning.weights[item := weight]));
    }

    method AddFilter(filter: string -> bool)
      requires Shape(State())
      modifies this
      ensures var tuning := old(settings.tuning).(filters := old(settings.tuning.filters) + [filter]);
              State() == old(Step(rank, State(), SetSettings(settings.(tuning := tuning)))) && Shape(State())
    {
      settings := settings.(tuning := settings.tuning.(filters := settings.tuning.filters + [filter]));
    }

    method ResetStats()
      requires Shape(State())
      modifies this
      ensures State() == old(Step(rank, State(), Event.ResetStats)) && Shape(State())
    {
      stats := Stats(0, 0, 0, |cache|, |settings.dataset|);
    }
  }
}

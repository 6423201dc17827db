/** What the calls of the connector cache answer, and what they leave for the next ones. */
module ConnectorCacheCalls {
  import opened Wrappers
  import opened ConnectorCache

  // ------------------------------------------------------- get_or_spawn_connector

  /** The surroundings of the call are in order: the prefix exists, its environment can be read. */
  predicate Prepared(a: Answers) {
    a.prefixKnown && a.envReads
  }

  /** When a connector is returned, and which: the cached one, or else a new one that is
      cached from then on.  Whoever was cached stays, for whatever key. */
  lemma SpawnReturns(s: State, key: Key, a: Answers, doInit: bool)
    ensures var (s', r) := GetOrSpawn(s, key, a, doInit);
      && (r.Ok? <==> Prepared(a) && (key in s.cache || (a.spawns && a.versionMatches)))
      && (r.Ok? ==> key in s'.cache && r.value == s'.cache[key])
      && (key in s.cache ==> s'.cache == s.cache)
      && (r.Ok? && key !in s.cache ==> r.value == s.next && s'.next > s.next)
      && (r.Err? ==> s'.cache == s.cache)
      && (forall k :: k != key ==> (k in s'.cache <==> k in s.cache) && (k in s.cache ==> s'.cache[k] == s.cache[k]))
      && s'.filters == s.filters
  {}

  /** Asking again gets the same connector, however the second call goes otherwise. */
  lemma SpawnAgain(s: State, key: Key, a: Answers, doInit: bool, a': Answers, doInit': bool)
    requires GetOrSpawn(s, key, a, doInit).1.Ok? && Prepared(a')
    ensures GetOrSpawn(GetOrSpawn(s, key, a, doInit).0, key, a', doInit').1 == GetOrSpawn(s, key, a, doInit).1
  {}

  /** The connector returned was initialised in this call. */
  predicate Initialises(s: State, key: Key, a: Answers, doInit: bool) {
    && GetOrSpawn(s, key, a, doInit).1.Ok?
    && doInit
    && (key in s.cache && key in s.status ==> s.status[key] != Initializing && s.status[key] != Running)
  }

  /** What is known of the connector afterwards.  If it was initialised, how that went; a new
      one that was not, or that did not come up, counts as spawning; a cached one without a
      status as offline; otherwise it is as before. */
  function KnownAs(s: State, key: Key, a: Answers, doInit: bool): InitStatus {
    if Initialises(s, key, a, doInit) then (if a.initWorks then Running else Error)
    else if key !in s.cache then Spawning
    else if key in s.status then s.status[key]
    else Offline
  }

  /** Nothing changes for other keys, nor at all if the surroundings are not in order. */
  lemma StatusAfter(s: State, key: Key, a: Answers, doInit: bool)
    ensures var s' := GetOrSpawn(s, key, a, doInit).0;
      && (Prepared(a) ==> key in s'.status && s'.status[key] == KnownAs(s, key, a, doInit))
      && (!Prepared(a) ==> s' == s)
  {}

  lemma StatusOfOthers(s: State, key: Key, a: Answers, doInit: bool, k: Key)
    requires k != key
    ensures var s' := GetOrSpawn(s, key, a, doInit).0;
      (k in s'.status <==> k in s.status) && (k in s.status ==> s'.status[k] == s.status[k])
  {}

  /** `init` is called once if it is called, on the connector returned. */
  lemma InitsAfter(s: State, key: Key, a: Answers, doInit: bool, id: nat)
    ensures var (s', r) := GetOrSpawn(s, key, a, doInit);
      var called := Initialises(s, key, a, doInit) && r == Ok(id);
      && Count(s'.inits, id) == Count(s.inits, id) + (if called then 1 else 0)
      && Count(s'.wins, id) == Count(s.wins, id) + (if called && a.initWorks then 1 else 0)
  {}

  /** A connector that runs is not initialised again by asking for it. */
  lemma RunningStays(s: State, key: Key, a: Answers, doInit: bool)
    requires Prepared(a) && key in s.cache && key in s.status && s.status[key] == Running
    ensures GetOrSpawn(s, key, a, doInit) == (s, Ok(s.cache[key]))
  {}

  // --------------------------------------------------------------- the others

  /** `init_connector` concerns a live connector only: its cached answers go, it is initialised
      once more, and its status is not touched; nothing else changes. */
  lemma InitForgets(s: State, key: Key, k: Key)
    ensures var s' := InitConnector(s, key);
      && s'.cache == s.cache && s'.status == s.status
      && (key !in s.cache ==> s' == s)
      && (key in s.cache ==> key !in s'.filters && Count(s'.inits, s.cache[key]) == Count(s.inits, s.cache[key]) + 1)
      && (k != key ==> (k in s'.filters <==> k in s.filters) && (k in s.filters ==> s'.filters[k] == s.filters[k]))
  {}

  /** An answer given is kept: asking again gives it, whatever the connector would say now.
      Other answers stay, too.  An error, and an absent connector, leave nothing. */
  lemma AnswersAreKept(s: State, filter: Filter, key: Key, addr: Addr, later: Filter, k: Key, b: Addr)
    ensures var (s', r) := FilterCached(s, filter, key, addr);
      && (r.Ok? && key in s.cache ==> FilterCached(s', later, key, addr) == (s', r))
      && (k in s.filters && b in s.filters[k] ==> k in s'.filters && b in s'.filters[k] && s'.filters[k][b] == s.filters[k][b])
      && (k in s'.filters && b in s'.filters[k] ==> (k == key && b == addr) || (k in s.filters && b in s.filters[k]))
      && (r.Err? || (key !in s.cache && key !in s.filters) ==> s' == s)
      && (key !in s.cache && key !in s.filters ==> r == Ok({}))
      && s' == s.(filters := s'.filters)
  {}

  /** `clear_filter_cache` forgets the answers of one connector, and nothing else. */
  lemma ForgetsOnly(s: State, filter: Filter, key: Key, k: Key)
    ensures var s' := Step(s, filter, Forget(key));
      && key !in s'.filters
      && (k != key ==> (k in s'.filters <==> k in s.filters) && (k in s.filters ==> s'.filters[k] == s.filters[k]))
      && s' == s.(filters := s'.filters)
  {}

  /** After clearing, every connector is spawned anew when it is asked for. */
  lemma ClearForgets(s: State, key: Key, a: Answers, doInit: bool)
    requires Prepared(a) && a.spawns && a.versionMatches
    ensures GetOrSpawn(Clear(s), key, a, doInit).1 == Ok(s.next)
    ensures Clear(s).filters == map[] && Clear(s).status == s.status
  {}
}

/** The cache of running connectors, their init status, and the cached answers of
    `Connector::filter`.  Calls are sequential. */
module ConnectorCache {
  import opened Wrappers

  datatype Key = Key(prefix: string, shortname: string)

  datatype InitStatus = Offline | Spawning | Initializing | Error | Running

  type Addr = string

  /** A set of bits; the empty set means that the connector has no use for the address. */
  type FilterResponse = set<string>

  /** Spawned connector instances are numbered.  What an instance answers may depend on how
      often it has been initialised. */
  type Filter = (nat, nat, Addr) -> Result<FilterResponse>

  /** The three maps, and what happens to the instances: how often `init` was called on
      each, how often it succeeded through `get_or_spawn_connector`, and the next number. */
  datatype State = State(
    cache: map<Key, nat>,
    status: map<Key, InitStatus>,
    filters: map<Key, map<Addr, FilterResponse>>,
    inits: map<nat, nat>,
    wins: map<nat, nat>,
    next: nat)

  const EMPTY := State(map[], map[], map[], map[], map[], 0)

  function Count(m: map<nat, nat>, id: nat): nat {
    if id in m then m[id] else 0
  }

  /** What the outside answers during one `get_or_spawn_connector`. */
  datatype Answers = Answers(prefixKnown: bool, envReads: bool, spawns: bool, versionMatches: bool, initWorks: bool)

  // -------------------------------------------------------------- operations

  predicate NeedsInit(s: State, key: Key, doInit: bool) {
    doInit && (key in s.status ==> s.status[key] != Initializing && s.status[key] != Running)
  }

  /** The status goes through `Initializing`; nobody sees that in a sequential run. */
  function Inited(s: State, key: Key, id: nat, works: bool): State {
    s.(status := s.status[key := if works then Running else Error],
       inits := s.inits[id := Count(s.inits, id) + 1],
       wins := if works then s.wins[id := Count(s.wins, id) + 1] else s.wins)
  }

  function GetOrSpawn(s: State, key: Key, a: Answers, doInit: bool): (State, Result<nat>) {
    if !a.prefixKnown || !a.envReads then (s, Err)
    else if key in s.cache then
      var s1 := if key in s.status then s else s.(status := s.status[key := Offline]);
      (if NeedsInit(s, key, doInit) then Inited(s1, key, s.cache[key], a.initWorks) else s1, Ok(s.cache[key]))
    else
      var s1 := s.(status := s.status[key := Spawning]);
      if !a.spawns then (s1, Err)
      else
        var id, s2 := s1.next, s1.(next := s1.next + 1);
        if !a.versionMatches then (s2, Err)
        else
          var s3 := s2.(cache := s2.cache[key := id]);
          (if doInit then Inited(s3, key, id, a.initWorks) else s3, Ok(id))
  }

  function InitConnector(s: State, key: Key): State {
    if key in s.cache
    then s.(filters := s.filters - {key}, inits := s.inits[s.cache[key] := Count(s.inits, s.cache[key]) + 1])
    else s
  }

  function FilterCached(s: State, filter: Filter, key: Key, addr: Addr): (State, Result<FilterResponse>) {
    if key in s.filters && addr in s.filters[key] then (s, Ok(s.filters[key][addr]))
    else if key in s.cache then
      var r := filter(s.cache[key], Count(s.inits, s.cache[key]), addr);
      if r.Err? then (s, Err)
      else
        var known := if key in s.filters then s.filters[key] else map[];
        (s.(filters := s.filters[key := known[addr := r.value]]), r)
    else (s, Ok({}))
  }

  function Clear(s: State): State {
    s.(cache := map[], filters := map[])
  }

  // ------------------------------------------------------------------- runs

  datatype Op =
    | Spawn(key: Key, answers: Answers, doInit: bool)
    | Init(key: Key)
    | Ask(key: Key, addr: Addr)
    | Forget(key: Key)
    | ClearAll

  function Step(s: State, filter: Filter, op: Op): State {
    match op
    case Spawn(key, a, doInit) => GetOrSpawn(s, key, a, doInit).0
    case Init(key) => InitConnector(s, key)
    case Ask(key, addr) => FilterCached(s, filter, key, addr).0
    case Forget(key) => s.(filters := s.filters - {key})
    case ClearAll => Clear(s)
  }

  function Run(s: State, filter: Filter, ops: seq<Op>): State
    decreases |ops|
  {
    if ops == [] then s else Run(Step(s, filter, ops[0]), filter, ops[1..])
  }

  /** Every key has its own instance; only live connectors have cached answers; an instance
      that was successfully initialised is known to run, and was only once. */
  ghost predicate Inv(s: State) {
    Instances(s) && Wins(s)
  }

  ghost predicate Instances(s: State) {
    && (forall k :: k in s.cache ==> s.cache[k] < s.next)
    && (forall k, l :: k in s.cache && l in s.cache && k != l ==> s.cache[k] != s.cache[l])
    && s.filters.Keys <= s.cache.Keys
    && (forall id :: id in s.inits || id in s.wins ==> id < s.next)
  }

  ghost predicate Wins(s: State) {
    && (forall id :: Count(s.wins, id) <= 1)
    && (forall k :: k in s.cache && Count(s.wins, s.cache[k]) > 0 ==> k in s.status && s.status[k] == Running)
  }

  /** Initialising an instance that never was, successfully. */
  lemma InitedKeepsInv(s: State, key: Key, works: bool)
    requires Inv(s) && key in s.cache && Count(s.wins, s.cache[key]) == 0
    ensures Inv(Inited(s, key, s.cache[key], works))
  {
    InitedKeepsInstances(s, key, works);
    InitedKeepsWins(s, key, works);
  }

  lemma InitedKeepsInstances(s: State, key: Key, works: bool)
    requires Instances(s) && key in s.cache
    ensures Instances(Inited(s, key, s.cache[key], works))
  {}

  lemma InitedKeepsWins(s: State, key: Key, works: bool)
    requires Instances(s) && Wins(s) && key in s.cache && Count(s.wins, s.cache[key]) == 0
    ensures Wins(Inited(s, key, s.cache[key], works))
  {
    forall x ensures Count(Inited(s, key, s.cache[key], works).wins, x) == if x == s.cache[key] && works then 1 else Count(s.wins, x) {
      InitedWins(s, key, s.cache[key], works, x);
    }
  }

  lemma InitedWins(s: State, key: Key, id: nat, works: bool, x: nat)
    ensures Count(Inited(s, key, id, works).wins, x) == Count(s.wins, x) + if x == id && works then 1 else 0
  {}

  lemma {:induction false} HitKeepsInv(s: State, key: Key, a: Answers, doInit: bool)
    requires Inv(s) && key in s.cache
    ensures Inv(GetOrSpawn(s, key, a, doInit).0)
  {
    var s1 := if key in s.status then s else s.(status := s.status[key := Offline]);
    assert Inv(s1);
    if NeedsInit(s, key, doInit) {
      InitedKeepsInv(s1, key, a.initWorks);
    }
  }

  lemma UnusedKeepsInv(s: State, key: Key)
    requires Inv(s) && key !in s.cache
    ensures Inv(s.(status := s.status[key := Spawning]))
    ensures Inv(s.(status := s.status[key := Spawning], next := s.next + 1))
  {
    WinsFrame(s, s.(status := s.status[key := Spawning]));
    InstancesFrame(s, s.(status := s.status[key := Spawning]));
    WinsFrame(s, s.(status := s.status[key := Spawning], next := s.next + 1));
    InstancesFrame(s, s.(status := s.status[key := Spawning], next := s.next + 1));
  }

  lemma InstancesFrame(s: State, s': State)
    requires Instances(s) && s'.cache == s.cache && s'.filters == s.filters && s'.inits == s.inits && s'.wins == s.wins
    requires s.next <= s'.next
    ensures Instances(s')
  {}

  /** Whatever happens to the status of keys that are not cached. */
  lemma WinsFrame(s: State, s': State)
    requires Wins(s) && s'.cache == s.cache && s'.wins == s.wins
    requires forall k :: k in s.cache && k in s.status ==> k in s'.status && s'.status[k] == s.status[k]
    ensures Wins(s')
  {
    forall id ensures Count(s'.wins, id) == Count(s.wins, id) {}
  }

  /** A new instance under a new number. */
  lemma NewKeepsInv(s: State, key: Key)
    requires Inv(s) && key !in s.cache
    ensures var s' := s.(next := s.next + 1, cache := s.cache[key := s.next]); Inv(s') && Count(s'.wins, s.next) == 0
  {
    assert s.next !in s.inits && s.next !in s.wins;
  }

  lemma MissIs(s: State, key: Key, a: Answers, doInit: bool)
    requires key !in s.cache
    ensures var s1 := s.(status := s.status[key := Spawning]);
      var s3 := s1.(next := s1.next + 1, cache := s1.cache[key := s1.next]);
      GetOrSpawn(s, key, a, doInit).0 in {s, s1, s.(status := s.status[key := Spawning], next := s.next + 1), s3, Inited(s3, key, s.next, a.initWorks)}
  {}

  lemma MissKeepsInv(s: State, key: Key, a: Answers, doInit: bool)
    requires Inv(s) && key !in s.cache
    ensures Inv(GetOrSpawn(s, key, a, doInit).0)
  {
    UnusedKeepsInv(s, key);
    var s1 := s.(status := s.status[key := Spawning]);
    NewKeepsInv(s1, key);
    var s3 := s1.(next := s1.next + 1, cache := s1.cache[key := s1.next]);
    InitedKeepsInv(s3, key, a.initWorks);
    MissIs(s, key, a, doInit);
  }

  lemma OthersKeepInv(s: State, filter: Filter, op: Op)
    requires Inv(s) && !op.Spawn?
    ensures Inv(Step(s, filter, op))
  {
    match op
    case Init(key) => InitKeepsInv(s, key);
    case Ask(key, addr) => AskKeepsInv(s, filter, key, addr);
    case _ =>
  }

  lemma InitKeepsInv(s: State, key: Key)
    requires Inv(s)
    ensures Inv(InitConnector(s, key))
  {}

  lemma AskKeepsInv(s: State, filter: Filter, key: Key, addr: Addr)
    requires Inv(s)
    ensures Inv(FilterCached(s, filter, key, addr).0)
  {}

  lemma {:induction false} StepKeepsInv(s: State, filter: Filter, op: Op)
    requires Inv(s)
    ensures Inv(Step(s, filter, op))
  {
    if !op.Spawn? {
      OthersKeepInv(s, filter, op);
    } else if op.key in s.cache {
      HitKeepsInv(s, op.key, op.answers, op.doInit);
    } else {
      MissKeepsInv(s, op.key, op.answers, op.doInit);
    }
  }

  lemma {:induction false} RunKeepsInv(s: State, filter: Filter, ops: seq<Op>)
    requires Inv(s)
    ensures Inv(Run(s, filter, ops))
    decreases |ops|
  {
    if ops != [] {
      StepKeepsInv(s, filter, ops[0]);
      RunKeepsInv(Step(s, filter, ops[0]), filter, ops[1..]);
    }
  }

  /** However the cache is used, every cached answer belongs to a live connector, and no
      instance is successfully initialised twice by `get_or_spawn_connector`. */
  lemma InitialisedAtMostOnce(filter: Filter, ops: seq<Op>, id: nat)
    ensures var s := Run(EMPTY, filter, ops);
      s.filters.Keys <= s.cache.Keys && Count(s.wins, id) <= 1
  {
    RunKeepsInv(EMPTY, filter, ops);
  }

  // -------------------------------------------------------------- agreement

  /** What asking the connector itself would give. */
  function Direct(s: State, filter: Filter, key: Key, addr: Addr): Result<FilterResponse> {
    if key in s.cache then filter(s.cache[key], Count(s.inits, s.cache[key]), addr) else Ok({})
  }

  /** Every cached answer is what the connector would say now. */
  ghost predicate Agrees(s: State, filter: Filter) {
    forall k, a :: k in s.filters && a in s.filters[k] ==> Direct(s, filter, k, a) == Ok(s.filters[k][a])
  }

  /** Nobody can tell the cache from asking the connectors, exactly while it agrees. */
  lemma CacheIsTransparentIff(s: State, filter: Filter)
    ensures (forall key, addr :: FilterCached(s, filter, key, addr).1 == Direct(s, filter, key, addr)) <==> Agrees(s, filter)
  {
    if forall key, addr :: FilterCached(s, filter, key, addr).1 == Direct(s, filter, key, addr) {
      forall k, a | k in s.filters && a in s.filters[k] ensures Direct(s, filter, k, a) == Ok(s.filters[k][a]) {
        assert FilterCached(s, filter, k, a).1 == Direct(s, filter, k, a);
      }
    }
  }

  /** The filter answers for this instance that are cached would not survive another init. */
  ghost predicate Outdates(s: State, filter: Filter, op: Op) {
    && op.Spawn? && op.answers.prefixKnown && op.answers.envReads
    && op.key in s.cache && NeedsInit(s, op.key, op.doInit) && op.key in s.filters
    && exists a :: a in s.filters[op.key] &&
         filter(s.cache[op.key], Count(s.inits, s.cache[op.key]) + 1, a) != Ok(s.filters[op.key][a])
  }

  /** Exactly one way to lose agreement: `get_or_spawn_connector` initialising a cached
      connector again, which does not clear its cached answers, with a changed filter. */
  lemma {:induction false} StepAgreesIff(s: State, filter: Filter, op: Op)
    requires Inv(s) && Agrees(s, filter)
    ensures Agrees(Step(s, filter, op), filter) <==> !Outdates(s, filter, op)
  {
    match op
    case Spawn(key, _, _) => SpawnAgreesIff(s, filter, op);
    case Init(key) => OthersAgree(s, filter, key);
    case _ =>
  }

  /** Leaving the other connectors alone and forgetting what was cached for this one. */
  lemma OthersAgree(s: State, filter: Filter, key: Key)
    requires Agrees(s, filter) && Inv(s)
    ensures Agrees(InitConnector(s, key), filter)
  {}

  lemma SpawnLeavesInits(s: State, key: Key, a: Answers, doInit: bool, k: Key)
    requires k in s.cache && k != key && s.cache[k] < s.next && (key in s.cache ==> s.cache[k] != s.cache[key])
    ensures var s' := GetOrSpawn(s, key, a, doInit).0;
      k in s'.cache && s'.cache[k] == s.cache[k] && Count(s'.inits, s.cache[k]) == Count(s.inits, s.cache[k])
  {}

  /** Spawning for one key does not concern what is cached for others. */
  lemma SpawnLeavesOthers(s: State, key: Key, a: Answers, doInit: bool, filter: Filter, k: Key, addr: Addr)
    requires Inv(s) && k in s.filters && k != key
    ensures Direct(GetOrSpawn(s, key, a, doInit).0, filter, k, addr) == Direct(s, filter, k, addr)
  {
    SpawnLeavesInits(s, key, a, doInit, k);
  }

  ghost predicate OthersAnswerAlike(s: State, s': State, filter: Filter, key: Key) {
    forall k, a :: k in s.filters && k != key ==> Direct(s', filter, k, a) == Direct(s, filter, k, a)
  }

  lemma {:induction false} SpawnLeavesRest(s: State, filter: Filter, op: Op)
    requires Inv(s) && op.Spawn?
    ensures var s' := Step(s, filter, op); s'.filters == s.filters && OthersAnswerAlike(s, s', filter, op.key)
  {
    SpawnLeavesFilters(s, op.key, op.answers, op.doInit);
    var s' := GetOrSpawn(s, op.key, op.answers, op.doInit).0;
    forall k, x | k in s.filters && k != op.key ensures Direct(s', filter, k, x) == Direct(s, filter, k, x) {
      SpawnLeavesOthers(s, op.key, op.answers, op.doInit, filter, k, x);
    }
  }

  lemma SpawnLeavesFilters(s: State, key: Key, a: Answers, doInit: bool)
    ensures GetOrSpawn(s, key, a, doInit).0.filters == s.filters
  {}

  lemma SpawnedAnswers(s: State, key: Key, a: Answers, doInit: bool, filter: Filter, addr: Addr)
    requires key in s.cache
    ensures var n := Count(s.inits, s.cache[key]) + if a.prefixKnown && a.envReads && NeedsInit(s, key, doInit) then 1 else 0;
      Direct(GetOrSpawn(s, key, a, doInit).0, filter, key, addr) == filter(s.cache[key], n, addr)
  {}

  /** The answers cached for one connector. */
  ghost predicate AgreesOn(s: State, filter: Filter, key: Key) {
    key in s.filters ==> forall a :: a in s.filters[key] ==> Direct(s, filter, key, a) == Ok(s.filters[key][a])
  }

  lemma AgreesByParts(s: State, s': State, filter: Filter, key: Key)
    requires Agrees(s, filter) && s'.filters == s.filters
    requires OthersAnswerAlike(s, s', filter, key)
    ensures Agrees(s', filter) <==> AgreesOn(s', filter, key)
  {}

  lemma BumpedAgreesIff(s: State, s': State, filter: Filter, key: Key, bump: nat)
    requires Agrees(s, filter) && s'.filters == s.filters && key in s.cache && bump <= 1
    requires forall a :: Direct(s', filter, key, a) == filter(s.cache[key], Count(s.inits, s.cache[key]) + bump, a)
    ensures AgreesOn(s', filter, key) <==>
              (bump == 0 || key !in s.filters || forall a :: a in s.filters[key] ==>
                 filter(s.cache[key], Count(s.inits, s.cache[key]) + 1, a) == Ok(s.filters[key][a]))
  {
    if key in s.filters && bump == 0 {
      forall a | a in s.filters[key] ensures Direct(s', filter, key, a) == Ok(s.filters[key][a]) {
        assert Direct(s, filter, key, a) == Ok(s.filters[key][a]);
      }
    }
  }

  lemma SpawnAgreesIff(s: State, filter: Filter, op: Op)
    requires Inv(s) && Agrees(s, filter) && op.Spawn?
    ensures Agrees(Step(s, filter, op), filter) <==> !Outdates(s, filter, op)
  {
    SpawnLeavesRest(s, filter, op);
    AgreesByParts(s, Step(s, filter, op), filter, op.key);
    if op.key in s.cache {
      HitAgreesIff(s, filter, op);
    }
  }

  lemma HitAgreesIff(s: State, filter: Filter, op: Op)
    requires Inv(s) && Agrees(s, filter) && op.Spawn? && op.key in s.cache
    ensures AgreesOn(Step(s, filter, op), filter, op.key) <==> !Outdates(s, filter, op)
  {
    var key, a, doInit := op.key, op.answers, op.doInit;
    var s' := GetOrSpawn(s, key, a, doInit).0;
    SpawnLeavesFilters(s, key, a, doInit);
    var bump := if a.prefixKnown && a.envReads && NeedsInit(s, key, doInit) then 1 else 0;
    forall x ensures Direct(s', filter, key, x) == filter(s.cache[key], Count(s.inits, s.cache[key]) + bump, x) {
      SpawnedAnswers(s, key, a, doInit, filter, x);
    }
    BumpedAgreesIff(s, s', filter, key, bump);
  }

  /** No step of the run initialises a cached connector again in a way that changes what is cached. */
  ghost predicate NothingOutdated(s: State, filter: Filter, ops: seq<Op>)
    decreases |ops|
  {
    ops != [] ==> !Outdates(s, filter, ops[0]) && NothingOutdated(Step(s, filter, ops[0]), filter, ops[1..])
  }

  lemma {:induction false} RunAgrees(s: State, filter: Filter, ops: seq<Op>)
    requires Inv(s) && Agrees(s, filter) && NothingOutdated(s, filter, ops)
    ensures Agrees(Run(s, filter, ops), filter)
    decreases |ops|
  {
    if ops != [] {
      StepAgreesIff(s, filter, ops[0]);
      StepKeepsInv(s, filter, ops[0]);
      RunAgrees(Step(s, filter, ops[0]), filter, ops[1..]);
    }
  }

  /** The contract of `Connector::filter`: initialising does not change it. */
  ghost predicate Static(filter: Filter) {
    forall id, m, n, a :: filter(id, m, a) == filter(id, n, a)
  }

  lemma StaticNeverOutdates(s: State, filter: Filter, op: Op)
    requires Agrees(s, filter) && Static(filter)
    ensures !Outdates(s, filter, op)
  {}

  /** With a static filter the cache agrees with the connectors over every run. */
  lemma {:induction false} StaticRunAgrees(s: State, filter: Filter, ops: seq<Op>)
    requires Inv(s) && Agrees(s, filter) && Static(filter)
    ensures Agrees(Run(s, filter, ops), filter)
    decreases |ops|
  {
    if ops != [] {
      StaticNeverOutdates(s, filter, ops[0]);
      StepAgreesIff(s, filter, ops[0]);
      StepKeepsInv(s, filter, ops[0]);
      StaticRunAgrees(Step(s, filter, ops[0]), filter, ops[1..]);
    }
  }

  /** From the empty cache, whatever came before: every answer is the connector's own. */
  lemma StaticRunIsTransparent(filter: Filter, ops: seq<Op>, key: Key, addr: Addr)
    requires Static(filter)
    ensures var s := Run(EMPTY, filter, ops); FilterCached(s, filter, key, addr).1 == Direct(s, filter, key, addr)
  {
    StaticRunAgrees(EMPTY, filter, ops);
    CacheIsTransparentIff(Run(EMPTY, filter, ops), filter);
  }

  // ----------------------------------------------------------------- the class

  class Cache {
    var cache: map<Key, nat>
    var initStatus: map<Key, InitStatus>
    var filterCache: map<Key, map<Addr, FilterResponse>>
    // The connectors themselves.
    var inits: map<nat, nat>
    var wins: map<nat, nat>
    var next: nat

    function Now(): State
      reads this
    {
      State(cache, initStatus, filterCache, inits, wins, next)
    }

    constructor ()
      ensures Now() == EMPTY && Inv(Now())
    {
      cache, initStatus, filterCache, inits, wins, next := map[], map[], map[], map[], map[], 0;
    }

    /** `connector.init()`, called by `get_or_spawn_connector`. */
    method CallInit(key: Key, id: nat, works: bool)
      modifies this
      ensures Now() == Inited(old(Now()), key, id, works)
    {
      initStatus := initStatus[key := Initializing];
      inits := inits[id := Count(inits, id) + 1];
      if !works {
        initStatus := initStatus[key := Error];
      } else {
        wins := wins[id := Count(wins, id) + 1];
        initStatus := initStatus[key := Running];
      }
    }

    method GetOrSpawnConnector(key: Key, a: Answers, doInit: bool) returns (r: Result<nat>)
      modifies this
      ensures (Now(), r) == GetOrSpawn(old(Now()), key, a, doInit)
      ensures old(Inv(Now())) ==> Inv(Now())
    {
      StepKeepsInvWhere(Now(), Spawn(key, a, doInit));
      if !a.prefixKnown || !a.envReads {
        return Err;
      }
      if key in cache {
        r := Reuse(key, a, doInit);
      } else {
        r := SpawnNew(key, a, doInit);
      }
    }

    /** The branch of `get_or_spawn_connector` for a cached connector. */
    method Reuse(key: Key, a: Answers, doInit: bool) returns (r: Result<nat>)
      requires key in cache && a.prefixKnown && a.envReads
      modifies this
      ensures (Now(), r) == GetOrSpawn(old(Now()), key, a, doInit)
    {
      var needInit := false;
      if key in initStatus {
        match initStatus[key] {
          case Offline => needInit := doInit;
          case Spawning => needInit := doInit;
          case Initializing => needInit := false;
          case Error => needInit := doInit;
          case Running => needInit := false;
        }
      } else {
        initStatus := initStatus[key := Offline];
        needInit := doInit;
      }
      if needInit {
        CallInit(key, cache[key], a.initWorks);
      }
      r := Ok(cache[key]);
    }

    /** The branch for a connector that is not cached. */
    method SpawnNew(key: Key, a: Answers, doInit: bool) returns (r: Result<nat>)
      requires key !in cache && a.prefixKnown && a.envReads
      modifies this
      ensures (Now(), r) == GetOrSpawn(old(Now()), key, a, doInit)
    {
      initStatus := initStatus[key := Spawning];
      if !a.spawns {
        return Err;
      }
      var id := next;
      next := next + 1;
      if !a.versionMatches {
        return Err;
      }
      if doInit {
        CallInit(key, id, a.initWorks);
      }
      cache := cache[key := id];
      r := Ok(id);
    }

    lemma {:induction false} StepKeepsInvWhere(s: State, op: Op)
      ensures Inv(s) && op.Spawn? ==> Inv(GetOrSpawn(s, op.key, op.answers, op.doInit).0)
    {
      if Inv(s) && op.Spawn? {
        StepKeepsInv(s, (id, n, a) => Err, op);
      }
    }

    method InitCachedConnector(key: Key, works: bool) returns (r: Option<bool>)
      modifies this
      ensures Now() == InitConnector(old(Now()), key)
      ensures r == if key in old(cache) then Some(works) else None
    {
      if key in cache {
        ClearFilterCache(key);
        inits := inits[cache[key] := Count(inits, cache[key]) + 1];
        r := Some(works);
      } else {
        r := None;
      }
    }

    method AskFilter(filter: Filter, key: Key, addr: Addr) returns (r: Result<FilterResponse>)
      modifies this
      ensures (Now(), r) == FilterCached(old(Now()), filter, key, addr)
      ensures old(Agrees(Now(), filter)) ==> r == Direct(old(Now()), filter, key, addr)
    {
      if key in filterCache && addr in filterCache[key] {
        r := Ok(filterCache[key][addr]);
      } else if key in cache {
        r := filter(cache[key], Count(inits, cache[key]), addr);
        if r.Err? {
          return Err;
        }
        var known := if key in filterCache then filterCache[key] else map[];
        filterCache := filterCache[key := known[addr := r.value]];
      } else {
        r := Ok({});
      }
    }

    method ClearFilterCache(key: Key)
      modifies this`filterCache
      ensures filterCache == old(filterCache) - {key}
    {
      filterCache := filterCache - {key};
    }

    method ClearCache()
      modifies this
      ensures Now() == Clear(old(Now()))
    {
      cache := map[];
      filterCache := map[];
    }
  }
}

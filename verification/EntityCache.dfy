/** Entities served by the Cedar Agent. */
module CedarEntities {
  import opened Common

  datatype EntityUid = EntityUid(entityType: string, id: string)

  /** `attrs` keeps the string-valued attributes. */
  datatype Entity = Entity(uid: EntityUid, attrs: map<string, string>, parents: seq<EntityUid>) {
    function Attr(key: string): Option<string> {
      if key in attrs then Some(attrs[key]) else None
    }
  }

  const USER := "Aeterna::User"
  const PROJECT := "Aeterna::Project"
  const TEAM := "Aeterna::Team"
  const ORGANIZATION := "Aeterna::Organization"
  const TENANT := "Aeterna::Tenant"

  /** The three ways a client asks for one entity. */
  datatype Query = ByUid(uid: EntityUid) | ByEmail(email: string) | ByRemote(remote: string) {
    predicate Matches(e: Entity) {
      match this
      case ByUid(uid) => e.uid == uid
      case ByEmail(email) => e.uid.entityType == USER && e.Attr("email") == Some(email)
      case ByRemote(remote) => e.uid.entityType == PROJECT && e.Attr("git_remote") == Some(remote)
    }
  }

  /** The first entity in store order that answers the query. */
  function FirstMatch(es: seq<Entity>, q: Query): (r: Option<Entity>)
    ensures r.Some? ==> r.value in es && q.Matches(r.value)
    ensures r.None? ==> forall e :: e in es ==> !q.Matches(e)
  {
    if es == [] then None
    else if q.Matches(es[0]) then Some(es[0])
    else FirstMatch(es[1..], q)
  }

  /** What a query asks for, spelled out. */
  lemma {:induction false} MatchesMeans(q: Query, e: Entity)
    ensures q.Matches(e) <==>
            match q
            case ByUid(uid) => e.uid == uid
            case ByEmail(email) => e.uid.entityType == "Aeterna::User" && "email" in e.attrs && e.attrs["email"] == email
            case ByRemote(remote) => e.uid.entityType == "Aeterna::Project" && "git_remote" in e.attrs && e.attrs["git_remote"] == remote
  {
  }

  /** The answer is the earliest that matches: nothing before it does. */
  lemma {:induction false} FirstMatchIsEarliest(es: seq<Entity>, q: Query, i: nat)
    requires i < |es| && q.Matches(es[i]) && forall j :: 0 <= j < i ==> !q.Matches(es[j])
    ensures FirstMatch(es, q) == Some(es[i])
  {
    if i > 0 {
      assert !q.Matches(es[0]);
      FirstMatchIsEarliest(es[1..], q, i - 1);
    }
  }

  /** At most one entity answers the query. */
  ghost predicate Unambiguous(es: seq<Entity>, q: Query) {
    forall e, e' :: e in es && e' in es && q.Matches(e) && q.Matches(e') ==> e == e'
  }
}

/** The client's entity cache and the lookups that go through it. */
module EntityCache {
  import opened Common
  import opened CedarEntities

  datatype Entry = Entry(entity: Entity, inserted: nat)

  type Cache = map<EntityUid, Entry>

  /** Only this lookup honours the time to live. */
  function FreshEntry(cache: Cache, uid: EntityUid, now: nat, ttl: nat): Option<Entity> {
    if uid in cache && Elapsed(cache[uid].inserted, now) < ttl then Some(cache[uid].entity) else None
  }

  function WithAll(cache: Cache, es: seq<Entity>, now: nat): Cache {
    if es == [] then cache
    else WithAll(cache, es[..|es| - 1], now)[es[|es| - 1].uid := Entry(es[|es| - 1], now)]
  }

  class CacheCell {
    var entities: Cache
    const ttl: nat

    constructor (ttl: nat)
      ensures entities == map[] && this.ttl == ttl
    {
      entities := map[];
      this.ttl := ttl;
    }

    method Get(uid: EntityUid, now: nat) returns (r: Option<Entity>)
      ensures r == FreshEntry(entities, uid, now, ttl)
    {
      if uid in entities && Elapsed(entities[uid].inserted, now) < ttl {
        r := Some(entities[uid].entity);
      } else {
        r := None;
      }
    }

    method Insert(e: Entity, now: nat)
      modifies this
      ensures entities == old(entities)[e.uid := Entry(e, now)]
    {
      entities := entities[e.uid := Entry(e, now)];
    }

    method InsertAll(es: seq<Entity>, now: nat)
      modifies this
      ensures entities == WithAll(old(entities), es, now)
    {
      for i := 0 to |es|
        invariant entities == WithAll(old(entities), es[..i], now)
      {
        assert es[..i + 1][..i] == es[..i];
        Insert(es[i], now);
      }
      assert es[..|es|] == es;
    }

    method Clear()
      modifies this
      ensures entities == map[]
    {
      entities := map[];
    }
  }

  /** After a fetch each uid of the response maps to its last occurrence, all others are untouched. */
  lemma {:induction false} WithAllContents(cache: Cache, es: seq<Entity>, now: nat, uid: EntityUid)
    ensures var c := WithAll(cache, es, now);
            if exists e :: e in es && e.uid == uid
            then uid in c && c[uid].entity in es && c[uid].entity.uid == uid && c[uid].inserted == now
            else (uid in c <==> uid in cache) && (uid in c ==> c[uid] == cache[uid])
  {
    if es != [] {
      var pre, last := es[..|es| - 1], es[|es| - 1];
      WithAllContents(cache, pre, now, uid);
      assert last in es && forall e :: e in es <==> e in pre || e == last;
    }
  }

  // ------------------------------------------------------------------ freshness

  /**
   The agent's store changes at any time; a request sees one version of it (`Fetch`) and the
   response reaches the cache later (`Insert`), possibly after younger responses.
   */
  datatype Event =
    | StoreChange(at: nat, store: seq<Entity>)
    | Fetch(at: nat, request: nat)
    | Insert(at: nat, request: nat)
    | Clear(at: nat)

  /** `step` is the length of the history when the response was produced. */
  datatype Response = Response(entities: seq<Entity>, step: nat, at: nat)

  datatype World = World(store: seq<Entity>, pending: map<nat, Response>, cache: Cache, now: nat)

  const Start := World([], map[], map[], 0)

  predicate Enabled(w: World, e: Event, latency: nat) {
    && w.now <= e.at
    && (e.Insert? ==> e.request in w.pending && e.at <= w.pending[e.request].at + latency)
  }

  function Step(w: World, e: Event, step: nat): World {
    match e
    case StoreChange(at, store) => w.(store := store, now := at)
    case Fetch(at, request) => w.(pending := w.pending[request := Response(w.store, step, at)], now := at)
    case Insert(at, request) =>
      if request in w.pending
      then w.(cache := WithAll(w.cache, w.pending[request].entities, at), now := at)
      else w.(now := at)
    case Clear(at) => w.(cache := map[], now := at)
  }

  function After(es: seq<Event>): World {
    if es == [] then Start else Step(After(es[..|es| - 1]), es[|es| - 1], |es| - 1)
  }

  /** A history in which every response reaches the cache within `latency`. */
  predicate IsRun(es: seq<Event>, latency: nat) {
    es != [] ==> IsRun(es[..|es| - 1], latency) && Enabled(After(es[..|es| - 1]), es[|es| - 1], latency)
  }

  /** After `k` events the store held exactly this answer for `uid`. */
  predicate HeldAt(es: seq<Event>, k: nat, uid: EntityUid, e: Entity)
    requires k <= |es|
  {
    FirstMatch(After(es[..k]).store, ByUid(uid)) == Some(e)
  }

  ghost predicate UniqueUids(es: seq<Entity>) {
    forall uid :: Unambiguous(es, ByUid(uid))
  }

  ghost predicate StoresUnique(es: seq<Event>) {
    forall k :: 0 <= k < |es| && es[k].StoreChange? ==> UniqueUids(es[k].store)
  }

  ghost predicate PendingIsHistoric(es: seq<Event>, w: World) {
    forall q :: q in w.pending ==>
      && w.pending[q].step < |es|
      && w.pending[q].entities == After(es[..w.pending[q].step]).store
      && w.pending[q].at == es[w.pending[q].step].at
  }

  lemma {:induction false} StoreStaysUnique(es: seq<Event>)
    requires StoresUnique(es)
    ensures UniqueUids(After(es).store)
  {
    if es != [] {
      StoreStaysUnique(es[..|es| - 1]);
    }
  }

  lemma {:induction false} PendingIsHistoricHolds(es: seq<Event>)
    ensures PendingIsHistoric(es, After(es))
  {
    if es != [] {
      var pre, w, w' := es[..|es| - 1], After(es[..|es| - 1]), After(es);
      PendingIsHistoricHolds(pre);
      forall q | q in w'.pending
        ensures w'.pending[q].step < |es|
        ensures w'.pending[q].entities == After(es[..w'.pending[q].step]).store
        ensures w'.pending[q].at == es[w'.pending[q].step].at
      {
        if q in w.pending && w'.pending[q] == w.pending[q] {
          assert pre[..w.pending[q].step] == es[..w.pending[q].step];
        } else {
          assert w'.pending[q].step == |pre|;
        }
      }
    }
  }

  /**
   Every cached entry is what the store held for its uid at some earlier fetch whose response
   took at most `latency` to reach the cache.
   */
  lemma {:induction false} EntriesWereHeld(es: seq<Event>, latency: nat, uid: EntityUid) returns (k: nat)
    requires IsRun(es, latency) && StoresUnique(es) && uid in After(es).cache
    ensures k < |es| && es[k].Fetch?
    ensures HeldAt(es, k, uid, After(es).cache[uid].entity)
    ensures es[k].at <= After(es).cache[uid].inserted <= es[k].at + latency
  {
    assert es != [];
    var pre, last := es[..|es| - 1], es[|es| - 1];
    var w := After(pre);
    PendingIsHistoricHolds(pre);
    if last.Insert? && exists e :: e in w.pending[last.request].entities && e.uid == uid {
      var resp := w.pending[last.request];
      WithAllContents(w.cache, resp.entities, last.at, uid);
      k := resp.step;
      assert pre[..k] == es[..k];
      StoreStaysUnique(pre[..k]);
      RequestsAreFetches(pre, latency, last.request);
      var held := After(es).cache[uid].entity;
      assert ByUid(uid).Matches(held) && held in resp.entities;
      assert Unambiguous(resp.entities, ByUid(uid));
    } else {
      if last.Insert? {
        WithAllContents(w.cache, w.pending[last.request].entities, last.at, uid);
      }
      k := EntriesWereHeld(pre, latency, uid);
      assert pre[..k] == es[..k];
    }
  }

  lemma {:induction false} RequestsAreFetches(es: seq<Event>, latency: nat, q: nat)
    requires IsRun(es, latency) && q in After(es).pending
    ensures var r := After(es).pending[q]; r.step < |es| && es[r.step].Fetch? && es[r.step].at == r.at <= After(es).now
  {
    if es != [] {
      var pre, last := es[..|es| - 1], es[|es| - 1];
      if !last.Fetch? || last.request != q {
        RequestsAreFetches(pre, latency, q);
      }
    }
  }

  /**
   A hit of `resolve_entity` at time `now` is what the store held for that uid less than one
   time-to-live (plus the response latency) earlier.
   */
  lemma {:induction false} HitWasHeldWithinTtl(es: seq<Event>, latency: nat, uid: EntityUid, now: nat, ttl: nat)
    requires IsRun(es, latency) && StoresUnique(es)
    requires FreshEntry(After(es).cache, uid, now, ttl).Some?
    ensures exists k :: && 0 <= k < |es| && es[k].Fetch?
                        && HeldAt(es, k, uid, FreshEntry(After(es).cache, uid, now, ttl).value)
                        && now < es[k].at + ttl + latency
  {
    var k := EntriesWereHeld(es, latency, uid);
  }

  // ----------------------------------------------- agreement with uncached lookups

  datatype Answer = Found(entity: Entity) | NotFound | AgentDown

  /** What the lookup returns when it bypasses the cache. */
  function Uncached(store: seq<Entity>, q: Query): Answer {
    match FirstMatch(store, q)
    case Some(e) => Found(e)
    case None => NotFound
  }

  /** A cached entity that may answer the query: by uid only while fresh, otherwise whatever its age. */
  predicate Hit(c: Cache, q: Query, now: nat, ttl: nat, uid: EntityUid) {
    uid in c && q.Matches(c[uid].entity) && (q.ByUid? ==> uid == q.uid && Elapsed(c[uid].inserted, now) < ttl)
  }

  datatype CacheConfig = CacheConfig(enabled: bool, ttl: nat)

  /** The cache may answer the query. */
  ghost predicate CanHit(config: CacheConfig, c: Cache, q: Query, now: nat) {
    config.enabled && exists uid :: Hit(c, q, now, config.ttl, uid)
  }

  /** The cache after a response has arrived. */
  function Filled(config: CacheConfig, c: Cache, store: seq<Entity>, now: nat): Cache {
    if config.enabled then WithAll(c, store, now) else c
  }

  /** One lookup; which of several hits is returned depends on hash order. */
  ghost predicate LookupStep(store: seq<Entity>, config: CacheConfig, up: bool, q: Query, now: nat,
                             c: Cache, c': Cache, a: Answer)
  {
    if CanHit(config, c, q, now)
    then c' == c && exists uid :: Hit(c, q, now, config.ttl, uid) && a == Found(c[uid].entity)
    else if up then c' == Filled(config, c, store, now) && a == Uncached(store, q)
    else c' == c && a == AgentDown
  }

  /** The client: a cache in front of the agent, whose answer is `store` while it is `up`. */
  class CedarClient {
    const enabled: bool
    const cache: CacheCell

    constructor (config: CacheConfig)
      ensures fresh(cache) && Config() == config && cache.entities == map[]
    {
      enabled := config.enabled;
      cache := new CacheCell(config.ttl);
    }

    function Config(): CacheConfig {
      CacheConfig(enabled, cache.ttl)
    }

    /** Look through the cache in an arbitrary order. */
    method Scan(q: Query) returns (r: Option<Entity>)
      requires !q.ByUid?
      ensures r.Some? ==> exists uid :: Hit(cache.entities, q, 0, cache.ttl, uid) && r.value == cache.entities[uid].entity
      ensures r.None? ==> forall uid :: !Hit(cache.entities, q, 0, cache.ttl, uid)
    {
      var rest := cache.entities.Keys;
      while rest != {}
        invariant rest <= cache.entities.Keys
        invariant forall uid :: uid in cache.entities && uid !in rest ==> !q.Matches(cache.entities[uid].entity)
      {
        var uid :| uid in rest;
        if q.Matches(cache.entities[uid].entity) {
          return Some(cache.entities[uid].entity);
        }
        rest := rest - {uid};
      }
      return None;
    }

    method Resolve(q: Query, store: seq<Entity>, up: bool, now: nat) returns (a: Answer)
      requires forall uid :: uid in cache.entities ==> cache.entities[uid].entity.uid == uid
      modifies cache
      ensures LookupStep(store, Config(), up, q, now, old(cache.entities), cache.entities, a)
    {
      if enabled {
        var hit: Option<Entity>;
        if q.ByUid? {
          hit := cache.Get(q.uid, now);
          assert hit.Some? ==> Hit(cache.entities, q, now, cache.ttl, q.uid);
        } else {
          hit := Scan(q);
          assert forall uid :: Hit(cache.entities, q, now, cache.ttl, uid) <==> Hit(cache.entities, q, 0, cache.ttl, uid);
        }
        if hit.Some? {
          return Found(hit.value);
        }
      }
      if !up {
        return AgentDown;
      }
      if enabled {
        cache.InsertAll(store, now);
      }
      var found := FirstMatch(store, q);
      a := if found.Some? then Found(found.value) else NotFound;
    }
  }

  // ------------------------------------------------------- a fetch serves later lookups

  /** Every entity of `store` is cached, no entry older than `since`. */
  ghost predicate HoldsAll(c: Cache, store: seq<Entity>, since: nat) {
    forall e {:trigger e in store} :: e in store ==> e.uid in c && c[e.uid].entity == e && c[e.uid].inserted >= since
  }

  lemma {:induction false} FetchHoldsAll(c: Cache, store: seq<Entity>, now: nat)
    requires UniqueUids(store)
    ensures HoldsAll(WithAll(c, store, now), store, now)
  {
    forall e | e in store ensures e.uid in WithAll(c, store, now) && WithAll(c, store, now)[e.uid] == Entry(e, now) {
      FetchStores(c, store, now, e);
    }
  }

  lemma {:induction false} FetchStores(c: Cache, store: seq<Entity>, now: nat, e: Entity)
    requires e in store && Unambiguous(store, ByUid(e.uid))
    ensures e.uid in WithAll(c, store, now) && WithAll(c, store, now)[e.uid] == Entry(e, now)
  {
    WithAllContents(c, store, now, e.uid);
    var held := WithAll(c, store, now)[e.uid].entity;
    assert ByUid(e.uid).Matches(held) && ByUid(e.uid).Matches(e);
  }

  /**
   A miss with the agent up fills the cache: each entity of the response is then found by its uid for one time
   to live, whether or not the agent is still up and whatever it would answer.
   */
  lemma {:induction false} FetchServesUid(store: seq<Entity>, config: CacheConfig, q: Query, now: nat, c: Cache, c1: Cache, a1: Answer, e: Entity,
                                          store': seq<Entity>, up: bool, later: nat, c2: Cache, a2: Answer)
    requires config.enabled && !CanHit(config, c, q, now) && LookupStep(store, config, true, q, now, c, c1, a1)
    requires e in store && Unambiguous(store, ByUid(e.uid)) && now <= later < now + config.ttl
    requires LookupStep(store', config, up, ByUid(e.uid), later, c1, c2, a2)
    ensures a2 == Found(e) && c2 == c1
  {
    FetchStores(c, store, now, e);
    assert Hit(c1, ByUid(e.uid), later, config.ttl, e.uid);
  }

  /** The same for an email or git remote that missed, at any later time: these lookups ignore the age. */
  lemma {:induction false} FetchServesAttribute(store: seq<Entity>, config: CacheConfig, q: Query, now: nat, c: Cache, c1: Cache, a1: Answer, e: Entity,
                                                store': seq<Entity>, up: bool, later: nat, c2: Cache, a2: Answer)
    requires config.enabled && !q.ByUid? && !CanHit(config, c, q, now) && LookupStep(store, config, true, q, now, c, c1, a1)
    requires e in store && q.Matches(e) && Unambiguous(store, q) && Unambiguous(store, ByUid(e.uid))
    requires LookupStep(store', config, up, q, later, c1, c2, a2)
    ensures a1 == Found(e) && a2 == Found(e) && c2 == c1
  {
    FetchStores(c, store, now, e);
    assert Hit(c1, q, later, config.ttl, e.uid);
    forall uid | Hit(c1, q, later, config.ttl, uid) ensures c1[uid].entity == e {
      assert !Hit(c, q, now, config.ttl, uid);
      WithAllContents(c, store, now, uid);
    }
  }

  datatype Op =
    | Lookup(q: Query, now: nat, up: bool)
    | Refresh(now: nat, up: bool)
    | ClearAll

  ghost predicate OpStep(store: seq<Entity>, config: CacheConfig, op: Op, c: Cache, c': Cache, a: Answer) {
    match op
    case Lookup(q, now, up) => LookupStep(store, config, up, q, now, c, c', a)
    case Refresh(now, up) => c' == (if up then Filled(config, map[], store, now) else map[])
    case ClearAll => c' == map[]
  }

  /** A run of client operations starting from an empty cache. */
  ghost predicate IsTrace(store: seq<Entity>, config: CacheConfig, ops: seq<Op>, caches: seq<Cache>, answers: seq<Answer>) {
    && |caches| == |ops| + 1 && |answers| == |ops|
    && caches[0] == map[]
    && forall i :: 0 <= i < |ops| ==> OpStep(store, config, ops[i], caches[i], caches[i + 1], answers[i])
  }

  /** The cache only holds entities of the store, each under its own uid. */
  ghost predicate DrawnFrom(c: Cache, store: seq<Entity>) {
    forall uid :: uid in c ==> c[uid].entity in store && c[uid].entity.uid == uid
  }

  lemma {:induction false} FetchKeepsDrawnFrom(c: Cache, store: seq<Entity>, now: nat)
    requires DrawnFrom(c, store)
    ensures DrawnFrom(WithAll(c, store, now), store)
  {
    forall uid { WithAllContents(c, store, now, uid); }
  }

  lemma {:induction false} CacheStaysDrawnFrom(store: seq<Entity>, config: CacheConfig, ops: seq<Op>, caches: seq<Cache>,
                                               answers: seq<Answer>, i: nat)
    requires IsTrace(store, config, ops, caches, answers) && i <= |ops|
    ensures DrawnFrom(caches[i], store)
  {
    if i > 0 {
      CacheStaysDrawnFrom(store, config, ops, caches, answers, i - 1);
      assert OpStep(store, config, ops[i - 1], caches[i - 1], caches[i], answers[i - 1]);
      match ops[i - 1]
      case Lookup(_, now, _) => FetchKeepsDrawnFrom(caches[i - 1], store, now);
      case Refresh(now, _) => FetchKeepsDrawnFrom(map[], store, now);
      case ClearAll =>
    }
  }

  /** The operation brings the whole store into an enabled cache. */
  ghost predicate Fetches(config: CacheConfig, op: Op, c: Cache) {
    match op
    case Lookup(q, now, up) => up && !CanHit(config, c, q, now)
    case Refresh(_, up) => up
    case ClearAll => false
  }

  /** The operation empties the cache for good: a clear, or a refresh that fails. */
  predicate Loses(op: Op) {
    op.ClearAll? || (op.Refresh? && !op.up)
  }

  lemma {:induction false} CacheKeepsAll(store: seq<Entity>, config: CacheConfig, op: Op, c: Cache, c': Cache, a: Answer, since: nat)
    requires config.enabled && UniqueUids(store) && OpStep(store, config, op, c, c', a)
    requires !Loses(op) && since <= op.now
    requires Fetches(config, op, c) || HoldsAll(c, store, since)
    ensures HoldsAll(c', store, since)
  {
    match op
    case Lookup(_, now, _) => FetchHoldsAll(c, store, now);
    case Refresh(now, _) => FetchHoldsAll(map[], store, now);
  }

  lemma {:induction false} HeldSinceFetch(store: seq<Entity>, config: CacheConfig, ops: seq<Op>, caches: seq<Cache>,
                                          answers: seq<Answer>, i: nat, j: nat)
    requires IsTrace(store, config, ops, caches, answers) && config.enabled && UniqueUids(store)
    requires i < j <= |ops| && Fetches(config, ops[i], caches[i])
    requires forall k :: i <= k < j ==> !Loses(ops[k]) && ops[i].now <= ops[k].now
    ensures HoldsAll(caches[j], store, ops[i].now)
  {
    if i < j - 1 {
      HeldSinceFetch(store, config, ops, caches, answers, i, j - 1);
    }
    assert OpStep(store, config, ops[j - 1], caches[j - 1], caches[j], answers[j - 1]);
    CacheKeepsAll(store, config, ops[j - 1], caches[j - 1], caches[j], answers[j - 1], ops[i].now);
  }

  /**
   Over any run against an unchanging store: once everything was fetched and until the cache is emptied, an
   unambiguous lookup with an answer gets it even if the agent is down, by uid for one time to live.
   */
  lemma {:induction false} FetchOutlivesAgent(store: seq<Entity>, config: CacheConfig, ops: seq<Op>, caches: seq<Cache>,
                                              answers: seq<Answer>, i: nat, j: nat, e: Entity)
    requires IsTrace(store, config, ops, caches, answers) && config.enabled && UniqueUids(store)
    requires i < j < |ops| && Fetches(config, ops[i], caches[i]) && ops[j].Lookup?
    requires forall k :: i <= k <= j ==> !Loses(ops[k]) && ops[i].now <= ops[k].now
    requires e in store && ops[j].q.Matches(e) && Unambiguous(store, ops[j].q)
    requires ops[j].q.ByUid? ==> ops[j].now < ops[i].now + config.ttl
    ensures answers[j] == Found(e) && caches[j + 1] == caches[j]
  {
    HeldSinceFetch(store, config, ops, caches, answers, i, j);
    CacheStaysDrawnFrom(store, config, ops, caches, answers, j);
    assert OpStep(store, config, ops[j], caches[j], caches[j + 1], answers[j]);
    assert Hit(caches[j], ops[j].q, ops[j].now, config.ttl, e.uid);
  }

  /**
   While the store does not change, caching is invisible: whatever ran before, every
   unambiguous lookup returns exactly what an uncached one would, unless it missed the cache
   while the agent was down.
   */
  lemma {:induction false} CachedEqualsUncached(store: seq<Entity>, config: CacheConfig, ops: seq<Op>, caches: seq<Cache>,
                             answers: seq<Answer>, i: nat)
    requires IsTrace(store, config, ops, caches, answers) && i < |ops| && ops[i].Lookup?
    requires Unambiguous(store, ops[i].q)
    ensures answers[i] == Uncached(store, ops[i].q)
            || (answers[i] == AgentDown && !ops[i].up && !CanHit(config, caches[i], ops[i].q, ops[i].now))
  {
    CacheStaysDrawnFrom(store, config, ops, caches, answers, i);
    assert OpStep(store, config, ops[i], caches[i], caches[i + 1], answers[i]);
  }
}

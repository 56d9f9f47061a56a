/** `run_github_sync` up to the stored mappings, and any sequence of such syncs by any tenants. */
module GitHubSync {
  import opened Common
  import opened Hierarchy
  import opened HierarchyStore
  import opened CreateHierarchy
  import opened GroupMappings
  import opened Paging

  datatype World = World(db: Db, mappings: Table)

  /** One sync: whose, of which groups, when, and the team ids it came to. */
  datatype Sync = Sync(tenant: nat, groups: seq<Group>, now: int, ids: map<string, nat>)

  ghost predicate SyncStep(w: World, w': World, s: Sync) {
    && w'.db.Valid()
    && Materialised(w.db, w'.db, s.tenant, HierarchyPlan(s.groups))
    && ResultMatches(w'.db, s.tenant, HierarchyPlan(s.groups), s.ids)
    && Stored(w.mappings, s.ids, s.now, w'.mappings)
  }

  /** `run_github_sync` against an organization whose teams are `teams`. */
  method RunGithubSync(db: Database, table: Table, tenant: nat, teams: seq<Team>, keep: string -> bool, now: int)
    returns (t: Table, ids: map<string, nat>)
    requires db.View().Valid() && |teams| / 100 + 1 < U32_LIMIT
    modifies db
    ensures SyncStep(World(old(db.View()), table), World(db.View(), t), Sync(tenant, Wanted(teams, keep), now, ids))
  {
    var groups, _ := FetchAllGroups(teams, keep);
    var created := db.CreateHierarchy(tenant, groups);
    ids := created.value;
    t := StoreMappings(table, ids, now);
  }

  // ------------------------------------------------------------- what one sync achieves

  predicate Names(groups: seq<Group>, slug: string) {
    exists g :: g in groups && g.id == slug
  }

  /** The mapped slugs are exactly the group ids, repeated or not. */
  lemma {:induction false} MappedSlugsAreGroupIds(db: Db, tenant: nat, groups: seq<Group>, ids: map<string, nat>, slug: string)
    requires ResultMatches(db, tenant, HierarchyPlan(groups), ids)
    ensures slug in ids <==> Names(groups, slug)
  {
    if slug in ids {
      var k :| IsTeamId(db, tenant, HierarchyPlan(groups), k, slug, ids[slug]);
      PlannedTeamIsGroup(groups, k);
    }
    if g :| g in groups && g.id == slug {
      GroupIsPlanned(groups, g);
    }
  }

  /** Every wanted team is mapped to a stored team of its name, in the organization of its root. */
  lemma {:induction false} EveryTeamIsMapped(w: World, w': World, tenant: nat, teams: seq<Team>, keep: string -> bool,
                                             now: int, ids: map<string, nat>, t: Team)
    requires SyncStep(w, w', Sync(tenant, Wanted(teams, keep), now, ids)) && DistinctIds(Wanted(teams, keep))
    requires t in teams && keep(t.name)
    ensures Slot(t.slug) in w'.mappings
    ensures StoredUnderRoot(w'.db, tenant, BySlug(Wanted(teams, keep)), ToGroup(t), w'.mappings[Slot(t.slug)].teamId)
  {
    var groups := Wanted(teams, keep);
    WantedMembers(teams, keep, ToGroup(t));
    ResultIsExact(w.db, w'.db, tenant, groups, ids);
    assert Returned(w'.db, tenant, BySlug(groups), ids, ToGroup(t));
  }

  /** A slug is mapped exactly if it is that of a wanted team; any other slug keeps the row it had, or none. */
  lemma {:induction false} OnlyWantedTeamsAreMapped(w: World, w': World, tenant: nat, teams: seq<Team>, keep: string -> bool,
                                                    now: int, ids: map<string, nat>, slug: string)
    requires SyncStep(w, w', Sync(tenant, Wanted(teams, keep), now, ids))
    ensures slug in ids <==> exists t :: t in teams && keep(t.name) && t.slug == slug
    ensures slug !in ids ==> (Slot(slug) in w'.mappings <==> Slot(slug) in w.mappings)
                             && (Slot(slug) in w.mappings ==> w'.mappings[Slot(slug)] == w.mappings[Slot(slug)])
  {
    var groups := Wanted(teams, keep);
    MappedSlugsAreGroupIds(w'.db, tenant, groups, ids, slug);
    if g :| g in groups && g.id == slug {
      WantedMembers(teams, keep, g);
    }
    if t :| t in teams && keep(t.name) && t.slug == slug {
      WantedMembers(teams, keep, ToGroup(t));
    }
  }

  /** A nested team and its parent are stored in one organization exactly unless the parent is on a longer cycle. */
  lemma {:induction false} NestedTeamJoinsParentIff(w: World, w': World, s: Sync, g: Group, p: Group)
    requires SyncStep(w, w', s) && DistinctIds(s.groups) && g in s.groups
    requires var m := BySlug(s.groups); Up(m, g) == Some(p)
    ensures p in s.groups && g.id in s.ids && p.id in s.ids
    ensures var m := BySlug(s.groups);
            (exists org :: InOrg(w'.db, s.tenant, org, g.id, s.ids[g.id]) && InOrg(w'.db, s.tenant, org, p.id, s.ids[p.id]))
            <==> !OnCycle(m, p) || Up(m, p) == Some(p)
  {
    var m := BySlug(s.groups);
    ResultIsExact(w.db, w'.db, s.tenant, s.groups, s.ids);
    assert Returned(w'.db, s.tenant, m, s.ids, g) && Returned(w'.db, s.tenant, m, s.ids, p);
    var gr, pr := Root(m, g).id, Root(m, p).id;
    assert InOrg(w'.db, s.tenant, gr, g.id, s.ids[g.id]) && InOrg(w'.db, s.tenant, pr, p.id, s.ids[p.id]);
    OrgOfTeamIsUnique(w'.db);
    RootsDifferIffIds(s.groups, g, p);
    ParentSharesRootIff(m, g);
  }

  lemma {:induction false} RootsDifferIffIds(groups: seq<Group>, g: Group, h: Group)
    requires DistinctIds(groups) && g in groups && h in groups
    ensures var m := BySlug(groups); Root(m, g) == Root(m, h) <==> Root(m, g).id == Root(m, h).id
  {
    var m := BySlug(groups);
    BySlugFindsAll(groups, g);
    BySlugFindsAll(groups, h);
    RootIsStored(m, g);
    RootIsStored(m, h);
  }

  // --------------------------------------------------------------------- ownership

  /** Team `id` has this slug and sits in this organization of the tenant. */
  predicate InOrg(db: Db, tenant: nat, org: string, slug: string, id: nat) {
    && OrgKey(tenant, org) in db.orgs
    && var key := TeamKey(db.orgs[OrgKey(tenant, org)].id, slug);
       key in db.teams && db.teams[key].id == id
  }

  ghost predicate OwnedBy(db: Db, tenant: nat, slug: string, id: nat) {
    exists org :: InOrg(db, tenant, org, slug, id)
  }

  lemma {:induction false} OrgOfTeamIsUnique(db: Db)
    requires db.Valid()
    ensures forall t, org, slug, t', org', slug', id :: InOrg(db, t, org, slug, id) && InOrg(db, t', org', slug', id) ==>
              t == t' && org == org' && slug == slug'
  {
  }

  /** Ownership outlasts every later sync. */
  lemma {:induction false} OwnershipIsKept(w: World, w': World, s: Sync, tenant: nat, slug: string, id: nat)
    requires SyncStep(w, w', s) && OwnedBy(w.db, tenant, slug, id)
    ensures OwnedBy(w'.db, tenant, slug, id)
  {
    var org :| InOrg(w.db, tenant, org, slug, id);
    assert InOrg(w'.db, tenant, org, slug, id);
  }

  lemma {:induction false} SyncOwnsItsTeams(w: World, w': World, s: Sync, slug: string)
    requires SyncStep(w, w', s) && slug in s.ids
    ensures OwnedBy(w'.db, s.tenant, slug, s.ids[slug])
  {
    var k :| IsTeamId(w'.db, s.tenant, HierarchyPlan(s.groups), k, slug, s.ids[slug]);
    assert InOrg(w'.db, s.tenant, k.org, slug, s.ids[slug]);
  }

  // ------------------------------------------------------------------- many syncs

  ghost predicate IsHistory(worlds: seq<World>, syncs: seq<Sync>) {
    && |worlds| == |syncs| + 1
    && forall i :: 0 <= i < |syncs| ==> StepAt(worlds, syncs, i)
  }

  ghost predicate StepAt(worlds: seq<World>, syncs: seq<Sync>, i: nat)
    requires i < |syncs| < |worlds|
  {
    SyncStep(worlds[i], worlds[i + 1], syncs[i])
  }

  /** The last of the first `n` syncs that had a group of this slug. */
  function LastNaming(syncs: seq<Sync>, n: nat, slug: string): Option<Sync>
    requires n <= |syncs|
  {
    if n == 0 then None
    else if Names(syncs[n - 1].groups, slug) then Some(syncs[n - 1])
    else LastNaming(syncs, n - 1, slug)
  }

  /** The mapping of `slug` is as in `w0` if no sync named it, else the one `last` came to, still owned by its tenant. */
  ghost predicate Follows(w0: World, w: World, last: Option<Sync>, slug: string) {
    match last
    case None =>
      && (Slot(slug) in w.mappings <==> Slot(slug) in w0.mappings)
      && (Slot(slug) in w.mappings ==> w.mappings[Slot(slug)] == w0.mappings[Slot(slug)])
    case Some(s) =>
      && Slot(slug) in w.mappings && slug in s.ids
      && w.mappings[Slot(slug)].teamId == s.ids[slug]
      && OwnedBy(w.db, s.tenant, slug, s.ids[slug])
  }

  lemma {:induction false} FollowsStep(w0: World, w: World, w': World, last: Option<Sync>, s: Sync, slug: string)
    requires Follows(w0, w, last, slug) && SyncStep(w, w', s)
    ensures Follows(w0, w', if Names(s.groups, slug) then Some(s) else last, slug)
  {
    MappedSlugsAreGroupIds(w'.db, s.tenant, s.groups, s.ids, slug);
    if Names(s.groups, slug) {
      SyncOwnsItsTeams(w, w', s, slug);
    } else if last.Some? {
      OwnershipIsKept(w, w', s, last.value.tenant, slug, last.value.ids[slug]);
    }
  }

  lemma {:induction false} FollowsAt(worlds: seq<World>, syncs: seq<Sync>, n: nat, slug: string)
    requires n < |syncs| < |worlds| && StepAt(worlds, syncs, n)
    requires Follows(worlds[0], worlds[n], LastNaming(syncs, n, slug), slug)
    ensures Follows(worlds[0], worlds[n + 1], LastNaming(syncs, n + 1, slug), slug)
  {
    FollowsStep(worlds[0], worlds[n], worlds[n + 1], LastNaming(syncs, n, slug), syncs[n], slug);
  }

  /**
   Over any sequence of syncs the mapping of a slug is the one the last sync naming it came to, and the
   team it points to is still stored and owned by that sync's tenant.
   */
  lemma {:induction false} MappingFollowsLastSync(worlds: seq<World>, syncs: seq<Sync>, n: nat, slug: string)
    requires IsHistory(worlds, syncs) && n <= |syncs|
    ensures Follows(worlds[0], worlds[n], LastNaming(syncs, n, slug), slug)
  {
    if n > 0 {
      MappingFollowsLastSync(worlds, syncs, n - 1, slug);
      FollowsAt(worlds, syncs, n - 1, slug);
    }
  }

  /** The first of the first `n` syncs that had a group of this slug. */
  function FirstNaming(syncs: seq<Sync>, n: nat, slug: string): Option<Sync>
    requires n <= |syncs|
  {
    if n == 0 then None
    else
      var earlier := FirstNaming(syncs, n - 1, slug);
      if earlier.None? && Names(syncs[n - 1].groups, slug) then Some(syncs[n - 1]) else earlier
  }

  /** The row of `slug` dates from `w0` if it was there, else from the sync `first`. */
  ghost predicate Dated(w0: World, w: World, first: Option<Sync>, slug: string) {
    && (Slot(slug) in w.mappings <==> Slot(slug) in w0.mappings || first.Some?)
    && (Slot(slug) in w0.mappings ==> w.mappings[Slot(slug)].createdAt == w0.mappings[Slot(slug)].createdAt)
    && (Slot(slug) !in w0.mappings && first.Some? ==> w.mappings[Slot(slug)].createdAt == first.value.now)
  }

  /** What step `i` does to the date of the row of `slug`. */
  ghost predicate DateStep(worlds: seq<World>, syncs: seq<Sync>, i: nat, slug: string)
    requires i < |syncs| < |worlds|
  {
    var before, after, named := worlds[i].mappings, worlds[i + 1].mappings, Names(syncs[i].groups, slug);
    && (Slot(slug) in after <==> Slot(slug) in before || named)
    && (Slot(slug) in before ==> after[Slot(slug)].createdAt == before[Slot(slug)].createdAt)
    && (Slot(slug) !in before && named ==> after[Slot(slug)].createdAt == syncs[i].now)
  }

  lemma {:induction false} SyncIsDateStep(worlds: seq<World>, syncs: seq<Sync>, i: nat, slug: string)
    requires i < |syncs| < |worlds| && StepAt(worlds, syncs, i)
    ensures DateStep(worlds, syncs, i, slug)
  {
    var s := syncs[i];
    MappedSlugsAreGroupIds(worlds[i + 1].db, s.tenant, s.groups, s.ids, slug);
  }

  lemma {:induction false} DatesAreKept(worlds: seq<World>, syncs: seq<Sync>, n: nat, slug: string)
    requires n <= |syncs| < |worlds| && forall i :: 0 <= i < n ==> DateStep(worlds, syncs, i, slug)
    ensures Dated(worlds[0], worlds[n], FirstNaming(syncs, n, slug), slug)
  {
    if n > 0 {
      DatesAreKept(worlds, syncs, n - 1, slug);
      assert DateStep(worlds, syncs, n - 1, slug);
    }
  }

  /** Over any sequence of syncs a mapping keeps the time of the first sync that named it. */
  lemma {:induction false} CreationTimeIsKept(worlds: seq<World>, syncs: seq<Sync>, n: nat, slug: string)
    requires IsHistory(worlds, syncs) && n <= |syncs|
    ensures Dated(worlds[0], worlds[n], FirstNaming(syncs, n, slug), slug)
  {
    forall i | 0 <= i < n ensures DateStep(worlds, syncs, i, slug) {
      SyncIsDateStep(worlds, syncs, i, slug);
    }
    DatesAreKept(worlds, syncs, n, slug);
  }

  /**
   A tenant that has synced a group finds it mapped to one of its own teams exactly while the last sync that
   named such a group was its own.
   */
  lemma {:induction false} TenantKeepsMappingIff(worlds: seq<World>, syncs: seq<Sync>, i: nat, slug: string)
    requires IsHistory(worlds, syncs) && i < |syncs| && Names(syncs[i].groups, slug)
    ensures var w, last := worlds[|syncs|], LastNaming(syncs, |syncs|, slug);
            && last.Some? && Slot(slug) in w.mappings
            && (OwnedBy(w.db, syncs[i].tenant, slug, w.mappings[Slot(slug)].teamId) <==> last.value.tenant == syncs[i].tenant)
  {
    var n := |syncs|;
    NamedStaysNamed(syncs, n, i, slug);
    MappingFollowsLastSync(worlds, syncs, n, slug);
    assert StepAt(worlds, syncs, n - 1);
    OrgOfTeamIsUnique(worlds[n].db);
  }

  lemma {:induction false} NamedStaysNamed(syncs: seq<Sync>, n: nat, i: nat, slug: string)
    requires i < n <= |syncs| && Names(syncs[i].groups, slug)
    ensures LastNaming(syncs, n, slug).Some?
  {
    if i < n - 1 {
      NamedStaysNamed(syncs, n - 1, i, slug);
    }
  }

  /**
   Two tenants, one after the other: the first tenant's mapping of a group survives exactly when the second
   tenant has no group of the same slug.
   */
  lemma {:induction false} MappingSurvivesOtherTenantIff(w0: World, w1: World, w2: World, a: Sync, b: Sync, slug: string)
    requires SyncStep(w0, w1, a) && SyncStep(w1, w2, b) && a.tenant != b.tenant && Names(a.groups, slug)
    ensures slug in a.ids && Slot(slug) in w1.mappings && w1.mappings[Slot(slug)].teamId == a.ids[slug]
    ensures Slot(slug) in w2.mappings
    ensures w2.mappings[Slot(slug)] == w1.mappings[Slot(slug)] <==> !Names(b.groups, slug)
  {
    MappedSlugsAreGroupIds(w1.db, a.tenant, a.groups, a.ids, slug);
    MappedSlugsAreGroupIds(w2.db, b.tenant, b.groups, b.ids, slug);
    SyncOwnsItsTeams(w0, w1, a, slug);
    OwnershipIsKept(w1, w2, b, a.tenant, slug, a.ids[slug]);
    OrgOfTeamIsUnique(w2.db);
    if slug in b.ids {
      SyncOwnsItsTeams(w1, w2, b, slug);
    }
  }

  /** Syncing the same groups again changes no organization, team or mapping. */
  lemma {:induction false} SyncIsIdempotent(w0: World, w1: World, w2: World, a: Sync, b: Sync)
    requires SyncStep(w0, w1, a) && SyncStep(w1, w2, b)
    requires a.tenant == b.tenant && a.groups == b.groups && DistinctIds(a.groups)
    ensures a.ids == b.ids && w2.db.orgs == w1.db.orgs && w2.db.teams == w1.db.teams && w2.mappings == w1.mappings
  {
    CreateHierarchyIsIdempotent(w0.db, w1.db, w2.db, a.tenant, a.groups, a.ids, b.ids);
    StoringTwiceChangesNothing(w0.mappings, a.ids, a.now, w1.mappings, b.now, w2.mappings);
  }
}

/** `create_hierarchy`: group teams under their roots, then upsert organizations and teams. */
module CreateHierarchy {
  import opened Common
  import opened Text
  import opened Hierarchy
  import opened HierarchyStore

  datatype TeamInput = TeamInput(slug: string, name: string)

  datatype OrgInput = OrgInput(name: string, teams: seq<TeamInput>)

  type OrgInputs = map<string, OrgInput>

  // ---------------------------------------------------------------------- grouping

  /** Append a team to the entry of its root, creating the entry on first use. */
  function AddTeamTo(inputs: OrgInputs, root: string, rootName: string, g: Group): OrgInputs {
    var entry := if root in inputs then inputs[root] else OrgInput(rootName, []);
    inputs[root := entry.(teams := entry.teams + [TeamInput(g.id, g.name)])]
  }

  function RootName(m: SlugMap, root: string): string {
    if root in m then m[root].name else ""
  }

  function Grouped(m: SlugMap, groups: seq<Group>): OrgInputs {
    if groups == [] then map[]
    else
      var g := groups[|groups| - 1];
      AddTeamTo(Grouped(m, groups[..|groups| - 1]), Root(m, g).id, RootName(m, Root(m, g).id), g)
  }

  /** The grouping loop; its "missing root group" error is never taken. */
  method GroupByRoot(groups: seq<Group>) returns (r: Result<OrgInputs, string>)
    ensures r == Ok(Grouped(BySlug(groups), groups))
  {
    var m := BySlug(groups);
    var inputs: OrgInputs := map[];
    for i := 0 to |groups|
      invariant inputs == Grouped(m, groups[..i])
    {
      assert groups[..i + 1][..i] == groups[..i];
      var root := RootSlug(groups[i], m);
      RootIsStored(m, groups[i]);
      if root !in m {
        return Err("Missing root group");
      }
      inputs := AddTeamTo(inputs, root, m[root].name, groups[i]);
    }
    assert groups[..|groups|] == groups;
    return Ok(inputs);
  }

  ghost predicate DistinctSlugs(ts: seq<TeamInput>) {
    forall i, j :: 0 <= i < j < |ts| ==> ts[i].slug != ts[j].slug
  }

  lemma {:induction false} GroupedContents(m: SlugMap, groups: seq<Group>, s: string)
    ensures var inputs := Grouped(m, groups);
            && (s in inputs <==> exists g :: g in groups && Root(m, g).id == s)
            && (s in inputs ==>
                && inputs[s].name == RootName(m, s)
                && (forall t :: t in inputs[s].teams <==>
                      exists g :: g in groups && Root(m, g).id == s && t == TeamInput(g.id, g.name)))
  {
    if groups != [] {
      var front, g := groups[..|groups| - 1], groups[|groups| - 1];
      assert groups == front + [g];
      GroupedContents(m, front, s);
    }
  }

  lemma {:induction false} GroupedIsDistinct(m: SlugMap, groups: seq<Group>, s: string)
    requires DistinctIds(groups) && s in Grouped(m, groups)
    ensures DistinctSlugs(Grouped(m, groups)[s].teams)
  {
    var front, g := groups[..|groups| - 1], groups[|groups| - 1];
    assert groups == front + [g];
    GroupedContents(m, front, s);
    if s in Grouped(m, front) {
      GroupedIsDistinct(m, front, s);
      var ts := Grouped(m, front)[s].teams;
      forall i | 0 <= i < |ts| ensures ts[i].slug != g.id {
        assert ts[i] in ts;
        var h :| h in front && ts[i] == TeamInput(h.id, h.name);
      }
    }
  }

  /** `g` is listed under organization `s`. */
  ghost predicate Listed(inputs: OrgInputs, s: string, g: Group) {
    s in inputs && TeamInput(g.id, g.name) in inputs[s].teams
  }

  /**
   The grouping is a partition: each group is listed once, under its root and nowhere else, and
   every organization lists the team that carries its own slug and name.
   */
  lemma {:induction false} GroupingIsPartition(groups: seq<Group>)
    requires DistinctIds(groups)
    ensures var m := BySlug(groups); var inputs := Grouped(m, groups);
            && (forall g, s :: g in groups ==> (Listed(inputs, s, g) <==> s == Root(m, g).id))
            && (forall s :: s in inputs ==> DistinctSlugs(inputs[s].teams) && s in m && Listed(inputs, s, m[s]))
            && (forall s, t :: s in inputs && t in inputs[s].teams ==>
                  exists g :: g in groups && t == TeamInput(g.id, g.name))
  {
    var m := BySlug(groups);
    var inputs := Grouped(m, groups);
    forall g, s | g in groups ensures Listed(inputs, s, g) <==> s == Root(m, g).id {
      ListedUnderRootOnly(groups, g, s);
    }
    forall s | s in inputs ensures DistinctSlugs(inputs[s].teams) && s in m && Listed(inputs, s, m[s]) {
      GroupedContents(m, groups, s);
      var g :| g in groups && Root(m, g).id == s;
      OrgListsItsOwnTeam(groups, g);
    }
    forall s, t | s in inputs && t in inputs[s].teams ensures exists g :: g in groups && t == TeamInput(g.id, g.name) {
      GroupedContents(m, groups, s);
    }
  }

  lemma {:induction false} ListedUnderRootOnly(groups: seq<Group>, g: Group, s: string)
    requires DistinctIds(groups) && g in groups
    ensures Listed(Grouped(BySlug(groups), groups), s, g) <==> s == Root(BySlug(groups), g).id
  {
    var m := BySlug(groups);
    GroupedContents(m, groups, s);
    if Listed(Grouped(m, groups), s, g) {
      var h :| h in groups && Root(m, h).id == s && TeamInput(g.id, g.name) == TeamInput(h.id, h.name);
      BySlugFindsAll(groups, g);
      BySlugFindsAll(groups, h);
    }
  }

  lemma {:induction false} OrgListsItsOwnTeam(groups: seq<Group>, g: Group)
    requires DistinctIds(groups) && g in groups
    ensures var m := BySlug(groups); var inputs, s := Grouped(m, groups), Root(m, g).id;
            s in inputs && DistinctSlugs(inputs[s].teams) && s in m && Listed(inputs, s, m[s])
  {
    var m := BySlug(groups);
    var s := Root(m, g).id;
    GroupedContents(m, groups, s);
    GroupedIsDistinct(m, groups, s);
    BySlugFindsAll(groups, g);
    RootIsStored(m, g);
    RootIsIdempotent(m, g);
    ListedUnderRootOnly(groups, m[s], s);
  }

  // -------------------------------------------------------------------------- plan

  function WithTeams(p: Plan, org: string, ts: seq<TeamInput>): Plan {
    if ts == [] then p
    else
      var q, t := WithTeams(p, org, ts[..|ts| - 1]), ts[|ts| - 1];
      q.(teams := q.teams[Place(org, t.slug) := t.name])
  }

  /** The plan built by upserting the organizations `slugs` in this order, each with its teams. */
  function WithOrgs(inputs: OrgInputs, slugs: seq<string>): Plan
    requires forall s :: s in slugs ==> s in inputs
  {
    if slugs == [] then EmptyPlan
    else
      var p, s := WithOrgs(inputs, slugs[..|slugs| - 1]), slugs[|slugs| - 1];
      WithTeams(p.(orgs := p.orgs[s := inputs[s].name]), s, inputs[s].teams)
  }

  ghost function HierarchyPlan(groups: seq<Group>): Plan {
    var inputs := Grouped(BySlug(groups), groups);
    WithOrgs(inputs, SortedKeys(inputs.Keys))
  }

  lemma {:induction false} WithTeamsContents(p: Plan, org: string, ts: seq<TeamInput>, k: Place)
    ensures WithTeams(p, org, ts).orgs == p.orgs
    ensures k in WithTeams(p, org, ts).teams <==> k in p.teams || (k.org == org && exists t :: t in ts && t.slug == k.team)
    ensures k.org != org && k in p.teams ==> WithTeams(p, org, ts).teams[k] == p.teams[k]
    ensures DistinctSlugs(ts) && k.org == org ==> forall t :: t in ts && t.slug == k.team ==> WithTeams(p, org, ts).teams[k] == t.name
  {
    if ts != [] {
      assert ts == ts[..|ts| - 1] + [ts[|ts| - 1]];
      WithTeamsContents(p, org, ts[..|ts| - 1], k);
    }
  }

  lemma {:induction false} WithOrgsContents(inputs: OrgInputs, slugs: seq<string>, k: Place)
    requires NoRepeats(slugs) && forall s :: s in slugs ==> s in inputs
    ensures var p := WithOrgs(inputs, slugs);
            && (forall s :: s in p.orgs <==> s in slugs)
            && (forall s :: s in p.orgs ==> p.orgs[s] == inputs[s].name)
            && (k in p.teams <==> k.org in slugs && exists t :: t in inputs[k.org].teams && t.slug == k.team)
            && (k.org in slugs && DistinctSlugs(inputs[k.org].teams) ==>
                  forall t :: t in inputs[k.org].teams && t.slug == k.team ==> p.teams[k] == t.name)
  {
    if slugs != [] {
      var front, s := slugs[..|slugs| - 1], slugs[|slugs| - 1];
      assert slugs == front + [s];
      WithOrgsContents(inputs, front, k);
      var p := WithOrgs(inputs, front);
      WithTeamsContents(p.(orgs := p.orgs[s := inputs[s].name]), s, inputs[s].teams, k);
    }
  }

  lemma {:induction false} TeamIsPlaced(inputs: OrgInputs, slugs: seq<string>, s: string, t: TeamInput)
    requires NoRepeats(slugs) && (forall x :: x in slugs ==> x in inputs) && s in slugs
    requires t in inputs[s].teams && DistinctSlugs(inputs[s].teams)
    ensures Place(s, t.slug) in WithOrgs(inputs, slugs).teams && WithOrgs(inputs, slugs).teams[Place(s, t.slug)] == t.name
  {
    WithOrgsContents(inputs, slugs, Place(s, t.slug));
  }

  lemma {:induction false} NotYetPlanned(inputs: OrgInputs, slugs: seq<string>, i: nat)
    requires NoRepeats(slugs) && i < |slugs| && forall s :: s in slugs ==> s in inputs
    ensures forall s :: s in slugs[..i] ==> s in inputs
    ensures slugs[i] !in WithOrgs(inputs, slugs[..i]).orgs
    ensures var p := WithOrgs(inputs, slugs[..i]);
            WithOrgs(inputs, slugs[..i + 1]) ==
            WithTeams(p.(orgs := p.orgs[slugs[i] := inputs[slugs[i]].name]), slugs[i], inputs[slugs[i]].teams)
  {
    WithOrgsContents(inputs, slugs[..i], Place("", ""));
    assert slugs[..i + 1][..i] == slugs[..i];
  }

  /** `g` has a place under its root in the plan, even if its id is repeated. */
  lemma {:induction false} GroupIsPlanned(groups: seq<Group>, g: Group)
    requires g in groups
    ensures Place(Root(BySlug(groups), g).id, g.id) in HierarchyPlan(groups).teams
  {
    var m := BySlug(groups);
    var inputs, s := Grouped(m, groups), Root(m, g).id;
    GroupedContents(m, groups, s);
    assert TeamInput(g.id, g.name) in inputs[s].teams;
    WithOrgsContents(inputs, SortedKeys(inputs.Keys), Place(s, g.id));
  }

  /** With distinct ids the place carries the name of `g`. */
  lemma {:induction false} PlanPlacesGroup(groups: seq<Group>, g: Group)
    requires DistinctIds(groups) && g in groups
    ensures var k := Place(Root(BySlug(groups), g).id, g.id);
            k in HierarchyPlan(groups).teams && HierarchyPlan(groups).teams[k] == g.name
  {
    var m := BySlug(groups);
    var inputs, s := Grouped(m, groups), Root(m, g).id;
    GroupedContents(m, groups, s);
    GroupedIsDistinct(m, groups, s);
    TeamIsPlaced(inputs, SortedKeys(inputs.Keys), s, TeamInput(g.id, g.name));
  }

  /** Every planned team is one of the groups under its root. */
  lemma {:induction false} PlannedTeamIsGroup(groups: seq<Group>, k: Place)
    requires k in HierarchyPlan(groups).teams
    ensures exists g :: g in groups && k == Place(Root(BySlug(groups), g).id, g.id)
  {
    var m := BySlug(groups);
    var inputs := Grouped(m, groups);
    WithOrgsContents(inputs, SortedKeys(inputs.Keys), k);
    GroupedContents(m, groups, k.org);
    var t :| t in inputs[k.org].teams && t.slug == k.team;
  }

  /** The planned organizations are exactly the roots, under the root group's name. */
  lemma {:induction false} PlannedOrgsAreRoots(groups: seq<Group>, s: string)
    ensures var m, p := BySlug(groups), HierarchyPlan(groups);
            && (s in p.orgs <==> exists g :: g in groups && Root(m, g).id == s)
            && (s in p.orgs ==> p.orgs[s] == RootName(m, s))
  {
    var m := BySlug(groups);
    var inputs := Grouped(m, groups);
    WithOrgsContents(inputs, SortedKeys(inputs.Keys), Place(s, s));
    GroupedContents(m, groups, s);
  }

  // ------------------------------------------------------------------- the database

  /** Each returned team id is that of a planned team of that slug. */
  ghost predicate ResultMatches(db: Db, tenant: nat, p: Plan, ids: map<string, nat>) {
    && (forall k :: k in p.teams ==> k.team in ids)
    && (forall t :: t in ids ==> exists k :: IsTeamId(db, tenant, p, k, t, ids[t]))
  }

  predicate IsTeamId(db: Db, tenant: nat, p: Plan, k: Place, slug: string, id: nat) {
    && k in p.teams && k.team == slug
    && OrgKey(tenant, k.org) in db.orgs && TeamKeyOf(db, tenant, k) in db.teams
    && db.teams[TeamKeyOf(db, tenant, k)].id == id
  }

  lemma {:induction false} ResultAfterOrg(db: Db, tenant: nat, p: Plan, ids: map<string, nat>, slug: string, name: string)
    requires TeamsInPlace(db, tenant, p) && slug !in p.orgs && ResultMatches(db, tenant, p, ids)
    ensures ResultMatches(UpsertOrg(db, OrgKey(tenant, slug), name), tenant, p.(orgs := p.orgs[slug := name]), ids)
  {
    var db', p' := UpsertOrg(db, OrgKey(tenant, slug), name), p.(orgs := p.orgs[slug := name]);
    OrgStepKeys(db, tenant, p, slug, name);
    forall t | t in ids ensures exists k :: IsTeamId(db', tenant, p', k, t, ids[t]) {
      var k :| IsTeamId(db, tenant, p, k, t, ids[t]);
      assert IsTeamId(db', tenant, p', k, t, ids[t]);
    }
  }

  lemma {:induction false} ResultAfterTeam(db: Db, tenant: nat, p: Plan, ids: map<string, nat>, k: Place, name: string)
    requires OrgKey(tenant, k.org) in db.orgs && ResultMatches(db, tenant, p, ids)
    ensures var db' := UpsertTeam(db, TeamKeyOf(db, tenant, k), name);
            ResultMatches(db', tenant, p.(teams := p.teams[k := name]),
                          ids[k.team := db'.teams[TeamKeyOf(db, tenant, k)].id])
  {
    var key := TeamKeyOf(db, tenant, k);
    var db', p' := UpsertTeam(db, key, name), p.(teams := p.teams[k := name]);
    var ids' := ids[k.team := db'.teams[key].id];
    forall t | t in ids' ensures exists k' :: IsTeamId(db', tenant, p', k', t, ids'[t]) {
      if t == k.team {
        assert IsTeamId(db', tenant, p', k, t, ids'[t]);
      } else {
        var k' :| IsTeamId(db, tenant, p, k', t, ids[t]);
        assert IsTeamId(db', tenant, p', k', t, ids'[t]);
      }
    }
  }

  class Database {
    var orgs: map<OrgKey, Row>
    var teams: map<TeamKey, Row>
    var nextId: nat

    constructor (db: Db)
      ensures View() == db
    {
      orgs, teams, nextId := db.orgs, db.teams, db.nextId;
    }

    function View(): Db
      reads this
    {
      Db(orgs, teams, nextId)
    }

    method EnsureOrg(key: OrgKey, name: string) returns (id: nat)
      modifies this
      ensures View() == UpsertOrg(old(View()), key, name) && id == orgs[key].id
    {
      id := if key in orgs then orgs[key].id else nextId;
      orgs := orgs[key := Row(id, name)];
      nextId := nextId + 1;
    }

    method EnsureTeam(key: TeamKey, name: string) returns (id: nat)
      modifies this
      ensures View() == UpsertTeam(old(View()), key, name) && id == teams[key].id
    {
      id := if key in teams then teams[key].id else nextId;
      teams := teams[key := Row(id, name)];
      nextId := nextId + 1;
    }

    /** Upsert the teams of one organization. */
    method EnsureTeams(ghost db0: Db, tenant: nat, org: string, orgId: nat, ts: seq<TeamInput>,
                       ghost p: Plan, ids: map<string, nat>)
      returns (ids': map<string, nat>)
      requires View().Valid() && org in p.orgs && Materialised(db0, View(), tenant, p) && ResultMatches(View(), tenant, p, ids)
      requires orgId == orgs[OrgKey(tenant, org)].id
      modifies this
      ensures View().Valid() && Materialised(db0, View(), tenant, WithTeams(p, org, ts))
      ensures ResultMatches(View(), tenant, WithTeams(p, org, ts), ids')
    {
      ids' := ids;
      for i := 0 to |ts|
        invariant View().Valid() && orgs == old(orgs)
        invariant Materialised(db0, View(), tenant, WithTeams(p, org, ts[..i]))
        invariant ResultMatches(View(), tenant, WithTeams(p, org, ts[..i]), ids')
        invariant WithTeams(p, org, ts[..i]).orgs == p.orgs
      {
        assert ts[..i + 1][..i] == ts[..i];
        ghost var db, q, k := View(), WithTeams(p, org, ts[..i]), Place(org, ts[i].slug);
        TeamStep(db0, db, tenant, q, k, ts[i].name);
        ResultAfterTeam(db, tenant, q, ids', k, ts[i].name);
        UpsertsKeepValid(db, OrgKey(tenant, org), TeamKeyOf(db, tenant, k), ts[i].name);
        var id := EnsureTeam(TeamKey(orgId, ts[i].slug), ts[i].name);
        ids' := ids'[ts[i].slug := id];
      }
      assert ts[..|ts|] == ts;
    }

    /** Upsert one organization and then its teams. */
    method EnsureOrgWithTeams(ghost db0: Db, tenant: nat, s: string, input: OrgInput, ghost p: Plan, ids: map<string, nat>)
      returns (ids': map<string, nat>)
      requires View().Valid() && s !in p.orgs && Materialised(db0, View(), tenant, p) && ResultMatches(View(), tenant, p, ids)
      modifies this
      ensures View().Valid()
      ensures var p' := WithTeams(p.(orgs := p.orgs[s := input.name]), s, input.teams);
              Materialised(db0, View(), tenant, p') && ResultMatches(View(), tenant, p', ids')
    {
      ghost var db := View();
      OrgStep(db0, db, tenant, p, s, input.name);
      ResultAfterOrg(db, tenant, p, ids, s, input.name);
      UpsertsKeepValid(db, OrgKey(tenant, s), TeamKey(0, s), input.name);
      var orgId := EnsureOrg(OrgKey(tenant, s), input.name);
      ids' := EnsureTeams(db0, tenant, s, orgId, input.teams, p.(orgs := p.orgs[s := input.name]), ids);
    }

    /** Upsert the organizations `slugs` in this order, each with its teams. */
    method EnsureAll(tenant: nat, inputs: OrgInputs, slugs: seq<string>) returns (ids: map<string, nat>)
      requires View().Valid() && NoRepeats(slugs) && forall s :: s in slugs ==> s in inputs
      modifies this
      ensures View().Valid()
      ensures Materialised(old(View()), View(), tenant, WithOrgs(inputs, slugs))
      ensures ResultMatches(View(), tenant, WithOrgs(inputs, slugs), ids)
    {
      ids := map[];
      ghost var db0 := View();
      ghost var p := EmptyPlan;
      for i := 0 to |slugs|
        invariant View().Valid() && p == WithOrgs(inputs, slugs[..i])
        invariant Materialised(db0, View(), tenant, p) && ResultMatches(View(), tenant, p, ids)
      {
        NotYetPlanned(inputs, slugs, i);
        ids := EnsureOrgWithTeams(db0, tenant, slugs[i], inputs[slugs[i]], p, ids);
        p := WithTeams(p.(orgs := p.orgs[slugs[i] := inputs[slugs[i]].name]), slugs[i], inputs[slugs[i]].teams);
      }
      assert slugs[..|slugs|] == slugs;
    }

    /** `create_hierarchy` for one tenant. */
    method CreateHierarchy(tenant: nat, groups: seq<Group>) returns (r: Result<map<string, nat>, string>)
      requires View().Valid()
      modifies this
      ensures View().Valid()
      ensures Materialised(old(View()), View(), tenant, HierarchyPlan(groups))
      ensures r.Ok? && ResultMatches(View(), tenant, HierarchyPlan(groups), r.value)
    {
      var grouped := GroupByRoot(groups);
      var slugs := CollectSorted(grouped.value.Keys);
      var ids := EnsureAll(tenant, grouped.value, slugs);
      return Ok(ids);
    }
  }

  /** `id` is the team row of `g` inside the organization of its root. */
  predicate StoredUnderRoot(db: Db, tenant: nat, m: SlugMap, g: Group, id: nat) {
    var org := OrgKey(tenant, Root(m, g).id);
    && org in db.orgs && db.orgs[org].name == RootName(m, org.slug)
    && TeamKey(db.orgs[org].id, g.id) in db.teams
    && db.teams[TeamKey(db.orgs[org].id, g.id)] == Row(id, g.name)
  }

  predicate Returned(db: Db, tenant: nat, m: SlugMap, ids: map<string, nat>, g: Group) {
    g.id in ids && StoredUnderRoot(db, tenant, m, g, ids[g.id])
  }

  /** The result maps each group, and nothing else, to its stored team. */
  ghost predicate ExactResult(db: Db, tenant: nat, groups: seq<Group>, ids: map<string, nat>) {
    && (forall s :: s in ids ==> exists g :: g in groups && g.id == s)
    && (forall g {:trigger Returned(db, tenant, BySlug(groups), ids, g)} :: g in groups ==>
          Returned(db, tenant, BySlug(groups), ids, g))
  }

  /** What `create_hierarchy` leaves behind for distinct ids, group by group. */
  lemma {:induction false} ResultIsExact(db0: Db, db: Db, tenant: nat, groups: seq<Group>, ids: map<string, nat>)
    requires DistinctIds(groups) && Materialised(db0, db, tenant, HierarchyPlan(groups))
    requires ResultMatches(db, tenant, HierarchyPlan(groups), ids)
    ensures ExactResult(db, tenant, groups, ids)
  {
    var p := HierarchyPlan(groups);
    forall g | g in groups
      ensures Returned(db, tenant, BySlug(groups), ids, g)
    {
      GroupIsStored(db0, db, tenant, groups, ids, g);
    }
    forall s | s in ids ensures exists g :: g in groups && g.id == s {
      var k :| IsTeamId(db, tenant, p, k, s, ids[s]);
      PlannedTeamIsGroup(groups, k);
    }
  }

  lemma {:induction false} GroupIsStored(db0: Db, db: Db, tenant: nat, groups: seq<Group>, ids: map<string, nat>, g: Group)
    requires DistinctIds(groups) && Materialised(db0, db, tenant, HierarchyPlan(groups))
    requires ResultMatches(db, tenant, HierarchyPlan(groups), ids) && g in groups
    ensures Returned(db, tenant, BySlug(groups), ids, g)
  {
    var p, place := HierarchyPlan(groups), Place(Root(BySlug(groups), g).id, g.id);
    PlanPlacesGroup(groups, g);
    PlannedOrgsAreRoots(groups, place.org);
    assert place.team in ids;
    var k :| IsTeamId(db, tenant, p, k, g.id, ids[g.id]);
    PlannedTeamIsGroup(groups, k);
    var h :| h in groups && k == Place(Root(BySlug(groups), h).id, h.id);
    BySlugFindsAll(groups, g);
    BySlugFindsAll(groups, h);
    assert k == place;
  }

  /** The organization of a group's root is called what the group found under the root's slug is called. */
  lemma {:induction false} OrgCarriesRootName(db0: Db, db: Db, tenant: nat, groups: seq<Group>, g: Group)
    requires g in groups && Materialised(db0, db, tenant, HierarchyPlan(groups))
    ensures var m := BySlug(groups); var root := Root(m, g);
            && root.id in m && OrgKey(tenant, root.id) in db.orgs
            && db.orgs[OrgKey(tenant, root.id)].name == m[root.id].name
            && (DistinctIds(groups) ==> db.orgs[OrgKey(tenant, root.id)].name == root.name)
  {
    var m := BySlug(groups);
    RootIsStored(m, g);
    PlannedOrgsAreRoots(groups, Root(m, g).id);
    if DistinctIds(groups) {
      BySlugFindsAll(groups, g);
    }
  }

  /**
   Running `create_hierarchy` twice on the same distinct groups returns the same ids and leaves
   both tables as the first run left them.
   */
  lemma {:induction false} CreateHierarchyIsIdempotent(db: Db, db1: Db, db2: Db, tenant: nat, groups: seq<Group>,
                                    ids1: map<string, nat>, ids2: map<string, nat>)
    requires DistinctIds(groups)
    requires Materialised(db, db1, tenant, HierarchyPlan(groups)) && ResultMatches(db1, tenant, HierarchyPlan(groups), ids1)
    requires Materialised(db1, db2, tenant, HierarchyPlan(groups)) && ResultMatches(db2, tenant, HierarchyPlan(groups), ids2)
    ensures ids1 == ids2 && db2.orgs == db1.orgs && db2.teams == db1.teams
  {
    MaterialisingTwiceChangesNothing(db, db1, db2, tenant, HierarchyPlan(groups));
    ResultIsExact(db, db1, tenant, groups, ids1);
    ResultIsExact(db1, db2, tenant, groups, ids2);
    SameTablesSameResult(db1, db2, tenant, groups, ids1, ids2);
  }

  lemma {:induction false} SameTablesSameResult(db1: Db, db2: Db, tenant: nat, groups: seq<Group>, ids1: map<string, nat>, ids2: map<string, nat>)
    requires db1.orgs == db2.orgs && db1.teams == db2.teams
    requires ExactResult(db1, tenant, groups, ids1) && ExactResult(db2, tenant, groups, ids2)
    ensures ids1 == ids2
  {
    forall s | s in ids1 ensures s in ids2 && ids1[s] == ids2[s] {
      var g :| g in groups && g.id == s;
      assert Returned(db1, tenant, BySlug(groups), ids1, g) && Returned(db2, tenant, BySlug(groups), ids2, g);
    }
    forall s | s in ids2 ensures s in ids1 {
      var g :| g in groups && g.id == s;
      assert Returned(db1, tenant, BySlug(groups), ids1, g);
    }
  }
}

/** Writing the resolved hierarchy into the organization and team tables. */
module HierarchyStore {
  datatype Row = Row(id: nat, name: string)

  /** The conflict targets of the two tables. */
  datatype OrgKey = OrgKey(tenant: nat, slug: string)
  datatype TeamKey = TeamKey(orgId: nat, slug: string)

  /** Ids are below `limit` and no two rows share one. */
  ghost predicate UniqueIds<K>(t: map<K, Row>, limit: nat) {
    && (forall k :: k in t ==> t[k].id < limit)
    && (forall k, k' :: k in t && k' in t && t[k].id == t[k'].id ==> k == k')
  }

  datatype Db = Db(orgs: map<OrgKey, Row>, teams: map<TeamKey, Row>, nextId: nat) {

    /** Generated ids are new, and no two rows of one table share one. */
    ghost predicate Valid() {
      && UniqueIds(orgs, nextId) && UniqueIds(teams, nextId)
      && forall k :: k in teams ==> k.orgId < nextId
    }
  }

  /** INSERT ... ON CONFLICT DO UPDATE SET name; the id of an existing row is kept. */
  function UpsertRow<K>(t: map<K, Row>, key: K, name: string, newId: nat): map<K, Row> {
    t[key := Row(if key in t then t[key].id else newId, name)]
  }

  function UpsertOrg(db: Db, key: OrgKey, name: string): Db {
    Db(UpsertRow(db.orgs, key, name, db.nextId), db.teams, db.nextId + 1)
  }

  function UpsertTeam(db: Db, key: TeamKey, name: string): Db {
    Db(db.orgs, UpsertRow(db.teams, key, name, db.nextId), db.nextId + 1)
  }

  // ---------------------------------------------------------------- what is wanted

  /** A team under an organization, both by slug. */
  datatype Place = Place(org: string, team: string)

  /** The names wanted for organizations and for teams. */
  datatype Plan = Plan(orgs: map<string, string>, teams: map<Place, string>)

  const EmptyPlan := Plan(map[], map[])

  ghost function PlannedOrgs(tenant: nat, p: Plan): set<OrgKey> {
    set s | s in p.orgs :: OrgKey(tenant, s)
  }

  /** Table keys of the planned teams, given the organization ids in `db`. */
  ghost function PlannedTeams(db: Db, tenant: nat, p: Plan): set<TeamKey> {
    set k | k in p.teams && OrgKey(tenant, k.org) in db.orgs :: TeamKey(db.orgs[OrgKey(tenant, k.org)].id, k.team)
  }

  ghost predicate OrgsInPlace(db: Db, tenant: nat, p: Plan) {
    forall s :: s in p.orgs ==> OrgKey(tenant, s) in db.orgs && db.orgs[OrgKey(tenant, s)].name == p.orgs[s]
  }

  /** The key under which planned team `k` is stored. */
  function TeamKeyOf(db: Db, tenant: nat, k: Place): TeamKey
    requires OrgKey(tenant, k.org) in db.orgs
  {
    TeamKey(db.orgs[OrgKey(tenant, k.org)].id, k.team)
  }

  ghost predicate TeamsInPlace(db: Db, tenant: nat, p: Plan) {
    forall k :: k in p.teams ==>
      && k.org in p.orgs && OrgKey(tenant, k.org) in db.orgs
      && TeamKeyOf(db, tenant, k) in db.teams && db.teams[TeamKeyOf(db, tenant, k)].name == p.teams[k]
  }

  /** Rows keep their ids; only planned keys are added or renamed. */
  ghost predicate OnlyPlannedChange<K>(t: map<K, Row>, t': map<K, Row>, planned: set<K>) {
    && (forall k :: k in t ==> k in t' && t'[k].id == t[k].id)
    && (forall k :: k in t && k !in planned ==> t'[k] == t[k])
    && (forall k :: k in t' && k !in t ==> k in planned)
  }

  /** The plan is in place in `db'`, and nothing but the plan differs from `db`. */
  ghost predicate Materialised(db: Db, db': Db, tenant: nat, p: Plan) {
    && OrgsInPlace(db', tenant, p)
    && TeamsInPlace(db', tenant, p)
    && OnlyPlannedChange(db.orgs, db'.orgs, PlannedOrgs(tenant, p))
    && OnlyPlannedChange(db.teams, db'.teams, PlannedTeams(db', tenant, p))
  }

  // ---------------------------------------------------------------- one upsert at a time

  lemma {:induction false} UpsertStaysPlanned<K>(t0: map<K, Row>, t: map<K, Row>, key: K, name: string, newId: nat, planned: set<K>, planned': set<K>)
    requires OnlyPlannedChange(t0, t, planned) && planned <= planned'
    ensures OnlyPlannedChange(t0, t, planned')
    ensures key in planned' ==> OnlyPlannedChange(t0, UpsertRow(t, key, name, newId), planned')
  {
  }

  lemma {:induction false} UpsertKeepsUniqueIds<K>(t: map<K, Row>, key: K, name: string, newId: nat)
    requires UniqueIds(t, newId)
    ensures UniqueIds(t, newId + 1) && UniqueIds(UpsertRow(t, key, name, newId), newId + 1)
  {
  }

  lemma {:induction false} UpsertsKeepValid(db: Db, org: OrgKey, team: TeamKey, name: string)
    requires db.Valid()
    ensures UpsertOrg(db, org, name).Valid()
    ensures team.orgId < db.nextId ==> UpsertTeam(db, team, name).Valid()
  {
    UpsertKeepsUniqueIds(db.orgs, org, name, db.nextId);
    UpsertKeepsUniqueIds(db.teams, team, name, db.nextId);
  }

  /** A further organization moves no planned team. */
  lemma {:induction false} OrgStepKeys(db: Db, tenant: nat, p: Plan, slug: string, name: string)
    requires TeamsInPlace(db, tenant, p) && slug !in p.orgs
    ensures var db' := UpsertOrg(db, OrgKey(tenant, slug), name);
            && (forall k :: k in p.teams ==> OrgKey(tenant, k.org) in db'.orgs && TeamKeyOf(db', tenant, k) == TeamKeyOf(db, tenant, k))
            && PlannedTeams(db', tenant, p) == PlannedTeams(db, tenant, p)
  {
  }

  lemma {:induction false} OrgStep(db0: Db, db: Db, tenant: nat, p: Plan, slug: string, name: string)
    requires Materialised(db0, db, tenant, p) && slug !in p.orgs
    ensures Materialised(db0, UpsertOrg(db, OrgKey(tenant, slug), name), tenant, p.(orgs := p.orgs[slug := name]))
  {
    var key := OrgKey(tenant, slug);
    var db', p' := UpsertOrg(db, key, name), p.(orgs := p.orgs[slug := name]);
    assert OnlyPlannedChange(db0.orgs, db'.orgs, PlannedOrgs(tenant, p')) by {
      assert PlannedOrgs(tenant, p') == PlannedOrgs(tenant, p) + {key};
      UpsertStaysPlanned(db0.orgs, db.orgs, key, name, db.nextId, PlannedOrgs(tenant, p), PlannedOrgs(tenant, p'));
    }
    OrgStepKeys(db, tenant, p, slug, name);
    assert PlannedTeams(db', tenant, p') == PlannedTeams(db', tenant, p);
  }

  lemma {:induction false} TeamStepPlace(db: Db, tenant: nat, p: Plan, k: Place, name: string)
    requires OrgsInPlace(db, tenant, p) && TeamsInPlace(db, tenant, p) && k.org in p.orgs && db.Valid()
    ensures var db', p' := UpsertTeam(db, TeamKeyOf(db, tenant, k), name), p.(teams := p.teams[k := name]);
            && TeamsInPlace(db', tenant, p')
            && PlannedTeams(db', tenant, p') == PlannedTeams(db, tenant, p) + {TeamKeyOf(db, tenant, k)}
  {
    DistinctPlaces(db, tenant, p, k);
  }

  lemma {:induction false} TeamStep(db0: Db, db: Db, tenant: nat, p: Plan, k: Place, name: string)
    requires Materialised(db0, db, tenant, p) && k.org in p.orgs && db.Valid()
    ensures Materialised(db0, UpsertTeam(db, TeamKeyOf(db, tenant, k), name), tenant, p.(teams := p.teams[k := name]))
  {
    var key := TeamKeyOf(db, tenant, k);
    var db', p' := UpsertTeam(db, key, name), p.(teams := p.teams[k := name]);
    TeamStepPlace(db, tenant, p, k, name);
    UpsertStaysPlanned(db0.teams, db.teams, key, name, db.nextId, PlannedTeams(db, tenant, p), PlannedTeams(db', tenant, p'));
    assert PlannedOrgs(tenant, p') == PlannedOrgs(tenant, p);
  }

  /** Different places have different table keys, because organization ids are unique. */
  lemma {:induction false} DistinctPlaces(db: Db, tenant: nat, p: Plan, k: Place)
    requires db.Valid() && OrgsInPlace(db, tenant, p) && TeamsInPlace(db, tenant, p) && k.org in p.orgs
    ensures forall k' :: k' in p.teams && k' != k ==> TeamKeyOf(db, tenant, k') != TeamKeyOf(db, tenant, k)
  {
  }

  // ------------------------------------------------------- consequences of a plan

  /** Materialising the same plan again changes no row of either table. */
  lemma {:induction false} MaterialisingTwiceChangesNothing(db: Db, db1: Db, db2: Db, tenant: nat, p: Plan)
    requires Materialised(db, db1, tenant, p) && Materialised(db1, db2, tenant, p)
    ensures db2.orgs == db1.orgs && db2.teams == db1.teams
  {
    assert db2.orgs == db1.orgs;
    forall k | k in db2.teams ensures k in db1.teams && db2.teams[k] == db1.teams[k] {
      if k in PlannedTeams(db2, tenant, p) {
        var place :| place in p.teams && OrgKey(tenant, place.org) in db2.orgs && TeamKeyOf(db2, tenant, place) == k;
      }
    }
  }

  /** Team key `t` belongs to an organization of another tenant. */
  ghost predicate ForeignTeam(db: Db, tenant: nat, t: TeamKey) {
    exists k :: k in db.orgs && k.tenant != tenant && db.orgs[k].id == t.orgId
  }

  /** Rows of other tenants are never added, renamed or removed. */
  lemma {:induction false} OtherTenantsUntouched(db: Db, db': Db, tenant: nat, p: Plan)
    requires db'.Valid() && Materialised(db, db', tenant, p)
    ensures forall k: OrgKey :: k.tenant != tenant ==>
              (k in db.orgs <==> k in db'.orgs) && (k in db.orgs ==> db.orgs[k] == db'.orgs[k])
    ensures forall t :: ForeignTeam(db, tenant, t) ==>
              (t in db.teams <==> t in db'.teams) && (t in db.teams ==> db.teams[t] == db'.teams[t])
  {
    forall t | ForeignTeam(db, tenant, t) ensures t !in PlannedTeams(db', tenant, p) {
      var k :| k in db.orgs && k.tenant != tenant && db.orgs[k].id == t.orgId;
      assert k in db'.orgs && db'.orgs[k].id == t.orgId;
    }
  }
}

/** Which teams, organizations, tenants and projects a user can reach through `parents`. */
module AccessibleLayers {
  import opened Common
  import opened CedarEntities

  datatype Layers = Layers(tenantIds: seq<string>, orgIds: seq<string>, teamIds: seq<string>, projectIds: seq<string>)

  // ------------------------------------------------------------- reference relation

  /** `parent` is a parent of type `ty` of the entity stored under `child`. */
  predicate StoredParent(all: seq<Entity>, child: EntityUid, ty: string, parent: EntityUid) {
    var e := FirstMatch(all, ByUid(child));
    e.Some? && parent in e.value.parents && parent.entityType == ty
  }

  /** A team among `parents`. */
  predicate TeamOf(parents: seq<EntityUid>, t: EntityUid) {
    t in parents && t.entityType == TEAM
  }

  ghost predicate OrgReachable(all: seq<Entity>, parents: seq<EntityUid>, o: EntityUid) {
    exists t :: TeamOf(parents, t) && StoredParent(all, t, ORGANIZATION, o)
  }

  ghost predicate TenantReachable(all: seq<Entity>, parents: seq<EntityUid>, n: EntityUid) {
    exists o :: OrgReachable(all, parents, o) && StoredParent(all, o, TENANT, n)
  }

  /** A tenant two steps above the entity stored under `t`. */
  ghost predicate TenantVia(all: seq<Entity>, t: EntityUid, n: EntityUid) {
    exists o :: StoredParent(all, t, ORGANIZATION, o) && StoredParent(all, o, TENANT, n)
  }

  /** The project has a parent team whose id is among the user's teams. */
  ghost predicate ProjectReachable(parents: seq<EntityUid>, p: Entity) {
    && p.uid.entityType == PROJECT
    && exists t, t' :: TeamOf(p.parents, t) && TeamOf(parents, t') && t.id == t'.id
  }

  /** Ids of the uids of type `ty`, in order. */
  function IdsOfType(us: seq<EntityUid>, ty: string): (r: seq<string>)
    ensures forall id :: id in r <==> EntityUid(ty, id) in us
  {
    if us == [] then []
    else
      var front, last := us[..|us| - 1], us[|us| - 1];
      assert us == front + [last];
      if last.entityType == ty then IdsOfType(front, ty) + [last.id] else IdsOfType(front, ty)
  }

  function HasType(ty: string): EntityUid -> bool {
    (u: EntityUid) => u.entityType == ty
  }

  function IdOf(u: EntityUid): string {
    u.id
  }

  lemma {:induction false} IdsOfTypeSnoc(front: seq<EntityUid>, last: EntityUid, ty: string)
    requires Selects(front, HasType(ty), IdOf, IdsOfType(front, ty))
    ensures Selects(front + [last], HasType(ty), IdOf, IdsOfType(front + [last], ty))
  {
    SelectsSnoc(front, last, HasType(ty), IdOf, IdsOfType(front, ty));
    assert (front + [last])[..|front|] == front;
  }

  lemma {:induction false} IdsOfTypeSelects(us: seq<EntityUid>, ty: string)
    ensures Selects(us, HasType(ty), IdOf, IdsOfType(us, ty))
  {
    if us == [] {
      SelectsNone(HasType(ty), IdOf);
    } else {
      var front, last := us[..|us| - 1], us[|us| - 1];
      IdsOfTypeSelects(front, ty);
      IdsOfTypeSnoc(front, last, ty);
      assert front + [last] == us;
    }
  }

  // ------------------------------------------------------------------- the loops

  /** Add the ids of type `ty` among `parents` that are not there yet. */
  method AddMissing(ids: seq<string>, parents: seq<EntityUid>, ty: string) returns (r: seq<string>)
    requires NoRepeats(ids)
    ensures NoRepeats(r) && ids <= r
    ensures forall id :: id in r <==> id in ids || EntityUid(ty, id) in parents
  {
    r := ids;
    for i := 0 to |parents|
      invariant NoRepeats(r) && ids <= r
      invariant forall id :: id in r <==> id in ids || EntityUid(ty, id) in parents[..i]
    {
      assert parents[..i + 1] == parents[..i] + [parents[i]];
      if parents[i].entityType == ty && parents[i].id !in r {
        r := r + [parents[i].id];
      }
    }
    assert parents[..|parents|] == parents;
  }

  /** The organizations of one team, and the tenants of each of them. */
  method AddTeam(all: seq<Entity>, team: Entity, orgs: seq<string>, tenants: seq<string>)
    returns (orgs': seq<string>, tenants': seq<string>)
    requires NoRepeats(orgs) && NoRepeats(tenants)
    ensures NoRepeats(orgs') && NoRepeats(tenants')
    ensures forall id :: id in orgs' <==> id in orgs || EntityUid(ORGANIZATION, id) in team.parents
    ensures forall id :: id in tenants' <==>
              (id in tenants || exists o :: o in team.parents && o.entityType == ORGANIZATION && StoredParent(all, o, TENANT, EntityUid(TENANT, id)))
  {
    orgs', tenants' := orgs, tenants;
    for i := 0 to |team.parents|
      invariant NoRepeats(orgs') && NoRepeats(tenants')
      invariant forall id :: id in orgs' <==> id in orgs || EntityUid(ORGANIZATION, id) in team.parents[..i]
      invariant forall id :: id in tenants' <==>
                  (id in tenants || exists o :: o in team.parents[..i] && o.entityType == ORGANIZATION && StoredParent(all, o, TENANT, EntityUid(TENANT, id)))
    {
      var o := team.parents[i];
      assert team.parents[..i + 1] == team.parents[..i] + [o];
      if o.entityType == ORGANIZATION {
        if o.id !in orgs' {
          orgs' := orgs' + [o.id];
        }
        var org := FirstMatch(all, ByUid(o));
        if org.Some? {
          tenants' := AddMissing(tenants', org.value.parents, TENANT);
        }
      }
    }
    assert team.parents[..|team.parents|] == team.parents;
  }

  method HasTeamIn(parents: seq<EntityUid>, teamIds: seq<string>) returns (b: bool)
    ensures b <==> exists t :: TeamOf(parents, t) && t.id in teamIds
  {
    for i := 0 to |parents|
      invariant forall j :: 0 <= j < i ==> !(parents[j].entityType == TEAM && parents[j].id in teamIds)
    {
      if parents[i].entityType == TEAM && parents[i].id in teamIds {
        assert TeamOf(parents, parents[i]);
        return true;
      }
    }
    return false;
  }

  /** The ids of the reachable projects, once per stored project and in store order. */
  ghost function ProjectIds(all: seq<Entity>, parents: seq<EntityUid>): seq<string> {
    if all == [] then []
    else
      var front, last := ProjectIds(all[..|all| - 1], parents), all[|all| - 1];
      if ProjectReachable(parents, last) then front + [last.uid.id] else front
  }

  /**
   `get_accessible_layers` after the user and the entity list have been fetched: sound and
   complete for the reachability relation above, with no repeated organization or tenant.
   */
  method GetAccessibleLayers(user: Entity, all: seq<Entity>) returns (r: Layers)
    ensures Selects(user.parents, HasType(TEAM), IdOf, r.teamIds)
    ensures forall id :: id in r.orgIds <==> OrgReachable(all, user.parents, EntityUid(ORGANIZATION, id))
    ensures forall id :: id in r.tenantIds <==> TenantReachable(all, user.parents, EntityUid(TENANT, id))
    ensures NoRepeats(r.orgIds) && NoRepeats(r.tenantIds)
    ensures r.projectIds == ProjectIds(all, user.parents)
    ensures Selects(all, IsReachable(user.parents), ProjectId, r.projectIds)
  {
    var teams, orgs, tenants, projects := [], [], [], [];
    for i := 0 to |user.parents|
      invariant teams == IdsOfType(user.parents[..i], TEAM)
      invariant NoRepeats(orgs) && NoRepeats(tenants)
      invariant forall id :: id in orgs <==> OrgReachable(all, user.parents[..i], EntityUid(ORGANIZATION, id))
      invariant forall id :: id in tenants <==> TenantReachable(all, user.parents[..i], EntityUid(TENANT, id))
    {
      var p := user.parents[i];
      ExtendParents(all, user.parents, i);
      if p.entityType == TEAM {
        teams := teams + [p.id];
        var team := FirstMatch(all, ByUid(p));
        if team.Some? {
          orgs, tenants := AddTeam(all, team.value, orgs, tenants);
        }
      }
    }
    assert user.parents[..|user.parents|] == user.parents;
    IdsOfTypeSelects(user.parents, TEAM);
    for i := 0 to |all|
      invariant projects == ProjectIds(all[..i], user.parents)
    {
      assert all[..i + 1][..i] == all[..i];
      if all[i].uid.entityType == PROJECT {
        var reachable := HasTeamIn(all[i].parents, teams);
        TeamIdMatches(all[i], user.parents);
        if reachable {
          projects := projects + [all[i].uid.id];
        }
      }
    }
    assert all[..|all|] == all;
    ProjectIdsSelect(all, user.parents);
    r := Layers(tenants, orgs, teams, projects);
  }

  /** How one more user parent extends what is reachable. */
  lemma {:induction false} ExtendParents(all: seq<Entity>, parents: seq<EntityUid>, i: nat)
    requires i < |parents|
    ensures parents[..i + 1][..i] == parents[..i] && parents[..i + 1][i] == parents[i]
    ensures forall o :: OrgReachable(all, parents[..i + 1], o) <==>
              OrgReachable(all, parents[..i], o) || (parents[i].entityType == TEAM && StoredParent(all, parents[i], ORGANIZATION, o))
    ensures forall n :: TenantReachable(all, parents[..i + 1], n) <==>
              TenantReachable(all, parents[..i], n) || (parents[i].entityType == TEAM && TenantVia(all, parents[i], n))
  {
    assert parents[..i + 1] == parents[..i] + [parents[i]];
    assert forall t :: TeamOf(parents[..i + 1], t) <==> TeamOf(parents[..i], t) || (t == parents[i] && t.entityType == TEAM);
    forall n | parents[i].entityType == TEAM && TenantVia(all, parents[i], n)
      ensures TenantReachable(all, parents[..i + 1], n)
    {
      var o :| StoredParent(all, parents[i], ORGANIZATION, o) && StoredParent(all, o, TENANT, n);
      assert TeamOf(parents[..i + 1], parents[i]);
      assert OrgReachable(all, parents[..i + 1], o);
    }
  }

  lemma {:induction false} TeamIdMatches(p: Entity, parents: seq<EntityUid>)
    requires p.uid.entityType == PROJECT
    ensures (exists t :: TeamOf(p.parents, t) && t.id in IdsOfType(parents, TEAM)) <==> ProjectReachable(parents, p)
  {
    assert forall id :: id in IdsOfType(parents, TEAM) <==> TeamOf(parents, EntityUid(TEAM, id));
    if ProjectReachable(parents, p) {
      var t, t' :| TeamOf(p.parents, t) && TeamOf(parents, t') && t.id == t'.id;
      assert t' == EntityUid(TEAM, t.id);
    }
  }

  ghost function IsReachable(parents: seq<EntityUid>): Entity -> bool {
    (p: Entity) => ProjectReachable(parents, p)
  }

  function ProjectId(p: Entity): string {
    p.uid.id
  }

  lemma {:induction false} ProjectIdsSnoc(front: seq<Entity>, last: Entity, parents: seq<EntityUid>)
    requires Selects(front, IsReachable(parents), ProjectId, ProjectIds(front, parents))
    ensures Selects(front + [last], IsReachable(parents), ProjectId, ProjectIds(front + [last], parents))
  {
    SelectsSnoc(front, last, IsReachable(parents), ProjectId, ProjectIds(front, parents));
    assert (front + [last])[..|front|] == front;
  }

  lemma {:induction false} ProjectIdsSelect(all: seq<Entity>, parents: seq<EntityUid>)
    ensures Selects(all, IsReachable(parents), ProjectId, ProjectIds(all, parents))
  {
    if all == [] {
      SelectsNone(IsReachable(parents), ProjectId);
    } else {
      var front, last := all[..|all| - 1], all[|all| - 1];
      ProjectIdsSelect(front, parents);
      ProjectIdsSnoc(front, last, parents);
      assert front + [last] == all;
    }
  }

  /** The project list is sound and complete for reachability. */
  lemma {:induction false} ProjectIdsExact(all: seq<Entity>, parents: seq<EntityUid>, id: string)
    ensures id in ProjectIds(all, parents) <==> exists p :: p in all && ProjectReachable(parents, p) && p.uid.id == id
  {
    if all != [] {
      var front, last := all[..|all| - 1], all[|all| - 1];
      ProjectIdsExact(front, parents, id);
      assert all == front + [last];
    }
  }
}

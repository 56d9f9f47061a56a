/** Resolving the request context from layered sources, with the source of every value. */
module Resolver {
  import opened Common
  import opened CedarEntities

  datatype FilePath = FilePath(dir: string, file: string)

  datatype Source =
    | Explicit
    | EnvVar(name: string)
    | ContextToml(path: FilePath)
    | GitConfig
    | GitRemote
    | CedarAgent
    | OrgDefault
    | SystemDefault

  datatype Resolved = Resolved(value: string, source: Source)

  /** `hints` and `git_root` are not part of this model. */
  datatype Context = Context(
    tenant: Resolved, user: Resolved,
    org: Option<Resolved>, team: Option<Resolved>, project: Option<Resolved>,
    agent: Option<Resolved>, session: Option<Resolved>,
    contextRoot: Option<string>)

  datatype Field = Tenant | User | Org | Team | Project | Agent | Session

  function Get(ctx: Context, f: Field): Option<Resolved> {
    match f
    case Tenant => Some(ctx.tenant)
    case User => Some(ctx.user)
    case Org => ctx.org
    case Team => ctx.team
    case Project => ctx.project
    case Agent => ctx.agent
    case Session => ctx.session
  }

  // ---------------------------------------------------------------------- inputs

  /** The id fields of a parsed context.toml; it has no session id. */
  datatype TomlConfig = TomlConfig(
    tenant: Option<string>, user: Option<string>, org: Option<string>,
    team: Option<string>, project: Option<string>, agent: Option<string>)

  /** The search for a context file: none found, one that cannot be read or parsed, or one that can. */
  datatype TomlFile = Absent | Unreadable(path: FilePath) | Loaded(path: FilePath, config: TomlConfig)

  /**
   What resolution can see.  `env` is empty if the environment is skipped, and the git values are absent
   outside a repository.
   */
  datatype Inputs = Inputs(
    overrides: map<string, string>, env: map<string, string>, toml: TomlFile,
    gitEmail: Option<string>, gitProject: Option<string>)

  const DefaultContext :=
    Context(Resolved("default", SystemDefault), Resolved("default", SystemDefault), None, None, None, None, None, None)

  // ------------------------------------------------------------------ the layers

  method ApplyContextConfig(ctx: Context, config: TomlConfig, path: FilePath) returns (r: Context)
    ensures forall f :: Get(r, f) == Over(FromToml(Loaded(path, config), f), Get(ctx, f))
    ensures r.contextRoot == ctx.contextRoot
  {
    r := ctx;
    var source := ContextToml(path);
    if config.tenant.Some? { r := r.(tenant := Resolved(config.tenant.value, source)); }
    if config.user.Some? { r := r.(user := Resolved(config.user.value, source)); }
    if config.org.Some? { r := r.(org := Some(Resolved(config.org.value, source))); }
    if config.team.Some? { r := r.(team := Some(Resolved(config.team.value, source))); }
    if config.project.Some? { r := r.(project := Some(Resolved(config.project.value, source))); }
    if config.agent.Some? { r := r.(agent := Some(Resolved(config.agent.value, source))); }
  }

  method ApplyEnvVars(ctx: Context, env: map<string, string>) returns (r: Context)
    ensures forall f :: Get(r, f) == Over(FromEnv(env, f), Get(ctx, f))
    ensures r.contextRoot == ctx.contextRoot
  {
    r := ctx;
    if EnvName(Tenant) in env { r := r.(tenant := Resolved(env[EnvName(Tenant)], EnvVar(EnvName(Tenant)))); }
    if EnvName(User) in env { r := r.(user := Resolved(env[EnvName(User)], EnvVar(EnvName(User)))); }
    if EnvName(Org) in env { r := r.(org := Some(Resolved(env[EnvName(Org)], EnvVar(EnvName(Org))))); }
    if EnvName(Team) in env { r := r.(team := Some(Resolved(env[EnvName(Team)], EnvVar(EnvName(Team))))); }
    if EnvName(Project) in env { r := r.(project := Some(Resolved(env[EnvName(Project)], EnvVar(EnvName(Project))))); }
    if EnvName(Agent) in env { r := r.(agent := Some(Resolved(env[EnvName(Agent)], EnvVar(EnvName(Agent))))); }
  }

  method ApplyExplicitOverrides(ctx: Context, overrides: map<string, string>) returns (r: Context)
    ensures forall f :: Get(r, f) == Over(FromOverrides(overrides, f), Get(ctx, f))
    ensures r.contextRoot == ctx.contextRoot
  {
    r := ctx;
    if Key(Tenant) in overrides { r := r.(tenant := Resolved(overrides[Key(Tenant)], Explicit)); }
    if Key(User) in overrides { r := r.(user := Resolved(overrides[Key(User)], Explicit)); }
    if Key(Org) in overrides { r := r.(org := Some(Resolved(overrides[Key(Org)], Explicit))); }
    if Key(Team) in overrides { r := r.(team := Some(Resolved(overrides[Key(Team)], Explicit))); }
    if Key(Project) in overrides { r := r.(project := Some(Resolved(overrides[Key(Project)], Explicit))); }
    if Key(Agent) in overrides { r := r.(agent := Some(Resolved(overrides[Key(Agent)], Explicit))); }
    if Key(Session) in overrides { r := r.(session := Some(Resolved(overrides[Key(Session)], Explicit))); }
  }

  // -------------------------------------------------------- the documented order

  function Key(f: Field): string {
    match f
    case Tenant => "tenant_id"
    case User => "user_id"
    case Org => "org_id"
    case Team => "team_id"
    case Project => "project_id"
    case Agent => "agent_id"
    case Session => "session_id"
  }

  function EnvName(f: Field): string {
    match f
    case Tenant => "AETERNA_TENANT_ID"
    case User => "AETERNA_USER_ID"
    case Org => "AETERNA_ORG_ID"
    case Team => "AETERNA_TEAM_ID"
    case Project => "AETERNA_PROJECT_ID"
    case Agent => "AETERNA_AGENT_ID"
    case Session => ""
  }

  function FromOverrides(overrides: map<string, string>, f: Field): Option<Resolved> {
    if Key(f) in overrides then Some(Resolved(overrides[Key(f)], Explicit)) else None
  }

  /** No variable sets the session id. */
  function FromEnv(env: map<string, string>, f: Field): Option<Resolved> {
    if f != Session && EnvName(f) in env then Some(Resolved(env[EnvName(f)], EnvVar(EnvName(f)))) else None
  }

  function TomlValue(c: TomlConfig, f: Field): Option<string> {
    match f
    case Tenant => c.tenant
    case User => c.user
    case Org => c.org
    case Team => c.team
    case Project => c.project
    case Agent => c.agent
    case Session => None
  }

  /** A file that cannot be loaded supplies nothing. */
  function FromToml(file: TomlFile, f: Field): Option<Resolved> {
    if file.Loaded? && TomlValue(file.config, f).Some?
    then Some(Resolved(TomlValue(file.config, f).value, ContextToml(file.path)))
    else None
  }

  function RootOf(file: TomlFile): Option<string> {
    if file.Absent? then None else Some(file.path.dir)
  }

  function FromGitRemote(i: Inputs, f: Field): Option<Resolved> {
    if f == Project && i.gitProject.Some? then Some(Resolved(i.gitProject.value, GitRemote)) else None
  }

  function FromGitConfig(i: Inputs, f: Field): Option<Resolved> {
    if f == User && i.gitEmail.Some? then Some(Resolved(i.gitEmail.value, GitConfig)) else None
  }

  function FromDefaults(f: Field): Option<Resolved> {
    if f == Tenant || f == User then Some(Resolved("default", SystemDefault)) else None
  }

  /** The layers, highest precedence first. */
  function LayersOf(i: Inputs, f: Field): seq<Option<Resolved>> {
    [FromOverrides(i.overrides, f), FromEnv(i.env, f), FromToml(i.toml, f),
     FromGitRemote(i, f), FromGitConfig(i, f), FromDefaults(f)]
  }

  function Over<T>(a: Option<T>, b: Option<T>): Option<T> {
    if a.Some? then a else b
  }

  /** The first layer that has something to say. */
  function FirstSupplied(layers: seq<Option<Resolved>>): Option<Resolved> {
    if layers == [] then None else Over(layers[0], FirstSupplied(layers[1..]))
  }

  lemma {:induction false} LayersUnfold(i: Inputs, f: Field)
    ensures FirstSupplied(LayersOf(i, f)) ==
            Over(FromOverrides(i.overrides, f), Over(FromEnv(i.env, f), Over(FromToml(i.toml, f),
              Over(FromGitRemote(i, f), Over(FromGitConfig(i, f), FromDefaults(f))))))
  {
    var l := LayersOf(i, f);
    assert FirstSupplied(l) == Over(l[0], FirstSupplied(l[1..]));
    assert FirstSupplied(l[1..]) == Over(l[1], FirstSupplied(l[1..][1..])) && l[1..][1..] == l[2..];
    assert FirstSupplied(l[2..]) == Over(l[2], FirstSupplied(l[2..][1..])) && l[2..][1..] == l[3..];
    assert FirstSupplied(l[3..]) == Over(l[3], FirstSupplied(l[3..][1..])) && l[3..][1..] == l[4..];
    assert FirstSupplied(l[4..]) == Over(l[4], FirstSupplied(l[4..][1..])) && l[4..][1..] == l[5..];
    assert FirstSupplied(l[5..]) == Over(l[5], FirstSupplied(l[5..][1..])) && l[5..][1..] == [];
  }

  /** Every id field has the value and the source of the highest layer that supplied it. */
  ghost predicate Resolves(i: Inputs, ctx: Context) {
    && (forall f :: Get(ctx, f) == FirstSupplied(LayersOf(i, f)))
    && ctx.contextRoot == RootOf(i.toml)
  }

  /** `resolve`, which never fails. */
  method Resolve(i: Inputs) returns (r: Result<Context, string>)
    ensures r.Ok? && Resolves(i, r.value)
  {
    var ctx := DefaultContext.(contextRoot := RootOf(i.toml));
    if i.gitEmail.Some? {
      ctx := ctx.(user := Resolved(i.gitEmail.value, GitConfig));
    }
    if i.gitProject.Some? {
      ctx := ctx.(project := Some(Resolved(i.gitProject.value, GitRemote)));
    }
    assert forall f :: Get(ctx, f) == Over(FromGitRemote(i, f), Over(FromGitConfig(i, f), FromDefaults(f)));
    match i.toml {
      case Absent =>
      case Loaded(path, config) => ctx := ApplyContextConfig(ctx, config, path);
      case Unreadable(_) => // logged, and resolution continues with the other sources
    }
    ctx := ApplyEnvVars(ctx, i.env);
    ctx := ApplyExplicitOverrides(ctx, i.overrides);
    forall f ensures Get(ctx, f) == FirstSupplied(LayersOf(i, f)) {
      LayersUnfold(i, f);
    }
    return Ok(ctx);
  }

  /** Which input names which field. */
  lemma {:induction false} InputsByName(i: Inputs, ctx: Context)
    requires Resolves(i, ctx)
    ensures "tenant_id" in i.overrides ==> ctx.tenant == Resolved(i.overrides["tenant_id"], Explicit)
    ensures "user_id" in i.overrides ==> ctx.user == Resolved(i.overrides["user_id"], Explicit)
    ensures "org_id" in i.overrides ==> ctx.org == Some(Resolved(i.overrides["org_id"], Explicit))
    ensures "team_id" in i.overrides ==> ctx.team == Some(Resolved(i.overrides["team_id"], Explicit))
    ensures "project_id" in i.overrides ==> ctx.project == Some(Resolved(i.overrides["project_id"], Explicit))
    ensures "agent_id" in i.overrides ==> ctx.agent == Some(Resolved(i.overrides["agent_id"], Explicit))
    ensures ctx.session == if "session_id" in i.overrides then Some(Resolved(i.overrides["session_id"], Explicit)) else None
    ensures "tenant_id" !in i.overrides && "AETERNA_TENANT_ID" in i.env ==>
              ctx.tenant == Resolved(i.env["AETERNA_TENANT_ID"], EnvVar("AETERNA_TENANT_ID"))
    ensures "user_id" !in i.overrides && "AETERNA_USER_ID" in i.env ==>
              ctx.user == Resolved(i.env["AETERNA_USER_ID"], EnvVar("AETERNA_USER_ID"))
    ensures "org_id" !in i.overrides && "AETERNA_ORG_ID" in i.env ==>
              ctx.org == Some(Resolved(i.env["AETERNA_ORG_ID"], EnvVar("AETERNA_ORG_ID")))
    ensures "team_id" !in i.overrides && "AETERNA_TEAM_ID" in i.env ==>
              ctx.team == Some(Resolved(i.env["AETERNA_TEAM_ID"], EnvVar("AETERNA_TEAM_ID")))
    ensures "project_id" !in i.overrides && "AETERNA_PROJECT_ID" in i.env ==>
              ctx.project == Some(Resolved(i.env["AETERNA_PROJECT_ID"], EnvVar("AETERNA_PROJECT_ID")))
    ensures "agent_id" !in i.overrides && "AETERNA_AGENT_ID" in i.env ==>
              ctx.agent == Some(Resolved(i.env["AETERNA_AGENT_ID"], EnvVar("AETERNA_AGENT_ID")))
  {
    forall f ensures Get(ctx, f) == Over(FromOverrides(i.overrides, f), Over(FromEnv(i.env, f), Over(FromToml(i.toml, f),
                                      Over(FromGitRemote(i, f), Over(FromGitConfig(i, f), FromDefaults(f)))))) {
      LayersUnfold(i, f);
    }
    assert ctx.tenant == Get(ctx, Tenant).value && ctx.user == Get(ctx, User).value;
    assert ctx.org == Get(ctx, Org) && ctx.team == Get(ctx, Team) && ctx.project == Get(ctx, Project);
    assert ctx.agent == Get(ctx, Agent) && ctx.session == Get(ctx, Session);
  }

  /** Which field of the context file names which field of the context, where nothing overrides it. */
  lemma {:induction false} FileFieldsByName(i: Inputs, ctx: Context)
    requires Resolves(i, ctx) && i.overrides == map[] && i.env == map[] && i.toml.Loaded?
    ensures var config, source := i.toml.config, ContextToml(i.toml.path);
            && (config.tenant.Some? ==> ctx.tenant == Resolved(config.tenant.value, source))
            && (config.user.Some? ==> ctx.user == Resolved(config.user.value, source))
            && (config.org.Some? ==> ctx.org == Some(Resolved(config.org.value, source)))
            && (config.team.Some? ==> ctx.team == Some(Resolved(config.team.value, source)))
            && (config.project.Some? ==> ctx.project == Some(Resolved(config.project.value, source)))
            && (config.agent.Some? ==> ctx.agent == Some(Resolved(config.agent.value, source)))
  {
    forall f ensures Get(ctx, f) == Over(FromToml(i.toml, f), Over(FromGitRemote(i, f), Over(FromGitConfig(i, f), FromDefaults(f)))) {
      LayersUnfold(i, f);
    }
    assert ctx.tenant == Get(ctx, Tenant).value && ctx.user == Get(ctx, User).value;
    assert ctx.org == Get(ctx, Org) && ctx.team == Get(ctx, Team);
    assert ctx.project == Get(ctx, Project) && ctx.agent == Get(ctx, Agent);
  }

  /** What is left when nobody chose anything: the git values and the defaults. */
  lemma {:induction false} GitAndDefaultsByName(i: Inputs, ctx: Context)
    requires Resolves(i, ctx) && i.overrides == map[] && i.env == map[] && !i.toml.Loaded?
    ensures ctx.tenant == Resolved("default", SystemDefault)
    ensures ctx.user == if i.gitEmail.Some? then Resolved(i.gitEmail.value, GitConfig) else Resolved("default", SystemDefault)
    ensures ctx.project == if i.gitProject.Some? then Some(Resolved(i.gitProject.value, GitRemote)) else None
    ensures ctx.org == None && ctx.team == None && ctx.agent == None && ctx.session == None
  {
    forall f ensures Get(ctx, f) == Over(FromGitRemote(i, f), Over(FromGitConfig(i, f), FromDefaults(f))) {
      LayersUnfold(i, f);
    }
    assert ctx.tenant == Get(ctx, Tenant).value && ctx.user == Get(ctx, User).value;
    assert ctx.org == Get(ctx, Org) && ctx.team == Get(ctx, Team) && ctx.project == Get(ctx, Project);
    assert ctx.agent == Get(ctx, Agent) && ctx.session == Get(ctx, Session);
  }

  /** The inputs decide the whole context. */
  lemma {:induction false} ResolutionIsDetermined(i: Inputs, a: Context, b: Context)
    requires Resolves(i, a) && Resolves(i, b)
    ensures a == b
  {
    assert forall f :: Get(a, f) == Get(b, f);
    SameFieldsSameContext(a, b);
  }

  lemma {:induction false} SameFieldsSameContext(a: Context, b: Context)
    requires (forall f :: Get(a, f) == Get(b, f)) && a.contextRoot == b.contextRoot
    ensures a == b
  {
    assert Get(a, Tenant) == Get(b, Tenant) && Get(a, User) == Get(b, User);
    assert Get(a, Org) == Get(b, Org) && Get(a, Team) == Get(b, Team) && Get(a, Project) == Get(b, Project);
    assert Get(a, Agent) == Get(b, Agent) && Get(a, Session) == Get(b, Session);
  }

  /**
   The documented error for a context file that cannot be parsed does not exist: with such a file resolution
   gives what it gives without any file, but for the root directory it remembers.
   */
  lemma {:induction false} UnreadableFileIsIgnored(i: Inputs, path: FilePath, without: Context, broken: Context)
    requires Resolves(i.(toml := Absent), without) && Resolves(i.(toml := Unreadable(path)), broken)
    ensures broken == without.(contextRoot := Some(path.dir))
  {
    forall f ensures Get(broken, f) == Get(without, f) {
      LayersUnfold(i.(toml := Absent), f);
      LayersUnfold(i.(toml := Unreadable(path)), f);
    }
    forall f ensures Get(without.(contextRoot := Some(path.dir)), f) == Get(without, f) {
    }
    SameFieldsSameContext(broken, without.(contextRoot := Some(path.dir)));
  }

  // ------------------------------------------------------------------- enrichment

  /** What the Cedar Agent answers; `None` stands for any error. */
  datatype AgentAnswers = AgentAnswers(healthy: bool, byRemote: string -> Option<Entity>, byEmail: string -> Option<Entity>)

  /** Position `i` holds the first team among `parents`. */
  ghost predicate FirstTeamAt(parents: seq<EntityUid>, i: nat) {
    && i < |parents| && parents[i].entityType == "Aeterna::Team"
    && forall j :: 0 <= j < i ==> parents[j].entityType != "Aeterna::Team"
  }

  /** The id of the first team among `parents`. */
  function FirstTeam(parents: seq<EntityUid>): Option<string> {
    if parents == [] then None
    else if parents[0].entityType == TEAM then Some(parents[0].id)
    else FirstTeam(parents[1..])
  }

  lemma {:induction false} FirstTeamIsFirst(parents: seq<EntityUid>, i: nat)
    requires FirstTeamAt(parents, i)
    ensures FirstTeam(parents) == Some(parents[i].id)
  {
    if i > 0 {
      assert parents[0].entityType != "Aeterna::Team";
      FirstTeamIsFirst(parents[1..], i - 1);
    }
  }

  /** The project entity enrichment would use. */
  function ProjectHit(ctx: Context, a: AgentAnswers): Option<Entity> {
    if a.healthy && ctx.project.Some? && ctx.project.value.source == GitRemote then a.byRemote(ctx.project.value.value) else None
  }

  /** The user entity enrichment would use. */
  function UserHit(ctx: Context, a: AgentAnswers): Option<Entity> {
    if a.healthy && ctx.user.source == GitConfig && '@' in ctx.user.value then a.byEmail(ctx.user.value) else None
  }

  /** `enrich`. */
  method Enrich(ctx: Context, a: AgentAnswers) returns (r: Context)
    ensures r == Enriched(ctx, a)
  {
    r := ctx;
    if !a.healthy {
      return;
    }
    if r.project.Some? && r.project.value.source == GitRemote {
      var p := a.byRemote(r.project.value.value);
      if p.Some? {
        r := r.(project := Some(Resolved(p.value.uid.id, CedarAgent)));
        var team := FirstTeam(p.value.parents);
        if team.Some? {
          r := r.(team := Some(Resolved(team.value, CedarAgent)));
        }
      }
    }
    if r.user.source == GitConfig && '@' in r.user.value {
      var u := a.byEmail(r.user.value);
      if u.Some? {
        r := r.(user := Resolved(u.value.uid.id, CedarAgent));
        var slug := u.value.Attr("tenant_slug");
        if r.tenant.source == SystemDefault && slug.Some? {
          r := r.(tenant := Resolved(slug.value, CedarAgent));
        }
      }
    }
  }

  /** Field by field, what enrichment produces from the original context. */
  function Enriched(ctx: Context, a: AgentAnswers): Context {
    var p, u := ProjectHit(ctx, a), UserHit(ctx, a);
    var team := if p.Some? then FirstTeam(p.value.parents) else None;
    var slug := if u.Some? then u.value.Attr("tenant_slug") else None;
    ctx.(project := if p.Some? then Some(Resolved(p.value.uid.id, CedarAgent)) else ctx.project,
         team := if team.Some? then Some(Resolved(team.value, CedarAgent)) else ctx.team,
         user := if u.Some? then Resolved(u.value.uid.id, CedarAgent) else ctx.user,
         tenant := if slug.Some? && ctx.tenant.source == SystemDefault then Resolved(slug.value, CedarAgent) else ctx.tenant)
  }

  /** Enriching twice with the same answers is enriching once. */
  lemma {:induction false} EnrichIsIdempotent(ctx: Context, a: AgentAnswers)
    ensures Enriched(Enriched(ctx, a), a) == Enriched(ctx, a)
  {
  }

  /**
   What enrichment is for: an address from git config that the agent knows becomes the user's id and brings the
   tenant if that was only the default, and a project from the git remote becomes its id and brings its team.
   */
  lemma {:induction false} EnrichmentTakesEffect(ctx: Context, a: AgentAnswers)
    requires a.healthy
    ensures var r := Enriched(ctx, a); var u := a.byEmail(ctx.user.value);
            ctx.user.source == GitConfig && '@' in ctx.user.value && u.Some? ==>
              && r.user == Resolved(u.value.uid.id, CedarAgent)
              && (ctx.tenant.source == SystemDefault && "tenant_slug" in u.value.attrs ==>
                    r.tenant == Resolved(u.value.attrs["tenant_slug"], CedarAgent))
              && (ctx.tenant.source != SystemDefault || "tenant_slug" !in u.value.attrs ==> r.tenant == ctx.tenant)
    ensures var r := Enriched(ctx, a);
            ctx.project.Some? && ctx.project.value.source == GitRemote && a.byRemote(ctx.project.value.value).Some? ==>
              var p := a.byRemote(ctx.project.value.value).value;
              && r.project == Some(Resolved(p.uid.id, CedarAgent))
              && (forall i: nat :: FirstTeamAt(p.parents, i) ==> r.team == Some(Resolved(p.parents[i].id, CedarAgent)))
  {
    forall parents: seq<EntityUid>, i: nat | FirstTeamAt(parents, i) ensures FirstTeam(parents) == Some(parents[i].id) {
      FirstTeamIsFirst(parents, i);
    }
  }

  /** An agent that is down changes nothing. */
  lemma {:induction false} UnhealthyAgentIsIgnored(ctx: Context, a: AgentAnswers)
    requires !a.healthy
    ensures Enriched(ctx, a) == ctx
  {
  }

  /** The source is one a person chose: an override, a variable or the context file. */
  predicate Chosen(s: Source) {
    s.Explicit? || s.EnvVar? || s.ContextToml?
  }

  /** Enrichment only ever replaces a field by an answer of the agent, and except for the team never a chosen one. */
  lemma {:induction false} EnrichKeepsChosen(ctx: Context, a: AgentAnswers, f: Field)
    ensures var before, after := Get(ctx, f), Get(Enriched(ctx, a), f);
            && (after != before ==> after.Some? && after.value.source == CedarAgent)
            && (f != Team && before.Some? && Chosen(before.value.source) ==> after == before)
  {
  }

  /**
   The whole pipeline: a tenant, user, project, organization, agent or session id that was given by an
   override, a variable or the context file is the one that comes out, with its source.
   */
  lemma {:induction false} ChosenValueSurvivesPipeline(i: Inputs, ctx: Context, a: AgentAnswers, f: Field)
    requires Resolves(i, ctx)
    requires f != Team
    requires FromOverrides(i.overrides, f).Some? || FromEnv(i.env, f).Some? || FromToml(i.toml, f).Some?
    ensures Get(Enriched(ctx, a), f) == Over(FromOverrides(i.overrides, f), Over(FromEnv(i.env, f), FromToml(i.toml, f)))
  {
    LayersUnfold(i, f);
    EnrichKeepsChosen(ctx, a, f);
  }

  /**
   The documented precedence fails for the team: an explicit team id survives exactly when the project did
   not come from the git remote, or the agent does not know it, or lists no team above it.
   */
  lemma {:induction false} ExplicitTeamSurvivesIff(i: Inputs, ctx: Context, a: AgentAnswers)
    requires Resolves(i, ctx)
    requires FromOverrides(i.overrides, Team).Some?
    ensures Get(Enriched(ctx, a), Team) == FromOverrides(i.overrides, Team) <==>
            var p := if a.healthy && i.gitProject.Some? then a.byRemote(i.gitProject.value) else None;
            || FromOverrides(i.overrides, Project).Some? || FromEnv(i.env, Project).Some? || FromToml(i.toml, Project).Some?
            || p.None? || FirstTeam(p.value.parents).None?
  {
    LayersUnfold(i, Team);
    LayersUnfold(i, Project);
    assert Get(ctx, Team) == ctx.team && Get(ctx, Project) == ctx.project;
  }

  // ---------------------------------------------------------- finding context.toml

  datatype Found = Nested(dir: nat) | Direct(dir: nat)

  /**
   `find_context_toml`: `nested(d)` and `direct(d)` say which of the two file names exists `d` levels above
   the start, and `levels` is the number of directories up to the root.
   */
  method FindContextToml(nested: nat -> bool, direct: nat -> bool, levels: nat, maxDepth: nat) returns (r: Option<Found>)
    requires levels >= 1
    ensures r.Some? ==>
              && r.value.dir < levels && (r.value.dir == 0 || r.value.dir < maxDepth)
              && (r.value.Nested? <==> nested(r.value.dir)) && (nested(r.value.dir) || direct(r.value.dir))
              && forall d :: 0 <= d < r.value.dir ==> !nested(d) && !direct(d)
    ensures r.None? ==> forall d :: 0 <= d < levels && (d == 0 || d < maxDepth) ==> !nested(d) && !direct(d)
  {
    var current, depth := 0, 0;
    while true
      invariant current == depth < levels && (current == 0 || current < maxDepth)
      invariant forall d :: 0 <= d < current ==> !nested(d) && !direct(d)
      decreases levels - current
    {
      if nested(current) {
        return Some(Nested(current));
      }
      if direct(current) {
        return Some(Direct(current));
      }
      depth := depth + 1;
      if depth >= maxDepth {
        return None;
      }
      if current + 1 >= levels {
        return None;
      }
      current := current + 1;
    }
  }
}

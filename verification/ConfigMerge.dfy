/** Merging configuration from defaults, file, environment and command line. */
module ConfigMerge {
  import opened Common

  /** The merged fields, by section in the order they are compared. */
  datatype Field =
    | PgHost | PgPort | PgDatabase | PgUsername | PgPassword | PgPoolSize | PgTimeout
    | QdHost | QdPort | QdCollection | QdTimeout
    | RdHost | RdPort | RdDb | RdPoolSize | RdTimeout
    | SyncEnabled | SyncInterval | SyncBatchSize | SyncCheckpoint | SyncConflictResolution
    | ToolsEnabled | ToolsHost | ToolsPort | ToolsApiKey | ToolsRateLimit
    | ObsMetrics | ObsTracing | ObsLogLevel | ObsMetricsPort

  datatype Value = Text(s: string) | Number(n: nat) | Flag(b: bool) | Key(k: Option<string>)

  /** The built-in value of a field; a source that carries it counts as silent. */
  function BuiltIn(f: Field): Value {
    match f
    case PgHost => Text("localhost")
    case PgPort => Number(5432)
    case PgDatabase => Text("memory_knowledge")
    case PgUsername => Text("postgres")
    case PgPassword => Text("")
    case PgPoolSize => Number(10)
    case PgTimeout => Number(30)
    case QdHost => Text("localhost")
    case QdPort => Number(6333)
    case QdCollection => Text("memory_embeddings")
    case QdTimeout => Number(30)
    case RdHost => Text("localhost")
    case RdPort => Number(6379)
    case RdDb => Number(0)
    case RdPoolSize => Number(10)
    case RdTimeout => Number(30)
    case SyncEnabled => Flag(true)
    case SyncInterval => Number(60)
    case SyncBatchSize => Number(100)
    case SyncCheckpoint => Flag(true)
    case SyncConflictResolution => Text("prefer_knowledge")
    case ToolsEnabled => Flag(true)
    case ToolsHost => Text("localhost")
    case ToolsPort => Number(8080)
    case ToolsApiKey => Key(None)
    case ToolsRateLimit => Number(60)
    case ObsMetrics => Flag(true)
    case ObsTracing => Flag(true)
    case ObsLogLevel => Text("info")
    case ObsMetricsPort => Number(9090)
  }

  const POSTGRES := [PgHost, PgPort, PgDatabase, PgUsername, PgPassword, PgPoolSize, PgTimeout]
  const QDRANT := [QdHost, QdPort, QdCollection, QdTimeout]
  const REDIS := [RdHost, RdPort, RdDb, RdPoolSize, RdTimeout]
  const SYNC := [SyncEnabled, SyncInterval, SyncBatchSize, SyncCheckpoint, SyncConflictResolution]
  const TOOLS := [ToolsEnabled, ToolsHost, ToolsPort, ToolsApiKey, ToolsRateLimit]
  const OBSERVABILITY := [ObsMetrics, ObsTracing, ObsLogLevel, ObsMetricsPort]

  /** The merged sections, in merge order. */
  const SECTIONS: seq<seq<Field>> := [POSTGRES, QDRANT, REDIS, SYNC, TOOLS, OBSERVABILITY]

  /** Which section merges a field. */
  function SectionOf(f: Field): (i: nat)
    ensures i < 6
  {
    match f
    case PgHost | PgPort | PgDatabase | PgUsername | PgPassword | PgPoolSize | PgTimeout => 0
    case QdHost | QdPort | QdCollection | QdTimeout => 1
    case RdHost | RdPort | RdDb | RdPoolSize | RdTimeout => 2
    case SyncEnabled | SyncInterval | SyncBatchSize | SyncCheckpoint | SyncConflictResolution => 3
    case ToolsEnabled | ToolsHost | ToolsPort | ToolsApiKey | ToolsRateLimit => 4
    case ObsMetrics | ObsTracing | ObsLogLevel | ObsMetricsPort => 5
  }

  /** `home` says in which one of `sections` each field is merged. */
  ghost predicate Partition(sections: seq<seq<Field>>, home: Field -> nat) {
    && (forall f: Field :: home(f) < |sections|)
    && (forall i, f :: 0 <= i < |sections| ==> (f in sections[i] <==> home(f) == i))
    && (forall i :: 0 <= i < |sections| ==> NoRepeats(sections[i]))
  }

  /** A section holds exactly the fields whose home it is. */
  ghost predicate IsSection(fields: seq<Field>, i: nat) {
    NoRepeats(fields) && forall f: Field :: f in fields <==> SectionOf(f) == i
  }

  lemma {:induction false} PostgresIsSection()
    ensures IsSection(POSTGRES, 0)
  {
  }

  lemma {:induction false} QdrantIsSection()
    ensures IsSection(QDRANT, 1)
  {
  }

  lemma {:induction false} RedisIsSection()
    ensures IsSection(REDIS, 2)
  {
  }

  lemma {:induction false} SyncIsSection()
    ensures IsSection(SYNC, 3)
  {
  }

  lemma {:induction false} ToolsIsSection()
    ensures IsSection(TOOLS, 4)
  {
  }

  lemma {:induction false} ObservabilityIsSection()
    ensures IsSection(OBSERVABILITY, 5)
  {
  }

  lemma {:induction false} SectionsPartitionTheFields()
    ensures Partition(SECTIONS, SectionOf)
  {
    PostgresIsSection();
    QdrantIsSection();
    RedisIsSection();
    SyncIsSection();
    ToolsIsSection();
    ObservabilityIsSection();
    forall i | 0 <= i < |SECTIONS| ensures IsSection(SECTIONS[i], i) {
    }
  }

  datatype Admin = Admin(email: Option<string>, details: string)

  /** `unmerged` stands for the sections the merge leaves alone. */
  datatype Config = Config(values: map<Field, Value>, admin: Admin, unmerged: string) {
    ghost predicate Total() {
      forall f: Field :: f in values
    }
  }

  datatype Change = Changed(field: Field) | AdminOverridden

  // ------------------------------------------------------------------ one field

  /** The value after one source: the source's value unless it is the built-in one. */
  function Pick(builtIn: Value, base: Value, over: Value): Value {
    if over != builtIn then over else base
  }

  function PickAdmin(base: Admin, over: Admin): Admin {
    if over.email.Some? then over else base
  }

  // --------------------------------------------------------------- one section

  /** `merge_postgres` and its five siblings: write through `base` and log each change. */
  method MergeSection(fields: seq<Field>, builtIn: Field -> Value, base: map<Field, Value>, over: map<Field, Value>)
    returns (merged: map<Field, Value>, changes: seq<Change>)
    requires NoRepeats(fields) && forall f: Field :: f in base && f in over
    ensures forall f: Field :: f in merged &&
              merged[f] == if f in fields then Pick(builtIn(f), base[f], over[f]) else base[f]
    ensures forall f: Field :: Changed(f) in changes <==> merged[f] != base[f]
    ensures AdminOverridden !in changes && NoRepeats(changes)
  {
    merged, changes := base, [];
    for i := 0 to |fields|
      invariant forall f: Field :: f in merged &&
                  merged[f] == if f in fields[..i] then Pick(builtIn(f), base[f], over[f]) else base[f]
      invariant forall f: Field :: Changed(f) in changes <==> merged[f] != base[f]
      invariant AdminOverridden !in changes && NoRepeats(changes)
    {
      var f := fields[i];
      assert fields[..i + 1] == fields[..i] + [f] && f !in fields[..i];
      if over[f] != builtIn(f) && over[f] != merged[f] {
        changes := changes + [Changed(f)];
        merged := merged[f := over[f]];
      }
    }
    assert fields[..|fields|] == fields;
  }

  lemma {:induction false} NoRepeatsConcat<T>(a: seq<T>, b: seq<T>)
    requires NoRepeats(a) && NoRepeats(b) && forall x :: x in b ==> x !in a
    ensures NoRepeats(a + b)
  {
    forall i, j | 0 <= i < j < |a + b| ensures (a + b)[i] != (a + b)[j] {
      if i < |a| <= j {
        assert a[i] in a && b[j - |a|] in b;
      }
    }
  }

  // ---------------------------------------------------------------- one source

  /** Every merged field replaced where the source is not silent. */
  ghost predicate MergedFrom(builtIn: Field -> Value, base: Config, over: Config, r: Config)
    requires base.Total() && over.Total()
  {
    && r.Total()
    && (forall f: Field :: r.values[f] == Pick(builtIn(f), base.values[f], over.values[f]))
    && r.admin == PickAdmin(base.admin, over.admin)
    && r.unmerged == base.unmerged
  }

  /** The log names exactly what changed, each change once. */
  ghost predicate Logs(base: Config, r: Config, changes: seq<Change>)
    requires base.Total() && r.Total()
  {
    && (forall f: Field :: Changed(f) in changes <==> r.values[f] != base.values[f])
    && (AdminOverridden in changes <==> r.admin != base.admin)
    && NoRepeats(changes)
  }

  /**
   `merge_with_logging`: each section is merged in a copy that is written back only if something was
   logged, and the log names each changed field once.
   */
  method MergeWithLogging(sections: seq<seq<Field>>, ghost home: Field -> nat, builtIn: Field -> Value, base: Config, over: Config)
    returns (r: Config, changes: seq<Change>)
    requires Partition(sections, home) && base.Total() && over.Total()
    ensures MergedFrom(builtIn, base, over, r)
    ensures Logs(base, r, changes)
    ensures changes == [] <==> r == base
  {
    r, changes := base, [];
    for i := 0 to |sections|
      invariant r.Total() && r.admin == base.admin && r.unmerged == base.unmerged
      invariant forall f: Field :: r.values[f] ==
                  if home(f) < i then Pick(builtIn(f), base.values[f], over.values[f]) else base.values[f]
      invariant forall f: Field :: Changed(f) in changes <==> r.values[f] != base.values[f]
      invariant AdminOverridden !in changes && NoRepeats(changes)
    {
      var copy, logged := MergeSection(sections[i], builtIn, r.values, over.values);
      forall c | c in logged ensures c !in changes {
        assert copy[c.field] != r.values[c.field];
        assert c.field in sections[i];
      }
      NoRepeatsConcat(changes, logged);
      if logged != [] {
        r := r.(values := copy);
        changes := changes + logged;
      } else {
        assert forall f: Field :: Changed(f) !in logged;
      }
    }
    if over.admin.email.Some? && over.admin != r.admin {
      changes := changes + [AdminOverridden];
      r := r.(admin := over.admin);
    }
    SilentMergeIsIdentity(base, r, changes);
  }

  /** An empty log means nothing changed, so not writing back loses nothing. */
  lemma {:induction false} SilentMergeIsIdentity(base: Config, r: Config, changes: seq<Change>)
    requires base.Total() && r.Total() && r.unmerged == base.unmerged && Logs(base, r, changes)
    ensures changes == [] <==> r == base
  {
    if changes == [] {
      assert forall f: Field :: Changed(f) !in changes;
      assert r.values == base.values;
    } else {
      var c := changes[0];
      assert c in changes;
      if c.Changed? { assert r.values[c.field] != base.values[c.field]; }
    }
  }

  // --------------------------------------------------------------- all sources

  /** The last source, if any, that is not silent. */
  function LastSet(builtIn: Value, base: Value, sources: seq<Value>): Value {
    if sources == [] then base
    else if sources[|sources| - 1] != builtIn then sources[|sources| - 1]
    else LastSet(builtIn, base, sources[..|sources| - 1])
  }

  function LastAdmin(base: Admin, sources: seq<Admin>): Admin {
    if sources == [] then base
    else if sources[|sources| - 1].email.Some? then sources[|sources| - 1]
    else LastAdmin(base, sources[..|sources| - 1])
  }

  lemma {:induction false} LastSetStep(builtIn: Value, base: Value, lower: seq<Value>, top: Value)
    ensures LastSet(builtIn, base, lower + [top]) == Pick(builtIn, LastSet(builtIn, base, lower), top)
  {
    assert (lower + [top])[..|lower|] == lower;
  }

  lemma {:induction false} LastAdminStep(base: Admin, lower: seq<Admin>, top: Admin)
    ensures LastAdmin(base, lower + [top]) == PickAdmin(LastAdmin(base, lower), top)
  {
    assert (lower + [top])[..|lower|] == lower;
  }

  /** The values a list of sources, lowest precedence first, has for `f`. */
  function Said(f: Field, sources: seq<Config>): seq<Value>
    requires forall c :: c in sources ==> c.Total()
  {
    seq(|sources|, i requires 0 <= i < |sources| => assert sources[i] in sources && sources[i].Total(); sources[i].values[f])
  }

  function SaidAdmin(sources: seq<Config>): seq<Admin> {
    seq(|sources|, i requires 0 <= i < |sources| => sources[i].admin)
  }

  /** What is merged so far is the last non-silent word of the sources so far. */
  ghost predicate LastWord(builtIn: Field -> Value, defaults: Config, sources: seq<Config>, r: Config)
    requires defaults.Total() && forall c :: c in sources ==> c.Total()
  {
    && r.Total() && r.unmerged == defaults.unmerged
    && (forall f: Field :: r.values[f] == LastSet(builtIn(f), defaults.values[f], Said(f, sources)))
    && r.admin == LastAdmin(defaults.admin, SaidAdmin(sources))
  }

  lemma {:induction false} SaidAppend(f: Field, sources: seq<Config>, next: Config)
    requires next.Total() && (forall c :: c in sources ==> c.Total()) && forall c :: c in sources + [next] ==> c.Total()
    ensures Said(f, sources + [next]) == Said(f, sources) + [next.values[f]]
  {
  }

  lemma {:induction false} LastWordStep(builtIn: Field -> Value, defaults: Config, sources: seq<Config>, r: Config, next: Config, r': Config)
    requires defaults.Total() && next.Total() && forall c :: c in sources + [next] ==> c.Total()
    requires forall c :: c in sources ==> c.Total()
    requires LastWord(builtIn, defaults, sources, r) && MergedFrom(builtIn, r, next, r')
    ensures LastWord(builtIn, defaults, sources + [next], r')
  {
    forall f: Field
      ensures r'.values[f] == LastSet(builtIn(f), defaults.values[f], Said(f, sources + [next]))
    {
      SaidAppend(f, sources, next);
      LastSetStep(builtIn(f), defaults.values[f], Said(f, sources), next.values[f]);
    }
    assert SaidAdmin(sources + [next]) == SaidAdmin(sources) + [next.admin];
    LastAdminStep(defaults.admin, SaidAdmin(sources), next.admin);
  }

  function Sources(file: Config, env: Config, cli: Option<Config>): seq<Config> {
    if cli.Some? then [file, env, cli.value] else [file, env]
  }

  /** `merge_configs`: every merged field is the last non-silent word on it, the rest comes from the defaults. */
  method MergeConfigs(defaults: Config, file: Config, env: Config, cli: Option<Config>) returns (r: Config)
    requires defaults.Total() && file.Total() && env.Total() && (cli.Some? ==> cli.value.Total())
    ensures LastWord(BuiltIn, defaults, Sources(file, env, cli), r)
    // the documented order: command line, environment, file, defaults
    ensures forall f: Field :: r.values[f] ==
              if cli.Some? && cli.value.values[f] != BuiltIn(f) then cli.value.values[f]
              else if env.values[f] != BuiltIn(f) then env.values[f]
              else if file.values[f] != BuiltIn(f) then file.values[f]
              else defaults.values[f]
    ensures r.admin ==
            if cli.Some? && cli.value.admin.email.Some? then cli.value.admin
            else if env.admin.email.Some? then env.admin
            else if file.admin.email.Some? then file.admin
            else defaults.admin
    ensures r.unmerged == defaults.unmerged
  {
    SectionsPartitionTheFields();
    assert [] + [file] == [file] && [file] + [env] == [file, env];
    var r1, log1 := MergeWithLogging(SECTIONS, SectionOf, BuiltIn, defaults, file);
    LastWordStep(BuiltIn, defaults, [], defaults, file, r1);
    var r2, log2 := MergeWithLogging(SECTIONS, SectionOf, BuiltIn, r1, env);
    LastWordStep(BuiltIn, defaults, [file], r1, env, r2);
    r := r2;
    if cli.Some? {
      var r3, log3 := MergeWithLogging(SECTIONS, SectionOf, BuiltIn, r2, cli.value);
      assert [file, env] + [cli.value] == [file, env, cli.value];
      LastWordStep(BuiltIn, defaults, [file, env], r2, cli.value, r3);
      r := r3;
    }
  }

  // ---------------------------------------------------- precedence, as documented

  /** Nobody among `vs` asks for anything but the built-in value. */
  predicate AllBuiltIn(builtIn: Value, vs: seq<Value>) {
    forall v :: v in vs ==> v == builtIn
  }

  lemma {:induction false} BuiltInResultIff(builtIn: Value, base: Value, sources: seq<Value>)
    ensures LastSet(builtIn, base, sources) == builtIn <==> base == builtIn && AllBuiltIn(builtIn, sources)
  {
    if sources != [] {
      var front, top := sources[..|sources| - 1], sources[|sources| - 1];
      assert sources == front + [top];
      BuiltInResultIff(builtIn, base, front);
      assert LastSet(builtIn, base, sources) == Pick(builtIn, LastSet(builtIn, base, front), top);
      assert AllBuiltIn(builtIn, sources) <==> AllBuiltIn(builtIn, front) && top == builtIn by {
        assert top in sources && forall v :: v in front ==> v in sources;
      }
    }
  }

  /**
   The documented precedence, "the highest source wins", is met for the topmost source exactly unless it
   asks for the built-in value while the base or a lower source asks for something else.
   */
  lemma {:induction false} HighestSourceWinsIff(builtIn: Value, base: Value, lower: seq<Value>, top: Value)
    ensures LastSet(builtIn, base, lower + [top]) == top <==>
            top != builtIn || (base == builtIn && AllBuiltIn(builtIn, lower))
  {
    LastSetStep(builtIn, base, lower, top);
    BuiltInResultIff(builtIn, base, lower);
  }

  /** The same of whole configurations, field by field: when the command line gets its way. */
  lemma {:induction false} CommandLineWinsIff(defaults: Config, file: Config, env: Config, cli: Config, r: Config, f: Field)
    requires defaults.Total() && file.Total() && env.Total() && cli.Total()
    requires LastWord(BuiltIn, defaults, Sources(file, env, Some(cli)), r)
    ensures r.values[f] == cli.values[f] <==>
            || cli.values[f] != BuiltIn(f)
            || (defaults.values[f] == BuiltIn(f) && file.values[f] == BuiltIn(f) && env.values[f] == BuiltIn(f))
  {
    var lower := [file.values[f], env.values[f]];
    assert Said(f, Sources(file, env, Some(cli))) == lower + [cli.values[f]];
    HighestSourceWinsIff(BuiltIn(f), defaults.values[f], lower, cli.values[f]);
    assert AllBuiltIn(BuiltIn(f), lower) <==> file.values[f] == BuiltIn(f) && env.values[f] == BuiltIn(f) by {
      assert lower[0] in lower && lower[1] in lower;
    }
  }

  /** A failing input: the command line asks for port 5432 and the file's 9999 stays. */
  lemma {:induction false} CommandLineCannotRestoreBuiltIn(admin: Admin, unmerged: string, r: Config)
    requires var plain := Config(map f: Field :: BuiltIn(f), admin, unmerged);
             var file := plain.(values := plain.values[PgPort := Number(9999)]);
             LastWord(BuiltIn, plain, Sources(file, plain, Some(plain)), r)
    ensures r.values[PgPort] == Number(9999) != BuiltIn(PgPort)
  {
    var plain := Config(map f: Field :: BuiltIn(f), admin, unmerged);
    var file := plain.(values := plain.values[PgPort := Number(9999)]);
    var said := Said(PgPort, Sources(file, plain, Some(plain)));
    assert said == [Number(9999), Number(5432), Number(5432)];
    assert said[..2] == [Number(9999), Number(5432)] && said[..2][..1] == [Number(9999)];
    assert LastSet(Number(5432), Number(5432), said[..2][..1]) == Number(9999);
    assert LastSet(Number(5432), Number(5432), said[..2]) == Number(9999);
  }

  // ------------------------------------------------------------- algebra of merging

  /** Merging `b` and `c` into `a` one after the other, or `c` into `b` first, gives the same configuration. */
  lemma {:induction false} MergeIsAssociative(builtIn: Field -> Value, a: Config, b: Config, c: Config,
                                              ab: Config, l: Config, bc: Config, r: Config)
    requires a.Total() && b.Total() && c.Total()
    requires MergedFrom(builtIn, a, b, ab) && MergedFrom(builtIn, ab, c, l)
    requires MergedFrom(builtIn, b, c, bc) && MergedFrom(builtIn, a, bc, r)
    ensures l == r
  {
    assert l.values == r.values;
  }

  /** Merging a source into its own result changes nothing and logs nothing. */
  lemma {:induction false} MergeIsIdempotent(builtIn: Field -> Value, base: Config, over: Config, r: Config, r': Config, changes: seq<Change>)
    requires base.Total() && over.Total()
    requires MergedFrom(builtIn, base, over, r) && MergedFrom(builtIn, r, over, r') && Logs(r, r', changes)
    ensures r' == r && changes == []
  {
    assert r'.values == r.values;
    SilentMergeIsIdentity(r, r', changes);
  }

  /** Running the whole merge again on top of its own result changes nothing. */
  lemma {:induction false} ReloadIsStable(builtIn: Field -> Value, defaults: Config, sources: seq<Config>, r: Config, r': Config)
    requires defaults.Total() && forall c :: c in sources ==> c.Total()
    requires LastWord(builtIn, defaults, sources, r) && LastWord(builtIn, r, sources, r')
    ensures r' == r
  {
    forall f: Field ensures r'.values[f] == r.values[f] {
      LastSetAbsorbs(builtIn(f), defaults.values[f], Said(f, sources));
    }
    assert r'.values == r.values;
    LastAdminAbsorbs(defaults.admin, SaidAdmin(sources));
  }

  lemma {:induction false} LastSetAbsorbs(builtIn: Value, base: Value, a: seq<Value>)
    ensures LastSet(builtIn, LastSet(builtIn, base, a), a) == LastSet(builtIn, base, a)
  {
    if a != [] && a[|a| - 1] == builtIn {
      LastSetAbsorbs(builtIn, base, a[..|a| - 1]);
    }
  }

  lemma {:induction false} LastAdminAbsorbs(base: Admin, a: seq<Admin>)
    ensures LastAdmin(LastAdmin(base, a), a) == LastAdmin(base, a)
  {
    if a != [] && a[|a| - 1].email.None? {
      LastAdminAbsorbs(base, a[..|a| - 1]);
    }
  }
}

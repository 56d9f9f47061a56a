/** The table that remembers which team a GitHub group was mapped to. */
module GroupMappings {

  /** The primary key has no tenant. */
  datatype MappingKey = MappingKey(groupId: string, provider: string)

  datatype Mapping = Mapping(teamId: nat, createdAt: int)

  type Table = map<MappingKey, Mapping>

  const GITHUB := "github"

  function Slot(slug: string): MappingKey {
    MappingKey(slug, GITHUB)
  }

  /** The row of a mapped group: a new one, or the old one with its team replaced. */
  function MappedRow(table: Table, slug: string, teamId: nat, now: int): Mapping {
    Mapping(teamId, if Slot(slug) in table then table[Slot(slug)].createdAt else now)
  }

  /** Exactly the slots of `mappings` are written. */
  ghost predicate Stored(table: Table, mappings: map<string, nat>, now: int, t: Table) {
    && (forall s :: s in mappings ==> Slot(s) in t && t[Slot(s)] == MappedRow(table, s, mappings[s], now))
    && (forall k: MappingKey :: !(k.provider == GITHUB && k.groupId in mappings) ==>
          (k in t <==> k in table) && (k in t ==> t[k] == table[k]))
  }

  /** `store_group_to_team_mappings`, in whatever order the map yields its entries. */
  method StoreMappings(table: Table, mappings: map<string, nat>, now: int) returns (t: Table)
    ensures Stored(table, mappings, now, t)
  {
    t := table;
    var rest := mappings.Keys;
    while rest != {}
      invariant rest <= mappings.Keys
      invariant forall s :: s in mappings && s !in rest ==> Slot(s) in t && t[Slot(s)] == MappedRow(table, s, mappings[s], now)
      invariant forall k: MappingKey :: !(k.provider == GITHUB && k.groupId in mappings && k.groupId !in rest) ==>
                  (k in t <==> k in table) && (k in t ==> t[k] == table[k])
    {
      var s :| s in rest;
      t := t[Slot(s) := Mapping(mappings[s], if Slot(s) in t then t[Slot(s)].createdAt else now)];
      rest := rest - {s};
    }
  }

  /** Storing the same mappings again, at any later time, changes no row. */
  lemma {:induction false} StoringTwiceChangesNothing(table: Table, mappings: map<string, nat>, now: int, t: Table, later: int, t': Table)
    requires Stored(table, mappings, now, t) && Stored(t, mappings, later, t')
    ensures t' == t
  {
    forall k: MappingKey ensures (k in t' <==> k in t) && (k in t ==> t'[k] == t[k]) {
      if k.provider == GITHUB && k.groupId in mappings {
        assert k == Slot(k.groupId);
      }
    }
  }
}

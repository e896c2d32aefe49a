/**
 * Versioned rule sets over a store of shared records: creation gives the next version and
 * stores the rules with their hash; activation changes the records in place.
 */
module RuleSetStore {
  import opened Utf16
  import opened Wrappers
  import opened ObjectGraph
  import opened EvidenceChains
  import opened RuleSetHash

  /** One record; creation, activation and every reader share the same object. */
  class RuleSet {
    const id: Text
    const tenantId: Text
    const name: Text
    const version: nat
    const clauseIds: seq<Text>
    const compiledAt: Text
    const correlationId: Text
    var active: bool
    var activatedAt: Option<Text>
    var updatedAt: Text
    var auditHash: Option<Text>

    constructor (tenantId: Text, id: Text, input: CreateInput, now: Text)
      ensures this.id == id && this.tenantId == tenantId && this.name == input.name && this.version == input.version
      ensures this.clauseIds == input.clauseIds && this.compiledAt == input.compiledAt && this.correlationId == input.correlationId
      ensures !active && activatedAt == input.activatedAt && updatedAt == now && auditHash == None
    {
      this.id, this.tenantId, this.name, this.version := id, tenantId, input.name, input.version;
      this.clauseIds, this.compiledAt, this.correlationId := input.clauseIds, input.compiledAt, input.correlationId;
      active, activatedAt, updatedAt, auditHash := false, input.activatedAt, now, None;
    }
  }

  /** Every record is created inactive. */
  datatype CreateInput = CreateInput(
    name: Text,
    version: nat,
    clauseIds: seq<Text>,
    compiledAt: Text,
    activatedAt: Option<Text>,
    correlationId: Text)

  // ---------------------------------------------------------------------- the base repository

  predicate Listed(sets: seq<RuleSet>, t: Text) {
    && (forall i :: 0 <= i < |sets| ==> sets[i].tenantId == t)
    && (forall i, j :: 0 <= i < j < |sets| ==> sets[i].id != sets[j].id)
  }

  predicate NoneHasId(sets: seq<RuleSet>, id: Text) {
    forall i :: 0 <= i < |sets| ==> sets[i].id != id
  }

  predicate NoneActive(sets: seq<RuleSet>)
    reads sets`active
  {
    forall i :: 0 <= i < |sets| ==> !sets[i].active
  }

  predicate AtMostOneActive(sets: seq<RuleSet>)
    reads sets`active
  {
    forall i, j :: 0 <= i < j < |sets| ==> !(sets[i].active && sets[j].active)
  }

  predicate OnlyActive(sets: seq<RuleSet>, r: RuleSet)
    reads sets`active
  {
    forall i :: 0 <= i < |sets| ==> (sets[i].active <==> sets[i] == r)
  }

  class RuleSetRepository {
    var store: map<Text, seq<RuleSet>>
    ghost var Repr: set<RuleSet>

    constructor ()
      ensures Valid() && Repr == {} && forall t :: Sets(t) == []
    {
      store := map[];
      Repr := {};
    }

    function Sets(t: Text): seq<RuleSet>
      reads this
    {
      if t in store then store[t] else []
    }

    /** Each tenant's records carry its id and have distinct ids of their own. */
    ghost predicate Valid()
      reads this
    {
      forall t :: Listed(Sets(t), t) && (forall r :: r in Sets(t) ==> r in Repr)
    }

    /** Generated ids are new. */
    ghost predicate FreshId(id: Text)
      reads this
    {
      forall t :: NoneHasId(Sets(t), id)
    }

    method Create(t: Text, id: Text, input: CreateInput, now: Text) returns (r: RuleSet)
      requires Valid() && FreshId(id)
      modifies this
      ensures Valid() && fresh(r) && Repr == old(Repr) + {r}
      ensures r.id == id && r.tenantId == t && r.name == input.name && r.version == input.version
      ensures r.clauseIds == input.clauseIds && r.compiledAt == input.compiledAt && r.correlationId == input.correlationId
      ensures !r.active && r.activatedAt == input.activatedAt && r.updatedAt == now
      ensures Sets(t) == old(Sets(t)) + [r]
      ensures forall u :: u != t ==> Sets(u) == old(Sets(u))
    {
      r := new RuleSet(t, id, input, now);
      ghost var before := Sets(t);
      store := store[t := Sets(t) + [r]];
      Repr := Repr + {r};
      assert forall u :: Sets(u) == if u == t then before + [r] else old(Sets(u));
    }

    method FindById(t: Text, id: Text) returns (r: Option<RuleSet>)
      requires Valid()
      ensures r.Some? ==> r.value in Sets(t) && r.value.id == id
      ensures r.None? <==> NoneHasId(Sets(t), id)
    {
      var i := 0;
      while i < |Sets(t)|
        invariant 0 <= i <= |Sets(t)|
        invariant forall k :: 0 <= k < i ==> Sets(t)[k].id != id
      {
        if Sets(t)[i].id == id {
          return Some(Sets(t)[i]);
        }
        i := i + 1;
      }
      return None;
    }

    /** The first active record, if any. */
    method FindActive(t: Text) returns (r: Option<RuleSet>)
      requires Valid()
      ensures r.Some? ==> r.value in Sets(t) && r.value.active
      ensures r.None? <==> NoneActive(Sets(t))
    {
      var i := 0;
      while i < |Sets(t)|
        invariant 0 <= i <= |Sets(t)|
        invariant forall k :: 0 <= k < i ==> !Sets(t)[k].active
      {
        if Sets(t)[i].active {
          return Some(Sets(t)[i]);
        }
        i := i + 1;
      }
      return None;
    }
  }

  // ---------------------------------------------------------------------- versions

  /** One more than the highest version under that name, 1 for a new name. */
  predicate IsNextVersion(version: nat, name: Text, earlier: seq<RuleSet>) {
    && (forall i :: 0 <= i < |earlier| && earlier[i].name == name ==> earlier[i].version < version)
    && if exists i :: 0 <= i < |earlier| && earlier[i].name == name && earlier[i].version > 0
       then exists i :: 0 <= i < |earlier| && earlier[i].name == name && earlier[i].version + 1 == version
       else version == 1
  }

  method NextVersion(sets: seq<RuleSet>, name: Text) returns (v: nat)
    ensures IsNextVersion(v, name, sets)
  {
    v := 1;
    var i := 0;
    while i < |sets|
      invariant 0 <= i <= |sets| && v >= 1
      invariant forall k :: 0 <= k < i && sets[k].name == name ==> sets[k].version < v
      invariant v > 1 ==> exists k :: 0 <= k < i && sets[k].name == name && sets[k].version == v - 1
    {
      if sets[i].name == name && sets[i].version >= v {
        v := sets[i].version + 1;
      }
      i := i + 1;
    }
  }

  /** What a copy takes over from the record it copies, whose activation time was that. */
  predicate CopiedFrom(copy: RuleSet, original: RuleSet, activatedAt: Option<Text>)
    reads copy
  {
    && copy.name == original.name && copy.version == original.version && copy.clauseIds == original.clauseIds
    && copy.compiledAt == original.compiledAt && copy.correlationId == original.correlationId
    && copy.activatedAt == activatedAt && !copy.active
  }

  /** Some other record is active. */
  predicate OtherActive(sets: seq<RuleSet>, id: Text)
    reads sets`active
  {
    exists i :: 0 <= i < |sets| && sets[i].active && sets[i].id != id
  }

  class VersionedRuleSets {
    const hashRules: seq<CompiledRule> -> Result<Text, SerialError>
    const base: RuleSetRepository
    var ruleStore: map<Text, seq<CompiledRule>>
    var hashStore: map<Text, Text>

    constructor (sha: Hash, collate: Collation)
      ensures forall rules :: hashRules(rules) == ComputeRuleSetHash(sha, collate, rules)
      ensures fresh(base) && base.Repr == {} && Valid() && ruleStore == map[]
    {
      hashRules := rules => ComputeRuleSetHash(sha, collate, rules);
      base := new RuleSetRepository();
      ruleStore, hashStore := map[], map[];
    }

    /** Every stored rule list still has the hash that was stored with it. */
    ghost predicate HashesHold()
      reads this
    {
      && ruleStore.Keys == hashStore.Keys
      && forall id :: id in ruleStore ==> hashRules(ruleStore[id]) == Ok(hashStore[id])
    }

    /** No tenant ever has two active records. */
    ghost predicate Valid()
      reads this, base, base.Repr
    {
      && base.Valid() && HashesHold()
      && forall t :: AtMostOneActive(base.Sets(t))
    }

    ghost predicate FreshId(id: Text)
      reads this, base
    {
      base.FreshId(id) && id !in ruleStore
    }

    /**
     * Adds an inactive record with the next version under that tenant and name.
     * A rule that cannot be serialized throws before anything is stored.
     */
    method CreateRuleSet(t: Text, name: Text, rules: seq<CompiledRule>, clauseIds: seq<Text>, correlationId: Text,
                         id: Text, now: Text)
      returns (r: Result<RuleSet, SerialError>)
      requires Valid() && FreshId(id)
      modifies `ruleStore, `hashStore, base
      ensures Valid()
      ensures r.Err? <==> hashRules(rules).Err?
      ensures r.Err? ==> ruleStore == old(ruleStore) && base.store == old(base.store)
      ensures r.Ok? ==> fresh(r.value) && r.value.id == id && r.value.name == name && !r.value.active
      ensures r.Ok? ==> base.Sets(t) == old(base.Sets(t)) + [r.value]
      ensures r.Ok? ==> forall u :: u != t ==> base.Sets(u) == old(base.Sets(u))
      ensures r.Ok? ==> r.value.tenantId == t && r.value.clauseIds == clauseIds && r.value.correlationId == correlationId
      ensures r.Ok? ==> r.value.compiledAt == now && r.value.activatedAt == None && r.value.updatedAt == now
      ensures r.Ok? ==> IsNextVersion(r.value.version, name, old(base.Sets(t)))
      ensures r.Ok? ==> ruleStore == old(ruleStore)[id := rules]
      ensures r.Ok? ==> r.value.auditHash.Some? && hashRules(rules) == Ok(r.value.auditHash.value)
    {
      var nextVersion := NextVersion(base.Sets(t), name);
      var ruleSetHash := hashRules(rules);
      if ruleSetHash.Err? {
        return Err(ruleSetHash.error);
      }
      var ruleSet := AddInactive(t, id, CreateInput(name, nextVersion, clauseIds, now, None, correlationId), now);
      StoreRules(id, rules, ruleSetHash.value);
      label Stored:
      ruleSet.auditHash := Some(ruleSetHash.value);
      forall u ensures AtMostOneActive(base.Sets(u)) {
        assert old@Stored(AtMostOneActive(base.Sets(u)));
      }
      return Ok(ruleSet);
    }

    /**
     * Makes one record the tenant's only active one. When that switches, an inactive copy of the
     * old one is added under a new id, for which no rules are stored.
     */
    method ActivateRuleSet(t: Text, ruleSetId: Text, copyId: Text, now: Text) returns (r: Option<RuleSet>)
      requires Valid() && FreshId(copyId)
      modifies this, base, base.Repr
      ensures Valid() && ruleStore == old(ruleStore) && hashStore == old(hashStore)
      ensures r.None? <==> NoneHasId(old(base.Sets(t)), ruleSetId)
      ensures r.None? ==> base.store == old(base.store) && unchanged(old(base.Repr))
      ensures r.Some? ==> r.value in old(base.Sets(t)) && r.value.id == ruleSetId && r.value.activatedAt == Some(now) && r.value.updatedAt == now
      ensures r.Some? ==> OnlyActive(base.Sets(t), r.value)
      ensures forall u :: u != t ==> base.Sets(u) == old(base.Sets(u))
      ensures r.Some? && !old(OtherActive(base.Sets(t), ruleSetId)) ==> base.Sets(t) == old(base.Sets(t))
      ensures r.Some? && old(OtherActive(base.Sets(t), ruleSetId)) ==>
        && |base.Sets(t)| == |old(base.Sets(t))| + 1 && base.Sets(t)[..|old(base.Sets(t))|] == old(base.Sets(t))
        && var copy := base.Sets(t)[|old(base.Sets(t))|];
           fresh(copy) && copy.id == copyId
           && exists c :: c in old(base.Sets(t)) && old(c.active) && c.id != ruleSetId && CopiedFrom(copy, c, old(c.activatedAt))
    {
      hide HashesHold;
      var ruleSet := base.FindById(t, ruleSetId);
      if ruleSet.None? {
        return None;
      }
      var currentActive := base.FindActive(t);
      if currentActive.Some? && currentActive.value.id != ruleSetId {
        var copy := Deactivate(t, currentActive.value, copyId, now);
      }
      MarkActive(t, ruleSet.value, now);
      return Some(ruleSet.value);
    }

    /** Stores the rules and the hash over them; neither is written again. */
    method StoreRules(id: Text, rules: seq<CompiledRule>, hash: Text)
      requires HashesHold() && id !in ruleStore && hashRules(rules) == Ok(hash)
      modifies `ruleStore, `hashStore
      ensures HashesHold() && ruleStore == old(ruleStore)[id := rules]
    {
      ruleStore := ruleStore[id := rules];
      hashStore := hashStore[id := hash];
    }

    method AddInactive(t: Text, id: Text, input: CreateInput, now: Text) returns (r: RuleSet)
      requires Valid() && FreshId(id)
      modifies base
      ensures Valid() && fresh(r) && base.Repr == old(base.Repr) + {r}
      ensures r.id == id && r.name == input.name && r.version == input.version && r.clauseIds == input.clauseIds
      ensures r.compiledAt == input.compiledAt && r.correlationId == input.correlationId
      ensures !r.active && r.activatedAt == input.activatedAt && r.updatedAt == now && r.tenantId == t
      ensures base.Sets(t) == old(base.Sets(t)) + [r]
      ensures forall u :: u != t ==> base.Sets(u) == old(base.Sets(u))
    {
      r := base.Create(t, id, input, now);
      forall u ensures AtMostOneActive(base.Sets(u)) {
        assert old(AtMostOneActive(base.Sets(u)));
      }
    }

    /** Adds the inactive copy, then marks the old record inactive. */
    method Deactivate(t: Text, current: RuleSet, copyId: Text, now: Text) returns (copy: RuleSet)
      requires Valid() && FreshId(copyId)
      requires current in base.Sets(t) && current.active
      modifies base, current`active
      ensures Valid() && NoneActive(base.Sets(t))
      ensures fresh(copy) && copy.id == copyId && base.Sets(t) == old(base.Sets(t)) + [copy]
      ensures CopiedFrom(copy, current, current.activatedAt)
      ensures forall u :: u != t ==> base.Sets(u) == old(base.Sets(u))
      ensures fresh(base.Repr - old(base.Repr)) && old(base.Repr) <= base.Repr
    {
      copy := AddInactive(t, copyId, CreateInput(current.name, current.version, current.clauseIds, current.compiledAt,
                                                 current.activatedAt, current.correlationId), now);
      current.active := false;
    }

    method MarkActive(t: Text, target: RuleSet, now: Text)
      requires Valid() && target in base.Sets(t)
      requires NoneActive(base.Sets(t)) || OnlyActive(base.Sets(t), target)
      modifies target
      ensures Valid() && OnlyActive(base.Sets(t), target) && target.activatedAt == Some(now) && target.updatedAt == now
    {
      target.active := true;
      target.activatedAt := Some(now);
      target.updatedAt := now;
    }

    method GetActiveRuleSet(t: Text) returns (r: Option<RuleSet>)
      requires Valid()
      ensures r.Some? ==> r.value in base.Sets(t) && OnlyActive(base.Sets(t), r.value)
      ensures r.None? <==> NoneActive(base.Sets(t))
    {
      r := base.FindActive(t);
    }

    method GetRulesForSet(id: Text) returns (rules: seq<CompiledRule>)
      ensures rules == if id in ruleStore then ruleStore[id] else []
    {
      rules := if id in ruleStore then ruleStore[id] else [];
    }

    /** Holds for every set that was created with rules, as long as its digest is not the empty text. */
    method VerifyRuleSetHash(id: Text) returns (holds: bool)
      requires Valid()
      ensures holds <==> id in ruleStore && hashStore[id] != []
    {
      if id !in ruleStore || id !in hashStore || hashStore[id] == [] {
        return false;
      }
      return hashRules(ruleStore[id]) == Ok(hashStore[id]);
    }
  }
}

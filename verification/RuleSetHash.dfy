/**
 * The hash over a set of compiled rules. Rules are sorted by id under the locale's collation,
 * which is a parameter: the sort key of a text.
 */
module RuleSetHash {
  import opened Utf16
  import opened Wrappers
  import opened Entries
  import opened CanonicalJson
  import opened CanonicalJsonProofs
  import opened JsonGrammar
  import opened ObjectGraph
  import opened EvidenceChains

  datatype CompiledRule = CompiledRule(
    id: Text,
    clauseId: Text,
    controlId: Option<Text>,
    ruleType: Text,
    expression: Payload)

  type Collation = Text -> Text

  function Keyed(collate: Collation, rules: seq<CompiledRule>): (es: seq<Entry<CompiledRule>>)
    ensures |es| == |rules|
  {
    seq(|rules|, i requires 0 <= i < |rules| => Entry(collate(rules[i].id), rules[i]))
  }

  function Vals(es: seq<Entry<CompiledRule>>): (rules: seq<CompiledRule>)
    ensures |rules| == |es|
  {
    seq(|es|, i requires 0 <= i < |es| => es[i].val)
  }

  function SortRules(collate: Collation, rules: seq<CompiledRule>): (sorted: seq<CompiledRule>)
    ensures |sorted| == |rules|
  {
    Vals(SortByKey(Keyed(collate, rules)))
  }

  /** The hashed part of a rule. */
  function RuleJson(r: CompiledRule): Json
    requires r.expression.Ok?
  {
    Obj([Entry(Lit("id"), Str(r.id)),
         Entry(Lit("clauseId"), Str(r.clauseId)),
         Entry(Lit("controlId"), NullOr(r.controlId)),
         Entry(Lit("ruleType"), Str(r.ruleType)),
         Entry(Lit("expression"), r.expression.value)])
  }

  /** The hashed parts in order, or the error of the first expression that cannot be serialized. */
  function RulesJson(rules: seq<CompiledRule>): (r: Result<seq<Json>, SerialError>)
    ensures r.Ok? ==> |r.value| == |rules|
    ensures r.Ok? ==> forall i :: 0 <= i < |rules| ==> rules[i].expression.Ok? && r.value[i] == RuleJson(rules[i])
  {
    if rules == [] then Ok([])
    else
      match rules[0].expression
      case Err(e) => Err(e)
      case Ok(_) =>
        match RulesJson(rules[1..])
        case Err(e) => Err(e)
        case Ok(rest) => Ok([RuleJson(rules[0])] + rest)
  }

  function ComputeRuleSetHash(sha: Hash, collate: Collation, rules: seq<CompiledRule>): Result<Text, SerialError> {
    match RulesJson(SortRules(collate, rules))
    case Err(e) => Err(e)
    case Ok(items) => Ok(HashCanonicalJson(sha, Arr(items)))
  }

  lemma {:induction false} RulesJsonFails(rules: seq<CompiledRule>)
    ensures RulesJson(rules).Ok? <==> forall i :: 0 <= i < |rules| ==> rules[i].expression.Ok?
  {
    if rules != [] && rules[0].expression.Ok? {
      RulesJsonFails(rules[1..]);
      assert forall i :: 1 <= i < |rules| ==> rules[i] == rules[1..][i - 1];
    }
  }

  // ---------------------------------------------------------------------- failures

  lemma KeyedMembers(collate: Collation, rules: seq<CompiledRule>, e: Entry<CompiledRule>)
    ensures e in Keyed(collate, rules) <==> e.val in rules && e.key == collate(e.val.id)
  {
    if e.val in rules {
      var i :| 0 <= i < |rules| && rules[i] == e.val;
      assert Keyed(collate, rules)[i] == Entry(collate(e.val.id), e.val);
    }
  }

  lemma SortedMembers(collate: Collation, rules: seq<CompiledRule>)
    ensures forall r :: r in SortRules(collate, rules) <==> r in rules
  {
    var es := Keyed(collate, rules);
    var sorted := SortByKey(es);
    SortElements(es);
    forall r ensures r in SortRules(collate, rules) <==> r in rules {
      KeyedMembers(collate, rules, Entry(collate(r.id), r));
      if r in Vals(sorted) {
        var i :| 0 <= i < |sorted| && sorted[i].val == r;
        assert sorted[i] in es;
        KeyedMembers(collate, rules, sorted[i]);
      }
      if r in rules {
        assert Entry(collate(r.id), r) in sorted;
        var i :| 0 <= i < |sorted| && sorted[i] == Entry(collate(r.id), r);
        assert Vals(sorted)[i] == r;
      }
    }
  }

  /** Hashing throws exactly when some expression cannot be serialized. */
  lemma HashFails(sha: Hash, collate: Collation, rules: seq<CompiledRule>)
    ensures ComputeRuleSetHash(sha, collate, rules).Err? <==> exists i :: 0 <= i < |rules| && rules[i].expression.Err?
  {
    var sorted := SortRules(collate, rules);
    RulesJsonFails(sorted);
    SortedMembers(collate, rules);
    if i :| 0 <= i < |rules| && rules[i].expression.Err? {
      assert rules[i] in sorted;
    }
    if i :| 0 <= i < |sorted| && sorted[i].expression.Err? {
      assert sorted[i] in rules;
    }
  }

  // ---------------------------------------------------------------------- what is hashed of a rule

  lemma RuleKeys(r: CompiledRule)
    requires r.expression.Ok?
    ensures WellKeyed(RuleJson(r))
  {
    assert |Lit("id")| == 2 && |Lit("clauseId")| == 8 && |Lit("controlId")| == 9;
    assert |Lit("ruleType")| == 8 && |Lit("expression")| == 10;
    assert Lit("clauseId")[0] != Lit("ruleType")[0];
  }

  /** The text that is hashed for a rule, its names in order. */
  function RuleText(r: CompiledRule): Text
    requires r.expression.Ok?
  {
    Braced([Member("clauseId", Quote(r.clauseId)), Member("controlId", NullOrText(r.controlId)),
            Member("expression", Print(r.expression.value)), Member("id", Quote(r.id)), Member("ruleType", Quote(r.ruleType))])
  }

  lemma RuleNames()
    ensures Less(Lit("clauseId"), Lit("controlId")) && Less(Lit("controlId"), Lit("expression"))
    ensures Less(Lit("expression"), Lit("id")) && Less(Lit("id"), Lit("ruleType"))
    ensures PlainName("clauseId") && PlainName("controlId") && PlainName("expression") && PlainName("id") && PlainName("ruleType")
  {
    NamesOrdered("clauseId", "controlId", 1);
    NamesOrdered("controlId", "expression", 0);
    NamesOrdered("expression", "id", 0);
    NamesOrdered("id", "ruleType", 0);
  }

  lemma RulePrinted(r: CompiledRule)
    requires r.expression.Ok?
    ensures Print(RuleJson(r)) == RuleText(r)
  {
    hide Less, PlainName, Lit, Print, Member, Braced, Quote;
    RuleKeys(r);
    RuleNames();
    var names := ["clauseId", "controlId", "expression", "id", "ruleType"];
    var values := [Str(r.clauseId), NullOr(r.controlId), r.expression.value, Str(r.id), Str(r.ruleType)];
    var fs := [Entry(Lit("clauseId"), Str(r.clauseId)), Entry(Lit("controlId"), NullOr(r.controlId)),
               Entry(Lit("expression"), r.expression.value), Entry(Lit("id"), Str(r.id)), Entry(Lit("ruleType"), Str(r.ruleType))];
    NeighboursAscend(fs);
    ObjectText(RuleJson(r).fields, fs, names);
    assert Values(fs) == values;
    ScalarTexts(r);
    assert MemberTexts(names, values) ==
      [Member("clauseId", Quote(r.clauseId)), Member("controlId", NullOrText(r.controlId)),
       Member("expression", Print(r.expression.value)), Member("id", Quote(r.id)), Member("ruleType", Quote(r.ruleType))];
  }

  lemma ScalarTexts(r: CompiledRule)
    ensures Print(Str(r.clauseId)) == Quote(r.clauseId) && Print(NullOr(r.controlId)) == NullOrText(r.controlId)
    ensures Print(Str(r.id)) == Quote(r.id) && Print(Str(r.ruleType)) == Quote(r.ruleType)
  {
  }

  /** Equal in everything that is hashed, the expression up to the order of its keys. */
  predicate SameRule(a: CompiledRule, b: CompiledRule) {
    && a.id == b.id && a.clauseId == b.clauseId && a.controlId == b.controlId && a.ruleType == b.ruleType
    && a.expression.Ok? && b.expression.Ok? && SameValue(a.expression.value, b.expression.value)
  }

  lemma SameRuleJson(a: CompiledRule, b: CompiledRule)
    requires a.expression.Ok? && b.expression.Ok?
    requires SameValue(RuleJson(a), RuleJson(b))
    ensures SameRule(a, b)
  {
    var fs, gs := RuleJson(a).fields, RuleJson(b).fields;
    forall i | 0 <= i < |fs| ensures fs[i].key == gs[i].key && SameValue(fs[i].val, gs[i].val) {
    }
    assert fs[0].val == gs[0].val && fs[1].val == gs[1].val && fs[2].val == gs[2].val && fs[3].val == gs[3].val;
    assert SameValue(fs[4].val, gs[4].val);
  }

  lemma SameJson(a: CompiledRule, b: CompiledRule)
    requires SameRule(a, b)
    ensures Canon(RuleJson(a)) == Canon(RuleJson(b)) && SameValue(RuleJson(a), RuleJson(b))
  {
    RuleKeys(a);
    RuleKeys(b);
    var fs, gs := RuleJson(a).fields, RuleJson(b).fields;
    SameCanon(a.expression.value, b.expression.value);
    forall i | 0 <= i < |fs| ensures CanonFields(fs)[i] == CanonFields(gs)[i] {
      assert CanonFields(fs)[i] == Entry(fs[i].key, Canon(fs[i].val)) && CanonFields(gs)[i] == Entry(gs[i].key, Canon(gs[i].val));
    }
    assert CanonFields(fs) == CanonFields(gs);
    SameCanon(RuleJson(a), RuleJson(b));
  }

  ghost predicate SameRuleSets(a: seq<CompiledRule>, b: seq<CompiledRule>) {
    |a| == |b| && forall i :: 0 <= i < |a| ==> SameRule(a[i], b[i])
  }

  /** The text that is hashed. */
  function HashedText(collate: Collation, rules: seq<CompiledRule>): Result<Text, SerialError> {
    match RulesJson(SortRules(collate, rules))
    case Err(e) => Err(e)
    case Ok(items) => Ok(Print(Arr(items)))
  }

  /** The rules' texts, in brackets and with commas between them. */
  function RuleListText(rules: seq<CompiledRule>): Text
    requires Serializable(rules)
  {
    [91] + Commas(seq(|rules|, i requires 0 <= i < |rules| => RuleText(rules[i]))) + [93]
  }

  lemma {:induction false} FirstFailure(rules: seq<CompiledRule>) returns (i: nat)
    requires RulesJson(rules).Err?
    ensures i < |rules| && rules[i].expression == Err(RulesJson(rules).error)
    ensures forall k :: 0 <= k < i ==> rules[k].expression.Ok?
  {
    i := 0;
    if rules[0].expression.Ok? {
      var k := FirstFailure(rules[1..]);
      i := k + 1;
    }
  }

  /** The first rule, in sorted order, whose expression cannot be serialized decides the error. */
  ghost predicate FailsFirst(collate: Collation, rules: seq<CompiledRule>, sorted: seq<CompiledRule>, i: nat, e: SerialError) {
    && InKeyOrder(collate, rules, sorted)
    && i < |sorted| && sorted[i].expression == Err(e) && forall k :: 0 <= k < i ==> sorted[k].expression.Ok?
  }

  /** Hashing takes the digest of the sorted rules' texts, or throws what the first of them that fails throws. */
  lemma HashedTextIs(sha: Hash, collate: Collation, rules: seq<CompiledRule>)
    ensures ComputeRuleSetHash(sha, collate, rules).Ok? <==> Serializable(rules)
    ensures Serializable(rules) ==>
      exists sorted :: InKeyOrder(collate, rules, sorted) && Serializable(sorted)
        && ComputeRuleSetHash(sha, collate, rules) == Ok(sha(RuleListText(sorted)))
    ensures !Serializable(rules) ==>
      exists sorted, i :: FailsFirst(collate, rules, sorted, i, ComputeRuleSetHash(sha, collate, rules).error)
  {
    var sorted := SortRules(collate, rules);
    SortedInKeyOrder(collate, rules);
    SortedMembers(collate, rules);
    HashFails(sha, collate, rules);
    if Serializable(rules) {
      assert Serializable(sorted) by {
        forall i | 0 <= i < |sorted| ensures sorted[i].expression.Ok? {
          assert sorted[i] in rules;
        }
      }
      RulesJsonFails(sorted);
      RuleListPrinted(sorted);
    } else {
      var i := FirstFailure(sorted);
      assert FailsFirst(collate, rules, sorted, i, ComputeRuleSetHash(sha, collate, rules).error);
    }
  }

  lemma RuleListPrinted(rules: seq<CompiledRule>)
    requires Serializable(rules) && RulesJson(rules).Ok?
    ensures Print(Arr(RulesJson(rules).value)) == RuleListText(rules)
  {
    var items := RulesJson(rules).value;
    PrintItemsAre(items);
    forall i | 0 <= i < |rules| ensures PrintItems(items)[i] == RuleText(rules[i]) {
      RulePrinted(rules[i]);
    }
    CommasJoin(PrintItems(items));
    assert PrintItems(items) == seq(|rules|, i requires 0 <= i < |rules| => RuleText(rules[i]));
  }

  predicate Serializable(rules: seq<CompiledRule>) {
    forall i :: 0 <= i < |rules| ==> rules[i].expression.Ok?
  }

  /** Two rule lists print the same text exactly when they are, once sorted, the same in everything hashed. */
  lemma SameText(collate: Collation, a: seq<CompiledRule>, b: seq<CompiledRule>)
    requires HashedText(collate, a).Ok? && HashedText(collate, b).Ok?
    ensures HashedText(collate, a) == HashedText(collate, b) <==> SameRuleSets(SortRules(collate, a), SortRules(collate, b))
  {
    var s, t := SortRules(collate, a), SortRules(collate, b);
    var x, y := Arr(RulesJson(s).value), Arr(RulesJson(t).value);
    forall i | 0 <= i < |s| ensures WellKeyed(x.items[i]) {
      RuleKeys(s[i]);
    }
    forall i | 0 <= i < |t| ensures WellKeyed(y.items[i]) {
      RuleKeys(t[i]);
    }
    PrintDistinguishes(x, y);
    if SameValue(x, y) {
      forall i | 0 <= i < |s| ensures SameRule(s[i], t[i]) {
        assert SameValue(x.items[i], y.items[i]);
        SameRuleJson(s[i], t[i]);
      }
    }
    if SameRuleSets(s, t) {
      forall i | 0 <= i < |s| ensures SameValue(x.items[i], y.items[i]) {
        SameJson(s[i], t[i]);
      }
    }
  }

  // ---------------------------------------------------------------------- order

  predicate Alike(a: CompiledRule, b: CompiledRule) {
    a == b || SameRule(a, b)
  }

  /** Rules that the collation does not tell apart are the same in everything hashed. */
  predicate TiesAgree(collate: Collation, rules: seq<CompiledRule>) {
    forall i, j :: 0 <= i < |rules| && 0 <= j < |rules| && collate(rules[i].id) == collate(rules[j].id) ==>
      Alike(rules[i], rules[j])
  }

  lemma AlikeSerializable(a: CompiledRule, b: CompiledRule)
    requires Alike(a, b)
    ensures a.expression.Err? ==> b == a
    ensures a.expression.Ok? ==> SameRule(a, b)
  {
    if a.expression.Ok? {
      SameCanon(a.expression.value, a.expression.value);
    }
  }

  lemma {:induction false} AlikeFail(a: seq<CompiledRule>, b: seq<CompiledRule>)
    requires |a| == |b| && forall i :: 0 <= i < |a| ==> Alike(a[i], b[i])
    ensures RulesJson(a).Ok? <==> RulesJson(b).Ok?
    ensures RulesJson(a).Err? ==> RulesJson(b) == RulesJson(a)
  {
    if a != [] {
      AlikeSerializable(a[0], b[0]);
      AlikeFail(a[1..], b[1..]);
    }
  }

  /** However the rules are ordered, the hashed text is the same. */
  ghost predicate OrderIrrelevant(collate: Collation, rules: seq<CompiledRule>) {
    forall p :: multiset(p) == multiset(rules) ==> HashedText(collate, p) == HashedText(collate, rules)
  }

  /** The rules with that sort key, in order. */
  function Tied(collate: Collation, key: Text, rules: seq<CompiledRule>): seq<CompiledRule> {
    if rules == [] then []
    else (if collate(rules[0].id) == key then [rules[0]] else []) + Tied(collate, key, rules[1..])
  }

  lemma {:induction false} TiedAlike(collate: Collation, key: Text, a: seq<CompiledRule>, b: seq<CompiledRule>)
    requires SameRuleSets(a, b)
    ensures SameRuleSets(Tied(collate, key, a), Tied(collate, key, b))
  {
    if a != [] {
      TiedAlike(collate, key, a[1..], b[1..]);
    }
  }

  lemma TiedCons(collate: Collation, key: Text, e: Entry<CompiledRule>, es: seq<Entry<CompiledRule>>)
    ensures Tied(collate, key, Vals([e] + es)) == (if collate(e.val.id) == key then [e.val] else []) + Tied(collate, key, Vals(es))
  {
    assert Vals([e] + es)[1..] == Vals(es);
  }

  lemma {:induction false} TiedInserted(collate: Collation, key: Text, r: CompiledRule, es: seq<Entry<CompiledRule>>)
    requires forall i :: 0 <= i < |es| ==> es[i].key == collate(es[i].val.id)
    ensures Tied(collate, key, Vals(Insert(Entry(collate(r.id), r), es))) ==
      (if collate(r.id) == key then [r] else []) + Tied(collate, key, Vals(es))
  {
    hide Tied, Less;
    var e := Entry(collate(r.id), r);
    if es == [] || !Less(es[0].key, e.key) {
      TiedCons(collate, key, e, es);
    } else {
      LessTotal(es[0].key, e.key);
      TiedInserted(collate, key, r, es[1..]);
      TiedCons(collate, key, es[0], Insert(e, es[1..]));
      TiedCons(collate, key, es[0], es[1..]);
      assert es == [es[0]] + es[1..];
    }
  }

  /** The sort is stable: rules with one sort key keep their order. */
  lemma {:induction false} TiedStay(collate: Collation, key: Text, rules: seq<CompiledRule>)
    ensures Tied(collate, key, SortRules(collate, rules)) == Tied(collate, key, rules)
  {
    if rules != [] {
      TiedStay(collate, key, rules[1..]);
      var es := Keyed(collate, rules);
      assert es[1..] == Keyed(collate, rules[1..]);
      SortElements(es[1..]);
      forall i | 0 <= i < |SortByKey(es[1..])| ensures SortByKey(es[1..])[i].key == collate(SortByKey(es[1..])[i].val.id) {
        assert SortByKey(es[1..])[i] in es[1..];
      }
      TiedInserted(collate, key, rules[0], SortByKey(es[1..]));
    } else {
      assert SortRules(collate, rules) == [];
    }
  }

  function ToFront(rules: seq<CompiledRule>, i: nat): (p: seq<CompiledRule>)
    requires i < |rules|
    ensures multiset(p) == multiset(rules)
  {
    assert rules == rules[..i] + [rules[i]] + rules[i + 1..];
    [rules[i]] + rules[..i] + rules[i + 1..]
  }

  lemma SameMembers(a: seq<CompiledRule>, b: seq<CompiledRule>)
    requires multiset(a) == multiset(b)
    ensures forall r :: r in a <==> r in b
  {
    forall r ensures r in a <==> r in b {
      assert r in a <==> r in multiset(a);
      assert r in b <==> r in multiset(b);
    }
  }

  lemma SerializableText(collate: Collation, a: seq<CompiledRule>, p: seq<CompiledRule>)
    requires Serializable(a) && multiset(p) == multiset(a)
    ensures HashedText(collate, p).Ok?
  {
    SameMembers(p, a);
    SortedMembers(collate, p);
    RulesJsonFails(SortRules(collate, p));
    var s := SortRules(collate, p);
    forall i | 0 <= i < |s| ensures s[i].expression.Ok? {
      assert s[i] in p && s[i] in a;
    }
  }

  /** If the order does not matter, moving either of two tied rules to the front prints the same text. */
  lemma OrderShowsTies(collate: Collation, a: seq<CompiledRule>, i: nat, j: nat)
    requires Serializable(a) && OrderIrrelevant(collate, a)
    requires i < |a| && j < |a| && collate(a[i].id) == collate(a[j].id)
    ensures SameRule(a[i], a[j])
  {
    var p, q, key := ToFront(a, i), ToFront(a, j), collate(a[i].id);
    SerializableText(collate, a, p);
    SerializableText(collate, a, q);
    assert HashedText(collate, p) == HashedText(collate, a) == HashedText(collate, q);
    SameText(collate, p, q);
    TiedAlike(collate, key, SortRules(collate, p), SortRules(collate, q));
    TiedStay(collate, key, p);
    TiedStay(collate, key, q);
    assert Tied(collate, key, p)[0] == a[i] && Tied(collate, key, q)[0] == a[j];
  }

  // Sorted by key, equal keys allowed.
  ghost predicate WeaklyAscending(es: seq<Entry<CompiledRule>>) {
    forall i, j :: 0 <= i < j < |es| ==> !Less(es[j].key, es[i].key)
  }

  lemma {:induction false} InsertWeakly(e: Entry<CompiledRule>, es: seq<Entry<CompiledRule>>)
    requires WeaklyAscending(es)
    ensures WeaklyAscending(Insert(e, es))
  {
    if es == [] {
    } else if !Less(es[0].key, e.key) {
      forall j | 0 <= j < |es| ensures !Less(es[j].key, e.key) {
        NotLessTransitive(e.key, es[0].key, es[j].key);
      }
    } else {
      var rest := Insert(e, es[1..]);
      InsertWeakly(e, es[1..]);
      InsertElements(e, es[1..]);
      forall j | 0 <= j < |rest| ensures !Less(rest[j].key, es[0].key) {
        assert rest[j] in multiset(rest);
        assert rest[j] == e || rest[j] in es[1..];
        LessTotal(es[0].key, e.key);
      }
    }
  }

  lemma NotLessTransitive(a: Text, b: Text, c: Text)
    requires !Less(b, a) && (b == c || !Less(c, b))
    ensures !Less(c, a)
  {
    LessTotal(a, b);
    LessTotal(b, c);
    LessTotal(a, c);
    if Less(c, a) {
      if a != b { LessTransitive(c, a, b); }
    }
  }

  lemma {:induction false} SortWeakly(es: seq<Entry<CompiledRule>>)
    ensures WeaklyAscending(SortByKey(es))
  {
    if es != [] {
      SortWeakly(es[1..]);
      InsertWeakly(es[0], SortByKey(es[1..]));
    }
  }

  /** The sorted rules: the same rules, no sort key after a greater one, and ties in their order. */
  ghost predicate InKeyOrder(collate: Collation, rules: seq<CompiledRule>, sorted: seq<CompiledRule>) {
    && multiset(sorted) == multiset(rules)
    && (forall i, j :: 0 <= i < j < |sorted| ==> !Before(collate(sorted[j].id), collate(sorted[i].id)))
    && forall key :: Tied(collate, key, sorted) == Tied(collate, key, rules)
  }

  lemma SortedInKeyOrder(collate: Collation, rules: seq<CompiledRule>)
    ensures InKeyOrder(collate, rules, SortRules(collate, rules))
  {
    var es := Keyed(collate, rules);
    var sorted := SortByKey(es);
    SortElements(es);
    SortWeakly(es);
    var val := (e: Entry<CompiledRule>) => e.val;
    MapPermutes(val, sorted, es);
    assert Map(val, sorted) == SortRules(collate, rules) && Map(val, es) == rules;
    forall i, j | 0 <= i < j < |sorted| ensures !Before(collate(sorted[j].val.id), collate(sorted[i].val.id)) {
      assert sorted[i] in es && sorted[j] in es;
      LessIsBefore(sorted[j].key, sorted[i].key);
    }
    forall key ensures Tied(collate, key, SortRules(collate, rules)) == Tied(collate, key, rules) {
      TiedStay(collate, key, rules);
    }
  }

  lemma WithoutOne<T>(s: seq<T>, i: nat)
    requires i < |s|
    ensures multiset(s[..i] + s[i + 1..]) == multiset(s) - multiset{s[i]}
  {
    assert s == s[..i] + [s[i]] + s[i + 1..];
  }

  ghost predicate InOrder(keys: seq<Text>) {
    forall i, j :: 0 <= i < j < |keys| ==> !Less(keys[j], keys[i])
  }

  lemma SameHead(a: seq<Text>, b: seq<Text>)
    requires a != [] && multiset(a) == multiset(b) && InOrder(a) && InOrder(b)
    ensures b != [] && a[0] == b[0]
  {
    assert a[0] in multiset(b);
    var i :| 0 <= i < |b| && b[i] == a[0];
    assert b[0] in multiset(a);
    var j :| 0 <= j < |a| && a[j] == b[0];
    LessTotal(a[0], b[0]);
  }

  lemma TailInOrder(s: seq<Text>)
    requires s != [] && InOrder(s)
    ensures InOrder(s[1..]) && multiset(s[1..]) == multiset(s) - multiset{s[0]}
  {
    assert s == [s[0]] + s[1..];
  }

  lemma SameSize<T>(a: seq<T>, b: seq<T>)
    requires multiset(a) == multiset(b)
    ensures |a| == |b|
  {
    assert |multiset(a)| == |multiset(b)|;
  }

  /** A list in order is fixed by its members. */
  lemma {:induction false} SameKeysSorted(a: seq<Text>, b: seq<Text>)
    requires multiset(a) == multiset(b) && InOrder(a) && InOrder(b)
    ensures a == b
    decreases |a|
  {
    SameSize(a, b);
    if a != [] {
      SameHead(a, b);
      TailInOrder(a);
      TailInOrder(b);
      SameKeysSorted(a[1..], b[1..]);
      assert a == [a[0]] + a[1..] && b == [b[0]] + b[1..];
    }
  }

  function Map<T, U>(f: T -> U, s: seq<T>): (r: seq<U>)
    ensures |r| == |s| && forall i :: 0 <= i < |s| ==> r[i] == f(s[i])
  {
    seq(|s|, i requires 0 <= i < |s| => f(s[i]))
  }

  lemma MapWithoutOne<T, U>(f: T -> U, s: seq<T>, i: nat)
    requires i < |s|
    ensures multiset(Map(f, s)) == multiset(Map(f, s[..i] + s[i + 1..])) + multiset{f(s[i])}
  {
    var r := Map(f, s);
    assert Map(f, s[..i] + s[i + 1..]) == r[..i] + r[i + 1..];
    WithoutOne(r, i);
  }

  /** Where a permutation holds the head of a list, and that the rest is a permutation of the rest. */
  lemma HeadFound<T>(a: seq<T>, b: seq<T>) returns (i: nat)
    requires a != [] && multiset(a) == multiset(b)
    ensures i < |b| && b[i] == a[0] && multiset(a[..0] + a[0 + 1..]) == multiset(b[..i] + b[i + 1..])
  {
    assert a[0] in multiset(b);
    i :| 0 <= i < |b| && b[i] == a[0];
    WithoutOne(a, 0);
    WithoutOne(b, i);
  }

  lemma {:induction false} MapPermutes<T, U>(f: T -> U, a: seq<T>, b: seq<T>)
    requires multiset(a) == multiset(b)
    ensures multiset(Map(f, a)) == multiset(Map(f, b))
    decreases |a|
  {
    SameSize(a, b);
    if a != [] {
      var i := HeadFound(a, b);
      MapPermutes(f, a[..0] + a[0 + 1..], b[..i] + b[i + 1..]);
      MapWithoutOne(f, a, 0);
      MapWithoutOne(f, b, i);
    }
  }

  /** Sorting two orders of the same rules gives, position by position, tied rules. */
  lemma SortedTied(collate: Collation, a: seq<CompiledRule>, p: seq<CompiledRule>)
    requires multiset(p) == multiset(a)
    ensures |p| == |a|
    ensures forall i :: 0 <= i < |a| ==> collate(SortRules(collate, p)[i].id) == collate(SortRules(collate, a)[i].id)
  {
    assert |multiset(p)| == |p| && |multiset(a)| == |a|;
    var es, fs := Keyed(collate, a), Keyed(collate, p);
    var entry := (r: CompiledRule) => Entry(collate(r.id), r);
    assert Map(entry, a) == es && Map(entry, p) == fs;
    MapPermutes(entry, a, p);
    SortElements(es);
    SortElements(fs);
    var key := (e: Entry<CompiledRule>) => e.key;
    MapPermutes(key, SortByKey(es), SortByKey(fs));
    SortWeakly(es);
    SortWeakly(fs);
    SameKeysSorted(Map(key, SortByKey(es)), Map(key, SortByKey(fs)));
    forall i | 0 <= i < |a| ensures collate(SortRules(collate, p)[i].id) == collate(SortRules(collate, a)[i].id) {
      assert SortByKey(es)[i] in es && SortByKey(fs)[i] in fs;
      assert Map(key, SortByKey(es))[i] == Map(key, SortByKey(fs))[i];
    }
  }

  /** If ties agree, every order of the rules prints the same text, or fails alike. */
  lemma TiesFixText(collate: Collation, a: seq<CompiledRule>, p: seq<CompiledRule>)
    requires TiesAgree(collate, a) && multiset(p) == multiset(a)
    ensures HashedText(collate, p) == HashedText(collate, a)
  {
    var s, t := SortRules(collate, p), SortRules(collate, a);
    SortedTied(collate, a, p);
    SameMembers(p, a);
    SortedMembers(collate, p);
    SortedMembers(collate, a);
    forall i | 0 <= i < |s| ensures Alike(s[i], t[i]) {
      assert s[i] in a && t[i] in a;
      var j :| 0 <= j < |a| && a[j] == s[i];
      var k :| 0 <= k < |a| && a[k] == t[i];
    }
    AlikeFail(s, t);
    if RulesJson(s).Ok? {
      forall i | 0 <= i < |s| ensures SameRule(s[i], t[i]) {
        AlikeSerializable(s[i], t[i]);
      }
      SameText(collate, p, a);
    }
  }

  /**
   * The order of the rules does not matter to the hashed text exactly when any two rules that the
   * collation does not tell apart are the same in everything hashed.
   */
  lemma OrderIrrelevantExactly(collate: Collation, a: seq<CompiledRule>)
    requires Serializable(a)
    ensures OrderIrrelevant(collate, a) <==> TiesAgree(collate, a)
  {
    if TiesAgree(collate, a) {
      forall p | multiset(p) == multiset(a) ensures HashedText(collate, p) == HashedText(collate, a) {
        TiesFixText(collate, a, p);
      }
    }
    if OrderIrrelevant(collate, a) {
      forall i, j | 0 <= i < |a| && 0 <= j < |a| && collate(a[i].id) == collate(a[j].id) ensures Alike(a[i], a[j]) {
        OrderShowsTies(collate, a, i, j);
      }
    }
  }

  /** The hash ignores the order of rules without ties, or whose ties agree. */
  lemma HashIgnoresOrder(sha: Hash, collate: Collation, a: seq<CompiledRule>, b: seq<CompiledRule>)
    requires multiset(a) == multiset(b) && TiesAgree(collate, a)
    ensures ComputeRuleSetHash(sha, collate, a) == ComputeRuleSetHash(sha, collate, b)
  {
    TiesFixText(collate, a, b);
    HashOfText(sha, collate, a);
    HashOfText(sha, collate, b);
  }

  lemma HashOfText(sha: Hash, collate: Collation, rules: seq<CompiledRule>)
    ensures ComputeRuleSetHash(sha, collate, rules) ==
      match HashedText(collate, rules) case Err(e) => Err(e) case Ok(text) => Ok(sha(text))
  {
  }

  // ---------------------------------------------------------------------- tampering

  datatype HashComparison = SameRules | HashCollision(x: Text, y: Text)

  /**
   * Two rule lists with the same hash are, once sorted, the same in everything hashed; or the
   * proof yields two different texts, one hashed for each list, with the same digest.
   */
  lemma HashPinsRules(sha: Hash, collate: Collation, a: seq<CompiledRule>, b: seq<CompiledRule>) returns (c: HashComparison)
    requires ComputeRuleSetHash(sha, collate, a).Ok? && ComputeRuleSetHash(sha, collate, a) == ComputeRuleSetHash(sha, collate, b)
    ensures c == SameRules ==> SameRuleSets(SortRules(collate, a), SortRules(collate, b))
    ensures c != SameRules ==> c.x != c.y && sha(c.x) == sha(c.y)
    ensures c != SameRules ==> HashedText(collate, a) == Ok(c.x) && HashedText(collate, b) == Ok(c.y)
  {
    HashOfText(sha, collate, a);
    HashOfText(sha, collate, b);
    var x, y := HashedText(collate, a).value, HashedText(collate, b).value;
    if x != y {
      return HashCollision(x, y);
    }
    SameText(collate, a, b);
    return SameRules;
  }
}

/**
 The backup rules of the daemon's configuration: which resource types and objects
 are skipped, and which field paths are stripped from the objects that are kept.
 */
module Rules {
  import opened Wrappers
  import opened Strings
  import opened Values
  import opened Sanitizer

  datatype Rule = Rule(
    resource: string,
    namespace: string,
    name: string,
    exclude: bool,
    excludeFields: seq<string>,
    excludeIf: string
  ) {
    predicate HasObjectFilter() {
      namespace != "" || name != ""
    }
  }

  /** The built-in tables: resource types, (resource, owner kind) pairs and field paths. */
  datatype Builtins = Builtins(
    resources: seq<string>,
    owned: seq<(string, string)>,
    fields: map<string, seq<string>>
  )

  datatype Config = Config(rules: seq<Rule>, disableBuiltin: bool, builtins: Builtins)

  /** The object a rule is asked about. */
  datatype Target = Target(resource: string, group: string, namespace: string, name: string) {
    function Key(): string {
      if group == "" then resource else resource + "." + group
    }

    predicate Named(rule: string) {
      rule == Key() || rule == resource
    }
  }

  predicate ObjectFilterMatches(r: Rule, t: Target) {
    (r.namespace == "" || r.namespace == t.namespace) && (r.name == "" || r.name == t.name)
  }

  // ----- Exclusion -----

  predicate TypeRule(r: Rule, t: Target) {
    r.resource != "*" && !r.HasObjectFilter() && r.excludeIf == "" && t.Named(r.resource)
  }

  predicate ObjectRule(r: Rule, t: Target) {
    r.HasObjectFilter() && r.excludeIf == "" && (r.resource == "*" || t.Named(r.resource)) && ObjectFilterMatches(r, t)
  }

  /** IsExcluded: the first rule for the type decides, then the built-in list. */
  method IsExcluded(cfg: Config, t: Target) returns (r: bool)
    ensures r == TypeExcluded(cfg, t)
  {
    for i := 0 to |cfg.rules|
      invariant forall k :: 0 <= k < i ==> !TypeRule(cfg.rules[k], t)
    {
      if cfg.rules[i].resource == "*" || cfg.rules[i].HasObjectFilter() || cfg.rules[i].excludeIf != "" {
        continue;
      }
      if cfg.rules[i].resource == t.Key() || cfg.rules[i].resource == t.resource {
        assert cfg.rules[i] in cfg.rules && forall j: nat :: FirstTypeRule(cfg.rules, t, j) ==> j == i;
        return cfg.rules[i].exclude;
      }
    }
    if !cfg.disableBuiltin {
      for i := 0 to |cfg.builtins.resources|
        invariant forall k :: 0 <= k < i ==> !t.Named(cfg.builtins.resources[k])
      {
        if t.Named(cfg.builtins.resources[i]) {
          return true;
        }
      }
    }
    return false;
  }

  ghost predicate FirstTypeRule(rules: seq<Rule>, t: Target, i: nat) {
    i < |rules| && TypeRule(rules[i], t) && forall k :: 0 <= k < i ==> !TypeRule(rules[k], t)
  }

  /** User rules take precedence over built-in exclusions; the first one wins. */
  ghost predicate TypeExcluded(cfg: Config, t: Target) {
    || (exists i: nat :: FirstTypeRule(cfg.rules, t, i) && cfg.rules[i].exclude)
    || ((forall r :: r in cfg.rules ==> !TypeRule(r, t)) && !cfg.disableBuiltin
        && exists e :: e in cfg.builtins.resources && t.Named(e))
  }

  /** IsObjectExcluded: the first rule whose namespace/name filter matches decides. */
  method IsObjectExcluded(cfg: Config, t: Target) returns (r: bool)
    ensures r <==> exists i: nat :: FirstObjectRule(cfg.rules, t, i) && cfg.rules[i].exclude
  {
    for i := 0 to |cfg.rules|
      invariant forall k :: 0 <= k < i ==> !ObjectRule(cfg.rules[k], t)
    {
      if !cfg.rules[i].HasObjectFilter() || cfg.rules[i].excludeIf != "" {
        continue;
      }
      if cfg.rules[i].resource != "*" && cfg.rules[i].resource != t.Key() && cfg.rules[i].resource != t.resource {
        continue;
      }
      if ObjectFilterMatches(cfg.rules[i], t) {
        assert forall j: nat :: FirstObjectRule(cfg.rules, t, j) ==> j == i;
        return cfg.rules[i].exclude;
      }
    }
    return false;
  }

  ghost predicate FirstObjectRule(rules: seq<Rule>, t: Target, i: nat) {
    i < |rules| && ObjectRule(rules[i], t) && forall k :: 0 <= k < i ==> !ObjectRule(rules[k], t)
  }

  /** IsBuiltinObjectExcluded: an owner of a listed kind marks an execution artifact. */
  method IsBuiltinObjectExcluded(cfg: Config, t: Target, ownerKinds: seq<string>) returns (r: bool)
    ensures r <==> !cfg.disableBuiltin && exists e :: e in cfg.builtins.owned && t.Named(e.0) && e.1 in ownerKinds
  {
    if cfg.disableBuiltin {
      return false;
    }
    for i := 0 to |cfg.builtins.owned|
      invariant forall k :: 0 <= k < i ==>
        !(t.Named(cfg.builtins.owned[k].0) && cfg.builtins.owned[k].1 in ownerKinds)
    {
      var e := cfg.builtins.owned[i];
      if e.0 != t.resource && e.0 != t.Key() {
        continue;
      }
      if e.1 in ownerKinds {
        return true;
      }
    }
    return false;
  }

  /** The compiled `excludeIf` expressions, evaluated on an object; an evaluation may fail. */
  type Programs = (string, Target, Object) -> Result<bool, string>

  predicate CELRule(r: Rule, t: Target) {
    r.excludeIf != "" && (r.resource == "*" || t.Named(r.resource)) && ObjectFilterMatches(r, t)
  }

  /** The first applicable expression that holds or fails decides. */
  function CELExclusion(rules: seq<Rule>, programs: Programs, t: Target, o: Object): Result<bool, string> {
    if rules == [] then Ok(false)
    else if Holds(rules[0], programs, t, o) then Ok(true)
    else if Fails(rules[0], programs, t, o) then programs(rules[0].excludeIf, t, o)
    else CELExclusion(rules[1..], programs, t, o)
  }

  method IsCELObjectExcluded(cfg: Config, programs: Programs, t: Target, o: Object) returns (r: Result<bool, string>)
    ensures r == CELExclusion(cfg.rules, programs, t, o)
  {
    for i := 0 to |cfg.rules|
      invariant CELExclusion(cfg.rules[i..], programs, t, o) == CELExclusion(cfg.rules, programs, t, o)
    {
      var rc := cfg.rules[i];
      assert cfg.rules[i..][0] == rc && cfg.rules[i..][1..] == cfg.rules[i + 1..];
      if rc.excludeIf == "" || (rc.resource != "*" && !t.Named(rc.resource)) {
        continue;
      }
      if (rc.namespace != "" && rc.namespace != t.namespace) || (rc.name != "" && rc.name != t.name) {
        continue;
      }
      var excluded := programs(rc.excludeIf, t, o);
      if excluded.Err? {
        return excluded;
      }
      if excluded.value {
        return Ok(true);
      }
    }
    return Ok(false);
  }

  predicate Holds(r: Rule, programs: Programs, t: Target, o: Object) {
    CELRule(r, t) && programs(r.excludeIf, t, o).Ok? && programs(r.excludeIf, t, o).value
  }

  predicate Fails(r: Rule, programs: Programs, t: Target, o: Object) {
    CELRule(r, t) && programs(r.excludeIf, t, o).Err?
  }

  /** Rule `i` holds, and no applicable expression before it fails. */
  ghost predicate Reached(rules: seq<Rule>, programs: Programs, t: Target, o: Object, i: nat) {
    && i < |rules| && Holds(rules[i], programs, t, o)
    && forall k :: 0 <= k < i ==> !Fails(rules[k], programs, t, o)
  }

  lemma ReachedInRest(rules: seq<Rule>, programs: Programs, t: Target, o: Object, i: nat)
    requires rules != []
    ensures Reached(rules, programs, t, o, i + 1) <==>
      !Fails(rules[0], programs, t, o) && Reached(rules[1..], programs, t, o, i)
  {
    assert forall j :: 0 < j < |rules| ==> rules[j] == rules[1..][j - 1];
    if Reached(rules, programs, t, o, i + 1) {
      forall k | 0 <= k < i ensures !Fails(rules[1..][k], programs, t, o) {
        assert !Fails(rules[k + 1], programs, t, o);
      }
    }
  }

  /**
   The documentation says that any applicable expression that holds excludes the
   object. It does exactly when no applicable expression before it fails.
   */
  lemma {:induction false} CELExclusionIff(rules: seq<Rule>, programs: Programs, t: Target, o: Object)
    ensures CELExclusion(rules, programs, t, o) == Ok(true) <==> exists i: nat :: Reached(rules, programs, t, o, i)
  {
    if rules != [] {
      CELExclusionIff(rules[1..], programs, t, o);
      forall i: nat { ReachedInRest(rules, programs, t, o, i); }
      if i: nat :| Reached(rules, programs, t, o, i) {
        assert i > 0 ==> Reached(rules, programs, t, o, (i - 1) + 1) && Reached(rules[1..], programs, t, o, i - 1);
      }
      if i: nat :| Reached(rules[1..], programs, t, o, i) {
        assert Fails(rules[0], programs, t, o) || Reached(rules, programs, t, o, i + 1);
      }
      assert Holds(rules[0], programs, t, o) ==> Reached(rules, programs, t, o, 0);
    }
  }

  /** One failing expression in front keeps an object that the next one would exclude. */
  lemma FailureBeforeTrueKeeps(t: Target, o: Object, failing: string, holding: string)
    requires failing != "" && holding != "" && failing != holding
    ensures
      var rules := [Rule("*", "", "", false, [], failing), Rule("*", "", "", false, [], holding)];
      var programs := (e: string, _: Target, _: Object) => if e == failing then Err("no such key") else Ok(true);
      Holds(rules[1], programs, t, o) && CELExclusion(rules, programs, t, o) == Err("no such key")
  {
  }

  // ----- Field paths -----

  datatype Phase = TypeLevel | ObjectLevel | AnyLevel

  predicate Contributes(r: Rule, t: Target, phase: Phase) {
    && r.excludeIf == ""
    && (r.resource == "*" || t.Named(r.resource))
    && (r.HasObjectFilter() ==> ObjectFilterMatches(r, t))
    && (phase == TypeLevel ==> !r.HasObjectFilter())
    && (phase == ObjectLevel ==> r.HasObjectFilter())
  }

  /** The field paths of the contributing rules, in rule order. */
  function FieldsOf(rules: seq<Rule>, t: Target, phase: Phase): seq<string> {
    if rules == [] then []
    else (if Contributes(rules[0], t, phase) then rules[0].excludeFields else []) + FieldsOf(rules[1..], t, phase)
  }

  /** What the built-in table may add: nothing, or the entry of one of the object's two keys. */
  predicate BuiltinFields(cfg: Config, t: Target, fields: seq<string>) {
    if cfg.disableBuiltin || (t.Key() !in cfg.builtins.fields && t.resource !in cfg.builtins.fields) then fields == []
    else exists k :: k in cfg.builtins.fields && t.Named(k) && fields == cfg.builtins.fields[k]
  }

  /** The pass over the rules. */
  method RuleFields(rules: seq<Rule>, t: Target) returns (fields: seq<string>)
    ensures fields == FieldsOf(rules, t, AnyLevel)
  {
    fields := [];
    for i := 0 to |rules|
      invariant GatheredFrom(fields, rules, i, t)
    {
      var more := FieldsOfRule(rules[i], t);
      fields := fields + more;
    }
  }

  /** The fields gathered before rule i, with those still to come, are all there are. */
  ghost predicate GatheredFrom(fields: seq<string>, rules: seq<Rule>, i: nat, t: Target)
    requires i <= |rules|
  {
    fields + FieldsOf(rules[i..], t, AnyLevel) == FieldsOf(rules, t, AnyLevel)
  }

  function FieldsGiven(r: Rule, t: Target): seq<string> {
    if Contributes(r, t, AnyLevel) then r.excludeFields else []
  }

  /** What one rule of the pass adds. */
  method FieldsOfRule(rc: Rule, t: Target) returns (fields: seq<string>)
    ensures fields == FieldsGiven(rc, t)
  {
    fields := [];
    if rc.excludeIf != "" {
      return;
    }
    if rc.HasObjectFilter() {
      if rc.resource != "*" && rc.resource != t.Key() && rc.resource != t.resource {
        return;
      }
      if ObjectFilterMatches(rc, t) {
        fields := rc.excludeFields;
      }
    } else if rc.resource == "*" || rc.resource == t.Key() || rc.resource == t.resource {
      fields := rc.excludeFields;
    }
  }

  /** ResolveExcludeFieldsForObject: the rules' fields, then the first built-in entry met. */
  method ResolveExcludeFields(cfg: Config, t: Target) returns (fields: seq<string>)
    ensures exists builtin :: BuiltinFields(cfg, t, builtin) && fields == FieldsOf(cfg.rules, t, AnyLevel) + builtin
  {
    fields := RuleFields(cfg.rules, t);
    ghost var own := fields;
    if !cfg.disableBuiltin {
      var keys := cfg.builtins.fields.Keys;
      while keys != {}
        invariant keys <= cfg.builtins.fields.Keys
        invariant forall k :: k in cfg.builtins.fields && t.Named(k) ==> k in keys
        invariant fields == own
      {
        var k :| k in keys;
        if k == t.Key() || k == t.resource {
          assert BuiltinFields(cfg, t, cfg.builtins.fields[k]);
          fields := fields + cfg.builtins.fields[k];
          return;
        }
        keys := keys - {k};
      }
    }
    assert BuiltinFields(cfg, t, []) && fields == own + [];
  }

  lemma {:induction false} FieldsOfMembers(rules: seq<Rule>, t: Target, phase: Phase)
    ensures forall f :: f in FieldsOf(rules, t, phase) <==>
      exists i :: 0 <= i < |rules| && Contributes(rules[i], t, phase) && f in rules[i].excludeFields
  {
    if rules != [] {
      FieldsOfMembers(rules[1..], t, phase);
      forall f ensures f in FieldsOf(rules, t, phase) <==>
        exists i :: 0 <= i < |rules| && Contributes(rules[i], t, phase) && f in rules[i].excludeFields
      {
        if i :| 0 <= i < |rules| && Contributes(rules[i], t, phase) && f in rules[i].excludeFields {
          if i > 0 { assert rules[1..][i - 1] == rules[i]; }
        }
        if f in FieldsOf(rules[1..], t, phase) {
          var i :| 0 <= i < |rules[1..]| && Contributes(rules[1..][i], t, phase) && f in rules[1..][i].excludeFields;
          assert rules[i + 1] == rules[1..][i];
        }
      }
    }
  }

  /**
   The documented order (type rules, then object rules, then built-ins) and the
   code's single pass strip the same fields from every object.
   */
  lemma {:induction false} SinglePassMatchesDocumentedOrder(cfg: Config, t: Target, builtin: seq<string>, m: Object)
    ensures
      DeleteAll(m, FieldsOf(cfg.rules, t, AnyLevel) + builtin) ==
      DeleteAll(m, FieldsOf(cfg.rules, t, TypeLevel) + FieldsOf(cfg.rules, t, ObjectLevel) + builtin)
  {
    var one := FieldsOf(cfg.rules, t, AnyLevel) + builtin;
    var three := FieldsOf(cfg.rules, t, TypeLevel) + FieldsOf(cfg.rules, t, ObjectLevel) + builtin;
    FieldsOfMembers(cfg.rules, t, AnyLevel);
    FieldsOfMembers(cfg.rules, t, TypeLevel);
    FieldsOfMembers(cfg.rules, t, ObjectLevel);
    forall f ensures f in one <==> f in three {
      if i :| 0 <= i < |cfg.rules| && Contributes(cfg.rules[i], t, AnyLevel) && f in cfg.rules[i].excludeFields {
        assert Contributes(cfg.rules[i], t, if cfg.rules[i].HasObjectFilter() then ObjectLevel else TypeLevel);
      }
      if i :| 0 <= i < |cfg.rules| && Contributes(cfg.rules[i], t, TypeLevel) && f in cfg.rules[i].excludeFields {
        assert Contributes(cfg.rules[i], t, AnyLevel);
      }
      if i :| 0 <= i < |cfg.rules| && Contributes(cfg.rules[i], t, ObjectLevel) && f in cfg.rules[i].excludeFields {
        assert Contributes(cfg.rules[i], t, AnyLevel);
      }
    }
    OrderAndRepetitionIrrelevant(m, one, three);
  }

  // ----- What the texts of a configuration name -----

  /** The part before the first dot is the resource, and what follows, if anything, its group. */
  predicate TextNames(text: string, resource: string, group: string) {
    var parts := Split(text, '.');
    parts[0] == resource && (|parts| == 1 || (group != "" && Join(parts[1..], '.') == group))
  }

  lemma {:induction false} JoinParts(parts: seq<string>, sep: char)
    requires |parts| > 1
    ensures Join(parts, sep) == parts[0] + [sep] + Join(parts[1..], sep)
  {
  }

  /** The two spellings a type goes by, `resource` and `resource.group`, are exactly the texts that name it. */
  lemma NamedIff(t: Target, text: string)
    requires '.' !in t.resource
    ensures t.Named(text) <==> TextNames(text, t.resource, t.group)
  {
    var parts := Split(text, '.');
    JoinSplit(text, '.');
    SplitWhole(t.resource, '.');
    if t.group != "" {
      var key := t.resource + ['.'] + t.group;
      assert t.Key() == key;
      SplitPart(t.resource, t.group, '.');
      JoinSplit(t.group, '.');
      assert ([t.resource] + Split(t.group, '.'))[1..] == Split(t.group, '.');
    }
    if |parts| > 1 { JoinParts(parts, '.'); } else { assert Join(parts, '.') == parts[0]; }
  }

  /** A rule's texts apply to an object: any type or the object's, and its namespace and name where given. */
  predicate TextApplies(r: Rule, t: Target) {
    && (r.resource == "*" || TextNames(r.resource, t.resource, t.group))
    && r.namespace in {"", t.namespace} && r.name in {"", t.name}
  }

  /** Which rules each operation looks at. */
  lemma RulesLookedAt(r: Rule, t: Target)
    requires '.' !in t.resource
    ensures TypeRule(r, t) <==> (r.namespace, r.name, r.excludeIf) == ("", "", "") && r.resource != "*" && TextApplies(r, t)
    ensures ObjectRule(r, t) <==> (r.namespace, r.name) != ("", "") && r.excludeIf == "" && TextApplies(r, t)
    ensures CELRule(r, t) <==> r.excludeIf != "" && TextApplies(r, t)
    ensures Contributes(r, t, AnyLevel) <==> r.excludeIf == "" && TextApplies(r, t)
  {
    NamedIff(t, r.resource);
  }

  /** With one plain rule, that rule decides about the types its text names, and the built-in texts about all others. */
  lemma OneRuleExcludesIff(cfg: Config, r: Rule, t: Target)
    requires cfg.rules == [r] && '.' !in t.resource
    requires (r.namespace, r.name, r.excludeIf) == ("", "", "") && r.resource != "*"
    ensures TypeExcluded(cfg, t) <==>
      if TextNames(r.resource, t.resource, t.group) then r.exclude
      else !cfg.disableBuiltin && exists e :: e in cfg.builtins.resources && TextNames(e, t.resource, t.group)
  {
    NamedIff(t, r.resource);
    forall e { NamedIff(t, e); }
    assert TypeRule(r, t) ==> FirstTypeRule(cfg.rules, t, 0);
  }

  /** The shipped entry for leases excludes them. */
  lemma LeasesAreExcluded(cfg: Config, namespace: string, name: string)
    requires cfg.rules == [] && !cfg.disableBuiltin && "leases.coordination.k8s.io" in cfg.builtins.resources
    ensures TypeExcluded(cfg, Target("leases", "coordination.k8s.io", namespace, name))
  {
    var t := Target("leases", "coordination.k8s.io", namespace, name);
    assert t.Key() == "leases.coordination.k8s.io" && t.Named(t.Key());
  }

  /** With one rule, an object is excluded exactly when the rule says so and its texts apply, by namespace or name. */
  lemma OneRuleExcludesObjectIff(cfg: Config, r: Rule, t: Target)
    requires cfg.rules == [r] && '.' !in t.resource
    ensures (exists i: nat :: FirstObjectRule(cfg.rules, t, i) && cfg.rules[i].exclude) <==>
      r.exclude && (r.namespace, r.name) != ("", "") && r.excludeIf == "" && TextApplies(r, t)
  {
    RulesLookedAt(r, t);
    assert ObjectRule(r, t) ==> FirstObjectRule(cfg.rules, t, 0);
  }

  /** The built-in field paths for an object are those listed under a text that names its type. */
  lemma BuiltinFieldsAreNamed(cfg: Config, t: Target, fields: seq<string>)
    requires '.' !in t.resource && BuiltinFields(cfg, t, fields) && fields != []
    ensures !cfg.disableBuiltin
    ensures exists text :: text in cfg.builtins.fields && TextNames(text, t.resource, t.group) && fields == cfg.builtins.fields[text]
  {
    var text :| text in cfg.builtins.fields && t.Named(text) && fields == cfg.builtins.fields[text];
    NamedIff(t, text);
  }
}

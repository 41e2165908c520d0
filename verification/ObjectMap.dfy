/**
 The partial object a query is first evaluated on: kind, name and namespace, with
 the indexed fields written into it one by one, in map iteration order.
 */
module ObjectMap {
  import opened Wrappers
  import opened Values
  import opened Cel

  type FieldPath = seq<string>

  /** getNestedField on a split path; a missing field reads as nil, like an explicit null. */
  function GetNested(m: Object, p: FieldPath): Value
    requires p != []
    decreases |p|
  {
    if p[0] !in m then Null
    else if |p| == 1 then m[p[0]]
    else if m[p[0]].Map? then GetNested(m[p[0]].fields, p[1..])
    else Null
  }

  /** setNestedField: intermediate values that are not maps are replaced by fresh maps. */
  function SetNested(m: Object, p: FieldPath, v: Value): Object
    requires p != []
    decreases |p|
  {
    if |p| == 1 then m[p[0] := v]
    else m[p[0] := Map(SetNested(Child(m, p[0]), p[1..], v))]
  }

  function Child(m: Object, k: string): Object {
    if k in m && m[k].Map? then m[k].fields else map[]
  }

  /** What is read is what sits at the location the keys lead to, null where nothing does. */
  lemma {:induction false} NestedIsAt(m: Object, p: FieldPath)
    requires p != []
    ensures GetNested(m, p) == At(Map(m), FieldSteps(p)).GetOr(Null)
    decreases |p|
  {
    assert FieldSteps(p) == [Field(p[0])] + FieldSteps(p[1..]) && FieldSteps(p)[1..] == FieldSteps(p[1..]);
    if |p| == 1 {
      assert FieldSteps(p[1..]) == [];
    } else if p[0] in m {
      if m[p[0]].Map? { NestedIsAt(m[p[0]].fields, p[1..]); }
    }
  }

  /** What is written is found there again. */
  lemma {:induction false} WrittenIsRead(m: Object, p: FieldPath, v: Value)
    requires p != []
    ensures At(Map(SetNested(m, p, v)), FieldSteps(p)) == Some(v)
    decreases |p|
  {
    assert FieldSteps(p) == [Field(p[0])] + FieldSteps(p[1..]) && FieldSteps(p)[1..] == FieldSteps(p[1..]);
    if |p| == 1 {
      assert FieldSteps(p[1..]) == [];
    } else {
      WrittenIsRead(Child(m, p[0]), p[1..], v);
    }
  }

  predicate Readable(raw: Object, p: FieldPath) {
    p != [] && GetNested(raw, p) != Null
  }

  // ----- The order-free result -----

  predicate Touched(s: set<FieldPath>, k: string) {
    exists p :: p in s && p != [] && p[0] == k
  }

  function Below(s: set<FieldPath>, k: string): set<FieldPath> {
    set p | p in s && |p| > 1 && p[0] == k :: p[1..]
  }

  ghost predicate AllReadable(raw: Object, s: set<FieldPath>) {
    forall p :: p in s ==> Readable(raw, p)
  }

  lemma TouchedBelow(raw: Object, s: set<FieldPath>, k: string)
    requires AllReadable(raw, s) && Touched(s, k)
    ensures k in raw
    ensures [k] !in s || (exists p :: p in s && |p| > 1 && p[0] == k) ==>
      raw[k].Map? && AllReadable(raw[k].fields, Below(s, k))
  {
    var p :| p in s && p != [] && p[0] == k;
    assert Readable(raw, p) && (|p| == 1 ==> p == [k]);
    forall q | q in Below(s, k) ensures raw[k].Map? && Readable(raw[k].fields, q) {
      var q' :| q' in s && |q'| > 1 && q'[0] == k && q == q'[1..];
      assert Readable(raw, q');
    }
    if q :| q in s && |q| > 1 && q[0] == k {
      assert q[1..] in Below(s, k);
    }
  }

  /** Each location comes from the document where a path of `s` reaches it, from `base` elsewhere. */
  ghost function Overlay(base: Object, raw: Object, s: set<FieldPath>): Object
    requires AllReadable(raw, s)
    decreases Map(raw)
  {
    map k | k in base.Keys + raw.Keys && (k in base || Touched(s, k)) :: OverlayAt(base, raw, s, k)
  }

  ghost function OverlayAt(base: Object, raw: Object, s: set<FieldPath>, k: string): Value
    requires AllReadable(raw, s) && (k in base || Touched(s, k))
    decreases Map(raw), 0
  {
    if Touched(s, k) then
      TouchedBelow(raw, s, k);
      if [k] in s then raw[k] else Map(Overlay(Child(base, k), raw[k].fields, Below(s, k)))
    else base[k]
  }

  lemma {:induction false} OverlayNothing(base: Object, raw: Object)
    ensures Overlay(base, raw, {}) == base
  {
  }

  /** Writing back what a document already holds changes nothing. */
  lemma {:induction false} SetReadIsNoop(raw: Object, p: FieldPath)
    requires Readable(raw, p)
    ensures SetNested(raw, p, GetNested(raw, p)) == raw
    decreases |p|
  {
    if |p| > 1 {
      SetReadIsNoop(raw[p[0]].fields, p[1..]);
    }
  }

  lemma {:induction false} OtherKeysUnchanged(base: Object, raw: Object, s: set<FieldPath>, p: FieldPath, j: string)
    requires AllReadable(raw, s) && Readable(raw, p) && p[0] != j
    ensures Touched(s + {p}, j) == Touched(s, j)
    ensures j in base || Touched(s, j) ==> OverlayAt(base, raw, s + {p}, j) == OverlayAt(base, raw, s, j)
  {
    assert Below(s + {p}, j) == Below(s, j);
    assert [j] in s + {p} <==> [j] in s;
  }

  /** Writing one more field adds one more path, whatever was written before. */
  lemma {:induction false} SetExtendsOverlay(base: Object, raw: Object, s: set<FieldPath>, p: FieldPath)
    requires AllReadable(raw, s) && Readable(raw, p)
    ensures SetNested(Overlay(base, raw, s), p, GetNested(raw, p)) == Overlay(base, raw, s + {p})
    decreases |p|, 1
  {
    var set', now := SetNested(Overlay(base, raw, s), p, GetNested(raw, p)), Overlay(base, raw, s + {p});
    assert p in s + {p};
    TouchedBelow(raw, s + {p}, p[0]);
    SetExtendsOverlayAt(base, raw, s, p);
    forall j ensures (j in set' <==> j in now) && (j in now ==> set'[j] == now[j]) {
      if j != p[0] {
        OtherKeysUnchanged(base, raw, s, p, j);
        if Touched(s, j) { TouchedBelow(raw, s, j); }
      }
    }
  }

  lemma {:induction false} SetExtendsOverlayAt(base: Object, raw: Object, s: set<FieldPath>, p: FieldPath)
    requires AllReadable(raw, s) && Readable(raw, p)
    ensures Touched(s + {p}, p[0])
    ensures SetNested(Overlay(base, raw, s), p, GetNested(raw, p))[p[0]] == OverlayAt(base, raw, s + {p}, p[0])
    decreases |p|, 0
  {
    var k := p[0];
    assert p in s + {p} && Touched(s + {p}, k);
    TouchedBelow(raw, s + {p}, k);
    if |p| == 1 {
      assert p == [k];
    } else if [k] in s {
      assert [k][0] == k && Touched(s, k);
      SetReadIsNoop(raw[k].fields, p[1..]);
    } else {
      assert Below(s + {p}, k) == Below(s, k) + {p[1..]};
      assert AllReadable(raw[k].fields, Below(s, k));
      if !Touched(s, k) {
        assert Below(s, k) == {};
        OverlayNothing(Child(base, k), raw[k].fields);
      }
      assert Child(Overlay(base, raw, s), k) == Overlay(Child(base, k), raw[k].fields, Below(s, k));
      SetExtendsOverlay(Child(base, k), raw[k].fields, Below(s, k), p[1..]);
    }
  }

  // ----- When the result is a sub-document -----

  /** Whatever of `base` no path of `s` replaces is already in the document. */
  ghost predicate Covered(base: Object, raw: Object, s: set<FieldPath>)
    requires AllReadable(raw, s)
    decreases Map(raw)
  {
    forall k :: k in base ==> CoveredAt(base, raw, s, k)
  }

  ghost predicate CoveredAt(base: Object, raw: Object, s: set<FieldPath>, k: string)
    requires AllReadable(raw, s) && k in base
    decreases Map(raw), 0
  {
    if Touched(s, k) then
      TouchedBelow(raw, s, k);
      [k] in s || Covered(Child(base, k), raw[k].fields, Below(s, k))
    else k in raw && Sub(base[k], raw[k])
  }

  lemma {:induction false} OverlayIsSubIff(base: Object, raw: Object, s: set<FieldPath>)
    requires AllReadable(raw, s)
    ensures Sub(Map(Overlay(base, raw, s)), Map(raw)) <==> Covered(base, raw, s)
    decreases Map(raw)
  {
    var o := Overlay(base, raw, s);
    forall k | k in o
      ensures (k in raw && Sub(o[k], raw[k])) <==> (k in base ==> CoveredAt(base, raw, s, k))
    {
      assert o[k] == OverlayAt(base, raw, s, k);
      if Touched(s, k) {
        TouchedBelow(raw, s, k);
        if [k] in s {
          SubReflexive(raw[k], {});
        } else {
          OverlayIsSubIff(Child(base, k), raw[k].fields, Below(s, k));
          if k !in base { assert Covered(map[], raw[k].fields, Below(s, k)); }
          assert o[k] == Map(Overlay(Child(base, k), raw[k].fields, Below(s, k)));
        }
      }
    }
  }

  /** What of the base object agrees with the document, leaving aside some keys, does so when paths are read over it. */
  lemma {:induction false} OverlayIsSubBut(base: Object, raw: Object, s: set<FieldPath>, skip: set<string>)
    requires AllReadable(raw, s) && SubBut(Map(base), Map(raw), skip)
    ensures SubBut(Map(Overlay(base, raw, s)), Map(raw), skip)
    decreases Map(raw)
  {
    var o := Overlay(base, raw, s);
    forall k | k in o && k !in skip ensures k in raw && SubBut(o[k], raw[k], skip) {
      assert o[k] == OverlayAt(base, raw, s, k);
      if Touched(s, k) {
        TouchedBelow(raw, s, k);
        if [k] in s {
          SubReflexive(raw[k], skip);
        } else {
          OverlayIsSubBut(Child(base, k), raw[k].fields, Below(s, k), skip);
        }
      }
    }
  }

  /** Kind, name and namespace, which every rebuilt object starts from. */
  function BaseObject(kind: string, name: string, namespace: string): Object {
    map["kind" := Str(kind), "metadata" := Map(map["name" := Str(name), "namespace" := Str(namespace)])]
  }

  function StringField(m: Object, key: string): string {
    if key in m && m[key].Str? then m[key].s else ""
  }

  /** The document carries the kind and name the index recorded, and metadata is a map. */
  predicate Identified(raw: Object) {
    && "kind" in raw && raw["kind"].Str?
    && "metadata" in raw && raw["metadata"].Map?
    && "name" in raw["metadata"].fields && raw["metadata"].fields["name"].Str?
  }

  const NAMESPACE: FieldPath := ["metadata", "namespace"]

  /** The namespace is a string in the document, or an indexed field reads it, above it or below it. */
  ghost predicate NamespaceKept(raw: Object, s: set<FieldPath>) {
    || GetNested(raw, NAMESPACE).Str?
    || exists p :: p in s && (p <= NAMESPACE || NAMESPACE <= p)
  }

  lemma {:induction false} LeafCovered(base: Object, raw: Object, s: set<FieldPath>, k: string)
    requires AllReadable(raw, s) && k in base && k in raw && base[k] == raw[k] && raw[k].Str?
    ensures CoveredAt(base, raw, s, k)
  {
    if Touched(s, k) {
      TouchedBelow(raw, s, k);
    }
  }

  lemma {:induction false} NamespaceCoveredIff(base: Object, meta: Object, s: set<FieldPath>)
    requires AllReadable(meta, s) && "namespace" in base && base["namespace"] == Str(StringField(meta, "namespace"))
    ensures CoveredAt(base, meta, s, "namespace") <==>
      Touched(s, "namespace") || ("namespace" in meta && meta["namespace"].Str?)
  {
    if Touched(s, "namespace") {
      TouchedBelow(meta, s, "namespace");
    }
  }

  /** The rebuilt object is a sub-document of the original exactly when the namespace is kept. */
  lemma {:induction false} RebuiltIsSubIff(raw: Object, s: set<FieldPath>)
    requires Identified(raw) && AllReadable(raw, s)
    ensures
      var meta := raw["metadata"].fields;
      var base := BaseObject(raw["kind"].s, meta["name"].s, StringField(meta, "namespace"));
      Sub(Map(Overlay(base, raw, s)), Map(raw)) <==> NamespaceKept(raw, s)
  {
    var meta := raw["metadata"].fields;
    var base := BaseObject(raw["kind"].s, meta["name"].s, StringField(meta, "namespace"));
    OverlayIsSubIff(base, raw, s);
    LeafCovered(base, raw, s, "kind");
    MetadataCoveredIff(base, raw, s);
    assert Covered(base, raw, s) <==> CoveredAt(base, raw, s, "metadata");
  }

  lemma BareMetadataIsSubIff(name: string, namespace: string, meta: Object)
    requires "name" in meta && meta["name"] == Str(name) && namespace == StringField(meta, "namespace")
    ensures Sub(Map(map["name" := Str(name), "namespace" := Str(namespace)]), Map(meta)) <==>
      "namespace" in meta && meta["namespace"].Str?
  {
    var m: Object := map["name" := Str(name), "namespace" := Str(namespace)];
    assert m["name"] == Str(name) && m["namespace"] == Str(namespace);
    assert SubBut(m["name"], meta["name"], {});
    if "namespace" in meta {
      assert SubBut(m["namespace"], meta["namespace"], {}) <==> meta["namespace"].Str?;
    }
  }

  lemma {:induction false} MetadataCoveredIff(base: Object, raw: Object, s: set<FieldPath>)
    requires Identified(raw) && AllReadable(raw, s)
    requires
      var meta := raw["metadata"].fields;
      base == BaseObject(raw["kind"].s, meta["name"].s, StringField(meta, "namespace"))
    ensures CoveredAt(base, raw, s, "metadata") <==> NamespaceKept(raw, s)
  {
    var k, meta := "metadata", raw["metadata"].fields;
    assert GetNested(raw, NAMESPACE) == GetNested(meta, ["namespace"]);
    if [k] in s {
      assert [k] <= NAMESPACE && [k][0] == k;
    } else {
      RelatedIsTouched(raw, s);
      if Touched(s, k) {
        TouchedBelow(raw, s, k);
        LeafCovered(base[k].fields, meta, Below(s, k), "name");
        NamespaceCoveredIff(base[k].fields, meta, Below(s, k));
      } else {
        assert Below(s, k) == {};
        BareMetadataIsSubIff(meta["name"].s, StringField(meta, "namespace"), meta);
      }
    }
  }

  lemma RelatedIsTouched(raw: Object, s: set<FieldPath>)
    requires AllReadable(raw, s) && ["metadata"] !in s
    ensures (exists p :: p in s && (p <= NAMESPACE || NAMESPACE <= p)) <==> Touched(Below(s, "metadata"), "namespace")
  {
    if p :| p in s && (p <= NAMESPACE || NAMESPACE <= p) {
      assert Readable(raw, p);
      assert |p| == 1 ==> p == ["metadata"];
      assert p[1..] in Below(s, "metadata") && p[1..][0] == "namespace";
    }
    if Touched(Below(s, "metadata"), "namespace") {
      var q :| q in Below(s, "metadata") && q != [] && q[0] == "namespace";
      var p :| p in s && |p| > 1 && p[0] == "metadata" && q == p[1..];
      assert NAMESPACE <= p by { assert p[1] == q[0]; }
    }
  }

  /** A namespace no path reaches keeps what the base object said. */
  lemma {:induction false} UnreadNamespaceStays(base: Object, raw: Object, s: set<FieldPath>)
    requires Identified(raw) && AllReadable(raw, s) && !exists p :: p in s && (p <= NAMESPACE || NAMESPACE <= p)
    requires "metadata" in base && base["metadata"].Map? && "namespace" in base["metadata"].fields
    ensures "metadata" in Overlay(base, raw, s) && Overlay(base, raw, s)["metadata"].Map?
    ensures GetNested(Overlay(base, raw, s), NAMESPACE) == base["metadata"].fields["namespace"]
  {
    assert ["metadata"] <= NAMESPACE;
    RelatedIsTouched(raw, s);
    var o := Overlay(base, raw, s);
    if Touched(s, "metadata") {
      TouchedBelow(raw, s, "metadata");
      var inner := Overlay(base["metadata"].fields, raw["metadata"].fields, Below(s, "metadata"));
      assert o["metadata"] == OverlayAt(base, raw, s, "metadata") == Map(inner);
      assert inner["namespace"] == OverlayAt(base["metadata"].fields, raw["metadata"].fields, Below(s, "metadata"), "namespace");
    } else {
      assert o["metadata"] == OverlayAt(base, raw, s, "metadata") == base["metadata"];
    }
    assert GetNested(o, NAMESPACE) == GetNested(o["metadata"].fields, ["namespace"]);
  }

  // ----- Presence tests -----

  /** The map reached by following keys. */
  function ObjectAt(o: Object, keys: seq<string>): Option<Object>
    decreases |keys|
  {
    if keys == [] then Some(o)
    else if keys[0] in o && o[keys[0]].Map? then ObjectAt(o[keys[0]].fields, keys[1..])
    else None
  }

  /** Below a value that is not a map a presence test only fails. */
  lemma NoKeyBelow(v: Value, keys: seq<string>, k: string)
    requires !v.Map?
    ensures Presence(v, keys, k) == if v.List? then OtherError else NoSuchKey
  {
    if keys != [] {
      FollowError(Apply1(SelectKey(keys[0]), v), keys[1..]);
    }
  }

  /** A presence test has an answer exactly where a map is reached. */
  lemma {:induction false} PresenceIs(o: Object, keys: seq<string>, k: string)
    ensures ObjectAt(o, keys).Some? ==> Presence(Map(o), keys, k) == Val(Bool(k in ObjectAt(o, keys).value))
    ensures ObjectAt(o, keys).None? ==> !Presence(Map(o), keys, k).Val?
    decreases |keys|
  {
    if keys != [] {
      var first := Apply1(SelectKey(keys[0]), Map(o));
      if !first.Val? {
        FollowError(first, keys[1..]);
      } else if first.v.Map? {
        PresenceIs(first.v.fields, keys[1..], k);
      } else {
        NoKeyBelow(first.v, keys[1..], k);
      }
    }
  }

  /** Maps of the base object are maps of the document, and everything else in it is a string. */
  ghost predicate Shaped(base: Object, raw: Object)
    decreases Map(base)
  {
    forall k :: k in base ==>
      if base[k].Map? then k in raw && raw[k].Map? && Shaped(base[k].fields, raw[k].fields) else base[k].Str?
  }

  /** An indexed path reads above, at or below this location. */
  predicate Covers(s: set<FieldPath>, loc: FieldPath) {
    exists p :: p in s && (p <= loc || loc <= p)
  }

  /** An indexed path copies this location whole. */
  predicate Copied(s: set<FieldPath>, loc: FieldPath) {
    exists p :: p in s && p <= loc
  }

  predicate BaseHas(base: Object, keys: seq<string>, k: string) {
    ObjectAt(base, keys).Some? && k in ObjectAt(base, keys).value
  }

  /**
   Where the document has a map that the rebuilt object starts too: a key of the document
   is in the base object or covered by an indexed path, and the base object has no key
   that the document lacks, unless an indexed path copies that map.
   */
  predicate PresenceKept(base: Object, raw: Object, s: set<FieldPath>, keys: seq<string>, k: string) {
    var here := ObjectAt(raw, keys);
    here.Some? && (ObjectAt(base, keys).Some? || Covers(s, keys)) ==>
      if k in here.value then BaseHas(base, keys, k) || Covers(s, keys + [k])
      else !BaseHas(base, keys, k) || Copied(s, keys)
  }

  /** The paths below a key are the tails of the paths through it. */
  lemma BelowIs(raw: Object, s: set<FieldPath>, k: string, q: FieldPath)
    requires AllReadable(raw, s) && [k] !in s
    ensures q in Below(s, k) <==> [k] + q in s
  {
    if q in Below(s, k) {
      var p :| p in s && |p| > 1 && p[0] == k && q == p[1..];
      assert p == [k] + q;
    }
    if [k] + q in s {
      assert q == [] ==> [k] + q == [k];
      assert ([k] + q)[1..] == q;
    }
  }

  /** A path through a key that is not read itself. */
  lemma ThroughKey(raw: Object, s: set<FieldPath>, k: string, p: FieldPath)
    requires AllReadable(raw, s) && [k] !in s && p in s && p[..1] == [k]
    ensures p == [k] + p[1..] && p[1..] in Below(s, k) && Touched(s, k)
  {
    assert p == [k] + p[1..] && p[0] == k;
    BelowIs(raw, s, k, p[1..]);
  }

  lemma BelowCovers(raw: Object, s: set<FieldPath>, k: string, loc: FieldPath)
    requires AllReadable(raw, s) && [k] !in s
    ensures Covers(s, [k] + loc) <==> Touched(s, k) && Covers(Below(s, k), loc)
  {
    if p :| p in s && (p <= [k] + loc || [k] + loc <= p) {
      assert Readable(raw, p) && p[..1] == [k];
      ThroughKey(raw, s, k, p);
      assert p[1..] <= loc || loc <= p[1..];
    }
    if q :| q in Below(s, k) && (q <= loc || loc <= q) {
      BelowIs(raw, s, k, q);
      assert [k] + q <= [k] + loc || [k] + loc <= [k] + q;
    }
  }

  lemma BelowCopied(raw: Object, s: set<FieldPath>, k: string, loc: FieldPath)
    requires AllReadable(raw, s) && [k] !in s
    ensures Copied(s, [k] + loc) <==> Copied(Below(s, k), loc)
  {
    if p :| p in s && p <= [k] + loc {
      assert Readable(raw, p) && p[..1] == [k];
      ThroughKey(raw, s, k, p);
      assert p[1..] <= loc;
    }
    if q :| q in Below(s, k) && q <= loc {
      BelowIs(raw, s, k, q);
      assert [k] + q <= [k] + loc;
    }
  }

  lemma PresenceStep(o: Object, keys: seq<string>, k: string)
    requires keys != [] && keys[0] in o
    ensures o[keys[0]].Map? ==> Presence(Map(o), keys, k) == Presence(o[keys[0]], keys[1..], k)
    ensures o[keys[0]].Str? ==> Presence(Map(o), keys, k) == NoSuchKey
  {
    if o[keys[0]].Str? { NoKeyBelow(o[keys[0]], keys[1..], k); }
  }

  lemma MissingFirstKey(o: Object, keys: seq<string>, k: string)
    requires keys != [] && keys[0] !in o
    ensures Presence(Map(o), keys, k) == NoSuchKey
  {
    FollowError(NoSuchKey, keys[1..]);
  }

  lemma {:induction false} PresenceHere(base: Object, raw: Object, s: set<FieldPath>, k: string)
    requires AllReadable(raw, s)
    ensures
      var a, b := Presence(Map(Overlay(base, raw, s)), [], k), Presence(Map(raw), [], k);
      a == NoSuchKey || a == b <==> PresenceKept(base, raw, s, [], k)
  {
    var o := Overlay(base, raw, s);
    assert [] + [k] == [k];
    forall p | p in s ensures Readable(raw, p) && (p[0] == k <==> p <= [k] || [k] <= p) {}
    if Touched(s, k) { TouchedBelow(raw, s, k); }
    assert Covers(s, [k]) <==> Touched(s, k);
    assert !Copied(s, []);
    assert k in o <==> k in base || Touched(s, k);
  }

  /** A subtree no indexed path reaches is the base object's own. */
  lemma {:induction false} UntouchedPresence(base: Object, raw: Object, s: set<FieldPath>, keys: seq<string>, k: string)
    requires AllReadable(raw, s) && Shaped(base, raw) && keys != [] && !Touched(s, keys[0])
    requires !Covers(s, keys) && !Covers(s, keys + [k]) && !Copied(s, keys)
    ensures
      var a, b := Presence(Map(Overlay(base, raw, s)), keys, k), Presence(Map(raw), keys, k);
      a == NoSuchKey || a == b <==> PresenceKept(base, raw, s, keys, k)
    decreases |keys|, 0
  {
    var k0, o := keys[0], Overlay(base, raw, s);
    if k0 !in base {
      MissingFirstKey(o, keys, k);
    } else {
      assert o[k0] == OverlayAt(base, raw, s, k0) == base[k0];
      PresenceStep(o, keys, k);
      if base[k0].Map? {
        PresenceStep(raw, keys, k);
        OverlayNothing(base[k0].fields, raw[k0].fields);
        OverlayPresence(base[k0].fields, raw[k0].fields, {}, keys[1..], k);
      }
    }
  }

  lemma PresenceKeptStep(base: Object, raw: Object, s: set<FieldPath>, keys: seq<string>, k: string)
    requires AllReadable(raw, s) && keys != [] && [keys[0]] !in s && Touched(s, keys[0])
    requires keys[0] in raw && raw[keys[0]].Map?
    requires Covers(s, keys) <==> Covers(Below(s, keys[0]), keys[1..])
    requires Covers(s, keys + [k]) <==> Covers(Below(s, keys[0]), keys[1..] + [k])
    requires Copied(s, keys) <==> Copied(Below(s, keys[0]), keys[1..])
    ensures PresenceKept(base, raw, s, keys, k) <==>
      PresenceKept(Child(base, keys[0]), raw[keys[0]].fields, Below(s, keys[0]), keys[1..], k)
  {
    var p :| p in s && p != [] && p[0] == keys[0];
    var first := p[..1];
    assert Readable(raw, p) && first == [keys[0]];
    assert |p| == 1 ==> p == first;
    assert p[1..] in Below(s, keys[0]);
    assert Covers(Below(s, keys[0]), []) by { assert [] <= p[1..]; }
  }

  /** A presence test on the rebuilt object falls back or is right exactly under the condition above. */
  lemma {:induction false} OverlayPresence(base: Object, raw: Object, s: set<FieldPath>, keys: seq<string>, k: string)
    requires AllReadable(raw, s) && Shaped(base, raw)
    ensures
      var a, b := Presence(Map(Overlay(base, raw, s)), keys, k), Presence(Map(raw), keys, k);
      a == NoSuchKey || a == b <==> PresenceKept(base, raw, s, keys, k)
    decreases |keys|, 1
  {
    if keys == [] {
      PresenceHere(base, raw, s, k);
    } else if [keys[0]] in s {
      CopiedPresence(base, raw, s, keys, k);
    } else {
      var k0, rest := keys[0], keys[1..];
      assert keys == [k0] + rest && keys + [k] == [k0] + (rest + [k]);
      BelowCovers(raw, s, k0, rest);
      BelowCovers(raw, s, k0, rest + [k]);
      BelowCopied(raw, s, k0, rest);
      if Touched(s, k0) {
        ReadThrough(base, raw, s, keys, k);
        OverlayPresence(Child(base, k0), raw[k0].fields, Below(s, k0), rest, k);
        PresenceKeptStep(base, raw, s, keys, k);
      } else {
        UntouchedPresence(base, raw, s, keys, k);
      }
    }
  }

  lemma {:induction false} CopiedPresence(base: Object, raw: Object, s: set<FieldPath>, keys: seq<string>, k: string)
    requires AllReadable(raw, s) && keys != [] && [keys[0]] in s
    ensures Presence(Map(Overlay(base, raw, s)), keys, k) == Presence(Map(raw), keys, k)
    ensures PresenceKept(base, raw, s, keys, k)
  {
    var k0, o := keys[0], Overlay(base, raw, s);
    assert Readable(raw, [k0]) && [k0][0] == k0 && Touched(s, k0);
    assert o[k0] == OverlayAt(base, raw, s, k0) == raw[k0];
    assert [k0] <= keys && [k0] <= keys + [k];
  }

  lemma {:induction false} ReadThrough(base: Object, raw: Object, s: set<FieldPath>, keys: seq<string>, k: string)
    requires AllReadable(raw, s) && Shaped(base, raw) && keys != [] && [keys[0]] !in s && Touched(s, keys[0])
    ensures keys[0] in raw && raw[keys[0]].Map? && AllReadable(raw[keys[0]].fields, Below(s, keys[0]))
    ensures Shaped(Child(base, keys[0]), raw[keys[0]].fields)
    ensures
      var rest := Overlay(Child(base, keys[0]), raw[keys[0]].fields, Below(s, keys[0]));
      && Presence(Map(Overlay(base, raw, s)), keys, k) == Presence(Map(rest), keys[1..], k)
      && Presence(Map(raw), keys, k) == Presence(raw[keys[0]], keys[1..], k)
  {
    var o := Overlay(base, raw, s);
    TouchedBelow(raw, s, keys[0]);
    assert o[keys[0]] == OverlayAt(base, raw, s, keys[0]);
    PresenceStep(o, keys, k);
    PresenceStep(raw, keys, k);
  }
}

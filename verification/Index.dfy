/**
 The resource index of one cluster: built from the checked-out documents, queried
 with CEL on a partial object first and on the full document when a key is missing.
 */
module Index {
  import opened Wrappers
  import opened Strings
  import opened Values
  import opened Cel
  import opened ObjectMap

  datatype ResourceMeta = ResourceMeta(
    cluster: string,
    group: string,
    version: string,
    kind: string,
    name: string,
    namespace: string,
    labels: map<string, string>,
    creationTimestamp: string,
    filePath: string,
    indexedFields: map<string, Value>
  )

  // ----- Building -----

  function MetadataOf(raw: Object): Option<Object> {
    if "metadata" in raw && raw["metadata"].Map? then Some(raw["metadata"].fields) else None
  }

  /** groupFromPath, for a path relative to the indexed directory. */
  function GroupFromPath(relPath: string): string {
    var parts := Split(relPath, '/');
    if |parts| < 2 then "" else parts[0]
  }

  function GroupFromAPIVersion(raw: Object): string {
    var parts := Split(StringField(raw, "apiVersion"), '/');
    if StringField(raw, "apiVersion") == "" then ""
    else if |parts| == 1 then "core"
    else Join(parts[..|parts| - 1], '/')
  }

  function VersionFromAPIVersion(raw: Object): string {
    var parts := Split(StringField(raw, "apiVersion"), '/');
    parts[|parts| - 1]
  }

  function LabelsOf(meta: Object): map<string, string> {
    if "labels" in meta && meta["labels"].Map? then
      var m := meta["labels"].fields;
      map k | k in m && m[k].Str? :: m[k].s
    else map[]
  }

  function ReadFields(raw: Object, fields: seq<string>): map<string, Value> {
    map f | f in fields && GetNested(raw, Split(f, '.')) != Null :: GetNested(raw, Split(f, '.'))
  }

  /** The entry of one decoded document, if it has a kind, metadata and a name. */
  function Entry(cluster: string, fields: seq<string>, path: string, doc: Value): Option<ResourceMeta> {
    if !doc.Map? then None
    else
      var raw := doc.fields;
      var meta := MetadataOf(raw);
      if StringField(raw, "kind") == "" || meta.None? || StringField(meta.value, "name") == "" then None
      else
        var group := GroupFromPath(path);
        Some(ResourceMeta(
               cluster,
               if group == "" then GroupFromAPIVersion(raw) else group,
               VersionFromAPIVersion(raw),
               StringField(raw, "kind"),
               StringField(meta.value, "name"),
               StringField(meta.value, "namespace"),
               LabelsOf(meta.value),
               StringField(meta.value, "creationTimestamp"),
               path,
               ReadFields(raw, fields)))
  }

  /** The entry records this document's identity and its values of the indexed fields. */
  ghost predicate ReadFrom(r: ResourceMeta, raw: Object, fields: seq<string>) {
    && Identified(raw)
    && r.kind == raw["kind"].s
    && r.name == raw["metadata"].fields["name"].s
    && r.namespace == StringField(raw["metadata"].fields, "namespace")
    && r.indexedFields == ReadFields(raw, fields)
  }

  /** Any entry the index holds records the document it was made from. */
  lemma EntryIsReadFrom(cluster: string, fields: seq<string>, path: string, doc: Value)
    requires Entry(cluster, fields, path, doc).Some?
    ensures doc.Map? && ReadFrom(Entry(cluster, fields, path, doc).value, doc.fields, fields)
  {
  }

  /** A field is recorded for an entry exactly when it is asked for and the document has a value at its keys. */
  lemma {:induction false} IndexedFieldIff(cluster: string, fields: seq<string>, path: string, doc: Value, field: string, v: Value)
    requires Entry(cluster, fields, path, doc).Some?
    ensures
      var recorded := Entry(cluster, fields, path, doc).value.indexedFields;
      field in recorded && recorded[field] == v <==>
        field in fields && v != Null && At(doc, FieldSteps(Split(field, '.'))) == Some(v)
  {
    NestedIsAt(doc.fields, Split(field, '.'));
  }

  // ----- Selecting -----

  datatype Filter = Filter(group: string, kind: string, namespace: string, labelSel: map<string, string>)

  predicate MatchLabels(labels: map<string, string>, sel: map<string, string>) {
    forall k :: k in sel ==> k in labels && (sel[k] != "" ==> labels[k] == sel[k])
  }

  predicate Selected(r: ResourceMeta, f: Filter) {
    && (f.group != "" ==> EqualFold(r.group, f.group))
    && (f.kind != "" ==> EqualFold(r.kind, f.kind))
    && (f.namespace != "" ==> r.namespace == f.namespace)
    && MatchLabels(r.labels, f.labelSel)
  }

  lemma StringFieldIs(raw: Object, key: string)
    ensures forall text :: text != "" ==> (StringField(raw, key) == text <==> HoldsText(raw, [Field(key)], text))
    ensures StringField(raw, key) == "" <==> !exists text :: text != "" && HoldsText(raw, [Field(key)], text)
  {
    AtOneStep(Map(raw), Field(key));
    if StringField(raw, key) != "" { assert HoldsText(raw, [Field(key)], StringField(raw, key)); }
  }

  lemma AtMetadata(raw: Object, loc: seq<Step>)
    ensures TagAt(Map(raw), [Field("metadata")] + loc) ==
      if "metadata" in raw then TagAt(raw["metadata"], loc) else None
  {
    assert ([Field("metadata")] + loc)[1..] == loc;
  }

  lemma AtLabel(meta: Object, k: string)
    ensures TagAt(Map(meta), [Field("labels"), Field(k)]) ==
      if "labels" in meta then TagAt(meta["labels"], [Field(k)]) else None
  {
    assert [Field("labels"), Field(k)][1..] == [Field(k)];
  }

  lemma LabelIs(raw: Object, meta: Object, k: string)
    requires MetadataOf(raw) == Some(meta)
    ensures forall v :: (k in LabelsOf(meta) && LabelsOf(meta)[k] == v) <==>
      HoldsText(raw, [Field("metadata"), Field("labels"), Field(k)], v)
  {
    AtMetadata(raw, [Field("labels"), Field(k)]);
    assert [Field("metadata")] + [Field("labels"), Field(k)] == [Field("metadata"), Field("labels"), Field(k)];
    AtLabel(meta, k);
    if "labels" in meta { AtOneStep(meta["labels"], Field(k)); }
  }

  /** The document has, for every label asked for, a string in its place that is the one asked for, if one is. */
  ghost predicate Labelled(raw: Object, sel: map<string, string>) {
    forall k :: k in sel ==>
      exists v :: HoldsText(raw, [Field("metadata"), Field("labels"), Field(k)], v) && (sel[k] == "" || sel[k] == v)
  }

  /** A document fits a filter by what it holds; the group is that of its path. */
  ghost predicate Fits(raw: Object, group: string, f: Filter) {
    && (f.group == "" || EqualFold(group, f.group))
    && (f.kind == "" || exists kind :: EqualFold(kind, f.kind) && HoldsText(raw, [Field("kind")], kind))
    && (f.namespace == "" || HoldsText(raw, [Field("metadata"), Field("namespace")], f.namespace))
    && Labelled(raw, f.labelSel)
  }

  lemma LabelsFitIff(raw: Object, meta: Object, sel: map<string, string>)
    requires MetadataOf(raw) == Some(meta)
    ensures MatchLabels(LabelsOf(meta), sel) <==> Labelled(raw, sel)
  {
    forall k | k in sel
      ensures (k in LabelsOf(meta) && (sel[k] != "" ==> LabelsOf(meta)[k] == sel[k])) <==>
        exists v :: HoldsText(raw, [Field("metadata"), Field("labels"), Field(k)], v) && (sel[k] == "" || sel[k] == v)
    {
      LabelIs(raw, meta, k);
      if k in LabelsOf(meta) {
        assert HoldsText(raw, [Field("metadata"), Field("labels"), Field(k)], LabelsOf(meta)[k]);
      }
    }
  }

  lemma FoldNotEmpty(a: string, b: string)
    requires EqualFold(a, b) && b != ""
    ensures a != ""
  {
    EqualFoldIff(a, b);
  }

  /** An entry is selected exactly when its document fits. */
  lemma SelectedIff(cluster: string, fields: seq<string>, path: string, doc: Value, group: string, rest: string, f: Filter)
    requires Entry(cluster, fields, path, doc).Some?
    requires path == group + "/" + rest && group != "" && '/' !in group
    ensures doc.Map? && (Selected(Entry(cluster, fields, path, doc).value, f) <==> Fits(doc.fields, group, f))
  {
    var raw, r := doc.fields, Entry(cluster, fields, path, doc).value;
    var meta := MetadataOf(raw).value;
    assert path == group + ['/'] + rest;
    SplitPart(group, rest, '/');
    LabelsFitIff(raw, meta, f.labelSel);
    StringFieldIs(raw, "kind");
    StringFieldIs(meta, "namespace");
    AtMetadata(raw, [Field("namespace")]);
    assert [Field("metadata")] + [Field("namespace")] == [Field("metadata"), Field("namespace")];
    if f.kind != "" && Fits(raw, group, f) {
      var kind :| EqualFold(kind, f.kind) && HoldsText(raw, [Field("kind")], kind);
      FoldNotEmpty(kind, f.kind);
    }
    assert HoldsText(raw, [Field("kind")], r.kind);
  }

  function SelectedOf(rs: seq<ResourceMeta>, f: Filter): seq<ResourceMeta> {
    if rs == [] then [] else (if Selected(rs[0], f) then [rs[0]] else []) + SelectedOf(rs[1..], f)
  }

  /** Listing keeps the selected entries, each as often as it is in the index. */
  lemma {:induction false} SelectedOfIs(rs: seq<ResourceMeta>, f: Filter, r: ResourceMeta)
    ensures multiset(SelectedOf(rs, f))[r] == if Selected(r, f) then multiset(rs)[r] else 0
  {
    if rs != [] {
      assert rs == [rs[0]] + rs[1..];
      SelectedOfIs(rs[1..], f, r);
    }
  }

  // ----- The version and group of a document -----

  /** An `apiVersion` without a slash is a version of the core group; otherwise the last part is the version. */
  lemma APIVersionParts(raw: Object, group: string, version: string)
    requires '/' !in version && version != ""
    ensures StringField(raw, "apiVersion") == version ==>
      GroupFromAPIVersion(raw) == "core" && VersionFromAPIVersion(raw) == version
    ensures StringField(raw, "apiVersion") == group + "/" + version ==>
      GroupFromAPIVersion(raw) == group && VersionFromAPIVersion(raw) == version
  {
    SplitWhole(version, '/');
    SplitAppend(group, version, '/');
    JoinSplit(group, '/');
    var parts := Split(group, '/') + [version];
    assert group + "/" + version == group + ['/'] + version && parts[..|parts| - 1] == Split(group, '/');
  }

  // ----- Evaluating one resource -----

  datatype QueryError = EvalError | LoadError

  /** Files of the checkout, each a list of decoded documents. */
  type Disk = map<string, seq<Value>>

  predicate SameIdentity(r: ResourceMeta, doc: Value) {
    && doc.Map? && MetadataOf(doc.fields).Some?
    && EqualFold(StringField(doc.fields, "kind"), r.kind)
    && StringField(MetadataOf(doc.fields).value, "name") == r.name
    && StringField(MetadataOf(doc.fields).value, "namespace") == r.namespace
  }

  /** A document answers to an entry by what it holds: the kind up to letter case, the name, and the namespace or none. */
  lemma {:induction false} SameIdentityIff(r: ResourceMeta, raw: Object)
    requires r.kind != "" && r.name != ""
    ensures SameIdentity(r, Map(raw)) <==>
      && (exists kind :: EqualFold(kind, r.kind) && HoldsText(raw, [Field("kind")], kind))
      && HoldsText(raw, [Field("metadata"), Field("name")], r.name)
      && (if r.namespace != "" then HoldsText(raw, [Field("metadata"), Field("namespace")], r.namespace)
          else !exists ns :: ns != "" && HoldsText(raw, [Field("metadata"), Field("namespace")], ns))
  {
    var kind := StringField(raw, "kind");
    StringFieldIs(raw, "kind");
    if EqualFold(kind, r.kind) {
      EqualFoldIff(kind, r.kind);
      assert HoldsText(raw, [Field("kind")], kind);
    }
    if k :| EqualFold(k, r.kind) && HoldsText(raw, [Field("kind")], k) {
      FoldNotEmpty(k, r.kind);
      assert kind == k;
    }
    MetadataTextIs(raw, "name");
    MetadataTextIs(raw, "namespace");
    if MetadataOf(raw).Some? {
      var ns := StringField(MetadataOf(raw).value, "namespace");
      assert ns != "" ==> HoldsText(raw, [Field("metadata"), Field("namespace")], ns);
    }
  }

  lemma MetadataTextIs(raw: Object, key: string)
    ensures forall text :: HoldsText(raw, [Field("metadata"), Field(key)], text) <==>
      MetadataOf(raw).Some? && HoldsText(MetadataOf(raw).value, [Field(key)], text)
    ensures MetadataOf(raw).Some? ==>
      (forall text :: text != "" ==>
         (StringField(MetadataOf(raw).value, key) == text <==> HoldsText(MetadataOf(raw).value, [Field(key)], text)))
  {
    AtMetadata(raw, [Field(key)]);
    assert [Field("metadata")] + [Field(key)] == [Field("metadata"), Field(key)];
    if "metadata" in raw { AtOneStep(raw["metadata"], Field(key)); }
    if MetadataOf(raw).Some? { StringFieldIs(MetadataOf(raw).value, key); }
  }

  function FirstWithIdentity(r: ResourceMeta, docs: seq<Value>): Option<Object> {
    if docs == [] then None
    else if SameIdentity(r, docs[0]) then Some(docs[0].fields)
    else FirstWithIdentity(r, docs[1..])
  }

  function LoadFullDoc(disk: Disk, r: ResourceMeta): Option<Object> {
    if r.filePath in disk then FirstWithIdentity(r, disk[r.filePath]) else None
  }

  /** The file still yields an entry's own document when no earlier one there shares its identity. */
  lemma {:induction false} LoadFindsOwnDocument(
    cluster: string, fields: seq<string>, path: string, docs: seq<Value>, j: nat, r: ResourceMeta)
    requires j < |docs| && Entry(cluster, fields, path, docs[j]) == Some(r)
    requires forall i :: 0 <= i < j ==> !SameIdentity(r, docs[i])
    ensures FirstWithIdentity(r, docs) == Some(docs[j].fields)
    decreases j
  {
    if j > 0 {
      assert !SameIdentity(r, docs[0]);
      LoadFindsOwnDocument(cluster, fields, path, docs[1..], j - 1, r);
    }
  }

  /** The reference: evaluate on the full document. */
  function FullAnswer(e: Expr, raw: Object): Result<bool, QueryError> {
    var out := Eval(e, Map(raw));
    if out.Val? then Ok(out.v == Bool(true)) else Err(EvalError)
  }

  /** Evaluate on the rebuilt object; on a missing key, on the full document. */
  function HybridAnswer(e: Expr, rebuilt: Object, full: Option<Object>): Result<bool, QueryError> {
    match Eval(e, Map(rebuilt))
    case Val(v) => Ok(v == Bool(true))
    case OtherError => Err(EvalError)
    case NoSuchKey => if full.None? then Err(LoadError) else FullAnswer(e, full.value)
  }

  ghost function Paths(fields: set<string>): set<FieldPath> {
    set f | f in fields :: Split(f, '.')
  }

  /** The object rebuilt from an entry, independent of the order the fields are written in. */
  ghost function Rebuilt(r: ResourceMeta, raw: Object, fields: seq<string>): Object
    requires ReadFrom(r, raw, fields)
  {
    Overlay(BaseObject(r.kind, r.name, r.namespace), raw, Paths(r.indexedFields.Keys))
  }

  /** buildObjectMap, for any iteration order of the indexed fields. */
  method BuildObjectMap(r: ResourceMeta, ghost raw: Object, ghost fields: seq<string>) returns (doc: Object)
    requires ReadFrom(r, raw, fields)
    ensures doc == Rebuilt(r, raw, fields)
  {
    ghost var base := BaseObject(r.kind, r.name, r.namespace);
    doc := BaseObject(r.kind, r.name, r.namespace);
    OverlayNothing(base, raw);
    var todo := r.indexedFields.Keys;
    ghost var done: set<string> := {};
    assert Paths(done) == {};
    while todo != {}
      invariant todo + done == r.indexedFields.Keys
      invariant doc == Overlay(base, raw, Paths(done))
    {
      var f :| f in todo;
      SetExtendsOverlay(base, raw, Paths(done), Split(f, '.'));
      assert Paths(done + {f}) == Paths(done) + {Split(f, '.')};
      doc := SetNested(doc, Split(f, '.'), r.indexedFields[f]);
      todo, done := todo - {f}, done + {f};
    }
    assert done == r.indexedFields.Keys;
  }

  method EvalResource(e: Expr, r: ResourceMeta, disk: Disk, ghost raw: Object, ghost fields: seq<string>)
    returns (match': Result<bool, QueryError>)
    requires ReadFrom(r, raw, fields)
    ensures match' == HybridAnswer(e, Rebuilt(r, raw, fields), LoadFullDoc(disk, r))
  {
    var objMap := BuildObjectMap(r, raw, fields);
    var out := Eval(e, Map(objMap));
    if out.OtherError? {
      return Err(EvalError);
    }
    if out.NoSuchKey? {
      var full := LoadFullDoc(disk, r);
      if full.None? {
        return Err(LoadError);
      }
      out := Eval(e, Map(full.value));
      if !out.Val? {
        return Err(EvalError);
      }
    }
    return Ok(out.v == Bool(true));
  }

  /** The namespace condition, in terms of the configured fields. */
  ghost predicate NamespaceIndexed(raw: Object, fields: seq<string>) {
    NamespaceKept(raw, Paths(ReadFields(raw, fields).Keys))
  }

  const NAMESPACE_KEY: set<string> := {"namespace"}

  /** The rebuilt object is wrong about nothing the expression asks for. */
  ghost predicate NamespaceHarmless(e: Expr, raw: Object, fields: seq<string>) {
    NamespaceIndexed(raw, fields) || Avoids(e, NAMESPACE_KEY)
  }

  lemma RebuiltIsSubBut(e: Expr, r: ResourceMeta, raw: Object, fields: seq<string>) returns (skip: set<string>)
    requires ReadFrom(r, raw, fields) && NamespaceHarmless(e, raw, fields)
    ensures SubBut(Map(Rebuilt(r, raw, fields)), Map(raw), skip) && Avoids(e, skip)
  {
    if NamespaceIndexed(raw, fields) {
      skip := {};
      RebuiltIsSubIff(raw, Paths(r.indexedFields.Keys));
      AvoidsNothing(e);
    } else {
      skip := NAMESPACE_KEY;
      OverlayIsSubBut(BaseObject(r.kind, r.name, r.namespace), raw, Paths(r.indexedFields.Keys), skip);
    }
  }

  /**
   An answer of the hybrid evaluation is the answer of the full document; where no
   operand of `&&` or `||` misses a key the two also fail together.
   */
  lemma {:induction false} HybridRefinesFull(e: Expr, r: ResourceMeta, raw: Object, fields: seq<string>)
    requires ReadFrom(r, raw, fields) && NamespaceHarmless(e, raw, fields)
    requires Reliable(e, Map(Rebuilt(r, raw, fields)))
    ensures
      var hybrid := HybridAnswer(e, Rebuilt(r, raw, fields), Some(raw));
      && (hybrid.Ok? ==> hybrid == FullAnswer(e, raw))
      && (Settled(e, Map(Rebuilt(r, raw, fields))) ==> hybrid == FullAnswer(e, raw))
  {
    var rebuilt := Map(Rebuilt(r, raw, fields));
    var skip := RebuiltIsSubBut(e, r, raw, fields);
    EvalMonotone(e, rebuilt, Map(raw), skip);
    if Eval(e, rebuilt) == OtherError && Settled(e, rebuilt) {
      OtherErrorsPersist(e, rebuilt, Map(raw), skip);
    }
  }

  /** An expression of the fragment that never asks for a namespace is answered rightly on every document. */
  lemma {:induction false} NamespaceFreeTrusted(e: Expr, r: ResourceMeta, raw: Object, fields: seq<string>)
    requires ReadFrom(r, raw, fields) && InFragment(e) && Avoids(e, NAMESPACE_KEY)
    ensures
      var hybrid := HybridAnswer(e, Rebuilt(r, raw, fields), Some(raw));
      hybrid.Ok? ==> hybrid == FullAnswer(e, raw)
  {
    FragmentIsReliable(e, Map(Rebuilt(r, raw, fields)));
    HybridRefinesFull(e, r, raw, fields);
  }

  const NAMESPACE_IS_EMPTY := Binary(Eq, Unary(SelectKey("namespace"), Unary(SelectKey("metadata"), ObjectVar)), Lit(Str("")))

  lemma {:induction false} EvalNamespaceIsEmpty(doc: Object)
    requires "metadata" in doc && doc["metadata"].Map?
    ensures Eval(NAMESPACE_IS_EMPTY, Map(doc)).Is(true) <==> GetNested(doc, NAMESPACE) == Str("")
  {
    var meta := Unary(SelectKey("metadata"), ObjectVar);
    assert Eval(meta, Map(doc)) == Val(doc["metadata"]);
    assert Eval(Unary(SelectKey("namespace"), meta), Map(doc)) == Apply1(SelectKey("namespace"), doc["metadata"]);
    assert GetNested(doc, NAMESPACE) == GetNested(doc["metadata"].fields, ["namespace"]);
  }

  lemma UnkeptNamespaceMisleads(r: ResourceMeta, raw: Object, fields: seq<string>)
    requires ReadFrom(r, raw, fields) && !NamespaceIndexed(raw, fields)
    ensures InFragment(NAMESPACE_IS_EMPTY)
    ensures HybridAnswer(NAMESPACE_IS_EMPTY, Rebuilt(r, raw, fields), Some(raw)) == Ok(true)
    ensures FullAnswer(NAMESPACE_IS_EMPTY, raw) != Ok(true)
  {
    UnreadNamespaceStays(BaseObject(r.kind, r.name, r.namespace), raw, Paths(r.indexedFields.Keys));
    assert GetNested(raw, NAMESPACE) == GetNested(raw["metadata"].fields, ["namespace"]);
    EvalNamespaceIsEmpty(Rebuilt(r, raw, fields));
    EvalNamespaceIsEmpty(raw);
  }

  /**
   Exactly when hybrid answers can be trusted for every expression of the fragment:
   the document has a string namespace, or an indexed field covers it. Otherwise
   `object.metadata.namespace == ""` is answered true without looking at the document.
   */
  lemma FragmentTrustedIff(r: ResourceMeta, raw: Object, fields: seq<string>)
    requires ReadFrom(r, raw, fields)
    ensures
      (forall e :: InFragment(e) && HybridAnswer(e, Rebuilt(r, raw, fields), Some(raw)).Ok? ==>
        HybridAnswer(e, Rebuilt(r, raw, fields), Some(raw)) == FullAnswer(e, raw))
      <==> NamespaceIndexed(raw, fields)
  {
    var rebuilt := Rebuilt(r, raw, fields);
    if NamespaceIndexed(raw, fields) {
      forall e | InFragment(e) && HybridAnswer(e, rebuilt, Some(raw)).Ok?
        ensures HybridAnswer(e, rebuilt, Some(raw)) == FullAnswer(e, raw)
      {
        FragmentIsReliable(e, Map(rebuilt));
        HybridRefinesFull(e, r, raw, fields);
      }
    } else {
      UnkeptNamespaceMisleads(r, raw, fields);
    }
  }

  /**
   When `has(object.a1...an.k)` can be trusted: exactly when the document has no map at
   `object.a1...an`, or the rebuilt object does not start one there (then the document
   is loaded), or the rebuilt object has `k` there just as the document does. The last
   is told from the configured fields: what the document has must be kind, metadata, name
   or namespace, or be read above, at or below; what it lacks must not be the namespace.
   */
  lemma {:induction false} PresenceTrustedIff(r: ResourceMeta, raw: Object, fields: seq<string>, keys: seq<string>, k: string)
    requires ReadFrom(r, raw, fields)
    ensures
      var e := Unary(HasKey(k), Chain(ObjectVar, keys));
      HybridAnswer(e, Rebuilt(r, raw, fields), Some(raw)) == FullAnswer(e, raw) <==>
      PresenceKept(BaseObject(r.kind, r.name, r.namespace), raw, Paths(ReadFields(raw, fields).Keys), keys, k)
  {
    var base, s := BaseObject(r.kind, r.name, r.namespace), Paths(r.indexedFields.Keys);
    var a, b := Presence(Map(Rebuilt(r, raw, fields)), keys, k), Presence(Map(raw), keys, k);
    OverlayPresence(base, raw, s, keys, k);
    EvalPresence(keys, k, Map(Rebuilt(r, raw, fields)));
    EvalPresence(keys, k, Map(raw));
    PresenceIs(Rebuilt(r, raw, fields), keys, k);
    PresenceIs(raw, keys, k);
  }

  /** Without indexed fields no annotations are ever found, even on documents that have them. */
  lemma AnnotationsMissed(r: ResourceMeta, raw: Object)
    requires ReadFrom(r, raw, []) && "annotations" in raw["metadata"].fields
    ensures
      var e := Unary(HasKey("annotations"), Chain(ObjectVar, ["metadata"]));
      HybridAnswer(e, Rebuilt(r, raw, []), Some(raw)) == Ok(false) && FullAnswer(e, raw) == Ok(true)
  {
    var keys, k := ["metadata"], "annotations";
    var o := Rebuilt(r, raw, []);
    assert r.indexedFields.Keys == {} && Paths(r.indexedFields.Keys) == {};
    OverlayNothing(BaseObject(r.kind, r.name, r.namespace), raw);
    assert o == BaseObject(r.kind, r.name, r.namespace);
    assert keys[1..] == [];
    EvalPresence(keys, k, Map(o));
    EvalPresence(keys, k, Map(raw));
    PresenceIs(o, keys, k);
    PresenceIs(raw, keys, k);
  }

  /** A comparison of a number with text, which CEL refuses. */
  const BAD := Binary(Lt, Lit(Num(1)), Lit(Str("a")))

  lemma {:induction false} EvalBad(doc: Value)
    ensures Eval(BAD, doc) == OtherError
  {
    assert Eval(Lit(Num(1)), doc) == Val(Num(1)) && Eval(Lit(Str("a")), doc) == Val(Str("a"));
    assert Apply2(Lt, Num(1), Str("a")) == OtherError;
  }

  lemma EvalKey(o: Object, key: string)
    ensures Eval(Unary(SelectKey(key), ObjectVar), Map(o)) == if key in o then Val(o[key]) else NoSuchKey
  {
    assert Eval(ObjectVar, Map(o)) == Val(Map(o));
  }

  /** An error other than a missing key stops the query even where the full document has an answer. */
  lemma ErrorBeforeMissingKeyIsFinal(rebuilt: Object, raw: Object, key: string)
    requires key !in rebuilt && key in raw && raw[key] == Bool(true)
    ensures
      var key' := Unary(SelectKey(key), ObjectVar);
      && HybridAnswer(Or(BAD, key'), rebuilt, Some(raw)) == Err(EvalError)
      && HybridAnswer(Or(key', BAD), rebuilt, Some(raw)) == Ok(true)
      && FullAnswer(Or(BAD, key'), raw) == Ok(true) && FullAnswer(Or(key', BAD), raw) == Ok(true)
  {
    EvalBad(Map(rebuilt));
    EvalBad(Map(raw));
    EvalKey(rebuilt, key);
    EvalKey(raw, key);
  }

  // ----- Scans -----

  /** The query result: candidates in index order, stopped by the first failure. */
  ghost function HybridScan(
    e: Expr, rs: seq<ResourceMeta>, docs: seq<Object>, fields: seq<string>, f: Filter, disk: Disk
  ): Result<seq<ResourceMeta>, QueryError>
    requires Recorded(rs, docs, fields)
  {
    if rs == [] then Ok([])
    else if !Selected(rs[0], f) then HybridScan(e, rs[1..], docs[1..], fields, f, disk)
    else
      var first := HybridAnswer(e, Rebuilt(rs[0], docs[0], fields), LoadFullDoc(disk, rs[0]));
      Combine(rs[0], first, HybridScan(e, rs[1..], docs[1..], fields, f, disk))
  }

  /** The reference scan, evaluating every candidate on its full document. */
  function FullScan(e: Expr, rs: seq<ResourceMeta>, docs: seq<Object>, f: Filter): Result<seq<ResourceMeta>, QueryError>
    requires |rs| == |docs|
  {
    if rs == [] then Ok([])
    else if !Selected(rs[0], f) then FullScan(e, rs[1..], docs[1..], f)
    else Combine(rs[0], FullAnswer(e, docs[0]), FullScan(e, rs[1..], docs[1..], f))
  }

  /** A scan answers exactly when every selected document gives a value. */
  lemma {:induction false} FullScanAnswersIff(e: Expr, rs: seq<ResourceMeta>, docs: seq<Object>, f: Filter)
    requires |rs| == |docs|
    ensures FullScan(e, rs, docs, f).Ok? <==>
      forall i :: 0 <= i < |rs| && Selected(rs[i], f) ==> Eval(e, Map(docs[i])).Val?
    decreases |rs|
  {
    if rs != [] {
      var rest, restDocs := rs[1..], docs[1..];
      FullScanAnswersIff(e, rest, restDocs, f);
      assert forall i :: 0 < i < |rs| ==> rs[i] == rest[i - 1] && docs[i] == restDocs[i - 1];
      if i :| 0 <= i < |rest| && Selected(rest[i], f) && !Eval(e, Map(restDocs[i])).Val? {
        assert rs[i + 1] == rest[i] && docs[i + 1] == restDocs[i];
      }
    }
  }

  /** It answers with the entries of the selected documents on which the expression is true. */
  lemma {:induction false} FullScanHasIff(e: Expr, rs: seq<ResourceMeta>, docs: seq<Object>, f: Filter, r: ResourceMeta)
    requires |rs| == |docs| && FullScan(e, rs, docs, f).Ok?
    ensures r in FullScan(e, rs, docs, f).value <==>
      exists i :: 0 <= i < |rs| && rs[i] == r && Selected(r, f) && Eval(e, Map(docs[i])).Is(true)
    decreases |rs|
  {
    if rs != [] {
      var rest, restDocs := rs[1..], docs[1..];
      FullScanHasIff(e, rest, restDocs, f, r);
      assert forall i :: 0 < i < |rs| ==> rs[i] == rest[i - 1] && docs[i] == restDocs[i - 1];
      if i :| 0 <= i < |rest| && rest[i] == r && Selected(r, f) && Eval(e, Map(restDocs[i])).Is(true) {
        assert rs[i + 1] == r && docs[i + 1] == restDocs[i];
      }
    }
  }

  function Combine(
    r: ResourceMeta, first: Result<bool, QueryError>, rest: Result<seq<ResourceMeta>, QueryError>
  ): Result<seq<ResourceMeta>, QueryError> {
    if first.Err? then Err(first.error)
    else if rest.Err? then rest
    else Ok((if first.value then [r] else []) + rest.value)
  }

  /** Each entry and its document satisfy a condition. */
  ghost predicate AllPairs(rs: seq<ResourceMeta>, docs: seq<Object>, ok: (ResourceMeta, Object) -> bool) {
    if rs == [] then docs == [] else docs != [] && ok(rs[0], docs[0]) && AllPairs(rs[1..], docs[1..], ok)
  }

  lemma {:induction false} PairsCons(r: ResourceMeta, raw: Object, rs: seq<ResourceMeta>, docs: seq<Object>, ok: (ResourceMeta, Object) -> bool)
    requires ok(r, raw) && AllPairs(rs, docs, ok)
    ensures AllPairs([r] + rs, [raw] + docs, ok)
  {
    var all, allDocs := [r] + rs, [raw] + docs;
    assert all[0] == r && allDocs[0] == raw && all[1..] == rs && allDocs[1..] == docs;
  }

  lemma {:induction false} PairsConcat(
    rs: seq<ResourceMeta>, docs: seq<Object>, rs': seq<ResourceMeta>, docs': seq<Object>, ok: (ResourceMeta, Object) -> bool)
    requires AllPairs(rs, docs, ok) && AllPairs(rs', docs', ok)
    ensures AllPairs(rs + rs', docs + docs', ok)
  {
    if rs == [] {
      assert rs + rs' == rs' && docs + docs' == docs';
    } else {
      var later, laterDocs := rs[1..] + rs', docs[1..] + docs';
      PairsConcat(rs[1..], docs[1..], rs', docs', ok);
      PairsCons(rs[0], docs[0], later, laterDocs, ok);
      assert rs + rs' == [rs[0]] + later && docs + docs' == [docs[0]] + laterDocs;
    }
  }

  ghost function ReadPair(fields: seq<string>): (ResourceMeta, Object) -> bool {
    (r, raw) => ReadFrom(r, raw, fields)
  }

  /** The entries record these documents. */
  ghost predicate Recorded(rs: seq<ResourceMeta>, docs: seq<Object>, fields: seq<string>) {
    AllPairs(rs, docs, ReadPair(fields))
  }

  /** Nothing stands between a candidate's recorded entry and its document. */
  ghost predicate Trustworthy(e: Expr, r: ResourceMeta, raw: Object, fields: seq<string>, disk: Disk)
    requires ReadFrom(r, raw, fields)
  {
    && LoadFullDoc(disk, r) == Some(raw)
    && NamespaceHarmless(e, raw, fields)
    && Reliable(e, Map(Rebuilt(r, raw, fields)))
  }

  ghost function TrustedPair(e: Expr, fields: seq<string>, f: Filter, disk: Disk): (ResourceMeta, Object) -> bool {
    (r, raw) => ReadFrom(r, raw, fields) && (Selected(r, f) ==> Trustworthy(e, r, raw, fields, disk))
  }

  ghost predicate AllTrustworthy(
    e: Expr, rs: seq<ResourceMeta>, docs: seq<Object>, fields: seq<string>, f: Filter, disk: Disk)
  {
    AllPairs(rs, docs, TrustedPair(e, fields, f, disk))
  }

  ghost function SettledPair(e: Expr, fields: seq<string>, f: Filter): (ResourceMeta, Object) -> bool {
    (r, raw) => ReadFrom(r, raw, fields) && (Selected(r, f) ==> Settled(e, Map(Rebuilt(r, raw, fields))))
  }

  /** On no candidate an operand of `&&` or `||` misses a key. */
  ghost predicate AllSettled(e: Expr, rs: seq<ResourceMeta>, docs: seq<Object>, fields: seq<string>, f: Filter) {
    AllPairs(rs, docs, SettledPair(e, fields, f))
  }

  /**
   A query that succeeds returns what a scan of all full documents would; where no
   operand of `&&` or `||` misses a key it always does.
   */
  lemma {:induction false} QueryIsFullScan(
    e: Expr, rs: seq<ResourceMeta>, docs: seq<Object>, fields: seq<string>, f: Filter, disk: Disk)
    requires Recorded(rs, docs, fields) && AllTrustworthy(e, rs, docs, fields, f, disk)
    ensures |rs| == |docs|
    ensures
      var result := HybridScan(e, rs, docs, fields, f, disk);
      && (result.Ok? ==> result == FullScan(e, rs, docs, f))
      && (AllSettled(e, rs, docs, fields, f) ==> result == FullScan(e, rs, docs, f))
    decreases |rs|
  {
    if rs != [] {
      QueryIsFullScan(e, rs[1..], docs[1..], fields, f, disk);
      if Selected(rs[0], f) {
        HybridRefinesFull(e, rs[0], docs[0], fields);
      }
    }
  }

  // ----- Queries on an index just built -----

  function FileEntries(cluster: string, fields: seq<string>, path: string, parts: seq<Value>): seq<ResourceMeta> {
    if parts == [] then []
    else
      var entry := Entry(cluster, fields, path, parts[0]);
      (if entry.Some? then [entry.value] else []) + FileEntries(cluster, fields, path, parts[1..])
  }

  /** The documents the entries of a file are made from. */
  function FileDocs(cluster: string, fields: seq<string>, path: string, parts: seq<Value>): seq<Object> {
    if parts == [] then []
    else
      (if Entry(cluster, fields, path, parts[0]).Some? then [parts[0].fields] else [])
      + FileDocs(cluster, fields, path, parts[1..])
  }

  function Entries(cluster: string, fields: seq<string>, files: seq<(string, seq<Value>)>): seq<ResourceMeta> {
    if files == [] then []
    else FileEntries(cluster, fields, files[0].0, files[0].1) + Entries(cluster, fields, files[1..])
  }

  function Docs(cluster: string, fields: seq<string>, files: seq<(string, seq<Value>)>): seq<Object> {
    if files == [] then []
    else FileDocs(cluster, fields, files[0].0, files[0].1) + Docs(cluster, fields, files[1..])
  }

  /** No document of a file has the identity of an earlier one there; one document a file is the daemon's way. */
  ghost predicate OwnIdentities(cluster: string, fields: seq<string>, path: string, parts: seq<Value>) {
    forall i, j :: 0 <= i < j < |parts| && Entry(cluster, fields, path, parts[j]).Some? ==>
      !SameIdentity(Entry(cluster, fields, path, parts[j]).value, parts[i])
  }

  /** Where the query selects an entry and asks for a namespace, the document has one or an indexed field reaches it. */
  ghost predicate NamespacesHarmless(
    e: Expr, cluster: string, fields: seq<string>, path: string, parts: seq<Value>, f: Filter)
  {
    forall j :: 0 <= j < |parts| ==>
      var entry := Entry(cluster, fields, path, parts[j]);
      entry.Some? && Selected(entry.value, f) ==> NamespaceHarmless(e, parts[j].fields, fields)
  }

  ghost predicate Sound(
    e: Expr, cluster: string, fields: seq<string>, path: string, parts: seq<Value>, f: Filter, disk: Disk)
  {
    && path in disk && disk[path] == parts
    && OwnIdentities(cluster, fields, path, parts) && NamespacesHarmless(e, cluster, fields, path, parts, f)
  }

  lemma {:induction false} TrustworthyOne(
    e: Expr, cluster: string, fields: seq<string>, path: string, parts: seq<Value>, n: nat, f: Filter, disk: Disk)
    requires InFragment(e) && Sound(e, cluster, fields, path, parts, f, disk)
    requires n < |parts| && Entry(cluster, fields, path, parts[n]).Some?
    ensures
      var r := Entry(cluster, fields, path, parts[n]).value;
      ReadPair(fields)(r, parts[n].fields) && TrustedPair(e, fields, f, disk)(r, parts[n].fields)
  {
    var r := Entry(cluster, fields, path, parts[n]).value;
    EntryIsReadFrom(cluster, fields, path, parts[n]);
    LoadFindsOwnDocument(cluster, fields, path, parts, n, r);
    FragmentIsReliable(e, Map(Rebuilt(r, parts[n].fields, fields)));
  }

  lemma {:induction false} FileTrustworthy(
    e: Expr, cluster: string, fields: seq<string>, path: string, parts: seq<Value>, n: nat, f: Filter, disk: Disk)
    requires InFragment(e) && Sound(e, cluster, fields, path, parts, f, disk) && n <= |parts|
    ensures
      var rs, docs := FileEntries(cluster, fields, path, parts[n..]), FileDocs(cluster, fields, path, parts[n..]);
      Recorded(rs, docs, fields) && AllTrustworthy(e, rs, docs, fields, f, disk)
    decreases |parts| - n
  {
    if n < |parts| {
      var rest := parts[n + 1..];
      assert parts[n..][0] == parts[n] && parts[n..][1..] == rest;
      FileTrustworthy(e, cluster, fields, path, parts, n + 1, f, disk);
      var rs, docs := FileEntries(cluster, fields, path, rest), FileDocs(cluster, fields, path, rest);
      var entry := Entry(cluster, fields, path, parts[n]);
      if entry.Some? {
        TrustworthyOne(e, cluster, fields, path, parts, n, f, disk);
        PairsCons(entry.value, parts[n].fields, rs, docs, ReadPair(fields));
        PairsCons(entry.value, parts[n].fields, rs, docs, TrustedPair(e, fields, f, disk));
      } else {
        assert [] + rs == rs && [] + docs == docs;
      }
    }
  }

  lemma {:induction false} BuiltIsTrustworthy(
    e: Expr, cluster: string, fields: seq<string>, files: seq<(string, seq<Value>)>, f: Filter, disk: Disk)
    requires InFragment(e)
    requires forall i :: 0 <= i < |files| ==> Sound(e, cluster, fields, files[i].0, files[i].1, f, disk)
    ensures
      var rs, docs := Entries(cluster, fields, files), Docs(cluster, fields, files);
      Recorded(rs, docs, fields) && AllTrustworthy(e, rs, docs, fields, f, disk)
  {
    if files != [] {
      var (path, parts) := files[0];
      assert parts[0..] == parts && Sound(e, cluster, fields, path, parts, f, disk);
      FileTrustworthy(e, cluster, fields, path, parts, 0, f, disk);
      BuiltIsTrustworthy(e, cluster, fields, files[1..], f, disk);
      var rs, docs := FileEntries(cluster, fields, path, parts), FileDocs(cluster, fields, path, parts);
      var rs', docs' := Entries(cluster, fields, files[1..]), Docs(cluster, fields, files[1..]);
      PairsConcat(rs, docs, rs', docs', ReadPair(fields));
      PairsConcat(rs, docs, rs', docs', TrustedPair(e, fields, f, disk));
    }
  }

  /**
   On an index built from the files still on disk, a query of the fragment that succeeds
   returns what a scan of all full documents would, if it asks for a namespace on
   documents that have one or are indexed by it, and on others for none.
   */
  lemma {:induction false} BuiltQueryIsFullScan(
    e: Expr, cluster: string, fields: seq<string>, files: seq<(string, seq<Value>)>, f: Filter, disk: Disk)
    requires InFragment(e)
    requires forall i :: 0 <= i < |files| ==> Sound(e, cluster, fields, files[i].0, files[i].1, f, disk)
    ensures
      var rs, docs := Entries(cluster, fields, files), Docs(cluster, fields, files);
      && Recorded(rs, docs, fields) && |rs| == |docs|
      && var result := HybridScan(e, rs, docs, fields, f, disk);
         && (result.Ok? ==> result == FullScan(e, rs, docs, f))
         && (AllSettled(e, rs, docs, fields, f) ==> result == FullScan(e, rs, docs, f))
  {
    BuiltIsTrustworthy(e, cluster, fields, files, f, disk);
    QueryIsFullScan(e, Entries(cluster, fields, files), Docs(cluster, fields, files), fields, f, disk);
  }

  ghost function Prepend(done: seq<ResourceMeta>, rest: Result<seq<ResourceMeta>, QueryError>): Result<seq<ResourceMeta>, QueryError> {
    if rest.Err? then rest else Ok(done + rest.value)
  }

  lemma PrependNothing(rest: Result<seq<ResourceMeta>, QueryError>)
    ensures Prepend([], rest) == rest
  {
    assert rest.Ok? ==> [] + rest.value == rest.value;
  }

  lemma PrependOne(done: seq<ResourceMeta>, r: ResourceMeta, b: bool, rest: Result<seq<ResourceMeta>, QueryError>)
    ensures Prepend(done, Combine(r, Ok(b), rest)) == Prepend(if b then done + [r] else done, rest)
  {
    if rest.Ok? {
      assert done + ([r] + rest.value) == done + [r] + rest.value;
      assert [] + rest.value == rest.value;
    }
  }

  /** The loop of Query. */
  method ScanCandidates(
    e: Expr, rs: seq<ResourceMeta>, disk: Disk, f: Filter, ghost docs: seq<Object>, ghost fields: seq<string>
  ) returns (r: Result<seq<ResourceMeta>, QueryError>)
    requires Recorded(rs, docs, fields)
    ensures r == HybridScan(e, rs, docs, fields, f, disk)
  {
    var result: seq<ResourceMeta> := [];
    ghost var whole := HybridScan(e, rs, docs, fields, f, disk);
    ghost var left := docs;
    assert rs[0..] == rs;
    PrependNothing(whole);
    for i := 0 to |rs|
      invariant Recorded(rs[i..], left, fields)
      invariant Prepend(result, HybridScan(e, rs[i..], left, fields, f, disk)) == whole
    {
      assert rs[i..][0] == rs[i] && rs[i..][1..] == rs[i + 1..];
      ghost var raw := left[0];
      left := left[1..];
      if !Selected(rs[i], f) {
        continue;
      }
      var matched := EvalResource(e, rs[i], disk, raw, fields);
      if matched.Err? {
        return Err(matched.error);
      }
      PrependOne(result, rs[i], matched.value, HybridScan(e, rs[i + 1..], left, fields, f, disk));
      if matched.value {
        result := result + [rs[i]];
      }
    }
    assert result + [] == result;
    return Ok(result);
  }

  /** What was found before document `j` of a file, with what is left, is all there is. */
  ghost predicate ParsedUpTo(
    entries: seq<ResourceMeta>, read: seq<Object>, cluster: string, fields: seq<string>, path: string,
    parts: seq<Value>, j: nat)
    requires j <= |parts|
  {
    && Recorded(entries, read, fields)
    && entries + FileEntries(cluster, fields, path, parts[j..]) == FileEntries(cluster, fields, path, parts)
    && read + FileDocs(cluster, fields, path, parts[j..]) == FileDocs(cluster, fields, path, parts)
  }

  lemma MoveOne<T>(done: seq<T>, first: seq<T>, left: seq<T>, whole: seq<T>)
    requires done + (first + left) == whole
    ensures (done + first) + left == whole
  {
  }

  lemma {:induction false} ParseOne(
    entries: seq<ResourceMeta>, read: seq<Object>, cluster: string, fields: seq<string>, path: string,
    parts: seq<Value>, j: nat, found: seq<ResourceMeta>, docs: seq<Object>)
    requires j < |parts| && ParsedUpTo(entries, read, cluster, fields, path, parts, j)
    requires Recorded(found, docs, fields)
    requires FileEntries(cluster, fields, path, parts[j..]) == found + FileEntries(cluster, fields, path, parts[j + 1..])
    requires FileDocs(cluster, fields, path, parts[j..]) == docs + FileDocs(cluster, fields, path, parts[j + 1..])
    ensures ParsedUpTo(entries + found, read + docs, cluster, fields, path, parts, j + 1)
  {
    PairsConcat(entries, read, found, docs, ReadPair(fields));
    MoveOne(entries, found, FileEntries(cluster, fields, path, parts[j + 1..]), FileEntries(cluster, fields, path, parts));
    MoveOne(read, docs, FileDocs(cluster, fields, path, parts[j + 1..]), FileDocs(cluster, fields, path, parts));
  }

  lemma OneRecorded(cluster: string, fields: seq<string>, path: string, doc: Value)
    requires Entry(cluster, fields, path, doc).Some?
    ensures doc.Map? && Recorded([Entry(cluster, fields, path, doc).value], [doc.fields], fields)
  {
    var r := Entry(cluster, fields, path, doc).value;
    EntryIsReadFrom(cluster, fields, path, doc);
    PairsCons(r, doc.fields, [], [], ReadPair(fields));
    assert [r] + [] == [r] && [doc.fields] + [] == [doc.fields];
  }

  method ParseFile(cluster: string, fields: seq<string>, path: string, parts: seq<Value>)
    returns (entries: seq<ResourceMeta>, ghost read: seq<Object>)
    ensures entries == FileEntries(cluster, fields, path, parts) && read == FileDocs(cluster, fields, path, parts)
    ensures Recorded(entries, read, fields)
  {
    entries, read := [], [];
    for j := 0 to |parts|
      invariant ParsedUpTo(entries, read, cluster, fields, path, parts, j)
    {
      var entry := Entry(cluster, fields, path, parts[j]);
      if entry.Some? {
        OneRecorded(cluster, fields, path, parts[j]);
        ParseOne(entries, read, cluster, fields, path, parts, j, [entry.value], [parts[j].fields]);
        entries, read := entries + [entry.value], read + [parts[j].fields];
      } else {
        ParseOne(entries, read, cluster, fields, path, parts, j, [], []);
        assert entries + [] == entries && read + [] == read;
      }
    }
  }

  /** The same for the files of the walk. */
  ghost predicate WalkedUpTo(
    entries: seq<ResourceMeta>, read: seq<Object>, cluster: string, fields: seq<string>,
    files: seq<(string, seq<Value>)>, i: nat)
    requires i <= |files|
  {
    && Recorded(entries, read, fields)
    && entries + Entries(cluster, fields, files[i..]) == Entries(cluster, fields, files)
    && read + Docs(cluster, fields, files[i..]) == Docs(cluster, fields, files)
  }

  lemma {:induction false} WalkOne(
    entries: seq<ResourceMeta>, read: seq<Object>, cluster: string, fields: seq<string>,
    files: seq<(string, seq<Value>)>, i: nat, found: seq<ResourceMeta>, docs: seq<Object>)
    requires i < |files| && WalkedUpTo(entries, read, cluster, fields, files, i)
    requires Recorded(found, docs, fields)
    requires Entries(cluster, fields, files[i..]) == found + Entries(cluster, fields, files[i + 1..])
    requires Docs(cluster, fields, files[i..]) == docs + Docs(cluster, fields, files[i + 1..])
    ensures WalkedUpTo(entries + found, read + docs, cluster, fields, files, i + 1)
  {
    PairsConcat(entries, read, found, docs, ReadPair(fields));
    MoveOne(entries, found, Entries(cluster, fields, files[i + 1..]), Entries(cluster, fields, files));
    MoveOne(read, docs, Docs(cluster, fields, files[i + 1..]), Docs(cluster, fields, files));
  }

  /** The loop of Build. */
  method ParseFiles(cluster: string, fields: seq<string>, files: seq<(string, seq<Value>)>)
    returns (entries: seq<ResourceMeta>, ghost read: seq<Object>)
    ensures entries == Entries(cluster, fields, files) && read == Docs(cluster, fields, files)
    ensures Recorded(entries, read, fields)
  {
    entries, read := [], [];
    for i := 0 to |files|
      invariant WalkedUpTo(entries, read, cluster, fields, files, i)
    {
      var found;
      ghost var docs;
      found, docs := ParseFile(cluster, fields, files[i].0, files[i].1);
      WalkOne(entries, read, cluster, fields, files, i, found, docs);
      entries, read := entries + found, read + docs;
    }
  }

  // ----- The index -----

  /** The index object; `docs` records the documents the entries were read from. */
  class Index {
    const cluster: string
    const fields: seq<string>
    var resources: seq<ResourceMeta>
    ghost var docs: seq<Object>

    ghost predicate Valid()
      reads this
    {
      Recorded(resources, docs, fields)
    }

    constructor (cluster: string, fields: seq<string>)
      ensures Valid() && resources == [] && this.cluster == cluster && this.fields == fields
    {
      this.cluster, this.fields, resources, docs := cluster, fields, [], [];
    }

    /** Walks the files in order; on a walk error the old entries stay. */
    method Build(files: Option<seq<(string, seq<Value>)>>) returns (ok: bool)
      requires Valid()
      modifies this
      ensures Valid() && ok == files.Some?
      ensures ok ==> resources == Entries(cluster, fields, files.value) && docs == Docs(cluster, fields, files.value)
      ensures !ok ==> resources == old(resources) && docs == old(docs)
    {
      if files.None? {
        return false;
      }
      resources, docs := ParseFiles(cluster, fields, files.value);
      return true;
    }

    /** Query without an expression: the metadata filter alone. */
    method List(f: Filter) returns (result: seq<ResourceMeta>)
      ensures result == SelectedOf(resources, f)
    {
      result := [];
      for i := 0 to |resources|
        invariant result + SelectedOf(resources[i..], f) == SelectedOf(resources, f)
      {
        assert resources[i..][1..] == resources[i + 1..];
        if Selected(resources[i], f) {
          result := result + [resources[i]];
        }
      }
    }

    method Query(f: Filter, e: Expr, disk: Disk) returns (r: Result<seq<ResourceMeta>, QueryError>)
      requires Valid()
      ensures r == HybridScan(e, resources, docs, fields, f, disk)
    {
      r := ScanCandidates(e, resources, disk, f, docs, fields);
    }
  }

  /** A document has an entry exactly when it holds a kind and a name. */
  lemma {:induction false} EntryIff(cluster: string, fields: seq<string>, path: string, raw: Object)
    ensures Entry(cluster, fields, path, Map(raw)).Some? <==>
      && (exists kind :: kind != "" && HoldsText(raw, [Field("kind")], kind))
      && (exists name :: name != "" && HoldsText(raw, [Field("metadata"), Field("name")], name))
  {
    StringFieldIs(raw, "kind");
    MetadataTextIs(raw, "name");
    if MetadataOf(raw).Some? {
      StringFieldIs(MetadataOf(raw).value, "name");
      var name := StringField(MetadataOf(raw).value, "name");
      assert name != "" ==> HoldsText(raw, [Field("metadata"), Field("name")], name);
    }
  }

  /** The listing of a built index has the entry of a document exactly when the document fits. */
  lemma {:induction false} ListedIff(
    cluster: string, fields: seq<string>, files: seq<(string, seq<Value>)>, n: nat, j: nat, group: string, rest: string, f: Filter)
    requires n < |files| && j < |files[n].1| && Entry(cluster, fields, files[n].0, files[n].1[j]).Some?
    requires files[n].0 == group + "/" + rest && group != "" && '/' !in group
    ensures files[n].1[j].Map?
    ensures Entry(cluster, fields, files[n].0, files[n].1[j]).value in SelectedOf(Entries(cluster, fields, files), f) <==>
      Fits(files[n].1[j].fields, group, f)
  {
    var r := Entry(cluster, fields, files[n].0, files[n].1[j]).value;
    EntryIsListed(cluster, fields, files, n, j);
    SelectedIff(cluster, fields, files[n].0, files[n].1[j], group, rest, f);
    MemberSelectedIff(Entries(cluster, fields, files), f, r);
  }

  lemma {:induction false} MemberSelectedIff(rs: seq<ResourceMeta>, f: Filter, r: ResourceMeta)
    ensures r in SelectedOf(rs, f) <==> r in rs && Selected(r, f)
  {
    if rs != [] { MemberSelectedIff(rs[1..], f, r); }
  }

  lemma {:induction false} EntryIsListed(cluster: string, fields: seq<string>, files: seq<(string, seq<Value>)>, n: nat, j: nat)
    requires n < |files| && j < |files[n].1| && Entry(cluster, fields, files[n].0, files[n].1[j]).Some?
    ensures Entry(cluster, fields, files[n].0, files[n].1[j]).value in Entries(cluster, fields, files)
    decreases n
  {
    if n == 0 { EntryIsInFile(cluster, fields, files[0].0, files[0].1, j); } else { EntryIsListed(cluster, fields, files[1..], n - 1, j); }
  }

  lemma {:induction false} EntryIsInFile(cluster: string, fields: seq<string>, path: string, docs: seq<Value>, j: nat)
    requires j < |docs| && Entry(cluster, fields, path, docs[j]).Some?
    ensures Entry(cluster, fields, path, docs[j]).value in FileEntries(cluster, fields, path, docs)
    decreases j
  {
    if j > 0 { EntryIsInFile(cluster, fields, path, docs[1..], j - 1); }
  }

  /** Whatever is listed is the entry of some document of some file. */
  lemma {:induction false} ListedIsFromFile(
    cluster: string, fields: seq<string>, files: seq<(string, seq<Value>)>, f: Filter, r: ResourceMeta) returns (n: nat, j: nat)
    requires r in SelectedOf(Entries(cluster, fields, files), f)
    ensures n < |files| && j < |files[n].1| && Entry(cluster, fields, files[n].0, files[n].1[j]) == Some(r)
  {
    MemberSelectedIff(Entries(cluster, fields, files), f, r);
    n, j := FromFile(cluster, fields, files, r);
  }

  lemma {:induction false} FromFile(cluster: string, fields: seq<string>, files: seq<(string, seq<Value>)>, r: ResourceMeta)
    returns (n: nat, j: nat)
    requires r in Entries(cluster, fields, files)
    ensures n < |files| && j < |files[n].1| && Entry(cluster, fields, files[n].0, files[n].1[j]) == Some(r)
  {
    if r in FileEntries(cluster, fields, files[0].0, files[0].1) {
      n := 0;
      j := FromDoc(cluster, fields, files[0].0, files[0].1, r);
    } else {
      n, j := FromFile(cluster, fields, files[1..], r);
      n := n + 1;
    }
  }

  lemma {:induction false} FromDoc(cluster: string, fields: seq<string>, path: string, docs: seq<Value>, r: ResourceMeta)
    returns (j: nat)
    requires r in FileEntries(cluster, fields, path, docs)
    ensures j < |docs| && Entry(cluster, fields, path, docs[j]) == Some(r)
  {
    if Entry(cluster, fields, path, docs[0]) == Some(r) {
      j := 0;
    } else {
      j := FromDoc(cluster, fields, path, docs[1..], r);
      j := j + 1;
    }
  }
}

/**
 The backup daemon: each run lists the cluster, writes the sanitised objects into
 the git worktree, removes obsolete files, and commits and pushes what changed.
 Every git or file system step may fail; failures are choices of the environment.
 */
module Backup {
  import opened Wrappers
  import opened Strings
  import opened Values
  import opened Sanitizer
  import opened Rules
  import opened Layout

  datatype Content = Yaml(doc: Object) | Other(text: string)

  /** The files of a worktree or a commit, by repository path. */
  type Tree = map<string, Content>

  // ----- What a run backs up -----

  datatype ResourceType = ResourceType(group: string, version: string, resource: string, namespaced: bool)

  datatype Item = Item(content: Object, ownerKinds: seq<string>)

  /** A listed resource type; no items when its listing failed. */
  datatype Listed = Listed(rt: ResourceType, items: Option<seq<Item>>)

  /** The configuration, with the compiled exclusion expressions as an oracle. */
  datatype Settings = Settings(cfg: Config, subDir: SubDir, programs: Programs) {
    /** The directory the daemon writes to, within the worktree. */
    function Dir(): string {
      CleanDir(subDir)
    }
  }

  function MetadataString(o: Object, key: string): string {
    if "metadata" in o && o["metadata"].Map? && key in o["metadata"].fields && o["metadata"].fields[key].Str?
    then o["metadata"].fields[key].s else ""
  }

  function TargetOf(rt: ResourceType, o: Object): Target {
    Target(rt.resource, rt.group, MetadataString(o, "namespace"), MetadataString(o, "name"))
  }

  /** Object rules and ownership skip an item; a failing CEL rule keeps it. */
  ghost predicate Skipped(s: Settings, rt: ResourceType, item: Item) {
    var t := TargetOf(rt, item.content);
    || (exists i: nat :: FirstObjectRule(s.cfg.rules, t, i) && s.cfg.rules[i].exclude)
    || (!s.cfg.disableBuiltin && exists e :: e in s.cfg.builtins.owned && t.Named(e.0) && e.1 in item.ownerKinds)
    || CELExclusion(s.cfg.rules, s.programs, t, item.content) == Ok(true)
  }

  /** The built-in table has one entry at most that applies to an object. */
  ghost predicate Unambiguous(cfg: Config) {
    forall t: Target :: t.Key() in cfg.builtins.fields && t.resource in cfg.builtins.fields ==>
      cfg.builtins.fields[t.Key()] == cfg.builtins.fields[t.resource]
  }

  function BuiltinFieldsOf(cfg: Config, t: Target): seq<string> {
    if cfg.disableBuiltin then []
    else if t.Key() in cfg.builtins.fields then cfg.builtins.fields[t.Key()]
    else if t.resource in cfg.builtins.fields then cfg.builtins.fields[t.resource]
    else []
  }

  /** The object as written: every configured and built-in field path removed. */
  function Sanitised(s: Settings, rt: ResourceType, o: Object): Object {
    var t := TargetOf(rt, o);
    DeleteAll(o, FieldsOf(s.cfg.rules, t, AnyLevel) + BuiltinFieldsOf(s.cfg, t))
  }

  /** The identity the path is made from, read after sanitising. */
  function IdOf(rt: ResourceType, o: Object): ResourceId {
    ResourceId(rt.group, rt.version, rt.namespaced,
               if rt.namespaced then MetadataString(o, "namespace") else "",
               rt.resource, MetadataString(o, "name"))
  }

  function FileOf(s: Settings, rt: ResourceType, o: Object): string {
    RepoPath(s.Dir(), ResourcePath(IdOf(rt, o)))
  }

  /** A name that is not empty is the one the document holds, for the rules as for the path. */
  lemma {:induction false} NamesAreRead(rt: ResourceType, o: Object, text: string)
    requires text != ""
    ensures TargetOf(rt, o).name == text <==> HoldsText(o, [Field("metadata"), Field("name")], text)
    ensures TargetOf(rt, o).namespace == text <==> HoldsText(o, [Field("metadata"), Field("namespace")], text)
    ensures IdOf(rt, o).name == text <==> HoldsText(o, [Field("metadata"), Field("name")], text)
    ensures IdOf(rt, o).namespace == text <==> rt.namespaced && HoldsText(o, [Field("metadata"), Field("namespace")], text)
    ensures (IdOf(rt, o).group, IdOf(rt, o).version, IdOf(rt, o).resource) == (rt.group, rt.version, rt.resource)
  {
    MetadataStringIs(o, "name", text);
    MetadataStringIs(o, "namespace", text);
  }

  lemma {:induction false} MetadataStringIs(o: Object, key: string, text: string)
    requires text != ""
    ensures MetadataString(o, key) == text <==> HoldsText(o, [Field("metadata"), Field(key)], text)
  {
    assert [Field("metadata"), Field(key)][1..] == [Field(key)];
    if "metadata" in o { AtOneStep(o["metadata"], Field(key)); }
  }

  /** An object to be written, sanitised, with its resource type. */
  type Entry = (ResourceType, Object)

  ghost function ItemEntries(s: Settings, rt: ResourceType, item: Item): seq<Entry> {
    if Skipped(s, rt, item) then [] else [(rt, Sanitised(s, rt, item.content))]
  }

  ghost function ItemsEntries(s: Settings, rt: ResourceType, items: seq<Item>): seq<Entry> {
    if items == [] then []
    else ItemsEntries(s, rt, items[..|items| - 1]) + ItemEntries(s, rt, items[|items| - 1])
  }

  /** Nothing for an excluded type or a failed listing. */
  ghost function ListedEntries(s: Settings, l: Listed): seq<Entry> {
    if TypeExcluded(s.cfg, Target(l.rt.resource, l.rt.group, "", "")) || l.items.None? then []
    else ItemsEntries(s, l.rt, l.items.value)
  }

  /** The included objects of one run, in the order they are written. */
  ghost function Entries(s: Settings, listing: seq<Listed>): seq<Entry> {
    if listing == [] then []
    else Entries(s, listing[..|listing| - 1]) + ListedEntries(s, listing[|listing| - 1])
  }

  ghost predicate ItemWrites(s: Settings, rt: ResourceType, item: Item, e: Entry) {
    !Skipped(s, rt, item) && e == (rt, Sanitised(s, rt, item.content))
  }

  lemma ItemEntriesIff(s: Settings, rt: ResourceType, item: Item, e: Entry)
    ensures e in ItemEntries(s, rt, item) <==> ItemWrites(s, rt, item, e)
  {
  }

  lemma {:induction false} ItemsEntriesIff(s: Settings, rt: ResourceType, items: seq<Item>, e: Entry)
    ensures e in ItemsEntries(s, rt, items) <==> exists item :: item in items && ItemWrites(s, rt, item, e)
  {
    if items != [] {
      var init, last := items[..|items| - 1], items[|items| - 1];
      ItemsEntriesIff(s, rt, init, e);
      ItemEntriesIff(s, rt, last, e);
      assert ItemsEntries(s, rt, items) == ItemsEntries(s, rt, init) + ItemEntries(s, rt, last);
      assert forall item :: item in items <==> item in init || item == last;
    }
  }

  /** An item of a listed type that no rule excludes, and which is not skipped itself. */
  ghost predicate Included(s: Settings, l: Listed, item: Item) {
    && l.items.Some? && item in l.items.value
    && !TypeExcluded(s.cfg, Target(l.rt.resource, l.rt.group, "", "")) && !Skipped(s, l.rt, item)
  }

  /** The entry is an included item of this type, sanitised. */
  ghost predicate Writes(s: Settings, l: Listed, e: Entry) {
    exists item :: Included(s, l, item) && e == (l.rt, Sanitised(s, l.rt, item.content))
  }

  lemma {:induction false} ListedEntriesIff(s: Settings, l: Listed, e: Entry)
    ensures e in ListedEntries(s, l) <==> Writes(s, l, e)
  {
    if l.items.Some? {
      ItemsEntriesIff(s, l.rt, l.items.value, e);
      assert forall item :: ItemWrites(s, l.rt, item, e) <==> !Skipped(s, l.rt, item) && e == (l.rt, Sanitised(s, l.rt, item.content));
    }
  }

  /** What is written: the included items, sanitised. */
  lemma {:induction false} EntriesIff(s: Settings, listing: seq<Listed>, e: Entry)
    ensures e in Entries(s, listing) <==> exists l :: l in listing && Writes(s, l, e)
  {
    if listing != [] {
      var init, last := listing[..|listing| - 1], listing[|listing| - 1];
      EntriesIff(s, init, e);
      ListedEntriesIff(s, last, e);
      assert forall l :: l in listing <==> l in init || l == last;
    }
  }

  lemma {:induction false} UnconfiguredIncludes(s: Settings, l: Listed, e: Entry)
    requires s.cfg.rules == [] && s.cfg.disableBuiltin
    ensures Writes(s, l, e) <==>
      l.rt == e.0 && l.items.Some? && exists item :: item in l.items.value && item.content == e.1
  {
    forall o ensures Sanitised(s, l.rt, o) == o {}
    forall item ensures !Skipped(s, l.rt, item) {}
    if l.items.Some? {
      if item :| item in l.items.value && item.content == e.1 && l.rt == e.0 { assert Included(s, l, item); }
    }
  }

  /** Without rules and built-in tables every listed object is written, as it is. */
  lemma {:induction false} UnconfiguredWritesAll(s: Settings, listing: seq<Listed>, rt: ResourceType, o: Object)
    requires s.cfg.rules == [] && s.cfg.disableBuiltin
    ensures (rt, o) in Entries(s, listing) <==>
      exists l :: l in listing && l.rt == rt && l.items.Some? && exists item :: item in l.items.value && item.content == o
  {
    EntriesIff(s, listing, (rt, o));
    forall l { UnconfiguredIncludes(s, l, (rt, o)); }
  }

  /** The files of a list of objects; a later object replaces an earlier one in the same file. */
  function TreeOf(s: Settings, es: seq<Entry>): Tree {
    if es == [] then map[]
    else
      var (rt, o) := es[|es| - 1];
      TreeOf(s, es[..|es| - 1])[FileOf(s, rt, o) := Yaml(o)]
  }

  /** The files of one run. */
  ghost function Image(s: Settings, listing: seq<Listed>): Tree {
    TreeOf(s, Entries(s, listing))
  }

  /** A file of the tree holds the last object written to it. */
  lemma {:induction false} TreeOfHolds(s: Settings, es: seq<Entry>, i: nat)
    requires i < |es|
    requires forall j :: i < j < |es| ==> FileOf(s, es[j].0, es[j].1) != FileOf(s, es[i].0, es[i].1)
    ensures
      var p := FileOf(s, es[i].0, es[i].1);
      p in TreeOf(s, es) && TreeOf(s, es)[p] == Yaml(es[i].1)
    decreases |es|
  {
    if i < |es| - 1 {
      TreeOfHolds(s, es[..|es| - 1], i);
    }
  }

  lemma {:induction false} TreeOfComesFrom(s: Settings, es: seq<Entry>, p: string)
    requires p in TreeOf(s, es)
    ensures exists i :: 0 <= i < |es| && p == FileOf(s, es[i].0, es[i].1) && TreeOf(s, es)[p] == Yaml(es[i].1)
    decreases |es|
  {
    var n := |es| - 1;
    if p != FileOf(s, es[n].0, es[n].1) {
      TreeOfComesFrom(s, es[..n], p);
      var i :| 0 <= i < n && p == FileOf(s, es[..n][i].0, es[..n][i].1) && TreeOf(s, es[..n])[p] == Yaml(es[..n][i].1);
      assert es[i] == es[..n][i];
    }
  }

  /** The objects to be written have path-safe names and differ in their identities. */
  ghost predicate WellListed(es: seq<Entry>) {
    && (forall i :: 0 <= i < |es| ==> WellNamed(IdOf(es[i].0, es[i].1)) && es[i].0.group != "core")
    && (forall i, j :: 0 <= i < j < |es| ==> IdOf(es[i].0, es[i].1) != IdOf(es[j].0, es[j].1))
  }

  /** Every included object has a file of its own in the image, and the image has no other file. */
  lemma {:induction false} ImageIsExact(s: Settings, listing: seq<Listed>)
    requires WellListed(Entries(s, listing))
    ensures
      var es := Entries(s, listing);
      && (forall i :: 0 <= i < |es| ==>
            var p := FileOf(s, es[i].0, es[i].1);
            p in Image(s, listing) && Image(s, listing)[p] == Yaml(es[i].1))
      && (forall p :: p in Image(s, listing) ==> exists i :: 0 <= i < |es| && p == FileOf(s, es[i].0, es[i].1))
      && (forall i, j :: 0 <= i < j < |es| ==> FileOf(s, es[i].0, es[i].1) != FileOf(s, es[j].0, es[j].1))
  {
    var es := Entries(s, listing);
    forall i, j | 0 <= i < j < |es| ensures FileOf(s, es[i].0, es[i].1) != FileOf(s, es[j].0, es[j].1) {
      DifferentFiles(s, es[i], es[j]);
    }
    forall i | 0 <= i < |es|
      ensures
        var p := FileOf(s, es[i].0, es[i].1);
        p in Image(s, listing) && Image(s, listing)[p] == Yaml(es[i].1)
    {
      TreeOfHolds(s, es, i);
    }
    forall p | p in Image(s, listing) ensures exists i :: 0 <= i < |es| && p == FileOf(s, es[i].0, es[i].1) {
      TreeOfComesFrom(s, es, p);
    }
  }

  lemma DifferentFiles(s: Settings, a: Entry, b: Entry)
    requires WellNamed(IdOf(a.0, a.1)) && WellNamed(IdOf(b.0, b.1)) && a.0.group != "core" && b.0.group != "core"
    requires IdOf(a.0, a.1) != IdOf(b.0, b.1)
    ensures FileOf(s, a.0, a.1) != FileOf(s, b.0, b.1)
  {
    var x, y := ResourcePath(IdOf(a.0, a.1)), ResourcePath(IdOf(b.0, b.1));
    if x == y {
      LayoutIsInjective(IdOf(a.0, a.1), IdOf(b.0, b.1));
    }
    var n := |DirPrefix(s.Dir())|;
    assert RepoPath(s.Dir(), x)[n..] == x && RepoPath(s.Dir(), y)[n..] == y;
  }

  lemma {:induction false} TreeOfSnoc(s: Settings, start: Tree, es: seq<Entry>, rt: ResourceType, o: Object)
    ensures start + TreeOf(s, es + [(rt, o)]) == (start + TreeOf(s, es))[FileOf(s, rt, o) := Yaml(o)]
    ensures TreeOf(s, es + [(rt, o)]).Keys == TreeOf(s, es).Keys + {FileOf(s, rt, o)}
  {
    assert (es + [(rt, o)])[..|es|] == es;
  }

  lemma {:induction false} ItemsEntriesSnoc(s: Settings, rt: ResourceType, items: seq<Item>, n: nat, done: seq<Entry>)
    requires n < |items|
    ensures done + ItemsEntries(s, rt, items[..n + 1]) == done + ItemsEntries(s, rt, items[..n]) + ItemEntries(s, rt, items[n])
  {
    assert items[..n + 1][..n] == items[..n];
  }

  lemma {:induction false} EntriesSnoc(s: Settings, listing: seq<Listed>, n: nat)
    requires n < |listing|
    ensures Entries(s, listing[..n + 1]) == Entries(s, listing[..n]) + ListedEntries(s, listing[n])
  {
    assert listing[..n + 1][..n] == listing[..n];
  }

  /** A tree whose owned files are exactly the image, and whose other files are those of `t`. */
  function Backed(t: Tree, dir: string, image: Tree): Tree {
    map p | p in t.Keys + image.Keys && (if Owned(dir, p) then p in image else p in t) ::
      if Owned(dir, p) then image[p] else t[p]
  }

  /** File by file: a `.yaml` file below the directory is the image's, every other file stays as it was. */
  lemma {:induction false} BackedFile(t: Tree, dir: string, image: Tree, path: string)
    requires forall p :: p in image ==> Owned(dir, p)
    ensures (exists rel :: path == rel + ".yaml" && (dir == "" || dir + "/" <= path)) ==>
      (path in Backed(t, dir, image) <==> path in image) && (path in image ==> Backed(t, dir, image)[path] == image[path])
    ensures (forall rel :: path != rel + ".yaml") || (dir != "" && !(dir + "/" <= path)) ==>
      (path in Backed(t, dir, image) <==> path in t) && (path in t ==> Backed(t, dir, image)[path] == t[path])
  {
    if HasSuffix(path, ".yaml") { assert path == path[..|path| - 5] + ".yaml"; }
  }

  /** The files that are not the daemon's are the same. */
  ghost predicate SameOutside(dir: string, a: Tree, b: Tree) {
    forall p :: !Owned(dir, p) ==> (p in a <==> p in b) && (p in a ==> a[p] == b[p])
  }

  lemma BackedSameOutside(a: Tree, b: Tree, dir: string, image: Tree)
    requires SameOutside(dir, a, b)
    ensures Backed(a, dir, image) == Backed(b, dir, image)
  {
  }

  lemma FileIsOwned(s: Settings, rt: ResourceType, o: Object)
    ensures Owned(s.Dir(), FileOf(s, rt, o))
  {
    var id := IdOf(rt, o);
    var dir := PathParts(id)[..|PathParts(id)| - 1];
    assert PathParts(id) == dir + [id.name + ".yaml"];
    JoinAppendsToLast(dir, id.name, ".yaml", '/');
    SuffixOfTail(DirPrefix(s.Dir()), ResourcePath(id), ".yaml");
  }

  /** The image lies within the daemon's own files, so a backed tree keeps all other files. */
  lemma {:induction false} TreeOfIsOwned(s: Settings, es: seq<Entry>)
    ensures forall p :: p in TreeOf(s, es) ==> Owned(s.Dir(), p)
  {
    if es != [] {
      TreeOfIsOwned(s, es[..|es| - 1]);
      FileIsOwned(s, es[|es| - 1].0, es[|es| - 1].1);
    }
  }

  /** A tree is left alone by a backup exactly when its owned files are the image already. */
  lemma BackedIsSameIff(t: Tree, dir: string, image: Tree)
    requires forall p :: p in image ==> Owned(dir, p)
    ensures Backed(t, dir, image) == t <==>
      forall p :: Owned(dir, p) ==> (p in t <==> p in image) && (p in t ==> t[p] == image[p])
    ensures Backed(Backed(t, dir, image), dir, image) == Backed(t, dir, image)
  {
    var b := Backed(t, dir, image);
    if b == t {
      forall p | Owned(dir, p) ensures (p in t <==> p in image) && (p in t ==> t[p] == image[p]) {
        assert p in b <==> p in image;
      }
    }
  }

  // ----- Names after sanitising -----

  function MetadataLocation(key: string): seq<Step> {
    [Field("metadata"), Field(key)]
  }

  lemma MetadataStringAt(o: Object, key: string)
    ensures
      var tag := TagAt(Map(o), MetadataLocation(key));
      MetadataString(o, key) == if tag.Some? && tag.value.Scalar? && tag.value.v.Str? then tag.value.v.s else ""
  {
    var loc := MetadataLocation(key);
    assert loc[1..] == [Field(key)];
    if "metadata" in o {
      assert At(Map(o), loc) == At(o["metadata"], [Field(key)]);
      AtOneStep(o["metadata"], Field(key));
    }
  }

  /** Sanitising keeps a name or namespace exactly when no path removes it or what holds it. */
  lemma {:induction false} NameKeptIff(o: Object, paths: seq<string>, key: string)
    ensures MetadataString(DeleteAll(o, paths), key) == MetadataString(o, key) <==>
      MetadataString(o, key) == "" || !exists p :: p in paths && RemovedByPath(p, MetadataLocation(key))
  {
    MetadataStringAt(o, key);
    MetadataStringAt(DeleteAll(o, paths), key);
    DeleteAllLocations(o, paths, MetadataLocation(key));
  }

  ghost predicate RemovesName(s: Settings, rt: ResourceType, o: Object, key: string) {
    exists p :: p in FieldsOf(s.cfg.rules, TargetOf(rt, o), AnyLevel) + BuiltinFieldsOf(s.cfg, TargetOf(rt, o))
      && RemovedByPath(p, MetadataLocation(key))
  }

  /** An object is filed under the identity it was listed with exactly when no field path strips that identity. */
  lemma FiledUnderListedIdentityIff(s: Settings, rt: ResourceType, o: Object)
    ensures IdOf(rt, Sanitised(s, rt, o)) == IdOf(rt, o) <==>
      && (MetadataString(o, "name") == "" || !RemovesName(s, rt, o, "name"))
      && (!rt.namespaced || MetadataString(o, "namespace") == "" || !RemovesName(s, rt, o, "namespace"))
  {
    var paths := FieldsOf(s.cfg.rules, TargetOf(rt, o), AnyLevel) + BuiltinFieldsOf(s.cfg, TargetOf(rt, o));
    NameKeptIff(o, paths, "name");
    NameKeptIff(o, paths, "namespace");
  }

  const STRIP_NAMES := Rule("*", "", "", false, ["metadata.name"], "")

  const CLUSTER_ROLE := ResourceType("rbac.authorization.k8s.io", "v1", "clusterroles", false)

  function RoleNamed(name: string): Object {
    map["metadata" := Map(map["name" := Str(name)])]
  }

  lemma PrintTwo(a: string, b: string)
    requires Plain(a) && Plain(b)
    ensures PrintPath([a, b]) == a + "." + b
  {
    var ps := Styled([a, b]);
    assert ps == [Dotted(a), Dotted(b)] && ps[1..] == [Dotted(b)] && [Dotted(b)][1..] == [];
    assert PrintRest([Dotted(b)]) == "." + b;
  }

  lemma {:induction false} StripsName(m: Object)
    ensures DeleteAll(m, ["metadata.name"]) == DeleteAt(m, ["metadata", "name"])
  {
    var keys := ["metadata", "name"];
    PrintTwo(keys[0], keys[1]);
    assert "metadata" + "." + "name" == "metadata.name";
    PrintedPathScansBack(keys);
  }

  /** With a rule that strips the name, objects of different names are written to one file. */
  lemma StrippedNamesShareFile(s: Settings, a: string, b: string)
    requires s.cfg.rules == [STRIP_NAMES] && s.cfg.disableBuiltin
    ensures
      var x, y := Sanitised(s, CLUSTER_ROLE, RoleNamed(a)), Sanitised(s, CLUSTER_ROLE, RoleNamed(b));
      && IdOf(CLUSTER_ROLE, RoleNamed(a)).name == a && IdOf(CLUSTER_ROLE, x).name == "" && IdOf(CLUSTER_ROLE, y).name == ""
      && FileOf(s, CLUSTER_ROLE, x) == FileOf(s, CLUSTER_ROLE, y)
  {
    forall name ensures IdOf(CLUSTER_ROLE, Sanitised(s, CLUSTER_ROLE, RoleNamed(name))).name == "" {
      var t := TargetOf(CLUSTER_ROLE, RoleNamed(name));
      assert [STRIP_NAMES][1..] == [];
      assert FieldsOf(s.cfg.rules, t, AnyLevel) + BuiltinFieldsOf(s.cfg, t) == ["metadata.name"];
      StripsName(RoleNamed(name));
      assert ["metadata", "name"][1..] == ["name"];
    }
  }

  // ----- The run -----

  datatype Outcome = Pushed | Clean | Failed | Halted

  /** The commits on a branch, newest last. */
  type History = seq<Tree>

  function HeadTree(h: History): Tree {
    if h == [] then map[] else h[|h| - 1]
  }

  /** The tree a commit was made on. */
  function ParentOf(h: History, i: nat): Tree
    requires i < |h|
  {
    if i == 0 then map[] else h[i - 1]
  }

  /** The daemon's files of a commit are the image, and all its other files are its parent's. */
  ghost predicate IsBackup(commit: Tree, parent: Tree, dir: string, image: Tree) {
    && (forall p :: p in image ==> Owned(dir, p))
    && commit == Backed(parent, dir, image)
  }

  /** No author is known for the commits of other writers. */
  function Others(n: nat): (r: seq<Option<Tree>>)
    ensures |r| == n && forall i :: 0 <= i < n ==> r[i] == None
  {
    if n == 0 then [] else Others(n - 1) + [None]
  }

  /** Every commit of the daemon among the first `n` of a branch is a backup on top of its parent. */
  ghost predicate Recorded(h: History, authors: seq<Option<Tree>>, dir: string, n: nat)
    requires n <= |h| == |authors|
  {
    n > 0 ==>
      && Recorded(h, authors, dir, n - 1)
      && (authors[n - 1].Some? ==> IsBackup(h[n - 1], ParentOf(h, n - 1), dir, authors[n - 1].value))
  }

  lemma {:induction false} RecordedAt(h: History, authors: seq<Option<Tree>>, dir: string, n: nat, i: nat)
    requires i < n <= |h| == |authors| && Recorded(h, authors, dir, n) && authors[i].Some?
    ensures IsBackup(h[i], ParentOf(h, i), dir, authors[i].value)
  {
    if i < n - 1 { RecordedAt(h, authors, dir, n - 1, i); }
  }

  /** A backup commit, file by file: the image's `.yaml` files below the directory, and every other file of the commit before. */
  lemma {:induction false} CommitFile(h: History, i: nat, dir: string, image: Tree, path: string)
    requires i < |h| && IsBackup(h[i], ParentOf(h, i), dir, image)
    ensures (exists rel :: path == rel + ".yaml" && (dir == "" || dir + "/" <= path)) ==>
      (path in h[i] <==> path in image) && (path in image ==> h[i][path] == image[path])
    ensures (forall rel :: path != rel + ".yaml") || (dir != "" && !(dir + "/" <= path)) ==>
      if i == 0 then path !in h[i]
      else (path in h[i] <==> path in h[i - 1]) && (path in h[i] ==> h[i][path] == h[i - 1][path])
  {
    BackedFile(ParentOf(h, i), dir, image, path);
  }

  /** More commits behind them do not matter. */
  lemma {:induction false} RecordedExtends(
    h: History, authors: seq<Option<Tree>>, h': History, authors': seq<Option<Tree>>, dir: string, n: nat)
    requires n <= |h| == |authors| && |h'| == |authors'| && h <= h' && authors <= authors'
    requires Recorded(h, authors, dir, n)
    ensures Recorded(h', authors', dir, n)
  {
    if n > 0 { RecordedExtends(h, authors, h', authors', dir, n - 1); }
  }

  lemma {:induction false} RecordedOneMore(
    h: History, authors: seq<Option<Tree>>, dir: string, commit: Tree, author: Option<Tree>)
    requires |h| == |authors| && Recorded(h, authors, dir, |h|)
    requires author.Some? ==> IsBackup(commit, HeadTree(h), dir, author.value)
    ensures Recorded(h + [commit], authors + [author], dir, |h| + 1)
  {
    RecordedExtends(h, authors, h + [commit], authors + [author], dir, |h|);
  }

  lemma {:induction false} RecordedOthers(h: History, authors: seq<Option<Tree>>, dir: string, others: History, n: nat)
    requires |h| == |authors| && Recorded(h, authors, dir, |h|) && n <= |others|
    ensures Recorded(h + others, authors + Others(|others|), dir, |h| + n)
  {
    if n == 0 {
      RecordedExtends(h, authors, h + others, authors + Others(|others|), dir, |h|);
    } else {
      RecordedOthers(h, authors, dir, others, n - 1);
    }
  }

  lemma {:induction false} OthersAreRecorded(h: History, dir: string, n: nat)
    requires n <= |h|
    ensures Recorded(h, Others(|h|), dir, n)
  {
    if n > 0 { OthersAreRecorded(h, dir, n - 1); }
  }

  /** No commit at or after a position is the daemon's. */
  ghost predicate ForeignSince(authors: seq<Option<Tree>>, n: nat) {
    forall i :: n <= i < |authors| ==> authors[i] == None
  }

  /** At most the last commit since a position is the daemon's, and then it was made from this image. */
  ghost predicate OneBackupSince(authors: seq<Option<Tree>>, n: nat, image: Tree) {
    forall i :: n <= i < |authors| && authors[i].Some? ==> i == |authors| - 1 && authors[i].value == image
  }

  lemma OneBackupSinceEarlier(before: seq<Option<Tree>>, authors: seq<Option<Tree>>, n: nat, image: Tree)
    requires ForeignSince(before, n) && before <= authors && OneBackupSince(authors, |before|, image)
    ensures OneBackupSince(authors, n, image)
  {
    assert forall i :: 0 <= i < |before| ==> authors[i] == before[i];
  }

  lemma PrefixTransitive<T>(a: seq<T>, b: seq<T>, c: seq<T>)
    requires a <= b <= c
    ensures a <= c
  {
  }

  /** Some tick that pushed, or failed after its push had landed, made this image. */
  ghost predicate FromTick(s: Settings, listings: seq<seq<Listed>>, outcomes: seq<Outcome>, image: Tree) {
    exists k :: 0 <= k < |outcomes| && k < |listings|
                && (outcomes[k] == Pushed || outcomes[k] == Failed) && image == Image(s, listings[k])
  }

  /** Each commit of the daemon since a position was made by some tick. */
  ghost predicate AllFromTicks(
    s: Settings, listings: seq<seq<Listed>>, outcomes: seq<Outcome>, authors: seq<Option<Tree>>, start: nat)
  {
    forall i :: start <= i < |authors| && authors[i].Some? ==> FromTick(s, listings, outcomes, authors[i].value)
  }

  lemma OneMoreTick(
    s: Settings, listings: seq<seq<Listed>>, outcomes: seq<Outcome>, r: Outcome, before: seq<Option<Tree>>,
    after: seq<Option<Tree>>, start: nat)
    requires AllFromTicks(s, listings, outcomes, before, start) && before <= after
    requires |outcomes| < |listings| && OneBackupSince(after, |before|, Image(s, listings[|outcomes|]))
    requires r == Halted || r == Clean ==> ForeignSince(after, |before|)
    ensures AllFromTicks(s, listings, outcomes + [r], after, start)
  {
    forall i | start <= i < |after| && after[i].Some? ensures FromTick(s, listings, outcomes + [r], after[i].value) {
      if i < |before| {
        assert after[i] == before[i];
      } else {
        assert (outcomes + [r])[|outcomes|] == r && r != Halted && r != Clean;
      }
    }
  }

  /** Writing the image over a tree and dropping the other owned files backs the tree up. */
  lemma WrittenAndCleaned(start: Tree, image: Tree, dir: string)
    requires forall p :: p in image ==> Owned(dir, p)
    ensures (map p | p in start + image && (Owned(dir, p) ==> p in image.Keys) :: (start + image)[p]) == Backed(start, dir, image)
  {
  }

  /** The checks made for one item before it is written. */
  method IsSkipped(s: Settings, rt: ResourceType, item: Item) returns (r: bool)
    ensures r == Skipped(s, rt, item)
  {
    var t := TargetOf(rt, item.content);
    var byRule := IsObjectExcluded(s.cfg, t);
    var byOwner := IsBuiltinObjectExcluded(s.cfg, t, item.ownerKinds);
    if byRule || byOwner {
      return true;
    }
    var excluded := IsCELObjectExcluded(s.cfg, s.programs, t, item.content);
    return excluded == Ok(true);
  }

  /** Resolves the field paths of an object and deletes them from it. */
  method Sanitise(s: Settings, rt: ResourceType, o: Object) returns (r: Object)
    requires Unambiguous(s.cfg)
    ensures r == Sanitised(s, rt, o)
  {
    var t := TargetOf(rt, o);
    var fields := ResolveExcludeFields(s.cfg, t);
    ghost var builtin :| BuiltinFields(s.cfg, t, builtin) && fields == FieldsOf(s.cfg.rules, t, AnyLevel) + builtin;
    assert builtin == BuiltinFieldsOf(s.cfg, t);
    var u := new Unstructured(o);
    u.DeleteFields(fields);
    return u.content;
  }

  class Runner {
    const settings: Settings
    /** The remote branch, which others may extend too. */
    var remote: History
    /** The clone's branch; none when the git client is nil. */
    var local: Option<History>
    var files: Tree
    /** For each commit on the remote, the image the daemon made it from, or nothing for another writer's. */
    ghost var authors: seq<Option<Tree>>

    ghost predicate Valid()
      reads this
    {
      RemoteRecorded() && (local.Some? ==> local.value <= remote && Undisturbed())
    }

    ghost predicate RemoteRecorded()
      reads this`remote, this`authors
    {
      |authors| == |remote| && Recorded(remote, authors, settings.Dir(), |remote|)
    }

    /** The worktree differs from the clone's head in the daemon's own files only. */
    ghost predicate Undisturbed()
      requires local.Some?
      reads this`local, this`files
    {
      SameOutside(settings.Dir(), files, HeadTree(local.value))
    }

    /** Commits on the remote stay where they are. */
    twostate predicate Extended()
      reads this
    {
      old(remote) <= remote && old(authors) <= authors
    }

    constructor (settings: Settings, remote: History)
      ensures Valid() && this.settings == settings && this.remote == remote && local == None
      ensures authors == Others(|remote|)
    {
      OthersAreRecorded(remote, settings.Dir(), |remote|);
      this.settings, this.remote, local, files, authors := settings, remote, None, map[], Others(|remote|);
    }

    /** Another writer may push at any time. */
    method Interfere()
      requires Valid()
      modifies this`remote, this`authors
      ensures Valid() && Extended() && ForeignSince(authors, |old(authors)|)
    {
      if * {
        var others: History :| true;
        RecordedOthers(remote, authors, settings.Dir(), others, |others|);
        remote, authors := remote + others, authors + Others(|others|);
      }
    }

    /** init: clones into a new directory, or leaves no client. */
    method Init() returns (ok: bool)
      requires RemoteRecorded()
      modifies this`local, this`files
      ensures Valid() && ok == local.Some?
      ensures ok ==> local == Some(remote) && files == HeadTree(remote)
      ensures !ok ==> local == None
    {
      if * {
        local := None;
        return false;
      }
      local, files := Some(remote), HeadTree(remote);
      return true;
    }

    /** reset: removes the work directory first, so a failed clone leaves the client nil. */
    method Reset() returns (ok: bool)
      requires RemoteRecorded()
      modifies this`local, this`files
      ensures Valid() && ok == local.Some?
      ensures ok ==> local == Some(remote) && files == HeadTree(remote)
    {
      files, local := map[], None;
      ok := Init();
    }

    /**
     Pull: nothing to do in an unborn clone; otherwise at the remote's head, where the
     daemon's own files may still be those of an earlier failed run.
     */
    method Pull() returns (ok: bool)
      requires Valid() && local.Some?
      modifies this`local, this`files
      ensures ok ==> Valid() && local.Some? && (local == Some(remote) || old(local) == Some([]))
    {
      if local.value == [] {
        return true;
      }
      var left: Tree :| true;
      if * {
        files := left;
        return false;
      }
      local, files := Some(remote), Backed(HeadTree(remote), settings.Dir(), left);
      return true;
    }

    /** WriteSingle: the file is rewritten unless its content is already the same. */
    method WriteSingle(path: string, doc: Object) returns (ok: bool)
      requires Owned(settings.Dir(), path)
      modifies this`files
      ensures ok ==> files == old(files)[path := Yaml(doc)]
      ensures SameOutside(settings.Dir(), files, old(files))
    {
      if path in files && files[path] == Yaml(doc) {
        return true;
      }
      if * {
        var left: Content :| true;
        files := files[path := left];
        return false;
      }
      files := files[path := Yaml(doc)];
      return true;
    }

    /** CleanObsolete, in any walk order; a failed removal stops it halfway. */
    method CleanObsolete(currPaths: set<string>) returns (ok: bool)
      modifies this`files
      ensures ok ==> files == map p | p in old(files) && (Owned(settings.Dir(), p) ==> p in currPaths) :: old(files)[p]
      ensures SameOutside(settings.Dir(), files, old(files))
    {
      var todo := files.Keys;
      while todo != {}
        invariant todo <= old(files).Keys
        invariant files == map p | p in old(files) && (p in todo || !Owned(settings.Dir(), p) || p in currPaths) :: old(files)[p]
      {
        if * {
          return false;
        }
        var p :| p in todo;
        todo := todo - {p};
        if Owned(settings.Dir(), p) && p !in currPaths {
          files := files - {p};
        }
      }
      return true;
    }

    /** The worktree is the start with the objects so far written over it, and their paths are noted. */
    ghost predicate Written(start: Tree, done: seq<Entry>, paths: set<string>)
      reads this
    {
      files == start + TreeOf(settings, done) && paths == TreeOf(settings, done).Keys
    }

    /** One item: skipped, or sanitised and written. */
    method WriteItem(rt: ResourceType, item: Item, currPaths: set<string>, ghost start: Tree, ghost done: seq<Entry>)
      returns (ok: bool, paths: set<string>)
      requires Unambiguous(settings.cfg) && Written(start, done, currPaths)
      modifies this`files
      ensures ok ==> Written(start, done + ItemEntries(settings, rt, item), paths)
      ensures SameOutside(settings.Dir(), files, old(files))
    {
      ok, paths := true, currPaths;
      var skipped := IsSkipped(settings, rt, item);
      if skipped {
        assert done + [] == done;
      } else {
        var o := Sanitise(settings, rt, item.content);
        TreeOfSnoc(settings, start, done, rt, o);
        FileIsOwned(settings, rt, o);
        var path := FileOf(settings, rt, o);
        ok := WriteSingle(path, o);
        paths := paths + {path};
      }
    }

    /** The loop over the items of one type. */
    method WriteItems(rt: ResourceType, items: seq<Item>, currPaths: set<string>, ghost start: Tree, ghost done: seq<Entry>)
      returns (ok: bool, paths: set<string>)
      requires Unambiguous(settings.cfg) && Written(start, done, currPaths)
      modifies this`files
      ensures ok ==> Written(start, done + ItemsEntries(settings, rt, items), paths)
      ensures SameOutside(settings.Dir(), files, old(files))
    {
      ok, paths := true, currPaths;
      assert done + [] == done;
      for n := 0 to |items|
        invariant ok && Written(start, done + ItemsEntries(settings, rt, items[..n]), paths)
        invariant SameOutside(settings.Dir(), files, old(files))
      {
        ItemsEntriesSnoc(settings, rt, items, n, done);
        ok, paths := WriteItem(rt, items[n], paths, start, done + ItemsEntries(settings, rt, items[..n]));
        if !ok {
          return;
        }
      }
      assert items[..|items|] == items;
    }

    /** The loop over the listed types; an excluded type or a failed listing is passed over. */
    method WriteListing(listing: seq<Listed>) returns (ok: bool, paths: set<string>)
      requires Unambiguous(settings.cfg)
      modifies this`files
      ensures ok ==> Written(old(files), Entries(settings, listing), paths)
      ensures SameOutside(settings.Dir(), files, old(files))
    {
      ok, paths := true, {};
      assert old(files) + map[] == old(files);
      for n := 0 to |listing|
        invariant ok && Written(old(files), Entries(settings, listing[..n]), paths)
        invariant SameOutside(settings.Dir(), files, old(files))
      {
        var l := listing[n];
        ghost var sofar := Entries(settings, listing[..n]);
        EntriesSnoc(settings, listing, n);
        assert sofar + [] == sofar;
        var excluded := IsExcluded(settings.cfg, Target(l.rt.resource, l.rt.group, "", ""));
        if excluded || l.items.None? {
          continue;
        }
        ok, paths := WriteItems(l.rt, l.items.value, paths, old(files), sofar);
        if !ok {
          return;
        }
      }
      assert listing[..|listing|] == listing;
    }

    /** Writes the image and removes obsolete files; a failure leaves the daemon's own files half done. */
    method WriteBackup(listing: seq<Listed>) returns (ok: bool)
      requires Unambiguous(settings.cfg)
      modifies this`files
      ensures ok ==> files == Backed(old(files), settings.Dir(), Image(settings, listing))
      ensures forall p :: p in Image(settings, listing) ==> Owned(settings.Dir(), p)
      ensures SameOutside(settings.Dir(), files, old(files))
    {
      TreeOfIsOwned(settings, Entries(settings, listing));
      var paths;
      ok, paths := WriteListing(listing);
      if ok {
        WrittenAndCleaned(old(files), Image(settings, listing), settings.Dir());
        ok := CleanObsolete(paths);
      }
    }

    /** Pulls, or clones anew when that fails. */
    method Refresh() returns (ok: bool)
      requires Valid() && local.Some?
      modifies this
      ensures Valid() && Extended() && ForeignSince(authors, |old(authors)|)
      ensures ok ==> local.Some?
    {
      Interfere();
      ok := Pull();
      if !ok {
        ok := Reset();
      }
    }

    /**
     Commits the worktree and pushes it. The push needs the remote to be where the clone
     left it; it may fail there, and an error may also be reported for a push that landed.
     */
    method CommitAndPush(ghost image: Tree) returns (ok: bool)
      requires RemoteRecorded() && local.Some? && IsBackup(files, HeadTree(local.value), settings.Dir(), image)
      modifies this`local, this`remote, this`authors
      ensures RemoteRecorded() && Extended() && OneBackupSince(authors, |old(authors)|, image)
      ensures ok ==> Valid() && remote == old(remote) + [files] && local == Some(remote)
      ensures ok ==> authors == old(authors) + [Some(image)]
      ensures remote == old(remote) || (remote == old(remote) + [files] && old(remote) == old(local.value))
    {
      var parent := local.value;
      if * {
        return false;
      }
      local := Some(parent + [files]);
      if remote != parent {
        return false;
      }
      if * {
        return false;
      }
      RecordedOneMore(remote, authors, settings.Dir(), files, Some(image));
      remote, authors := local.value, authors + [Some(image)];
      ok := *;
    }

    /** One tick, from whatever state the earlier ones left. */
    method RunOnce(listing: seq<Listed>) returns (r: Outcome)
      requires Valid() && Unambiguous(settings.cfg)
      modifies this
      ensures Valid() && Extended() && OneBackupSince(authors, |old(authors)|, Image(settings, listing))
      ensures r == Halted <==> old(local).None?
      ensures r == Halted ==> remote == old(remote) && local == None && files == old(files)
      ensures r == Pushed ==>
        && local == Some(remote) && |remote| > |old(remote)|
        && IsBackup(remote[|remote| - 1], ParentOf(remote, |remote| - 1), settings.Dir(), Image(settings, listing))
      ensures r == Halted || r == Clean ==> ForeignSince(authors, |old(authors)|)
      ensures r == Clean ==>
        && local.Some? && HeadTree(local.value) == files
        && IsBackup(files, files, settings.Dir(), Image(settings, listing))
    {
      if local.None? {
        return Halted;
      }
      r := Attempt(listing);
      if r == Pushed { RecordedAt(remote, authors, settings.Dir(), |remote|, |remote| - 1); }
    }

    /** A tick with a client. */
    method Attempt(listing: seq<Listed>) returns (r: Outcome)
      requires Valid() && local.Some? && Unambiguous(settings.cfg)
      modifies this
      ensures r != Halted
      ensures Valid() && Extended() && OneBackupSince(authors, |old(authors)|, Image(settings, listing))
      ensures r == Pushed ==>
        && local == Some(remote) && |authors| > |old(authors)|
        && authors[|authors| - 1] == Some(Image(settings, listing))
      ensures r == Clean ==> ForeignSince(authors, |old(authors)|)
      ensures r == Clean ==>
        && local.Some? && HeadTree(local.value) == files
        && IsBackup(files, files, settings.Dir(), Image(settings, listing))
    {
      var ready := Refresh();
      ghost var before, pulled := authors, remote;
      if !ready {
        return Failed;
      }
      r := BackUp(listing);
      PrefixTransitive(old(remote), pulled, remote);
      PrefixTransitive(old(authors), before, authors);
      OneBackupSinceEarlier(before, authors, |old(authors)|, Image(settings, listing));
    }

    /** The rest of the tick, in an up-to-date clone. */
    method BackUp(listing: seq<Listed>) returns (r: Outcome)
      requires Valid() && local.Some? && Unambiguous(settings.cfg)
      modifies this
      ensures r != Halted
      ensures Valid() && Extended() && OneBackupSince(authors, |old(authors)|, Image(settings, listing))
      ensures r == Pushed ==>
        && local == Some(remote) && |authors| > |old(authors)|
        && authors[|authors| - 1] == Some(Image(settings, listing))
      ensures r == Clean ==>
        && authors == old(authors) && local.Some? && HeadTree(local.value) == files
        && IsBackup(files, files, settings.Dir(), Image(settings, listing))
    {
      ghost var head, image := HeadTree(local.value), Image(settings, listing);
      BackedSameOutside(files, head, settings.Dir(), image);
      var written := WriteBackup(listing);
      if !written {
        return Failed;
      }
      assert IsBackup(files, head, settings.Dir(), image);
      if * {
        return Failed;
      }
      if files == HeadTree(local.value) {
        return Clean;
      }
      Interfere();
      var pushed := CommitAndPush(image);
      if pushed {
        return Pushed;
      }
      var _ := Reset();
      return Failed;
    }

    /** The ticks, one after another. */
    method Ticks(listings: seq<seq<Listed>>) returns (outcomes: seq<Outcome>)
      requires Valid() && Unambiguous(settings.cfg)
      modifies this
      ensures Valid() && Extended()
      ensures |outcomes| <= |listings|
      ensures forall i :: 0 <= i < |outcomes| ==> (outcomes[i] == Halted ==> i == |outcomes| - 1)
      ensures |outcomes| < |listings| ==> outcomes != [] && outcomes[|outcomes| - 1] == Halted
      ensures AllFromTicks(settings, listings, outcomes, authors, |old(authors)|)
    {
      outcomes := [];
      for n := 0 to |listings|
        invariant Valid() && Extended()
        invariant |outcomes| == n && Halted !in outcomes
        invariant AllFromTicks(settings, listings, outcomes, authors, |old(authors)|)
      {
        ghost var before, pulled := authors, remote;
        var r := RunOnce(listings[n]);
        PrefixTransitive(old(remote), pulled, remote);
        PrefixTransitive(old(authors), before, authors);
        OneMoreTick(settings, listings, outcomes, r, before, authors, |old(authors)|);
        outcomes := outcomes + [r];
        if r == Halted {
          return;
        }
      }
    }

    /**
     The daemon over any sequence of ticks: it stops for good at the first tick without a
     client, and every commit it adds is the backup of one tick's listing on its parent.
     */
    method Daemon(listings: seq<seq<Listed>>) returns (outcomes: seq<Outcome>)
      requires Valid() && Unambiguous(settings.cfg)
      modifies this
      ensures Valid() && Extended()
      ensures |outcomes| <= |listings|
      ensures forall i :: 0 <= i < |outcomes| ==> (outcomes[i] == Halted ==> i == |outcomes| - 1)
      ensures |outcomes| < |listings| ==> outcomes != [] && outcomes[|outcomes| - 1] == Halted
      ensures |authors| == |remote|
      ensures forall i :: |old(authors)| <= i < |authors| && authors[i].Some? ==>
        && IsBackup(remote[i], ParentOf(remote, i), settings.Dir(), authors[i].value)
        && FromTick(settings, listings, outcomes, authors[i].value)
    {
      outcomes := Ticks(listings);
      forall i | 0 <= i < |authors| && authors[i].Some?
        ensures IsBackup(remote[i], ParentOf(remote, i), settings.Dir(), authors[i].value)
      {
        RecordedAt(remote, authors, settings.Dir(), |remote|, i);
      }
    }
  }
}

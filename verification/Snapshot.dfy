/**
 Two ways to list the resources of a commit the daemon wrote: the live index of its
 checkout, and the historical walk over its git tree.
 */
module Snapshot {
  import opened Wrappers
  import opened Strings
  import opened Values
  import opened Layout
  import Backup
  import Index
  import ObjectMap

  /** What both listings say of a resource. */
  datatype Row = Row(
    cluster: string,
    group: string,
    kind: string,
    namespace: string,
    name: string,
    labels: map<string, string>,
    creationTimestamp: string
  )

  /** The filters the two listings share; empty means any. */
  datatype Filter = Filter(group: string, kind: string, namespace: string, name: string)

  // ----- The historical walk -----

  /** One file of the tree: the group, namespace and name of its path and the kind of its content. */
  function HistoricalRow(cluster: string, subDir: string, path: string, content: Backup.Content, f: Filter): Option<Row> {
    var prefix := DirPrefix(subDir);
    if !HasSuffix(path, ".yaml") || !HasPrefix(path, prefix) then None
    else
      var parsed := ParseResourcePath(path[|prefix|..]);
      if parsed.None? then None
      else
        var p := parsed.value;
        if (f.group != "" && !EqualFold(p.group, f.group)) || (f.namespace != "" && p.namespace != f.namespace)
           || (f.name != "" && p.name != f.name) || !content.Yaml? then None
        else
          var kind := ObjectMap.StringField(content.doc, "kind");
          if kind == "" || (f.kind != "" && !EqualFold(kind, f.kind)) then None
          else
            Some(Row(cluster, p.group, kind, p.namespace, p.name, LabelsIn(content.doc),
                     Backup.MetadataString(content.doc, "creationTimestamp")))
  }

  function LabelsIn(o: Object): map<string, string> {
    var meta := Index.MetadataOf(o);
    if meta.Some? then Index.LabelsOf(meta.value) else map[]
  }

  /** The rows of some files, for those that have one. */
  function Rows(paths: seq<string>, row: string -> Option<Row>): seq<Row> {
    if paths == [] then [] else Listed(row(paths[0])) + Rows(paths[1..], row)
  }

  function Listed(r: Option<Row>): seq<Row> {
    if r.Some? then [r.value] else []
  }

  function HistoricalRowIn(tree: Backup.Tree, cluster: string, subDir: string, f: Filter): string -> Option<Row> {
    path => if path in tree then HistoricalRow(cluster, subDir, path, tree[path], f) else None
  }

  /** resourcesAtCommit: the walk over the files of the tree, in git's order. */
  method ResourcesAtCommit(tree: Backup.Tree, walk: seq<string>, cluster: string, subDir: string, f: Filter)
    returns (results: seq<Row>)
    requires forall p :: p in walk ==> p in tree
    ensures results == Rows(walk, HistoricalRowIn(tree, cluster, subDir, f))
  {
    results := CollectRows(walk, HistoricalRowIn(tree, cluster, subDir, f));
  }

  method CollectRows(walk: seq<string>, row: string -> Option<Row>) returns (results: seq<Row>)
    ensures results == Rows(walk, row)
  {
    results := [];
    for i := 0 to |walk|
      invariant results + Rows(walk[i..], row) == Rows(walk, row)
    {
      assert walk[i..][0] == walk[i] && walk[i..][1..] == walk[i + 1..];
      var r := row(walk[i]);
      if r.Some? {
        results := results + [r.value];
      }
    }
  }

  // ----- The live index -----

  /** Build and List on one checked-out file, and the name filter of GetCurrentSnapshot. */
  function LiveRow(cluster: string, fields: seq<string>, rel: string, doc: Value, f: Filter): Option<Row> {
    var entry := Index.Entry(cluster, fields, rel, doc);
    if entry.None? || !Index.Selected(entry.value, Index.Filter(f.group, f.kind, f.namespace, map[]))
       || (f.name != "" && entry.value.name != f.name) then None
    else Some(RowOf(entry.value))
  }

  function RowOf(r: Index.ResourceMeta): Row {
    Row(r.cluster, r.group, r.kind, r.namespace, r.name, r.labels, r.creationTimestamp)
  }

  /** The checkout as the index reads it: each file with its one document, path relative to the directory. */
  function Checkout(tree: Backup.Tree, dir: string, walk: seq<string>): seq<(string, seq<Value>)>
    requires forall p :: p in walk ==> p in tree
  {
    if walk == [] then []
    else [(RelOf(dir, walk[0]), DocsOf(tree[walk[0]]))] + Checkout(tree, dir, walk[1..])
  }

  function RelOf(dir: string, path: string): string {
    if HasPrefix(path, DirPrefix(dir)) then path[|DirPrefix(dir)|..] else path
  }

  function DocsOf(c: Backup.Content): seq<Value> {
    if c.Yaml? then [Map(c.doc)] else []
  }

  /** The filter and name test over the entries of an index. */
  function LiveRows(entries: seq<Index.ResourceMeta>, f: Filter): seq<Row> {
    if entries == [] then []
    else
      (if Index.Selected(entries[0], Index.Filter(f.group, f.kind, f.namespace, map[]))
          && (f.name == "" || entries[0].name == f.name) then [RowOf(entries[0])] else [])
      + LiveRows(entries[1..], f)
  }

  function LiveRowIn(tree: Backup.Tree, cluster: string, fields: seq<string>, dir: string, f: Filter): string -> Option<Row> {
    path =>
      if path in tree && tree[path].Yaml? then LiveRow(cluster, fields, RelOf(dir, path), Map(tree[path].doc), f)
      else None
  }

  lemma {:induction false} LiveRowsConcat(a: seq<Index.ResourceMeta>, b: seq<Index.ResourceMeta>, f: Filter)
    ensures LiveRows(a + b, f) == LiveRows(a, f) + LiveRows(b, f)
  {
    if a == [] {
      assert a + b == b;
    } else {
      assert (a + b)[1..] == a[1..] + b;
      LiveRowsConcat(a[1..], b, f);
    }
  }

  /** Listing the built index is collecting the rows of its files. */
  lemma {:induction false} IndexListsRows(
    tree: Backup.Tree, walk: seq<string>, cluster: string, fields: seq<string>, dir: string, f: Filter)
    requires forall p :: p in walk ==> p in tree
    ensures LiveRows(Index.Entries(cluster, fields, Checkout(tree, dir, walk)), f) ==
            Rows(walk, LiveRowIn(tree, cluster, fields, dir, f))
    decreases |walk|
  {
    if walk != [] {
      var files := Checkout(tree, dir, walk);
      assert files[0] == (RelOf(dir, walk[0]), DocsOf(tree[walk[0]])) && files[1..] == Checkout(tree, dir, walk[1..]);
      var first := Index.FileEntries(cluster, fields, files[0].0, files[0].1);
      OneFileRows(tree, walk[0], cluster, fields, dir, f);
      LiveRowsConcat(first, Index.Entries(cluster, fields, files[1..]), f);
      IndexListsRows(tree, walk[1..], cluster, fields, dir, f);
    }
  }

  lemma {:induction false} OneFileRows(tree: Backup.Tree, path: string, cluster: string, fields: seq<string>, dir: string, f: Filter)
    requires path in tree
    ensures LiveRows(Index.FileEntries(cluster, fields, RelOf(dir, path), DocsOf(tree[path])), f) ==
            var r := LiveRowIn(tree, cluster, fields, dir, f)(path);
            if r.Some? then [r.value] else []
  {
    var docs := DocsOf(tree[path]);
    if docs != [] {
      assert docs[1..] == [];
      var entry := Index.Entry(cluster, fields, RelOf(dir, path), docs[0]);
      if entry.Some? {
        assert [entry.value][1..] == [];
      }
    }
  }

  // ----- The two rows of one file -----

  /** Group and identity as the path carries them. */
  lemma PathCarriesIdentity(dir: string, id: ResourceId)
    requires WellNamed(id)
    ensures
      var path := RepoPath(dir, ResourcePath(id));
      && RelOf(dir, path) == ResourcePath(id) && Index.GroupFromPath(ResourcePath(id)) == id.ApiGroup()
      && HasSuffix(path, ".yaml") && HasPrefix(path, DirPrefix(dir)) && path[|DirPrefix(dir)|..] == ResourcePath(id)
      && ParseResourcePath(ResourcePath(id)) == Some(Identity(id))
  {
    ParseInvertsLayout(id);
    assert forall p :: p in PathParts(id) ==> '/' !in p;
    SplitJoin(PathParts(id), '/');
    SuffixOfTail(DirPrefix(dir), ResourcePath(id), ".yaml");
  }

  /** What either listing says of a document, given the group and namespace it goes by. */
  function RowFor(cluster: string, group: string, namespace: string, o: Object, f: Filter): Option<Row> {
    var kind, name := ObjectMap.StringField(o, "kind"), Backup.MetadataString(o, "name");
    if kind == "" || (f.group != "" && !EqualFold(group, f.group)) || (f.kind != "" && !EqualFold(kind, f.kind))
       || (f.namespace != "" && namespace != f.namespace) || (f.name != "" && name != f.name) then None
    else Some(Row(cluster, group, kind, namespace, name, LabelsIn(o), Backup.MetadataString(o, "creationTimestamp")))
  }

  lemma LiveRowIs(cluster: string, fields: seq<string>, rel: string, o: Object, f: Filter)
    requires Backup.MetadataString(o, "name") != "" && Index.GroupFromPath(rel) != ""
    ensures LiveRow(cluster, fields, rel, Map(o), f) ==
            RowFor(cluster, Index.GroupFromPath(rel), Backup.MetadataString(o, "namespace"), o, f)
  {
  }

  /** The historical walk finds a file of the daemon exactly when the configured directory is spelled cleanly. */
  lemma HistoricalRowIs(cluster: string, subDir: SubDir, id: ResourceId, o: Object, f: Filter)
    requires WellNamed(id) && id.name == Backup.MetadataString(o, "name")
    ensures
      HistoricalRow(cluster, subDir, RepoPath(CleanDir(subDir), ResourcePath(id)), Backup.Yaml(o), f) ==
      if subDir == CleanDir(subDir) then RowFor(cluster, id.ApiGroup(), id.namespace, o, f) else None
  {
    PathCarriesIdentity(CleanDir(subDir), id);
    FilePathIsClean(subDir, id);
    RawPrefixIff(subDir, RepoPath(CleanDir(subDir), ResourcePath(id)));
  }

  /** A cluster-scoped object that carries no namespace, as the API server guarantees. */
  predicate ScopeConsistent(rt: Backup.ResourceType, o: Object) {
    rt.namespaced || Backup.MetadataString(o, "namespace") == ""
  }

  lemma BothRows(s: Backup.Settings, rt: Backup.ResourceType, o: Object, cluster: string, fields: seq<string>, f: Filter)
    requires WellNamed(Backup.IdOf(rt, o))
    ensures
      var path, id := Backup.FileOf(s, rt, o), Backup.IdOf(rt, o);
      && HistoricalRow(cluster, s.subDir, path, Backup.Yaml(o), f) ==
         (if s.subDir == s.Dir() then RowFor(cluster, id.ApiGroup(), id.namespace, o, f) else None)
      && LiveRow(cluster, fields, RelOf(s.Dir(), path), Map(o), f) ==
         RowFor(cluster, id.ApiGroup(), Backup.MetadataString(o, "namespace"), o, f)
  {
    var id := Backup.IdOf(rt, o);
    PathCarriesIdentity(s.Dir(), id);
    HistoricalRowIs(cluster, s.subDir, id, o, f);
    LiveRowIs(cluster, fields, ResourcePath(id), o, f);
  }

  const ANY := Filter("", "", "", "")

  /**
   The two listings agree on a file under every filter exactly when the directory is
   spelled cleanly and scope and namespace go together.
   */
  lemma FileRowsAgreeIff(s: Backup.Settings, rt: Backup.ResourceType, o: Object, cluster: string, fields: seq<string>)
    requires WellNamed(Backup.IdOf(rt, o)) && ObjectMap.StringField(o, "kind") != ""
    ensures
      var path := Backup.FileOf(s, rt, o);
      (forall f :: LiveRow(cluster, fields, RelOf(s.Dir(), path), Map(o), f) ==
                   HistoricalRow(cluster, s.subDir, path, Backup.Yaml(o), f))
      <==> s.subDir == s.Dir() && ScopeConsistent(rt, o)
  {
    var path := Backup.FileOf(s, rt, o);
    forall f ensures s.subDir == s.Dir() && ScopeConsistent(rt, o) ==>
      LiveRow(cluster, fields, RelOf(s.Dir(), path), Map(o), f) ==
      HistoricalRow(cluster, s.subDir, path, Backup.Yaml(o), f)
    {
      BothRows(s, rt, o, cluster, fields, f);
    }
    BothRows(s, rt, o, cluster, fields, ANY);
    if s.subDir != s.Dir() || !ScopeConsistent(rt, o) {
      assert LiveRow(cluster, fields, RelOf(s.Dir(), path), Map(o), ANY) !=
             HistoricalRow(cluster, s.subDir, path, Backup.Yaml(o), ANY);
    }
  }

  /** With a trailing slash in the configuration no file of the daemon is found in history. */
  lemma TrailingSlashHidesHistory(dir: string, id: ResourceId, cluster: string, content: Backup.Content, f: Filter)
    requires PathElement(dir) && WellNamed(id)
    ensures
      var subDir := dir + "/";
      && CleanDir(subDir) == dir
      && HistoricalRow(cluster, subDir, dir + "/" + ResourcePath(id), content, f) == None
  {
    TrailingSlash(dir);
    FilePathIsClean(dir + "/", id);
    RawPrefixIff(dir + "/", RepoPath(dir, ResourcePath(id)));
  }

  // ----- All files -----

  lemma {:induction false} RowsSplit(a: seq<string>, b: seq<string>, row: string -> Option<Row>)
    ensures Rows(a + b, row) == Rows(a, row) + Rows(b, row)
  {
    if a == [] {
      assert a + b == b;
    } else {
      assert (a + b)[0] == a[0] && (a + b)[1..] == a[1..] + b;
      RowsSplit(a[1..], b, row);
    }
  }

  lemma {:induction false} SameRows(a: seq<string>, row: string -> Option<Row>, row': string -> Option<Row>)
    requires forall p :: p in a ==> row(p) == row'(p)
    ensures Rows(a, row) == Rows(a, row')
  {
    if a != [] { SameRows(a[1..], row, row'); }
  }

  /** Every file of b that a walk of a leaves over has no row. */
  predicate RestHasNoRow(a: multiset<string>, b: multiset<string>, row: string -> Option<Row>) {
    a <= b && forall p :: p in b - a ==> row(p) == None
  }

  /** The rows of two walks agree as multisets when the second only adds files without a row. */
  lemma {:induction false} RowsIgnoreOrder(a: seq<string>, b: seq<string>, row: string -> Option<Row>)
    requires RestHasNoRow(multiset(a), multiset(b), row)
    ensures multiset(Rows(a, row)) == multiset(Rows(b, row))
    decreases |b|
  {
    if b == [] {
      assert |multiset(a)| <= |multiset(b)|;
    } else {
      var p, rest := b[0], b[1..];
      assert b == [p] + rest;
      RowsSplit([p], rest, row);
      if p in a {
        var a' := Without(a, p, row);
        RestWithout(multiset(a'), multiset(rest), p, row);
        RowsIgnoreOrder(a', rest, row);
      } else {
        RestLacking(multiset(a), multiset(rest), p, row);
        RowsIgnoreOrder(a, rest, row);
      }
    }
  }

  lemma RestWithout(a: multiset<string>, b: multiset<string>, p: string, row: string -> Option<Row>)
    requires RestHasNoRow(a + multiset{p}, b + multiset{p}, row)
    ensures RestHasNoRow(a, b, row)
  {
    assert b - a == (b + multiset{p}) - (a + multiset{p});
    forall q ensures a[q] <= b[q] {
      assert (a + multiset{p})[q] <= (b + multiset{p})[q];
    }
  }

  lemma RestLacking(a: multiset<string>, b: multiset<string>, p: string, row: string -> Option<Row>)
    requires RestHasNoRow(a, b + multiset{p}, row) && p !in a
    ensures RestHasNoRow(a, b, row) && Rows([p], row) == []
  {
    assert p in (b + multiset{p}) - a;
    forall q ensures a[q] <= b[q] {
      assert a[q] <= (b + multiset{p})[q];
    }
  }

  /** The walk with one visit of p taken out. */
  lemma Without(a: seq<string>, p: string, row: string -> Option<Row>) returns (rest: seq<string>)
    requires p in a
    ensures multiset(a) == multiset(rest) + multiset{p}
    ensures multiset(Rows(a, row)) == multiset(Rows(rest, row)) + multiset(Rows([p], row))
  {
    var i :| 0 <= i < |a| && a[i] == p;
    var before, after := a[..i], a[i + 1..];
    assert a == before + ([p] + after);
    RowsSplit(before, [p] + after, row);
    RowsSplit([p], after, row);
    RowsSplit(before, after, row);
    rest := before + after;
  }

  /** The daemon's files of a tree. */
  function OwnedFiles(tree: Backup.Tree, dir: string): set<string> {
    set p | p in tree && Owned(dir, p)
  }

  /** The walks visit each file once: the live one the daemon's files, the historical one all files. */
  ghost predicate Walks(tree: Backup.Tree, dir: string, live: seq<string>, historical: seq<string>) {
    && multiset(live) == multiset(OwnedFiles(tree, dir))
    && multiset(historical) == multiset(tree.Keys)
  }

  /** The live index and the historical snapshot of a tree list the same. */
  ghost predicate SameListing(
    tree: Backup.Tree, s: Backup.Settings, live: seq<string>, historical: seq<string>, cluster: string,
    fields: seq<string>, f: Filter)
  {
    && (forall p :: p in live ==> p in tree)
    && multiset(LiveRows(Index.Entries(cluster, fields, Checkout(tree, s.Dir(), live)), f)) ==
       multiset(Rows(historical, HistoricalRowIn(tree, cluster, s.subDir, f)))
  }

  lemma LiveVisits(tree: Backup.Tree, dir: string, live: seq<string>, historical: seq<string>)
    requires Walks(tree, dir, live, historical)
    ensures forall p :: p in live <==> p in tree && Owned(dir, p)
    ensures forall p :: p in historical <==> p in tree
  {
    forall p ensures p in live <==> p in tree && Owned(dir, p) {
      assert p in live <==> p in multiset(live);
    }
    forall p ensures p in historical <==> p in tree {
      assert p in historical <==> p in multiset(historical);
    }
  }

  /** What a walk of the daemon's files visits, and what the other walk visits besides. */
  lemma RestIsNotOwned(tree: Backup.Tree, cluster: string, dir: string, live: seq<string>, historical: seq<string>, f: Filter)
    requires Walks(tree, dir, live, historical)
    ensures RestHasNoRow(multiset(live), multiset(historical), HistoricalRowIn(tree, cluster, dir, f))
  {
    var row := HistoricalRowIn(tree, cluster, dir, f);
    assert OwnedFiles(tree, dir) <= tree.Keys;
    forall p | p in multiset(historical) - multiset(live) ensures row(p) == None {
      assert p !in OwnedFiles(tree, dir);
    }
  }

  /** Two walks of a tree list the same when their rows agree on the daemon's files. */
  lemma ListingsAgree(
    tree: Backup.Tree, s: Backup.Settings, live: seq<string>, historical: seq<string>, cluster: string,
    fields: seq<string>, f: Filter)
    requires Walks(tree, s.Dir(), live, historical) && s.subDir == s.Dir()
    requires forall p :: p in tree && Owned(s.Dir(), p) ==>
               LiveRowIn(tree, cluster, fields, s.Dir(), f)(p) == HistoricalRowIn(tree, cluster, s.subDir, f)(p)
    ensures SameListing(tree, s, live, historical, cluster, fields, f)
  {
    var row, row' := LiveRowIn(tree, cluster, fields, s.Dir(), f), HistoricalRowIn(tree, cluster, s.subDir, f);
    LiveVisits(tree, s.Dir(), live, historical);
    RestIsNotOwned(tree, cluster, s.Dir(), live, historical, f);
    IndexListsRows(tree, live, cluster, fields, s.Dir(), f);
    SameRows(live, row, row');
    RowsIgnoreOrder(live, historical, row');
  }

  /** A listing the daemon can file: path-safe names, and scope and namespace go together. */
  ghost predicate Fileable(s: Backup.Settings, listing: seq<Backup.Listed>) {
    var es := Backup.Entries(s, listing);
    Backup.WellListed(es) && forall i :: 0 <= i < |es| ==> ScopeConsistent(es[i].0, es[i].1)
  }

  /** The commit the daemon makes of a listing on top of its parent. */
  ghost function Commit(s: Backup.Settings, parent: Backup.Tree, listing: seq<Backup.Listed>): Backup.Tree {
    Backup.Backed(parent, s.Dir(), Backup.Image(s, listing))
  }

  /**
   For any commit the daemon pushes from a cleanly spelled directory, the historical
   snapshot of the commit and the live index built from its checkout list the same
   resources under the same filters.
   */
  lemma SnapshotsAgree(
    s: Backup.Settings, parent: Backup.Tree, listing: seq<Backup.Listed>,
    live: seq<string>, historical: seq<string>, cluster: string, fields: seq<string>, f: Filter)
    requires Fileable(s, listing) && s.subDir == s.Dir()
    requires Walks(Commit(s, parent, listing), s.Dir(), live, historical)
    ensures SameListing(Commit(s, parent, listing), s, live, historical, cluster, fields, f)
  {
    var tree := Commit(s, parent, listing);
    forall p | p in tree && Owned(s.Dir(), p)
      ensures LiveRowIn(tree, cluster, fields, s.Dir(), f)(p) == HistoricalRowIn(tree, cluster, s.subDir, f)(p)
    {
      OwnedRowsAgree(s, parent, listing, p, cluster, fields, f);
    }
    ListingsAgree(tree, s, live, historical, cluster, fields, f);
  }

  lemma OwnedRowsAgree(
    s: Backup.Settings, parent: Backup.Tree, listing: seq<Backup.Listed>, path: string,
    cluster: string, fields: seq<string>, f: Filter)
    requires Fileable(s, listing) && s.subDir == s.Dir()
    requires path in Commit(s, parent, listing) && Owned(s.Dir(), path)
    ensures
      var tree := Commit(s, parent, listing);
      LiveRowIn(tree, cluster, fields, s.Dir(), f)(path) == HistoricalRowIn(tree, cluster, s.subDir, f)(path)
  {
    var es := Backup.Entries(s, listing);
    Backup.TreeOfComesFrom(s, es, path);
    var i :| 0 <= i < |es| && path == Backup.FileOf(s, es[i].0, es[i].1)
             && Backup.TreeOf(s, es)[path] == Backup.Yaml(es[i].1);
    BothRows(s, es[i].0, es[i].1, cluster, fields, f);
  }

  // ----- When the directory is not spelled cleanly -----

  lemma {:induction false} NoRows(walk: seq<string>, row: string -> Option<Row>)
    requires forall p :: p in walk ==> row(p) == None
    ensures Rows(walk, row) == []
  {
    if walk != [] { NoRows(walk[1..], row); }
  }

  lemma {:induction false} RowIsListed(walk: seq<string>, row: string -> Option<Row>, p: string)
    requires p in walk && row(p).Some?
    ensures Rows(walk, row) != []
  {
    if walk[0] != p { RowIsListed(walk[1..], row, p); }
  }

  /** Then the historical snapshot of any commit is empty: no path git lists starts with that spelling. */
  lemma {:induction false} UncleanHistoryIsEmpty(tree: Backup.Tree, subDir: SubDir, historical: seq<string>, cluster: string, f: Filter)
    requires subDir != CleanDir(subDir) && forall p :: p in historical ==> CleanPath(p)
    ensures Rows(historical, HistoricalRowIn(tree, cluster, subDir, f)) == []
  {
    var row := HistoricalRowIn(tree, cluster, subDir, f);
    forall p | p in historical ensures row(p) == None {
      if HasPrefix(p, DirPrefix(subDir)) && subDir != "" { CleanPrefixIsClean(subDir, p); }
    }
    RootIsClean();
    NoRows(historical, row);
  }

  lemma {:induction false} LiveListsFirst(
    s: Backup.Settings, parent: Backup.Tree, listing: seq<Backup.Listed>,
    live: seq<string>, historical: seq<string>, cluster: string, fields: seq<string>)
    requires Fileable(s, listing) && Backup.Entries(s, listing) != []
    requires ObjectMap.StringField(Backup.Entries(s, listing)[0].1, "kind") != ""
    requires Walks(Commit(s, parent, listing), s.Dir(), live, historical)
    requires forall p :: p in live ==> p in Commit(s, parent, listing)
    ensures LiveRows(Index.Entries(cluster, fields, Checkout(Commit(s, parent, listing), s.Dir(), live)), ANY) != []
  {
    var tree, e := Commit(s, parent, listing), Backup.Entries(s, listing)[0];
    var path, row := Backup.FileOf(s, e.0, e.1), LiveRowIn(tree, cluster, fields, s.Dir(), ANY);
    Backup.ImageIsExact(s, listing);
    Backup.FileIsOwned(s, e.0, e.1);
    LiveVisits(tree, s.Dir(), live, historical);
    BothRows(s, e.0, e.1, cluster, fields, ANY);
    IndexListsRows(tree, live, cluster, fields, s.Dir(), ANY);
    RowIsListed(live, row, path);
  }

  /**
   The two listings of a daemon commit with at least one resource agree under every
   filter exactly when the configured directory is spelled as filepath.Join spells it.
   */
  lemma {:induction false} SnapshotsAgreeIff(
    s: Backup.Settings, parent: Backup.Tree, listing: seq<Backup.Listed>,
    live: seq<string>, historical: seq<string>, cluster: string, fields: seq<string>)
    requires Fileable(s, listing) && Backup.Entries(s, listing) != []
    requires ObjectMap.StringField(Backup.Entries(s, listing)[0].1, "kind") != ""
    requires Walks(Commit(s, parent, listing), s.Dir(), live, historical)
    requires forall p :: p in Commit(s, parent, listing) ==> CleanPath(p)
    ensures (forall f :: SameListing(Commit(s, parent, listing), s, live, historical, cluster, fields, f))
            <==> s.subDir == s.Dir()
  {
    var tree := Commit(s, parent, listing);
    if s.subDir == s.Dir() {
      forall f ensures SameListing(tree, s, live, historical, cluster, fields, f) {
        SnapshotsAgree(s, parent, listing, live, historical, cluster, fields, f);
      }
    } else {
      LiveVisits(tree, s.Dir(), live, historical);
      UncleanHistoryIsEmpty(tree, s.subDir, historical, cluster, ANY);
      LiveListsFirst(s, parent, listing, live, historical, cluster, fields);
      assert !SameListing(tree, s, live, historical, cluster, fields, ANY);
    }
  }
}

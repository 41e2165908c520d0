/** Where the daemon files a resource below the cluster's directory, and how paths are read back. */
module Layout {
  import opened Wrappers
  import opened Strings

  /** A listed object: its resource type, scope and name. */
  datatype ResourceId = ResourceId(
    group: string,
    version: string,
    namespaced: bool,
    namespace: string,
    resource: string,
    name: string
  ) {
    function ApiGroup(): string {
      if group == "" then "core" else group
    }
  }

  datatype ParsedPath = ParsedPath(group: string, version: string, namespace: string, resource: string, name: string)

  function PathParts(id: ResourceId): seq<string> {
    if id.namespaced then [id.ApiGroup(), id.version, "namespaces", id.namespace, id.resource, id.name + ".yaml"]
    else [id.ApiGroup(), id.version, id.resource, id.name + ".yaml"]
  }

  /** The path of a resource, relative to the cluster's directory. */
  function ResourcePath(id: ResourceId): string {
    Join(PathParts(id), '/')
  }

  /** ParseResourcePath: four parts are cluster-scoped, six with `namespaces` are namespaced. */
  function ParseResourcePath(relPath: string): Option<ParsedPath> {
    var parts := Split(TrimSuffix(relPath, ".yaml"), '/');
    if |parts| == 4 then Some(ParsedPath(parts[0], parts[1], "", parts[2], parts[3]))
    else if |parts| == 6 && parts[2] == "namespaces" then
      Some(ParsedPath(parts[0], parts[1], parts[3], parts[4], parts[5]))
    else None
  }

  /** A path element that survives filepath.Join unchanged. */
  predicate PathElement(s: string) {
    s != "" && '/' !in s && s != "." && s != ".."
  }

  // ----- The configured directory -----

  /** The elements filepath.Clean leaves of a path below the work directory. */
  function CleanParts(parts: seq<string>): seq<string> {
    if parts == [] then []
    else
      var cleaned, last := CleanParts(parts[..|parts| - 1]), parts[|parts| - 1];
      if last == "" || last == "." then cleaned
      else if last == ".." then if cleaned == [] then [] else cleaned[..|cleaned| - 1]
      else cleaned + [last]
  }

  /** No `..` climbs above the work directory. */
  predicate StaysInside(parts: seq<string>) {
    parts != [] ==>
      && StaysInside(parts[..|parts| - 1])
      && (parts[|parts| - 1] == ".." ==> CleanParts(parts[..|parts| - 1]) != [])
  }

  /** A configured directory inside the repository; any spelling of it is accepted. */
  type SubDir = s: string | StaysInside(Split(s, '/')) witness ""

  /** The directory as filepath.Join spells it. */
  function CleanDir(subDir: string): string {
    Join(CleanParts(Split(subDir, '/')), '/')
  }

  /** What a path in this directory starts with. */
  function DirPrefix(dir: string): string {
    if dir == "" then "" else dir + "/"
  }

  /** The repository path of a file, given its path below the directory. */
  function RepoPath(dir: string, rel: string): string {
    DirPrefix(dir) + rel
  }

  /** The files the daemon owns: `.yaml` below its directory. */
  predicate Owned(dir: string, path: string) {
    HasSuffix(path, ".yaml") && HasPrefix(path, DirPrefix(dir))
  }

  /** A path as git and the file system spell it. */
  predicate CleanPath(path: string) {
    forall p :: p in Split(path, '/') ==> PathElement(p)
  }

  lemma {:induction false} CleanPartsAreElements(parts: seq<string>)
    requires forall p :: p in parts ==> '/' !in p
    ensures forall p :: p in CleanParts(parts) ==> PathElement(p)
  {
    if parts != [] { CleanPartsAreElements(parts[..|parts| - 1]); }
  }

  lemma {:induction false} ElementsAreClean(parts: seq<string>)
    requires forall p :: p in parts ==> PathElement(p)
    ensures CleanParts(parts) == parts
  {
    if parts != [] {
      ElementsAreClean(parts[..|parts| - 1]);
      assert PathElement(parts[|parts| - 1]);
      assert parts == parts[..|parts| - 1] + [parts[|parts| - 1]];
    }
  }

  /** The cleaned directory is the root, or its elements read back. */
  lemma {:induction false} CleanDirParts(subDir: string)
    ensures
      var parts := CleanParts(Split(subDir, '/'));
      && (forall p :: p in parts ==> PathElement(p))
      && (CleanDir(subDir) == "" <==> parts == [])
      && (parts != [] ==> Split(CleanDir(subDir), '/') == parts)
  {
    SplitHasNoSeparator(subDir, '/');
    var parts := CleanParts(Split(subDir, '/'));
    CleanPartsAreElements(Split(subDir, '/'));
    if parts != [] {
      SplitJoin(parts, '/');
      assert parts[0] in parts;
      assert CleanDir(subDir) == "" ==> Split(CleanDir(subDir), '/') == [""];
    }
  }

  /** A directory whose raw spelling starts a clean path is clean itself. */
  lemma CleanPrefixIsClean(subDir: string, path: string)
    requires CleanPath(path) && HasPrefix(path, subDir + "/")
    ensures CleanDir(subDir) == subDir
  {
    var rest := path[|subDir| + 1..];
    assert path == subDir + ['/'] + rest;
    SplitAppend(subDir, rest, '/');
    assert forall p :: p in Split(subDir, '/') ==> p in Split(path, '/');
    ElementsAreClean(Split(subDir, '/'));
    JoinSplit(subDir, '/');
  }

  lemma RootIsClean()
    ensures CleanDir("") == ""
  {
    assert [""][..0] == [];
  }

  /** Where a clean path lies in the directory, the raw spelling finds it exactly when it is the clean one. */
  lemma RawPrefixIff(subDir: SubDir, path: string)
    requires CleanPath(path) && HasPrefix(path, DirPrefix(CleanDir(subDir)))
    ensures HasPrefix(path, DirPrefix(subDir)) <==> CleanDir(subDir) == subDir
  {
    if HasPrefix(path, DirPrefix(subDir)) {
      if subDir == "" {
        RootIsClean();
      } else {
        CleanPrefixIsClean(subDir, path);
      }
    }
  }

  /** Every file of the daemon has a clean path in its directory. */
  lemma FilePathIsClean(subDir: string, id: ResourceId)
    requires WellNamed(id)
    ensures
      var path := RepoPath(CleanDir(subDir), ResourcePath(id));
      CleanPath(path) && HasPrefix(path, DirPrefix(CleanDir(subDir)))
  {
    var dir, rel, parts := CleanDir(subDir), ResourcePath(id), PathParts(id);
    CleanDirParts(subDir);
    assert forall p :: p in parts ==> PathElement(p) by { assert |id.name + ".yaml"| > 2; }
    SplitJoin(parts, '/');
    if dir != "" {
      assert RepoPath(dir, rel) == dir + ['/'] + rel;
      SplitAppend(dir, rel, '/');
    } else {
      assert RepoPath(dir, rel) == rel;
    }
  }

  lemma CleanIgnoresSlash(dir: string)
    ensures CleanDir(dir + "/") == CleanDir(dir)
  {
    assert dir + "/" == dir + ['/'] + "";
    SplitAppend(dir, "", '/');
    var parts := Split(dir, '/') + [""];
    assert parts[..|parts| - 1] == Split(dir, '/');
  }

  /** A cleaned directory does not end in a slash. */
  lemma LastElementHasNoSlash(dir: string)
    requires dir != "" && CleanPath(dir)
    ensures !HasSuffix(dir, "/")
  {
    var init := dir[..|dir| - 1];
    assert HasSuffix(dir, "/") ==> dir == init + "/";
    assert init + "/" == init + ['/'] + "";
    SplitAppend(init, "", '/');
    assert Split(init + "/", '/')[|Split(init, '/')|] == "" && "" in Split(init + "/", '/');
  }

  /** A trailing slash is cleaned away. */
  lemma {:induction false} TrailingSlash(dir: string)
    requires PathElement(dir)
    ensures StaysInside(Split(dir + "/", '/')) && CleanDir(dir + "/") == dir
  {
    assert dir + "/" == dir + ['/'] + "";
    SplitAppend(dir, "", '/');
    SplitWhole(dir, '/');
    assert [dir, ""][..1] == [dir] && [dir][..0] == [];
    ElementsAreClean([dir]);
    CleanIgnoresSlash(dir);
  }

  lemma SuffixOfTail(a: string, b: string, suffix: string)
    requires HasSuffix(b, suffix)
    ensures HasSuffix(a + b, suffix)
  {
    assert (a + b)[|a + b| - |suffix|..] == b[|b| - |suffix|..];
  }

  lemma {:induction false} JoinOneMore(parts: seq<string>, e: string)
    ensures Join(parts + [e], '/') == if parts == [] then e else Join(parts, '/') + "/" + e
  {
    if parts != [] { JoinAppend(parts, [e], '/'); }
  }

  /** What cleaning does with one more element: an empty one and `.` are dropped, an ordinary one is appended. */
  lemma {:induction false} CleanStep(dir: string, e: string)
    requires '/' !in e
    ensures e == "" || e == "." ==> CleanDir(dir + "/" + e) == CleanDir(dir)
    ensures PathElement(e) ==> CleanDir(dir + "/" + e) == RepoPath(CleanDir(dir), e)
  {
    var cleaned := CleanParts(Split(dir, '/'));
    CleanOneMore(dir, e);
    CleanDirParts(dir);
    JoinOneMore(cleaned, e);
  }

  /** A `..` takes the element before it away. */
  lemma {:induction false} CleanParent(dir: string, e: string, up: string)
    requires PathElement(e) && up == ".."
    ensures CleanDir(dir + "/" + e + "/" + up) == CleanDir(dir)
  {
    var cleaned := CleanParts(Split(dir, '/'));
    CleanOneMore(dir, e);
    CleanOneMore(dir + "/" + e, up);
    assert (cleaned + [e])[..|cleaned|] == cleaned;
  }

  lemma {:induction false} CleanOneMore(dir: string, e: string)
    requires '/' !in e
    ensures Split(dir + "/" + e, '/') == Split(dir, '/') + [e]
    ensures
      var cleaned := CleanParts(Split(dir, '/'));
      CleanParts(Split(dir + "/" + e, '/')) ==
        if e == "" || e == "." then cleaned
        else if e == ".." then (if cleaned == [] then [] else cleaned[..|cleaned| - 1])
        else cleaned + [e]
  {
    assert dir + "/" + e == dir + ['/'] + e;
    SplitAppend(dir, e, '/');
    SplitWhole(e, '/');
    var parts := Split(dir, '/') + [e];
    assert parts[..|parts| - 1] == Split(dir, '/');
  }

  /** Cleaning ends with the first pass. */
  lemma {:induction false} CleanTwice(dir: string)
    ensures CleanDir(CleanDir(dir)) == CleanDir(dir)
  {
    CleanDirParts(dir);
    if CleanDir(dir) == "" { RootIsClean(); } else { ElementsAreClean(CleanParts(Split(dir, '/'))); }
  }

  // ----- Identities -----

  /** Identities the API server hands out; a cluster-scoped object has no namespace. */
  predicate WellNamed(id: ResourceId) {
    && (id.group == "" || PathElement(id.group))
    && PathElement(id.version) && PathElement(id.resource) && PathElement(id.name)
    && (if id.namespaced then PathElement(id.namespace) else id.namespace == "")
  }

  function Identity(id: ResourceId): ParsedPath {
    ParsedPath(id.ApiGroup(), id.version, id.namespace, id.resource, id.name)
  }

  lemma {:induction false} JoinAppendsToLast(parts: seq<string>, last: string, suffix: string, sep: char)
    ensures Join(parts + [last + suffix], sep) == Join(parts + [last], sep) + suffix
    decreases |parts|
  {
    if parts != [] {
      JoinAppendsToLast(parts[1..], last, suffix, sep);
      assert (parts + [last + suffix])[1..] == parts[1..] + [last + suffix];
      assert (parts + [last])[1..] == parts[1..] + [last];
    }
  }

  /** The parts that are left of a path without its ending. */
  lemma {:induction false} StemParts(dir: seq<string>, name: string)
    requires (forall p :: p in dir ==> '/' !in p) && '/' !in name
    ensures
      var path := Join(dir + [name + ".yaml"], '/');
      HasSuffix(path, ".yaml") && Split(TrimSuffix(path, ".yaml"), '/') == dir + [name]
  {
    var stem := Join(dir + [name], '/');
    JoinAppendsToLast(dir, name, ".yaml", '/');
    assert TrimSuffix(stem + ".yaml", ".yaml") == stem;
    SplitJoin(dir + [name], '/');
  }

  lemma ParseFour(group: string, version: string, resource: string, name: string)
    requires '/' !in group && '/' !in version && '/' !in resource && '/' !in name
    ensures
      var path := Join([group, version, resource, name + ".yaml"], '/');
      && HasSuffix(path, ".yaml")
      && ParseResourcePath(path) == Some(ParsedPath(group, version, "", resource, name))
  {
    var dir := [group, version, resource];
    StemParts(dir, name);
    assert dir + [name + ".yaml"] == [group, version, resource, name + ".yaml"];
    assert dir + [name] == [group, version, resource, name];
  }

  lemma ParseSix(group: string, version: string, namespace: string, resource: string, name: string)
    requires '/' !in group && '/' !in version && '/' !in namespace && '/' !in resource && '/' !in name
    ensures
      var path := Join([group, version, "namespaces", namespace, resource, name + ".yaml"], '/');
      && HasSuffix(path, ".yaml")
      && ParseResourcePath(path) == Some(ParsedPath(group, version, namespace, resource, name))
  {
    var dir := [group, version, "namespaces", namespace, resource];
    StemParts(dir, name);
    assert dir + [name + ".yaml"] == [group, version, "namespaces", namespace, resource, name + ".yaml"];
    assert dir + [name] == [group, version, "namespaces", namespace, resource, name];
  }

  /** Reading back the path of any resource gives its identity, whatever its name ends in. */
  lemma ParseInvertsLayout(id: ResourceId)
    requires WellNamed(id)
    ensures HasSuffix(ResourcePath(id), ".yaml")
    ensures ParseResourcePath(ResourcePath(id)) == Some(Identity(id))
  {
    if id.namespaced {
      ParseSix(id.ApiGroup(), id.version, id.namespace, id.resource, id.name);
    } else {
      ParseFour(id.ApiGroup(), id.version, id.resource, id.name);
    }
  }

  lemma {:induction false} JoinFour(a: string, b: string, c: string, d: string)
    ensures Join([a, b, c, d], '/') == a + "/" + b + "/" + c + "/" + d
  {
    JoinOneMore([a, b, c], d);
    JoinOneMore([a, b], c);
    JoinOneMore([a], b);
    assert [a] + [b] == [a, b] && [a, b] + [c] == [a, b, c] && [a, b, c] + [d] == [a, b, c, d];
  }

  lemma {:induction false} JoinSix(a: string, b: string, c: string, d: string, e: string, f: string)
    ensures Join([a, b, c, d, e, f], '/') == a + "/" + b + "/" + c + "/" + d + "/" + e + "/" + f
  {
    JoinOneMore([a, b, c, d, e], f);
    JoinOneMore([a, b, c, d], e);
    JoinFour(a, b, c, d);
    assert [a, b, c, d] + [e] == [a, b, c, d, e] && [a, b, c, d, e] + [f] == [a, b, c, d, e, f];
  }

  /** The path written out: group, version, the namespace of a namespaced object, type and name. */
  lemma {:induction false} PathText(id: ResourceId)
    ensures id.namespaced ==>
      ResourcePath(id) ==
        id.ApiGroup() + "/" + id.version + "/" + "namespaces" + "/" + id.namespace + "/" + id.resource + "/" + (id.name + ".yaml")
    ensures !id.namespaced ==>
      ResourcePath(id) == id.ApiGroup() + "/" + id.version + "/" + id.resource + "/" + (id.name + ".yaml")
    ensures id.ApiGroup() == "core" <==> id.group == "" || id.group == "core"
  {
    var g, word, file := id.ApiGroup(), "namespaces", id.name + ".yaml";
    if id.namespaced {
      JoinSix(g, id.version, word, id.namespace, id.resource, file);
    } else {
      JoinFour(g, id.version, id.resource, file);
    }
  }

  /** The path that a parsed identity stands for. */
  function PathOf(p: ParsedPath): string {
    if p.namespace == "" then Join([p.group, p.version, p.resource, p.name + ".yaml"], '/')
    else Join([p.group, p.version, "namespaces", p.namespace, p.resource, p.name + ".yaml"], '/')
  }

  lemma StemPartsRejoin(relPath: string)
    requires HasSuffix(relPath, ".yaml")
    ensures
      var parts := Split(TrimSuffix(relPath, ".yaml"), '/');
      relPath == Join(parts[..|parts| - 1] + [parts[|parts| - 1] + ".yaml"], '/')
  {
    var stem := TrimSuffix(relPath, ".yaml");
    var parts := Split(stem, '/');
    JoinSplit(stem, '/');
    assert parts == parts[..|parts| - 1] + [parts[|parts| - 1]];
    JoinAppendsToLast(parts[..|parts| - 1], parts[|parts| - 1], ".yaml", '/');
    assert relPath == stem + ".yaml";
  }

  /** Every `.yaml` path that parses is the path of what it parses to, unless its namespace part is empty. */
  lemma LayoutInvertsParse(relPath: string)
    requires HasSuffix(relPath, ".yaml") && ParseResourcePath(relPath).Some?
    requires
      var parts := Split(TrimSuffix(relPath, ".yaml"), '/');
      |parts| == 6 ==> parts[3] != ""
    ensures PathOf(ParseResourcePath(relPath).value) == relPath
  {
    StemPartsRejoin(relPath);
    var parts := Split(TrimSuffix(relPath, ".yaml"), '/');
    var full := parts[..|parts| - 1] + [parts[|parts| - 1] + ".yaml"];
    if |parts| == 4 {
      assert full == [parts[0], parts[1], parts[2], parts[3] + ".yaml"];
    } else {
      assert full == [parts[0], parts[1], "namespaces", parts[3], parts[4], parts[5] + ".yaml"];
    }
  }

  /**
   Two resources share a file exactly when they agree in everything but the spelling
   of the core group.
   */
  lemma SamePathIff(a: ResourceId, b: ResourceId)
    requires WellNamed(a) && WellNamed(b)
    ensures ResourcePath(a) == ResourcePath(b) <==> a.(group := "") == b.(group := "") && a.ApiGroup() == b.ApiGroup()
  {
    ParseInvertsLayout(a);
    ParseInvertsLayout(b);
  }

  /** With no group literally named "core", every resource has a file of its own. */
  lemma LayoutIsInjective(a: ResourceId, b: ResourceId)
    requires WellNamed(a) && WellNamed(b) && a.group != "core" && b.group != "core"
    requires ResourcePath(a) == ResourcePath(b)
    ensures a == b
  {
    SamePathIff(a, b);
  }
}

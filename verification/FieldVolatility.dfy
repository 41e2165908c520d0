/**
 How often each field of a resource changed: the file of each event is looked up in
 its commit, compared with the parent's, and the reported paths are counted.
 */
module FieldVolatility {
  import opened Wrappers
  import opened Strings
  import opened Values
  import opened Layout
  import opened ChangeLog
  import opened ChangeIndex
  import opened ChangeQueries
  import opened FieldDiff

  datatype FieldVolatilityEntry = FieldVolatilityEntry(field: string, count: nat, total: nat)

  /** A file of a commit: its path and its document, if that can be read. */
  datatype File = File(path: string, doc: Option<Object>)

  /** The files of a commit in git's order, and those of its first parent. */
  datatype Commit = Commit(files: seq<File>, parent: Option<seq<File>>)

  type Repo = map<string, Commit>

  // ----- Finding the file -----

  /** The path carries this group, namespace and name; its version and resource type do not matter. */
  predicate Names(path: string, prefix: string, group: string, namespace: string, name: string) {
    && HasSuffix(path, ".yaml") && HasPrefix(path, prefix)
    && var p := ParseResourcePath(path[|prefix|..]);
       p.Some? && EqualFold(p.value.group, group) && p.value.namespace == namespace && p.value.name == name
  }

  /** The first path that passes a test, or none. */
  function FirstWhere(files: seq<File>, test: string -> bool): string {
    if files == [] then "" else if test(files[0].path) then files[0].path else FirstWhere(files[1..], test)
  }

  function FirstNamed(files: seq<File>, prefix: string, group: string, namespace: string, name: string): string {
    FirstWhere(files, path => Names(path, prefix, group, namespace, name))
  }

  method FindResourcePathInCommit(files: seq<File>, prefix: string, group: string, namespace: string, name: string)
    returns (found: string)
    ensures found == FirstNamed(files, prefix, group, namespace, name)
  {
    found := Find(files, path => Names(path, prefix, group, namespace, name));
  }

  /** The walk over the files, ended by the first one that passes. */
  method Find(files: seq<File>, test: string -> bool) returns (found: string)
    ensures found == FirstWhere(files, test)
  {
    for i := 0 to |files|
      invariant FirstWhere(files[i..], test) == FirstWhere(files, test)
    {
      assert files[i..][0] == files[i] && files[i..][1..] == files[i + 1..];
      if test(files[i].path) {
        return files[i].path;
      }
    }
    return "";
  }

  ghost predicate DistinctPaths(files: seq<File>) {
    forall i, j :: 0 <= i < j < |files| ==> files[i].path != files[j].path
  }

  lemma {:induction false} FirstWhereIff(files: seq<File>, k: nat, test: string -> bool)
    requires DistinctPaths(files) && k < |files| && test(files[k].path)
    ensures FirstWhere(files, test) == files[k].path <==> forall i :: 0 <= i < k ==> !test(files[i].path)
  {
    if k > 0 {
      var rest := files[1..];
      assert rest[k - 1] == files[k] && forall i :: 0 < i < |files| ==> files[i] == rest[i - 1];
      FirstWhereIff(rest, k - 1, test);
    }
  }

  predicate Namesakes(a: ResourceId, b: ResourceId) {
    EqualFold(b.ApiGroup(), a.ApiGroup()) && b.namespace == a.namespace && b.name == a.name
  }

  /** Which files below a prefix answer to a resource: all that share its group, namespace and name. */
  lemma NamesakesIff(prefix: string, a: ResourceId, b: ResourceId)
    requires WellNamed(a) && WellNamed(b)
    ensures Names(prefix + ResourcePath(b), prefix, a.ApiGroup(), a.namespace, a.name) <==> Namesakes(a, b)
  {
    ParseInvertsLayout(b);
    SuffixOfTail(prefix, ResourcePath(b), ".yaml");
    assert (prefix + ResourcePath(b))[|prefix|..] == ResourcePath(b);
  }

  /** The files of a commit in order: those of these resources and, where there is none, of other writers. */
  predicate FilesOf(files: seq<File>, ids: seq<Option<ResourceId>>, subDir: SubDir) {
    && |files| == |ids|
    && forall i :: 0 <= i < |ids| ==> FileOf(files[i].path, ids[i], CleanDir(subDir))
  }

  predicate FileOf(path: string, id: Option<ResourceId>, dir: string) {
    if id.Some? then WellNamed(id.value) && path == RepoPath(dir, ResourcePath(id.value))
    else CleanPath(path) && !Owned(dir, path)
  }

  /** A file answers to a resource only if it is the file of a namesake. */
  lemma AnswersIff(path: string, id: Option<ResourceId>, subDir: SubDir, a: ResourceId)
    requires FileOf(path, id, CleanDir(subDir)) && WellNamed(a)
    ensures Names(path, DirPrefix(subDir), a.ApiGroup(), a.namespace, a.name) <==>
      subDir == CleanDir(subDir) && id.Some? && Namesakes(a, id.value)
  {
    if id.Some? {
      FilePathIsClean(subDir, id.value);
      RawPrefixIff(subDir, path);
      NamesakesIff(DirPrefix(CleanDir(subDir)), a, id.value);
    } else if HasPrefix(path, DirPrefix(subDir)) {
      if subDir == "" { RootIsClean(); } else { CleanPrefixIsClean(subDir, path); }
    }
  }

  /**
   The lookup of a resource finds its own file exactly when the configured directory is
   spelled cleanly and no file before it is that of a namesake, such as a config map
   for a service of the same name. Files of other writers do not matter.
   */
  lemma FindsOwnFileIff(files: seq<File>, ids: seq<Option<ResourceId>>, subDir: SubDir, k: nat)
    requires FilesOf(files, ids, subDir) && k < |ids| && ids[k].Some?
    requires DistinctPaths(files)
    ensures
      var id := ids[k].value;
      FirstNamed(files, DirPrefix(subDir), id.ApiGroup(), id.namespace, id.name) == files[k].path <==>
      subDir == CleanDir(subDir) && forall i :: 0 <= i < k && ids[i].Some? ==> !Namesakes(id, ids[i].value)
  {
    var id := ids[k].value;
    var test := path => Names(path, DirPrefix(subDir), id.ApiGroup(), id.namespace, id.name);
    forall i | 0 <= i < |ids|
      ensures test(files[i].path) <==> subDir == CleanDir(subDir) && ids[i].Some? && Namesakes(id, ids[i].value)
    {
      AnswersIff(files[i].path, ids[i], subDir, id);
    }
    assert ResourcePath(id) != "" by { ParseInvertsLayout(id); }
    if subDir == CleanDir(subDir) {
      FirstWhereIff(files, k, test);
    } else {
      FirstWherePasses(files, test);
    }
  }

  function CoreId(resource: string, namespace: string, name: string): ResourceId {
    ResourceId("", "v1", true, namespace, resource, name)
  }

  /** The fields of a service are read from the config map of the same name. */
  lemma ServiceReadsConfigMap(namespace: string, name: string, configMap: Object, service: Object)
    requires PathElement(namespace) && PathElement(name)
    ensures
      var a, b := CoreId("configmaps", namespace, name), CoreId("services", namespace, name);
      var files := [File(ResourcePath(a), Some(configMap)), File(ResourcePath(b), Some(service))];
      && ResourcePath(a) != ResourcePath(b)
      && FirstNamed(files, "", "core", namespace, name) == ResourcePath(a)
  {
    var a, b := CoreId("configmaps", namespace, name), CoreId("services", namespace, name);
    SamePathIff(a, b);
    NamesakesIff("", a, a);
    assert "" + ResourcePath(a) == ResourcePath(a);
    assert Names(ResourcePath(a), "", "core", namespace, name);
  }

  lemma {:induction false} FirstWherePasses(files: seq<File>, test: string -> bool)
    ensures FirstWhere(files, test) == "" || test(FirstWhere(files, test))
  {
    if files != [] { FirstWherePasses(files[1..], test); }
  }

  // ----- Comparing one event -----

  /** What one event contributes: nothing at all, itself to the total, or a comparison too. */
  datatype Comparison = Uncounted | Nothing | Compared(before: Object, after: Object)

  function ContentAt(files: seq<File>, path: string): Option<Object> {
    if files == [] then None
    else if files[0].path == path then files[0].doc
    else ContentAt(files[1..], path)
  }

  function BeforeOf(c: Commit, path: string): Object {
    if c.parent.None? then map[] else ContentAt(c.parent.value, path).GetOr(map[])
  }

  /** A deletion leaves nothing behind; otherwise the file must be readable. */
  function AfterOf(c: Commit, path: string, t: ChangeType): Option<Object> {
    if t == Deleted then Some(map[]) else ContentAt(c.files, path)
  }

  function Compare(repo: Repo, prefix: string, e: ChangeEvent): Comparison {
    if e.sha !in repo then Uncounted
    else
      var c := repo[e.sha];
      var path := FirstNamed(c.files, prefix, e.group, e.namespace, e.name);
      var after := AfterOf(c, path, e.changeType);
      if path == "" || after.None? then Nothing else Compared(BeforeOf(c, path), after.value)
  }

  lemma {:induction false} ContentAtIs(files: seq<File>, k: nat)
    requires DistinctPaths(files) && k < |files|
    ensures ContentAt(files, files[k].path) == files[k].doc
  {
    if k > 0 {
      var rest := files[1..];
      assert rest[k - 1] == files[k] && forall i :: 0 < i < |files| ==> files[i] == rest[i - 1];
      ContentAtIs(rest, k - 1);
    }
  }

  lemma {:induction false} ContentAtNowhere(files: seq<File>, path: string)
    requires forall i :: 0 <= i < |files| ==> files[i].path != path
    ensures ContentAt(files, path).None?
  {
    if files != [] {
      assert forall i :: 0 < i < |files| ==> files[i] == files[1..][i - 1];
      ContentAtNowhere(files[1..], path);
    }
  }

  /**
   An event compares the parent's version of the first file that answers to it with the
   commit's own: nothing before where the parent does not have that path or there is no
   parent, nothing after a deletion, and no comparison where the file cannot be read.
   */
  lemma {:induction false} ComparesWithParent(repo: Repo, prefix: string, e: ChangeEvent, k: nat)
    requires e.sha in repo && k < |repo[e.sha].files| && DistinctPaths(repo[e.sha].files)
    requires repo[e.sha].parent.Some? ==> DistinctPaths(repo[e.sha].parent.value)
    requires forall i :: 0 <= i <= k ==> (Names(repo[e.sha].files[i].path, prefix, e.group, e.namespace, e.name) <==> i == k)
    ensures
      var file, parent, r := repo[e.sha].files[k], repo[e.sha].parent, Compare(repo, prefix, e);
      if e.changeType != Deleted && file.doc.None? then r == Nothing
      else
        && r.Compared?
        && r.after == (if e.changeType == Deleted then map[] else file.doc.value)
        && (parent.None? ==> r.before == map[])
        && (parent.Some? ==>
              && (forall j :: 0 <= j < |parent.value| && parent.value[j].path == file.path ==>
                    r.before == parent.value[j].doc.GetOr(map[]))
              && ((forall j :: 0 <= j < |parent.value| ==> parent.value[j].path != file.path) ==> r.before == map[]))
  {
    var c := repo[e.sha];
    var path := c.files[k].path;
    FirstWhereIff(c.files, k, p => Names(p, prefix, e.group, e.namespace, e.name));
    assert FirstNamed(c.files, prefix, e.group, e.namespace, e.name) == path;
    ContentAtIs(c.files, k);
    if c.parent.Some? {
      var files := c.parent.value;
      if j :| 0 <= j < |files| && files[j].path == path {
        ContentAtIs(files, j);
      } else {
        ContentAtNowhere(files, path);
      }
    }
  }

  // ----- Counting -----

  function EventHits(c: Comparison, field: string): nat {
    if c.Compared? then TimesReported(c.before, c.after, "", field) else 0
  }

  function SumHits(cs: seq<Comparison>, field: string): nat {
    if cs == [] then 0 else EventHits(cs[0], field) + SumHits(cs[1..], field)
  }

  function CountedEvents(cs: seq<Comparison>): nat {
    if cs == [] then 0 else (if cs[0].Uncounted? then 0 else 1) + CountedEvents(cs[1..])
  }

  function Comparisons(repo: Repo, prefix: string, events: seq<ChangeEvent>): (r: seq<Comparison>)
    ensures |r| == |events| && forall i :: 0 <= i < |r| ==> r[i] == Compare(repo, prefix, events[i])
  {
    if events == [] then [] else [Compare(repo, prefix, events[0])] + Comparisons(repo, prefix, events[1..])
  }

  function CountOf(counts: map<string, nat>, field: string): nat {
    if field in counts then counts[field] else 0
  }

  ghost predicate Positive(counts: map<string, nat>) {
    forall f :: f in counts ==> counts[f] > 0
  }

  /** The loop over the changed fields of one event. */
  method AddLines(counts: map<string, nat>, lines: seq<string>) returns (r: map<string, nat>)
    requires Positive(counts)
    ensures Positive(r) && forall f :: CountOf(r, f) == CountOf(counts, f) + multiset(lines)[f]
  {
    r := counts;
    for i := 0 to |lines|
      invariant Positive(r) && forall f :: CountOf(r, f) == CountOf(counts, f) + multiset(lines[..i])[f]
    {
      assert lines[..i + 1] == lines[..i] + [lines[i]];
      r := r[lines[i] := CountOf(r, lines[i]) + 1];
    }
    assert lines[..|lines|] == lines;
  }

  /** The counts hold what the events contributed. */
  ghost predicate Tallied(cs: seq<Comparison>, counts: map<string, nat>, total: nat) {
    && Positive(counts) && (forall f :: CountOf(counts, f) == SumHits(cs, f))
    && total == CountedEvents(cs)
  }

  lemma {:induction false} TallyOne(c: Comparison, cs: seq<Comparison>, f: string)
    ensures SumHits([c] + cs, f) == EventHits(c, f) + SumHits(cs, f)
    ensures CountedEvents([c] + cs) == (if c.Uncounted? then 0 else 1) + CountedEvents(cs)
  {
    assert ([c] + cs)[1..] == cs;
  }

  /** The loop body: one event. */
  method CountEvent(repo: Repo, prefix: string, e: ChangeEvent, counts: map<string, nat>, total: nat, ghost cs: seq<Comparison>)
    returns (counts': map<string, nat>, total': nat)
    requires Tallied(cs, counts, total)
    ensures Tallied([Compare(repo, prefix, e)] + cs, counts', total')
  {
    forall f { TallyOne(Compare(repo, prefix, e), cs, f); }
    counts', total' := counts, total;
    if e.sha !in repo {
      return;
    }
    total' := total + 1;
    var commit := repo[e.sha];
    var path := FindResourcePathInCommit(commit.files, prefix, e.group, e.namespace, e.name);
    if path == "" {
      return;
    }
    var after := AfterOf(commit, path, e.changeType);
    if after.None? {
      return;
    }
    var before := BeforeOf(commit, path);
    var changed;
    ghost var paths;
    changed, paths := DiffFields(before, after.value, "");
    counts' := AddLines(counts, changed);
  }

  function LimitOf(n: nat, maxCommits: int): nat {
    if 0 < maxCommits < n then maxCommits else n
  }

  /** The events examined: as many as the limit allows, from the end of the list. */
  function Examined(events: seq<ChangeEvent>, maxCommits: int): seq<ChangeEvent> {
    events[|events| - LimitOf(|events|, maxCommits)..]
  }

  /** Every field with a change is listed once, with its number of changes and of events examined. */
  ghost predicate Lists(r: seq<FieldVolatilityEntry>, cs: seq<Comparison>) {
    && (forall i, j :: 0 <= i < j < |r| ==> r[i].field != r[j].field)
    && (forall i :: 0 <= i < |r| ==> r[i].count == SumHits(cs, r[i].field) > 0 && r[i].total == CountedEvents(cs))
    && (forall f :: SumHits(cs, f) > 0 ==> exists i :: 0 <= i < |r| && r[i].field == f)
  }

  method FieldVolatilityFromRepo(repo: Repo, events: seq<ChangeEvent>, subDir: string, maxCommits: int)
    returns (r: seq<FieldVolatilityEntry>)
    ensures Lists(r, Comparisons(repo, DirPrefix(subDir), Examined(events, maxCommits)))
  {
    var counts, total := CountExamined(repo, DirPrefix(subDir), events, LimitOf(|events|, maxCommits));
    r := EntriesOf(counts, total);
    EntriesAreListed(Comparisons(repo, DirPrefix(subDir), Examined(events, maxCommits)), counts, total, r);
  }

  /** The loop over the last `limit` events, from the end. */
  method CountExamined(repo: Repo, prefix: string, events: seq<ChangeEvent>, limit: nat)
    returns (counts: map<string, nat>, total: nat)
    requires limit <= |events|
    ensures Tallied(Comparisons(repo, prefix, events[|events| - limit..]), counts, total)
  {
    counts, total := map[], 0;
    assert events[|events|..] == [];
    var i := |events| - 1;
    while i >= |events| - limit
      invariant |events| - limit - 1 <= i < |events|
      invariant Tallied(Comparisons(repo, prefix, events[i + 1..]), counts, total)
    {
      counts, total := CountEvent(repo, prefix, events[i], counts, total, Comparisons(repo, prefix, events[i + 1..]));
      assert events[i..][0] == events[i] && events[i..][1..] == events[i + 1..];
      i := i - 1;
    }
  }

  ghost predicate Holds(r: seq<FieldVolatilityEntry>, counts: map<string, nat>, total: nat, done: set<string>) {
    && (forall i, j :: 0 <= i < j < |r| ==> r[i].field != r[j].field)
    && (forall i :: 0 <= i < |r| ==> r[i].field in done && r[i].field in counts && r[i].count == counts[r[i].field] && r[i].total == total)
    && (forall f :: f in done ==> exists i :: 0 <= i < |r| && r[i].field == f)
  }

  /** The loop that turns the counts into entries, in map iteration order. */
  method EntriesOf(counts: map<string, nat>, total: nat) returns (r: seq<FieldVolatilityEntry>)
    ensures Holds(r, counts, total, counts.Keys)
  {
    r := [];
    var todo := counts.Keys;
    while todo != {}
      invariant todo <= counts.Keys
      invariant Holds(r, counts, total, counts.Keys - todo)
    {
      var f :| f in todo;
      ghost var was := r;
      r := r + [FieldVolatilityEntry(f, counts[f], total)];
      assert counts.Keys - (todo - {f}) - {f} == counts.Keys - todo;
      todo := todo - {f};
      HoldsOneMore(was, counts, total, counts.Keys - todo, f);
    }
    assert counts.Keys - {} == counts.Keys;
  }

  lemma HoldsOneMore(r: seq<FieldVolatilityEntry>, counts: map<string, nat>, total: nat, done: set<string>, f: string)
    requires f in done && f in counts && Holds(r, counts, total, done - {f})
    ensures Holds(r + [FieldVolatilityEntry(f, counts[f], total)], counts, total, done)
  {
    var r' := r + [FieldVolatilityEntry(f, counts[f], total)];
    assert forall i :: 0 <= i < |r| ==> r'[i] == r[i];
    forall g | g in done ensures exists i :: 0 <= i < |r'| && r'[i].field == g {
      if g == f {
        assert r'[|r|].field == g;
      } else {
        assert g in done - {f};
        var i :| 0 <= i < |r| && r[i].field == g;
        assert r'[i].field == g;
      }
    }
  }

  lemma EntriesAreListed(cs: seq<Comparison>, counts: map<string, nat>, total: nat, r: seq<FieldVolatilityEntry>)
    requires Tallied(cs, counts, total) && Holds(r, counts, total, counts.Keys)
    ensures Lists(r, cs)
  {
    forall i | 0 <= i < |r| ensures r[i].count == SumHits(cs, r[i].field) > 0 {
      assert CountOf(counts, r[i].field) == SumHits(cs, r[i].field);
    }
    forall f | SumHits(cs, f) > 0 ensures exists i :: 0 <= i < |r| && r[i].field == f {
      assert CountOf(counts, f) == SumHits(cs, f);
    }
  }

  // ----- Which events are examined -----

  lemma {:induction false} EndOfNewestFirst(s: seq<ChangeEvent>, n: nat)
    requires n <= |s|
    ensures NewestFirst(s)[|s| - n..] == NewestFirst(s[..n])
    decreases |s|
  {
    if n == |s| {
      assert s[..n] == s;
    } else {
      var init := s[..|s| - 1];
      EndOfNewestFirst(init, n);
      assert init[..n] == s[..n];
    }
  }

  lemma {:induction false} MatchedIsSorted(events: seq<ChangeEvent>, f: Filter, p: Period)
    requires TimeSorted(events)
    ensures TimeSorted(Matched(events, f, p))
    ensures forall e :: e in Matched(events, f, p) ==> e in events
  {
    if events != [] {
      var n := |events| - 1;
      MatchedIsSorted(events[..n], f, p);
      forall e | e in Matched(events[..n], f, p) ensures e.timestamp <= events[n].timestamp {
        var i :| 0 <= i < n && events[..n][i] == e;
        assert events[i] == e;
      }
    }
  }

  /** None of the events beyond the first `n` is later than one of them. */
  ghost predicate MostRecent(matched: seq<ChangeEvent>, n: nat)
    requires n <= |matched|
  {
    forall i, j :: 0 <= i < n <= j < |matched| ==> matched[j].timestamp <= matched[i].timestamp
  }

  /**
   The query layer passes all matching events newest first. Then the limit keeps the
   oldest ones; these are the most recent ones exactly when nothing is cut off or all
   matching events are of one time.
   */
  lemma {:induction false} MostRecentExaminedIff(events: seq<ChangeEvent>, f: Filter, p: Period, maxCommits: int)
    requires TimeSorted(events) && |Matched(events, f, p)| <= QUERY_CAP
    ensures
      var matched := Matched(events, f, p);
      var n := LimitOf(|matched|, maxCommits);
      && Examined(Page(NewestFirst(matched), 0, QUERY_CAP), maxCommits) == NewestFirst(matched[..n])
      && (MostRecent(matched, n) <==>
          maxCommits <= 0 || |matched| <= maxCommits || matched[0].timestamp == matched[|matched| - 1].timestamp)
  {
    var matched := Matched(events, f, p);
    MatchedIsSorted(events, f, p);
    EndOfNewestFirst(matched, LimitOf(|matched|, maxCommits));
  }

  /** Of two events of different times and a limit of one, the older is examined. */
  lemma OlderIsExamined(older: ChangeEvent, newer: ChangeEvent)
    requires older.timestamp < newer.timestamp
    ensures
      var all := Filter("", "", "", "", "");
      && Matched([older, newer], all, ALWAYS) == [older, newer]
      && Examined(Page(NewestFirst([older, newer]), 0, QUERY_CAP), 1) == [older]
  {
    var all, events := Filter("", "", "", "", ""), [older, newer];
    assert events[..1] == [older] && [older][..0] == [];
    assert Passes(older, all) && Passes(newer, all) && InPeriod(older, ALWAYS) && InPeriod(newer, ALWAYS);
    assert Matched([older], all, ALWAYS) == [older];
    assert NewestFirst(events) == [newer, older];
  }

  // ----- Counts against totals -----

  /** No key anywhere in the document is empty or holds a dot. */
  predicate Dotless(o: Object)
    decreases Map(o)
  {
    forall k :: k in o ==> k != "" && '.' !in k && (o[k].Map? ==> Dotless(o[k].fields))
  }

  lemma {:induction false} ReportedIsDotFree(before: Object, after: Object, p: Keys)
    requires Dotless(before) && Dotless(after) && Reported(before, after, p)
    ensures DotFree(p)
    decreases |p|
  {
    if |p| > 1 {
      ReportedIsDotFree(before[p[0]].fields, after[p[0]].fields, p[1..]);
      forall i | 0 <= i < |p| ensures p[i] != "" && '.' !in p[i] {
        if i > 0 { assert p[1..][i - 1] == p[i]; }
      }
    }
  }

  /** Without dots in keys a comparison counts each field once at most. */
  lemma {:induction false} DotlessHitsOnce(before: Object, after: Object, field: string)
    requires Dotless(before) && Dotless(after)
    ensures TimesReported(before, after, "", field) <= 1
    ensures TimesReported(before, after, "", field) == 1 <==> exists p :: Reported(before, after, p) && Printed("", p) == field
  {
    var hits := set p | p in PathSet(before, after) && Printed("", p) == field;
    forall p, q | p in hits && q in hits ensures p == q {
      PathSetIsReported(before, after, p);
      PathSetIsReported(before, after, q);
      ReportedIsDotFree(before, after, p);
      ReportedIsDotFree(before, after, q);
      PrintedIsInjective(p, q);
    }
    if p :| p in hits {
      assert hits == {p};
      PathSetIsReported(before, after, p);
    }
    if p :| Reported(before, after, p) && Printed("", p) == field {
      PathSetIsReported(before, after, p);
      assert p in hits;
    }
  }

  /** A comparison counts each field once at most exactly when no two of its reported paths are printed alike. */
  lemma CountedOnceIff(before: Object, after: Object)
    ensures (forall field :: TimesReported(before, after, "", field) <= 1) <==>
      forall p, q :: Reported(before, after, p) && Reported(before, after, q) && Printed("", p) == Printed("", q) ==> p == q
  {
    forall p { PathSetIsReported(before, after, p); }
    if p, q :| Reported(before, after, p) && Reported(before, after, q) && Printed("", p) == Printed("", q) && p != q {
      TwoHits(before, after, p, q);
    } else {
      forall field ensures TimesReported(before, after, "", field) <= 1 { OneHit(before, after, field); }
    }
  }

  lemma {:induction false} OneHit(before: Object, after: Object, field: string)
    requires forall p, q :: p in PathSet(before, after) && q in PathSet(before, after) && Printed("", p) == Printed("", q) ==> p == q
    ensures TimesReported(before, after, "", field) <= 1
  {
    var hits := set p | p in PathSet(before, after) && Printed("", p) == field;
    if p :| p in hits { assert hits == {p}; }
  }

  lemma {:induction false} TwoHits(before: Object, after: Object, p: Keys, q: Keys)
    requires p in PathSet(before, after) && q in PathSet(before, after) && Printed("", p) == Printed("", q) && p != q
    ensures TimesReported(before, after, "", Printed("", p)) >= 2
  {
    var hits := set r | r in PathSet(before, after) && Printed("", r) == Printed("", p);
    assert hits == {p, q} + (hits - {p, q});
  }

  ghost predicate AllDotless(cs: seq<Comparison>) {
    forall i :: 0 <= i < |cs| && cs[i].Compared? ==> Dotless(cs[i].before) && Dotless(cs[i].after)
  }

  /** Then no field changes more often than there are events. */
  lemma {:induction false} CountsWithinTotal(cs: seq<Comparison>, field: string)
    requires AllDotless(cs)
    ensures SumHits(cs, field) <= CountedEvents(cs)
  {
    if cs != [] {
      if cs[0].Compared? { DotlessHitsOnce(cs[0].before, cs[0].after, field); }
      CountsWithinTotal(cs[1..], field);
    }
  }

  /** With dots in keys one event can count a field twice, so its ratio exceeds one. */
  lemma DottedKeysCountTwice()
    ensures
      var before: Object := map["a.b" := Num(1), "a" := Map(map["b" := Num(1)])];
      var after: Object := map["a.b" := Num(2), "a" := Map(map["b" := Num(2)])];
      var cs := [Compared(before, after)];
      SumHits(cs, "a.b") >= 2 && CountedEvents(cs) == 1
  {
    var before: Object := map["a.b" := Num(1), "a" := Map(map["b" := Num(1)])];
    var after: Object := map["a.b" := Num(2), "a" := Map(map["b" := Num(2)])];
    DottedKeysCollide();
    PathSetIsReported(before, after, ["a.b"]);
    PathSetIsReported(before, after, ["a", "b"]);
    assert Printed("", ["a.b"]) == Printed("a.b", []) by { assert ["a.b"][1..] == []; }
    var hits := set p | p in PathSet(before, after) && Printed("", p) == "a.b";
    assert {["a.b"], ["a", "b"]} <= hits;
    assert hits == {["a.b"], ["a", "b"]} + (hits - {["a.b"], ["a", "b"]});
    assert [Compared(before, after)][1..] == [];
  }

  /** A deletion whose lookup falls on a namesake counts every top-level key of that other document. */
  lemma DeletionBlamesNamesake(repo: Repo, prefix: string, e: ChangeEvent, key: string)
    requires e.sha in repo && e.changeType == Deleted
    ensures
      var path := FirstNamed(repo[e.sha].files, prefix, e.group, e.namespace, e.name);
      EventHits(Compare(repo, prefix, e), key) > 0 <==> path != "" && key in BeforeOf(repo[e.sha], path)
  {
    var path := FirstNamed(repo[e.sha].files, prefix, e.group, e.namespace, e.name);
    var before := BeforeOf(repo[e.sha], path);
    var hits := set p | p in PathSet(before, map[]) && Printed("", p) == key;
    forall p ensures p in hits <==> key in before && p == [key] {
      PathSetIsReported(before, map[], p);
      if |p| == 1 {
        assert p == [p[0]] && p[1..] == [];
        assert Printed("", p) == Printed(p[0], []) == p[0];
      }
    }
    if key in before { assert [key] in hits; }
  }
}

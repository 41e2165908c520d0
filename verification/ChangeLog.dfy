/**
 From the text of `git log --name-status` to change events: the line parser, and how
 git prints the commits and spells their paths.
 */
module ChangeLog {
  import opened Strings
  import opened Layout

  datatype ChangeType = Added | Modified | Deleted

  datatype ChangeEvent = ChangeEvent(
    timestamp: int,
    sha: string,
    cluster: string,
    group: string,
    kind: string,
    namespace: string,
    name: string,
    changeType: ChangeType
  )

  /** Which event waits for the kind of which object. */
  datatype KindRef = KindRef(objectName: string, eventIdx: nat)

  /** The cluster's name, its path prefix, and the clock reading of a printed time. */
  datatype Settings = Settings(cluster: string, prefix: string, parseTime: string -> int)

  function PrefixOf(subDir: string): string {
    if subDir != "" && !HasSuffix(subDir, "/") then subDir + "/" else subDir
  }

  // ----- The parser -----

  function RelPath(s: Settings, path: string): string {
    if HasPrefix(path, s.prefix) then path[|s.prefix|..] else path
  }

  /** Only resource files below the prefix become events. */
  predicate Relevant(s: Settings, path: string) {
    && HasSuffix(path, ".yaml")
    && (s.prefix == "" || HasPrefix(path, s.prefix))
    && ParseResourcePath(RelPath(s, path)).Some?
  }

  function TypeOf(status: char): ChangeType {
    if status == 'A' then Added else if status == 'D' then Deleted else Modified
  }

  /** One recorded change: the commit it belongs to, what happened, and the file. */
  datatype Change = Change(sha: string, time: string, status: char, path: string)

  /** A change to a resource file, with what its path says. */
  datatype Located = Located(change: Change, at: ParsedPath)

  function Locate(s: Settings, c: Change): Located
    requires Relevant(s, c.path)
  {
    Located(c, ParseResourcePath(RelPath(s, c.path)).value)
  }

  function EventOf(s: Settings, l: Located): ChangeEvent {
    ChangeEvent(s.parseTime(l.change.time), l.change.sha, s.cluster, l.at.group, "", l.at.namespace, l.at.name,
                TypeOf(l.change.status))
  }

  function ObjectName(c: Change): string {
    c.sha + ":" + c.path
  }

  datatype LineKind =
    | Ignored
    | Header(sha: string, time: string)
    | Status(status: char, path: string)

  /** What a line of the log says. */
  function ReadLine(raw: string): LineKind {
    var line := TrimRightSet(raw, {'\r'});
    if line == "" then Ignored
    else if HasPrefix(line, "COMMIT ") then
      var fields := Fields(line);
      if |fields| < 3 then Ignored else Header(fields[1], fields[2])
    else if |line| < 2 || line[1] != '\t' then Ignored
    else if line[0] != 'A' && line[0] != 'M' && line[0] != 'D' then Ignored
    else Status(line[0], line[2..])
  }

  /** A line without a carriage return records a file exactly when it is one of three letters, a tab and the path. */
  lemma {:induction false} StatusLineIff(raw: string, status: char, path: string)
    requires raw == "" || raw[|raw| - 1] != '\r'
    ensures ReadLine(raw) == Status(status, path) <==>
      (status == 'A' || status == 'M' || status == 'D') && raw == [status, '\t'] + path
  {
    if |raw| >= 2 && raw[1] == '\t' {
      assert raw == [raw[0], '\t'] + raw[2..];
      assert !HasPrefix(raw, "COMMIT ") by { assert "COMMIT "[1] == 'O'; }
    }
  }

  /** The change a line records under the commit in force, and the commit then in force. */
  function TakenFrom(raw: string, sha: string, time: string): (seq<Change>, string, string) {
    match ReadLine(raw)
    case Ignored => ([], sha, time)
    case Header(sha', time') => ([], sha', time')
    case Status(status, path) => (if sha == "" then [] else [Change(sha, time, status, path)], sha, time)
  }

  /** The changes among the lines, given the commit in force. */
  function ChangesIn(lines: seq<string>, sha: string, time: string): seq<Change>
    decreases |lines|
  {
    if lines == [] then []
    else
      var (taken, sha', time') := TakenFrom(lines[0], sha, time);
      taken + ChangesIn(lines[1..], sha', time')
  }

  function RelevantOnly(s: Settings, changes: seq<Change>): seq<Located> {
    if changes == [] then []
    else
      var n := |changes| - 1;
      RelevantOnly(s, changes[..n]) + (if Relevant(s, changes[n].path) then [Locate(s, changes[n])] else [])
  }

  function EventsOf(s: Settings, ls: seq<Located>): (r: seq<ChangeEvent>)
    ensures |r| == |ls|
  {
    if ls == [] then [] else EventsOf(s, ls[..|ls| - 1]) + [EventOf(s, ls[|ls| - 1])]
  }

  /** Deleted files are gone from the commit, so no kind is looked up for them. */
  function RefsOf(ls: seq<Located>): seq<KindRef> {
    if ls == [] then []
    else
      var n := |ls| - 1;
      var c := ls[n].change;
      RefsOf(ls[..n]) + (if c.status == 'D' then [] else [KindRef(ObjectName(c), n)])
  }

  /** Events and kind references agree with the changes seen. */
  ghost predicate Collected(s: Settings, all: seq<Change>, events: seq<ChangeEvent>, refs: seq<KindRef>) {
    events == EventsOf(s, RelevantOnly(s, all)) && refs == RefsOf(RelevantOnly(s, all))
  }

  /** What the parser does with a status line under a known commit. */
  method AddChange(
    s: Settings, events: seq<ChangeEvent>, refs: seq<KindRef>, curTime: int, c: Change, ghost all: seq<Change>
  ) returns (events': seq<ChangeEvent>, refs': seq<KindRef>)
    requires Collected(s, all, events, refs) && curTime == s.parseTime(c.time)
    ensures Collected(s, all + [c], events', refs')
  {
    events', refs' := events, refs;
    RelevantSnoc(s, all, c);
    if Relevant(s, c.path) {
      var p := ParseResourcePath(RelPath(s, c.path)).value;
      if c.status != 'D' {
        refs' := refs + [KindRef(ObjectName(c), |events|)];
      }
      events' := events + [ChangeEvent(curTime, c.sha, s.cluster, p.group, "", p.namespace, p.name, TypeOf(c.status))];
    }
  }

  lemma {:induction false} RelevantSnoc(s: Settings, all: seq<Change>, c: Change)
    ensures RelevantOnly(s, all + [c]) ==
            if Relevant(s, c.path) then RelevantOnly(s, all) + [Locate(s, c)] else RelevantOnly(s, all)
  {
    assert (all + [c])[..|all|] == all;
  }

  /** The changes seen before line i, with those of the lines left, are all there are. */
  ghost predicate SeenUpTo(changes: seq<Change>, lines: seq<string>, i: nat, sha: string, time: string)
    requires i <= |lines|
  {
    changes + ChangesIn(lines[i..], sha, time) == ChangesIn(lines, "", "")
  }

  lemma SeeOne(changes: seq<Change>, lines: seq<string>, i: nat, sha: string, time: string)
    requires i < |lines| && SeenUpTo(changes, lines, i, sha, time)
    ensures
      var (taken, sha', time') := TakenFrom(lines[i], sha, time);
      SeenUpTo(changes + taken, lines, i + 1, sha', time')
  {
    assert lines[i..][0] == lines[i] && lines[i..][1..] == lines[i + 1..];
  }

  /** What the parser carries from line to line. */
  datatype Cursor = Cursor(sha: string, timeText: string, time: int)

  /** The body of the parser loop; `more` is the change the line records, if any. */
  method TakeLine(
    s: Settings, raw: string, cur: Cursor, events: seq<ChangeEvent>, refs: seq<KindRef>, ghost all: seq<Change>
  ) returns (cur': Cursor, events': seq<ChangeEvent>, refs': seq<KindRef>, ghost more: seq<Change>)
    requires Collected(s, all, events, refs) && cur.time == s.parseTime(cur.timeText)
    ensures Collected(s, all + more, events', refs') && cur'.time == s.parseTime(cur'.timeText)
    ensures (more, cur'.sha, cur'.timeText) == TakenFrom(raw, cur.sha, cur.timeText)
  {
    cur', events', refs', more := cur, events, refs, [];
    assert all + [] == all;
    match ReadLine(raw)
    case Ignored =>
    case Header(sha, time) =>
      cur' := Cursor(sha, time, s.parseTime(time));
    case Status(status, path) =>
      if cur.sha != "" {
        var c := Change(cur.sha, cur.timeText, status, path);
        events', refs' := AddChange(s, events, refs, cur.time, c, all);
        more := [c];
      }
  }

  /** The parser loop over the lines of the output. */
  method ParseLog(s: Settings, out: string)
    returns (events: seq<ChangeEvent>, refs: seq<KindRef>)
    ensures Collected(s, ChangesIn(Split(out, '\n'), "", ""), events, refs)
  {
    events, refs := [], [];
    ghost var changes: seq<Change> := [];
    var lines := Split(out, '\n');
    var cur := Cursor("", "", s.parseTime(""));
    for i := 0 to |lines|
      invariant SeenUpTo(changes, lines, i, cur.sha, cur.timeText)
      invariant Collected(s, changes, events, refs) && cur.time == s.parseTime(cur.timeText)
    {
      SeeOne(changes, lines, i, cur.sha, cur.timeText);
      ghost var more: seq<Change>;
      cur, events, refs, more := TakeLine(s, lines[i], cur, events, refs, changes);
      changes := changes + more;
    }
    assert lines[|lines|..] == [] && changes + [] == changes;
  }

  /** Where the daemon's files are relevant: exactly in a directory spelled cleanly, but for a slash at the end. */
  lemma DaemonFileRelevantIff(s: Settings, subDir: SubDir, id: ResourceId)
    requires WellNamed(id) && s.prefix == PrefixOf(subDir)
    ensures Relevant(s, RepoPath(CleanDir(subDir), ResourcePath(id))) <==>
      subDir == CleanDir(subDir) || (CleanDir(subDir) != "" && subDir == CleanDir(subDir) + "/")
  {
    var path := RepoPath(CleanDir(subDir), ResourcePath(id));
    FilePathIsClean(subDir, id);
    PrefixFindsIff(subDir, path);
    PrefixIsCleanIff(subDir);
    if PrefixOf(subDir) == DirPrefix(CleanDir(subDir)) { FoundIsRelevant(s, id); }
  }

  lemma FoundIsRelevant(s: Settings, id: ResourceId)
    requires WellNamed(id)
    ensures Relevant(s, s.prefix + ResourcePath(id))
  {
    ParseInvertsLayout(id);
    SuffixOfTail(s.prefix, ResourcePath(id), ".yaml");
    assert (s.prefix + ResourcePath(id))[|s.prefix|..] == ResourcePath(id);
  }

  lemma PrefixIsCleanIff(subDir: SubDir)
    ensures PrefixOf(subDir) == DirPrefix(CleanDir(subDir)) <==>
      subDir == CleanDir(subDir) || (CleanDir(subDir) != "" && subDir == CleanDir(subDir) + "/")
  {
    var dir := CleanDir(subDir);
    CleanDirParts(subDir);
    if dir != "" {
      LastElementHasNoSlash(dir);
      assert PrefixOf(dir) == dir + "/";
      assert PrefixOf(dir + "/") == dir + "/" by { SuffixOfTail(dir, "/", "/"); }
    }
  }

  lemma PrefixFindsIff(subDir: SubDir, path: string)
    requires CleanPath(path) && HasPrefix(path, DirPrefix(CleanDir(subDir)))
    ensures HasPrefix(path, PrefixOf(subDir)) <==> PrefixOf(subDir) == DirPrefix(CleanDir(subDir))
  {
    if HasPrefix(path, PrefixOf(subDir)) && subDir != "" {
      var t := TrimSuffix(subDir, "/");
      assert PrefixOf(subDir) == t + "/";
      CleanPrefixIsClean(t, path);
      assert t != "" by { if t == "" { EmptyElement(path); } }
      if t != subDir { CleanIgnoresSlash(t); assert subDir == t + "/"; }
    }
    RootIsClean();
  }

  lemma EmptyElement(path: string)
    requires HasPrefix(path, "/")
    ensures !CleanPath(path)
  {
    assert Split(path, '/')[0] == "" && "" in Split(path, '/');
  }

  // ----- How git spells a path -----

  /** The bytes git quotes (`core.quotePath` in git-config(1)): control characters, quotes, backslashes, and all above 0x7E. */
  predicate NeedsQuote(c: char) {
    c < ' ' || c == '"' || c == '\\' || c > '~'
  }

  /** A path is printed as it is exactly when all of it is printable ASCII without a quote (34) or a backslash (92). */
  lemma QuotedByCode(path: string)
    ensures Spelled(path) == path <==> forall i :: 0 <= i < |path| ==> 32 <= path[i] as int <= 126 && path[i] as int !in {34, 92}
  {
    if Quoted(path) {
      EscapedIsLonger(path);
    }
  }

  lemma {:induction false} EscapedIsLonger(path: string)
    ensures |EscapedAll(path)| >= |path|
  {
    if path != "" { EscapedIsLonger(path[1..]); }
  }

  predicate Quoted(path: string) {
    exists i :: 0 <= i < |path| && NeedsQuote(path[i])
  }

  function Octal(c: char): string {
    [Digit(c as int / 64 % 8), Digit(c as int / 8 % 8), Digit(c as int % 8)]
  }

  function Escaped(c: char): string {
    if !NeedsQuote(c) then [c]
    else if c == '"' || c == '\\' then ['\\', c]
    else if '\U{07}' <= c <= '\U{0D}' then ['\\', "abtnvfr"[c as int - 7]]
    else "\\" + Octal(c)
  }

  function EscapedAll(path: string): string {
    if path == "" then "" else Escaped(path[0]) + EscapedAll(path[1..])
  }

  /** The path as git prints it. */
  function Spelled(path: string): string {
    if Quoted(path) then "\"" + EscapedAll(path) + "\"" else path
  }

  lemma {:induction false} EscapedIsOneLine(path: string)
    ensures forall i :: 0 <= i < |EscapedAll(path)| ==> EscapedAll(path)[i] >= ' '
  {
    if path != "" { EscapedIsOneLine(path[1..]); }
  }

  lemma SpelledIsOneLine(path: string)
    ensures '\n' !in Spelled(path) && '\r' !in Spelled(path)
  {
    EscapedIsOneLine(path);
    if !Quoted(path) { assert forall i :: 0 <= i < |path| ==> !NeedsQuote(path[i]); }
  }

  /** A path is recognised in git's output exactly when it is a resource's and git prints it unquoted. */
  lemma SpelledRelevantIff(s: Settings, path: string)
    ensures Relevant(s, Spelled(path)) <==> Relevant(s, path) && !Quoted(path)
  {
    if Quoted(path) {
      var text := Spelled(path);
      assert text[|text| - 1] == '"';
      if HasSuffix(text, ".yaml") { LastOfSuffix(text, ".yaml"); }
    }
  }

  lemma QuotedPart(part: string, before: string, after: string)
    requires Quoted(part)
    ensures Quoted(before + part + after)
  {
    var i :| 0 <= i < |part| && NeedsQuote(part[i]);
    assert (before + part + after)[|before| + i] == part[i];
  }

  /** A resource whose name git quotes has a file like any other, but its changes are lost. */
  lemma QuotedNameIsLost(s: Settings, id: ResourceId)
    requires WellNamed(id) && Quoted(id.name)
    ensures
      var path := s.prefix + ResourcePath(id);
      Relevant(s, path) && !Relevant(s, Spelled(path))
  {
    var path := s.prefix + ResourcePath(id);
    FoundIsRelevant(s, id);
    var before := NameInPath(id);
    assert path == (s.prefix + before) + id.name + ".yaml";
    QuotedPart(id.name, s.prefix + before, ".yaml");
    SpelledRelevantIff(s, path);
  }

  lemma NameInPath(id: ResourceId) returns (before: string)
    ensures ResourcePath(id) == before + id.name + ".yaml"
  {
    var dir := PathParts(id)[..|PathParts(id)| - 1];
    assert PathParts(id) == dir + [id.name + ".yaml"];
    JoinAppend(dir, [id.name + ".yaml"], '/');
    before := Join(dir, '/') + ['/'];
    assert before + id.name + ".yaml" == before + (id.name + ".yaml");
  }

  /** The name "café", in UTF-8. */
  const CAFE := "caf\U{C3}\U{A9}"

  lemma CafeIsQuoted()
    ensures Quoted(CAFE) && PathElement(CAFE)
  {
    assert NeedsQuote(CAFE[3]);
  }

  /** For instance a cluster role of that name. */
  lemma CafeIsLost(s: Settings, id: ResourceId)
    requires id == ResourceId("rbac.authorization.k8s.io", "v1", false, "", "clusterroles", CAFE)
    ensures WellNamed(id)
    ensures Relevant(s, s.prefix + ResourcePath(id)) && !Relevant(s, Spelled(s.prefix + ResourcePath(id)))
  {
    CafeIsQuoted();
    assert PathElement(id.version) && PathElement(id.resource);
    QuotedNameIsLost(s, id);
  }

  // ----- Printing and parsing back -----

  /** A commit and its files, each with its status and its path in the tree. */
  datatype LogCommit = LogCommit(sha: string, time: string, files: seq<(char, string)>)

  predicate Printable(c: LogCommit) {
    && IsWord(c.sha) && IsWord(c.time)
    && forall f :: f in c.files ==> PrintableFile(f)
  }

  /** The statuses asked for. */
  predicate PrintableFile(f: (char, string)) {
    f.0 == 'A' || f.0 == 'M' || f.0 == 'D'
  }

  function FileLine(f: (char, string)): string {
    [f.0] + "\t" + Spelled(f.1)
  }

  function HeaderLine(c: LogCommit): string {
    Three("COMMIT", c.sha, c.time)
  }

  function FileLines(files: seq<(char, string)>): seq<string> {
    if files == [] then [] else [FileLine(files[0])] + FileLines(files[1..])
  }

  /** The requested format: a header line, a line per file, and an empty line. */
  function LogLines(commits: seq<LogCommit>): seq<string> {
    if commits == [] then []
    else [HeaderLine(commits[0])] + FileLines(commits[0].files) + [""] + LogLines(commits[1..])
  }

  /** The changes of the commits themselves. */
  function FileChanges(c: LogCommit, files: seq<(char, string)>): seq<Change> {
    if files == [] then [] else [Change(c.sha, c.time, files[0].0, files[0].1)] + FileChanges(c, files[1..])
  }

  function LogChanges(commits: seq<LogCommit>): seq<Change> {
    if commits == [] then [] else FileChanges(commits[0], commits[0].files) + LogChanges(commits[1..])
  }

  /** The changes with their paths as git prints them. */
  function SpelledOut(changes: seq<Change>): seq<Change> {
    if changes == [] then [] else [changes[0].(path := Spelled(changes[0].path))] + SpelledOut(changes[1..])
  }

  /** The changes whose paths git prints as they are. */
  function Unquoted(changes: seq<Change>): seq<Change> {
    if changes == [] then []
    else
      var n := |changes| - 1;
      Unquoted(changes[..n]) + (if Quoted(changes[n].path) then [] else [changes[n]])
  }

  lemma {:induction false} SpelledOutAt(changes: seq<Change>, n: nat)
    requires n <= |changes|
    ensures |SpelledOut(changes)| == |changes| && SpelledOut(changes[..n]) == SpelledOut(changes)[..n]
    ensures n < |changes| ==> SpelledOut(changes)[n] == changes[n].(path := Spelled(changes[n].path))
  {
    if changes != [] {
      SpelledOutAt(changes[1..], if n == 0 then 0 else n - 1);
      if n > 0 { assert changes[..n][1..] == changes[1..][..n - 1]; }
    }
  }

  lemma {:induction false} SpelledOutConcat(a: seq<Change>, b: seq<Change>)
    ensures SpelledOut(a + b) == SpelledOut(a) + SpelledOut(b)
  {
    if a == [] {
      assert a + b == b;
    } else {
      assert (a + b)[1..] == a[1..] + b;
      SpelledOutConcat(a[1..], b);
    }
  }

  /** Of the changes as git prints them, the parser keeps the relevant ones that git does not quote. */
  lemma {:induction false} KeptAreUnquoted(s: Settings, changes: seq<Change>)
    ensures RelevantOnly(s, SpelledOut(changes)) == RelevantOnly(s, Unquoted(changes))
  {
    SpelledOutAt(changes, 0);
    if changes != [] {
      var n := |changes| - 1;
      KeptAreUnquoted(s, changes[..n]);
      SpelledOutAt(changes, n);
      assert SpelledOut(changes) == SpelledOut(changes[..n]) + [changes[n].(path := Spelled(changes[n].path))];
      OneKept(s, SpelledOut(changes[..n]), Unquoted(changes[..n]), changes[n]);
    }
  }

  lemma {:induction false} OneKept(s: Settings, spelled: seq<Change>, unquoted: seq<Change>, c: Change)
    requires RelevantOnly(s, spelled) == RelevantOnly(s, unquoted)
    ensures RelevantOnly(s, spelled + [c.(path := Spelled(c.path))]) ==
            RelevantOnly(s, unquoted + if Quoted(c.path) then [] else [c])
  {
    RelevantSnoc(s, spelled, c.(path := Spelled(c.path)));
    if Quoted(c.path) {
      SpelledRelevantIff(s, c.path);
      assert unquoted + [] == unquoted;
    } else {
      RelevantSnoc(s, unquoted, c);
    }
  }

  lemma QuotedWithPrefix(s: Settings, path: string)
    requires Quoted(s.prefix) && Relevant(s, path)
    ensures Quoted(path)
  {
    assert s.prefix != "" by { var i :| 0 <= i < |s.prefix| && NeedsQuote(s.prefix[i]); }
    assert "" + s.prefix + path[|s.prefix|..] == path;
    QuotedPart(s.prefix, "", path[|s.prefix|..]);
  }

  lemma {:induction false} NothingRelevant(s: Settings, changes: seq<Change>)
    requires forall c :: c in changes ==> !Relevant(s, c.path)
    ensures RelevantOnly(s, changes) == []
  {
    if changes != [] { NothingRelevant(s, changes[..|changes| - 1]); }
  }

  /** With a directory git quotes, the parser keeps nothing at all. */
  lemma {:induction false} QuotedDirectoryEmptiesIndex(s: Settings, changes: seq<Change>)
    requires Quoted(s.prefix)
    ensures RelevantOnly(s, SpelledOut(changes)) == []
  {
    SpelledOutAt(changes, 0);
    forall c | c in SpelledOut(changes) ensures !Relevant(s, c.path) {
      var n :| 0 <= n < |changes| && SpelledOut(changes)[n] == c;
      SpelledOutAt(changes, n);
      SpelledRelevantIff(s, changes[n].path);
      if Relevant(s, changes[n].path) { QuotedWithPrefix(s, changes[n].path); }
    }
    NothingRelevant(s, SpelledOut(changes));
  }

  lemma {:induction false} TrimNothing(s: string, cut: set<char>)
    requires s != "" && s[|s| - 1] !in cut
    ensures TrimRightSet(s, cut) == s
  {
  }

  lemma ReadHeaderLine(c: LogCommit)
    requires Printable(c)
    ensures ReadLine(HeaderLine(c)) == Header(c.sha, c.time)
    ensures '\n' !in HeaderLine(c)
  {
    FieldsOfThree("COMMIT", c.sha, c.time);
  }

  lemma ReadFileLine(f: (char, string))
    requires PrintableFile(f)
    ensures ReadLine(FileLine(f)) == Status(f.0, Spelled(f.1))
    ensures '\n' !in FileLine(f)
  {
    var line := FileLine(f);
    SpelledIsOneLine(f.1);
    TrimNothing(line, {'\r'});
    assert line[2..] == Spelled(f.1) && line[1] == '\t';
    assert !HasPrefix(line, "COMMIT ") by { assert "COMMIT "[1] == 'O'; }
  }

  /** Lines that record one change each, followed by others. */
  lemma {:induction false} StatusLinesParse(
    lines: seq<string>, changes: seq<Change>, rest: seq<string>, sha: string, time: string)
    requires |lines| == |changes|
    requires forall i :: 0 <= i < |lines| ==> Takes(lines[i], changes[i], sha, time)
    ensures ChangesIn(lines + rest, sha, time) == changes + ChangesIn(rest, sha, time)
    decreases |lines|
  {
    if lines == [] {
      assert lines + rest == rest;
    } else {
      var all := lines + rest;
      assert all[0] == lines[0] && all[1..] == lines[1..] + rest;
      StatusLinesParse(lines[1..], changes[1..], rest, sha, time);
      assert Takes(lines[0], changes[0], sha, time);
    }
  }

  predicate Takes(line: string, c: Change, sha: string, time: string) {
    TakenFrom(line, sha, time) == ([c], sha, time)
  }

  lemma FileLineTakes(c: LogCommit, f: (char, string))
    requires c.sha != "" && PrintableFile(f)
    ensures Takes(FileLine(f), Change(c.sha, c.time, f.0, Spelled(f.1)), c.sha, c.time)
  {
    ReadFileLine(f);
  }

  lemma {:induction false} FileLineAt(c: LogCommit, files: seq<(char, string)>, i: nat)
    requires i < |files|
    ensures |FileLines(files)| == |FileChanges(c, files)| == |files|
    ensures FileLines(files)[i] == FileLine(files[i])
    ensures FileChanges(c, files)[i] == Change(c.sha, c.time, files[i].0, files[i].1)
  {
    if i > 0 { FileLineAt(c, files[1..], i - 1); } else if |files| > 1 { FileLineAt(c, files[1..], 0); }
  }

  lemma {:induction false} FileLinesParse(c: LogCommit, files: seq<(char, string)>, rest: seq<string>)
    requires Printable(c) && forall f :: f in files ==> PrintableFile(f)
    ensures ChangesIn(FileLines(files) + rest, c.sha, c.time) ==
            SpelledOut(FileChanges(c, files)) + ChangesIn(rest, c.sha, c.time)
  {
    var lines, changes := FileLines(files), SpelledOut(FileChanges(c, files));
    SpelledOutAt(FileChanges(c, files), 0);
    if files != [] { FileLineAt(c, files, 0); }
    forall i | 0 <= i < |lines| ensures Takes(lines[i], changes[i], c.sha, c.time) {
      FileLineAt(c, files, i);
      SpelledOutAt(FileChanges(c, files), i);
      FileLineTakes(c, files[i]);
    }
    StatusLinesParse(lines, changes, rest, c.sha, c.time);
  }

  lemma {:induction false} HeaderLineParses(c: LogCommit, lines: seq<string>, sha: string, time: string)
    requires Printable(c) && lines != [] && lines[0] == HeaderLine(c)
    ensures ChangesIn(lines, sha, time) == ChangesIn(lines[1..], c.sha, c.time)
  {
    ReadHeaderLine(c);
  }

  lemma {:induction false} BlankLineParses(lines: seq<string>, sha: string, time: string)
    requires lines != [] && lines[0] == ""
    ensures ChangesIn(lines, sha, time) == ChangesIn(lines[1..], sha, time)
  {
    assert ReadLine("") == Ignored;
  }

  lemma {:induction false} LogLinesParse(commits: seq<LogCommit>, sha: string, time: string)
    requires forall c :: c in commits ==> Printable(c)
    ensures ChangesIn(LogLines(commits), sha, time) == SpelledOut(LogChanges(commits))
    decreases |commits|
  {
    if commits != [] {
      var c, after := commits[0], [""] + LogLines(commits[1..]);
      var lines := LogLines(commits);
      assert lines[0] == HeaderLine(c) && lines[1..] == FileLines(c.files) + after;
      assert after[0] == "" && after[1..] == LogLines(commits[1..]);
      HeaderLineParses(c, lines, sha, time);
      FileLinesParse(c, c.files, after);
      BlankLineParses(after, c.sha, c.time);
      SpelledOutConcat(FileChanges(c, c.files), LogChanges(commits[1..]));
      LogLinesParse(commits[1..], c.sha, c.time);
    }
  }

  lemma {:induction false} LinesHaveNoNewline(commits: seq<LogCommit>)
    requires forall c :: c in commits ==> Printable(c)
    ensures forall l :: l in LogLines(commits) ==> '\n' !in l
  {
    if commits != [] {
      ReadHeaderLine(commits[0]);
      FileLinesHaveNoNewline(commits[0].files);
      LinesHaveNoNewline(commits[1..]);
    }
  }

  lemma {:induction false} FileLinesHaveNoNewline(files: seq<(char, string)>)
    requires forall f :: f in files ==> PrintableFile(f)
    ensures forall l :: l in FileLines(files) ==> '\n' !in l
  {
    if files != [] {
      ReadFileLine(files[0]);
      FileLinesHaveNoNewline(files[1..]);
    }
  }

  /** Parsing a printed log gives exactly its changes, each under its own commit, with their paths as printed. */
  lemma {:induction false} PrintedLogParsesBack(commits: seq<LogCommit>)
    requires forall c :: c in commits ==> Printable(c)
    ensures ChangesIn(Split(Join(LogLines(commits), '\n'), '\n'), "", "") == SpelledOut(LogChanges(commits))
  {
    if commits == [] {
      assert ReadLine("") == Ignored;
      assert Split("", '\n') == [""] && ChangesIn([""], "", "") == ChangesIn([], "", "");
    } else {
      LinesHaveNoNewline(commits);
      SplitJoin(LogLines(commits), '\n');
      LogLinesParse(commits, "", "");
    }
  }
}

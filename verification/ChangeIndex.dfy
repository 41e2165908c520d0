/**
 The change index of a cluster: the parsed changes with the kinds read for them with
 `git cat-file --batch`, in order of time.
 */
module ChangeIndex {
  import opened Wrappers
  import opened Strings
  import opened Layout
  import opened Kinds
  import opened BatchReader
  import opened ChangeLog

  // ----- Building -----

  /** The kinds the reader finds for the queued names. */
  function KindsFor(names: seq<string>, catFile: seq<string> -> string): Option<map<string, string>> {
    if names == [] then Some(map[]) else ReadAll(Dedup(names), catFile(Dedup(names)), map[])
  }

  function NamesOf(refs: seq<KindRef>): seq<string> {
    seq(|refs|, i requires 0 <= i < |refs| => refs[i].objectName)
  }

  /** The kind the map holds for a change's own file; none for deletions. */
  function KindAt(c: Change, kinds: map<string, string>): string {
    if c.status == 'D' then "" else KindIn(kinds, ObjectName(c))
  }

  /** Each event with the kind of its own change. */
  function Filled(events: seq<ChangeEvent>, changes: seq<Located>, kinds: map<string, string>): (r: seq<ChangeEvent>)
    requires |events| == |changes|
    ensures |r| == |changes| && forall i :: 0 <= i < |r| ==> r[i] == events[i].(kind := KindAt(changes[i].change, kinds))
  {
    if events == [] then []
    else [events[0].(kind := KindAt(changes[0].change, kinds))] + Filled(events[1..], changes[1..], kinds)
  }

  /** Each reference names the object of an event that is not a deletion, and all of those have one. */
  ghost predicate RefsMatch(refs: seq<KindRef>, changes: seq<Located>) {
    && (forall j :: 0 <= j < |refs| ==> RefMatches(refs[j], changes))
    && (forall i :: 0 <= i < |changes| && changes[i].change.status != 'D' ==> HasRef(refs, i))
  }

  predicate RefMatches(ref: KindRef, changes: seq<Located>) {
    && ref.eventIdx < |changes| && changes[ref.eventIdx].change.status != 'D'
    && ref.objectName == ObjectName(changes[ref.eventIdx].change)
  }

  predicate HasRef(refs: seq<KindRef>, i: nat) {
    exists j :: 0 <= j < |refs| && refs[j].eventIdx == i
  }

  lemma {:induction false} RefsPointAtChanges(changes: seq<Located>)
    ensures RefsMatch(RefsOf(changes), changes)
  {
    if changes != [] {
      var n := |changes| - 1;
      RefsPointAtChanges(changes[..n]);
      var init, refs := RefsOf(changes[..n]), RefsOf(changes);
      assert init <= refs;
      forall j | 0 <= j < |refs| ensures RefMatches(refs[j], changes) {
        if j < |init| { assert refs[j] == init[j] && RefMatches(init[j], changes[..n]); }
      }
      forall i | 0 <= i < |changes| && changes[i].change.status != 'D' ensures HasRef(refs, i) {
        if i < n {
          assert changes[..n][i] == changes[i] && HasRef(init, i);
          var j :| 0 <= j < |init| && init[j].eventIdx == i;
          assert refs[j] == init[j];
        } else {
          assert refs[|refs| - 1].eventIdx == i;
        }
      }
    }
  }

  /** The events whose references have been served carry their final kind, the others none yet or already. */
  ghost predicate PartlyFilled(r: seq<ChangeEvent>, events: seq<ChangeEvent>, goal: seq<ChangeEvent>, refs: seq<KindRef>, j: nat)
    requires |events| == |goal| && j <= |refs|
  {
    && |r| == |goal|
    && (forall i :: 0 <= i < |r| ==> r[i] == events[i] || r[i] == goal[i])
    && forall k :: 0 <= k < j ==> refs[k].eventIdx < |r| && r[refs[k].eventIdx] == goal[refs[k].eventIdx]
  }

  lemma {:induction false} FilledEverywhere(
    r: seq<ChangeEvent>, events: seq<ChangeEvent>, refs: seq<KindRef>, kinds: map<string, string>, changes: seq<Located>)
    requires |events| == |changes| && RefsMatch(refs, changes)
    requires forall i :: 0 <= i < |events| ==> events[i].kind == ""
    requires PartlyFilled(r, events, Filled(events, changes, kinds), refs, |refs|)
    ensures r == Filled(events, changes, kinds)
  {
    var goal := Filled(events, changes, kinds);
    forall i | 0 <= i < |r| ensures r[i] == goal[i] {
      if changes[i].change.status != 'D' {
        assert HasRef(refs, i);
      }
    }
  }

  lemma FillOne(r: seq<ChangeEvent>, events: seq<ChangeEvent>, goal: seq<ChangeEvent>, refs: seq<KindRef>, j: nat)
    requires |events| == |goal| && j < |refs| && refs[j].eventIdx < |goal|
    requires PartlyFilled(r, events, goal, refs, j)
    ensures PartlyFilled(r[refs[j].eventIdx := goal[refs[j].eventIdx]], events, goal, refs, j + 1)
  {
  }

  /** The loop that writes the kinds into the queued events. */
  method FillKinds(events: seq<ChangeEvent>, refs: seq<KindRef>, kinds: map<string, string>, ghost changes: seq<Located>)
    returns (r: seq<ChangeEvent>)
    requires |events| == |changes| && RefsMatch(refs, changes)
    requires forall i :: 0 <= i < |events| ==> events[i].kind == ""
    ensures r == Filled(events, changes, kinds)
  {
    ghost var goal := Filled(events, changes, kinds);
    r := events;
    for j := 0 to |refs|
      invariant PartlyFilled(r, events, goal, refs, j)
    {
      assert RefMatches(refs[j], changes);
      var i := refs[j].eventIdx;
      FillOne(r, events, goal, refs, j);
      r := r[i := r[i].(kind := KindIn(kinds, refs[j].objectName))];
    }
    FilledEverywhere(r, events, refs, kinds, changes);
  }

  ghost predicate TimeSorted(s: seq<ChangeEvent>) {
    forall i, j :: 0 <= i < j < |s| ==> s[i].timestamp <= s[j].timestamp
  }

  lemma InsertedIsSorted(s: seq<ChangeEvent>, n: nat, e: ChangeEvent)
    requires TimeSorted(s) && n <= |s|
    requires n > 0 ==> s[n - 1].timestamp <= e.timestamp
    requires n < |s| ==> e.timestamp <= s[n].timestamp
    ensures TimeSorted(s[..n] + [e] + s[n..])
  {
  }

  method InsertByTime(s: seq<ChangeEvent>, e: ChangeEvent) returns (r: seq<ChangeEvent>)
    requires TimeSorted(s)
    ensures TimeSorted(r) && multiset(r) == multiset(s) + multiset{e}
  {
    var n := |s|;
    while n > 0 && s[n - 1].timestamp > e.timestamp
      invariant 0 <= n <= |s|
      invariant n < |s| ==> s[n].timestamp > e.timestamp
    {
      n := n - 1;
    }
    InsertedIsSorted(s, n, e);
    assert s == s[..n] + s[n..];
    r := s[..n] + [e] + s[n..];
  }

  /** sort.Slice by time: some sorted permutation. */
  method SortByTime(events: seq<ChangeEvent>) returns (r: seq<ChangeEvent>)
    ensures TimeSorted(r) && multiset(r) == multiset(events)
  {
    r := [];
    for i := 0 to |events|
      invariant TimeSorted(r) && multiset(r) == multiset(events[..i])
    {
      assert events[..i + 1] == events[..i] + [events[i]];
      r := InsertByTime(r, events[i]);
    }
    assert events[..|events|] == events;
  }

  lemma {:induction false} EventsStartWithoutKind(s: Settings, changes: seq<Located>)
    ensures forall i :: 0 <= i < |changes| ==> EventsOf(s, changes)[i].kind == ""
  {
    if changes != [] {
      EventsStartWithoutKind(s, changes[..|changes| - 1]);
    }
  }

  /** The outcome of a build: time order, and each parsed change with the kind read for it. */
  ghost predicate Built(s: Settings, out: string, catFile: seq<string> -> string, r: Option<seq<ChangeEvent>>) {
    var changes := RelevantOnly(s, ChangesIn(Split(out, '\n'), "", ""));
    var kinds := KindsFor(NamesOf(RefsOf(changes)), catFile);
    if r.None? then kinds.None?
    else
      kinds.Some? && TimeSorted(r.value)
      && multiset(r.value) == multiset(Filled(EventsOf(s, changes), changes, kinds.value))
  }

  /** The change index is built from the log's text and git's answers; a reader panic ends the process. */
  method BuildEvents(s: Settings, out: string, catFile: seq<string> -> string) returns (r: Option<seq<ChangeEvent>>)
    ensures Built(s, out, catFile, r)
  {
    var events, refs := ParseLog(s, out);
    ghost var changes := RelevantOnly(s, ChangesIn(Split(out, '\n'), "", ""));
    var kinds := BatchReadKinds(NamesOf(refs), catFile);
    if kinds.None? {
      return None;
    }
    EventsStartWithoutKind(s, changes);
    RefsPointAtChanges(changes);
    var filled := FillKinds(events, refs, kinds.value, changes);
    var sorted := SortByTime(filled);
    return Some(sorted);
  }

  // ----- The whole pipeline against the repository -----

  /** The blobs of the repository by object name, each with its id and content. */
  type Blobs = map<string, (string, string)>

  function AnswerFor(blobs: Blobs, name: string): Answer {
    if name in blobs then Blob(blobs[name].0, blobs[name].1) else Missing(name)
  }

  function AnswersFor(blobs: Blobs, names: seq<string>): (r: seq<Answer>)
    ensures |r| == |names| && forall i :: 0 <= i < |r| ==> r[i] == AnswerFor(blobs, names[i])
  {
    seq(|names|, i requires 0 <= i < |names| => AnswerFor(blobs, names[i]))
  }

  /** The kind of a change's own file in its own commit. */
  function OwnKind(blobs: Blobs, c: Change): string {
    if c.status != 'D' && ObjectName(c) in blobs then KindFromYAML(blobs[ObjectName(c)].1) else ""
  }

  /** Object names can be sent to git, and a name git does not know takes nothing from other entries. */
  ghost predicate Lookable(blobs: Blobs, changes: seq<Located>) {
    forall i :: 0 <= i < |changes| && changes[i].change.status != 'D' ==>
      var name := ObjectName(changes[i].change);
      && '\n' !in name
      && (name in blobs ==> blobs[name].0 != "" && NoSpace(blobs[name].0))
      && (name !in blobs ==> KeepsStep(name))
  }

  /** The names sent to git are those of the changes that are not deletions. */
  lemma {:induction false} NamesOfChanges(changes: seq<Located>)
    ensures NamesOnly(changes, Dedup(NamesOf(RefsOf(changes))))
    ensures forall i :: 0 <= i < |changes| && changes[i].change.status != 'D' ==>
      ObjectName(changes[i].change) in Dedup(NamesOf(RefsOf(changes)))
  {
    var refs := RefsOf(changes);
    var names := Dedup(NamesOf(refs));
    RefsPointAtChanges(changes);
    DedupIsDistinct(NamesOf(refs));
    forall i | 0 <= i < |names| ensures Names(changes, names[i]) {
      assert names[i] in NamesOf(refs);
      var j :| 0 <= j < |refs| && refs[j].objectName == names[i];
      assert RefMatches(refs[j], changes);
      assert names[i] == ObjectName(changes[refs[j].eventIdx].change);
    }
    forall i | 0 <= i < |changes| && changes[i].change.status != 'D' ensures ObjectName(changes[i].change) in names {
      assert HasRef(refs, i);
      var j :| 0 <= j < |refs| && refs[j].eventIdx == i;
      assert RefMatches(refs[j], changes) && NamesOf(refs)[j] == ObjectName(changes[i].change);
    }
  }

  ghost predicate Names(changes: seq<Located>, name: string) {
    exists k :: 0 <= k < |changes| && changes[k].change.status != 'D' && name == ObjectName(changes[k].change)
  }

  ghost predicate NamesOnly(changes: seq<Located>, names: seq<string>) {
    forall i :: 0 <= i < |names| ==> Names(changes, names[i])
  }

  lemma NamesAreLookable(blobs: Blobs, changes: seq<Located>, names: seq<string>)
    requires Lookable(blobs, changes) && NamesOnly(changes, names)
    ensures Answers(names, AnswersFor(blobs, names)) && AllKeepStep(AnswersFor(blobs, names))
  {
    forall i | 0 <= i < |names|
      ensures
        var a := AnswerFor(blobs, names[i]);
        WellFormed(a) && (a.Missing? ==> a.name == names[i] && KeepsStep(names[i]))
    {
      var k :| 0 <= k < |changes| && changes[k].change.status != 'D' && names[i] == ObjectName(changes[k].change);
    }
  }

  lemma OwnKindFound(blobs: Blobs, names: seq<string>, kinds: map<string, string>, c: Change)
    requires OwnKinds(names, AnswersFor(blobs, names), kinds)
    requires c.status != 'D' ==> ObjectName(c) in names
    ensures KindAt(c, kinds) == OwnKind(blobs, c)
  {
    if c.status != 'D' {
      var j :| 0 <= j < |names| && names[j] == ObjectName(c);
      assert AnswersFor(blobs, names)[j] == AnswerFor(blobs, names[j]);
    }
  }

  /** Every change gets the kind of its own file at its own commit. */
  lemma {:induction false} KindsAreOwn(blobs: Blobs, changes: seq<Located>, catFile: seq<string> -> string)
    requires Lookable(blobs, changes)
    requires forall names :: catFile(names) == EncodeAll(AnswersFor(blobs, names))
    ensures
      var kinds := KindsFor(NamesOf(RefsOf(changes)), catFile);
      && kinds.Some?
      && forall i :: 0 <= i < |changes| ==> KindAt(changes[i].change, kinds.value) == OwnKind(blobs, changes[i].change)
  {
    var refs := NamesOf(RefsOf(changes));
    var names := Dedup(refs);
    NamesOfChanges(changes);
    NamesAreLookable(blobs, changes, names);
    if refs != [] {
      ReaderStaysInStep(refs, AnswersFor(blobs, names));
      var kinds := KindsFor(refs, catFile).value;
      forall i | 0 <= i < |changes| ensures KindAt(changes[i].change, kinds) == OwnKind(blobs, changes[i].change) {
        OwnKindFound(blobs, names, kinds, changes[i].change);
      }
    }
  }

  /**
   The kind recorded for a change is that of its document exactly when the line that
   names it ends within the first 512 bytes, if no line before it reads as a kind.
   */
  lemma {:induction false} RecordedKindIff(blobs: Blobs, c: Change, before: seq<string>, k: string, rest: string)
    requires c.status != 'D' && ObjectName(c) in blobs && blobs[ObjectName(c)].1 == Manifest(before, k, rest)
    requires Kindless(before) && PlainValue(k)
    ensures OwnKind(blobs, c) == k <==> |Ended(before)| + 6 + |k| <= 512
  {
    OwnKindReadIff(before, k, rest);
  }

  /** Each event with the kind of its own change's file. */
  function History(events: seq<ChangeEvent>, changes: seq<Located>, blobs: Blobs): (r: seq<ChangeEvent>)
    requires |events| == |changes|
    ensures |r| == |events|
    ensures forall i :: 0 <= i < |r| ==> r[i] == events[i].(kind := OwnKind(blobs, changes[i].change))
  {
    if events == [] then []
    else [events[0].(kind := OwnKind(blobs, changes[0].change))] + History(events[1..], changes[1..], blobs)
  }

  lemma {:induction false} FilledIsHistory(events: seq<ChangeEvent>, changes: seq<Located>, blobs: Blobs, kinds: map<string, string>)
    requires |events| == |changes|
    requires forall i :: 0 <= i < |changes| ==> KindAt(changes[i].change, kinds) == OwnKind(blobs, changes[i].change)
    ensures Filled(events, changes, kinds) == History(events, changes, blobs)
  {
    var a, b := Filled(events, changes, kinds), History(events, changes, blobs);
    assert forall i :: 0 <= i < |changes| ==> a[i] == b[i];
  }

  /**
   End to end: on a printed log and a repository that answers for its blobs, the
   index holds exactly the relevant changes of the commits whose paths git does not
   quote, in order of time, each with the kind of its own file at its own commit; and
   the build does not panic.
   */
  lemma {:induction false} IndexHoldsTheHistory(
    s: Settings, commits: seq<LogCommit>, blobs: Blobs, catFile: seq<string> -> string, r: Option<seq<ChangeEvent>>)
    requires forall c :: c in commits ==> Printable(c)
    requires Lookable(blobs, RelevantOnly(s, Unquoted(LogChanges(commits))))
    requires forall names :: catFile(names) == EncodeAll(AnswersFor(blobs, names))
    requires Built(s, Join(LogLines(commits), '\n'), catFile, r)
    ensures r.Some? && TimeSorted(r.value)
    ensures
      var changes := RelevantOnly(s, Unquoted(LogChanges(commits)));
      multiset(r.value) == multiset(History(EventsOf(s, changes), changes, blobs))
  {
    var changes := RelevantOnly(s, Unquoted(LogChanges(commits)));
    PrintedLogParsesBack(commits);
    KeptAreUnquoted(s, LogChanges(commits));
    KindsAreOwn(blobs, changes, catFile);
    FilledIsHistory(EventsOf(s, changes), changes, blobs, KindsFor(NamesOf(RefsOf(changes)), catFile).value);
  }

  // ----- What the index holds, event by event -----

  predicate TypeFits(status: char, t: ChangeType) {
    if t.Added? then status == 'A' else if t.Deleted? then status == 'D' else status == 'M'
  }

  /** The kind read from a file at a commit; a deleted file and one git does not know have none. */
  predicate KindFits(blobs: Blobs, sha: string, path: string, status: char, kind: string) {
    if status != 'D' && sha + ":" + path in blobs then kind == KindFromYAML(blobs[sha + ":" + path].1) else kind == ""
  }

  /** The event says what one file of one commit does. */
  predicate Reports(s: Settings, blobs: Blobs, c: LogCommit, status: char, path: string, e: ChangeEvent) {
    && e.timestamp == s.parseTime(c.time) && e.sha == c.sha && e.cluster == s.cluster
    && TypeFits(status, e.changeType) && KindFits(blobs, c.sha, path, status, e.kind)
    && HasSuffix(path, ".yaml") && HasPrefix(path, s.prefix) && !Quoted(path)
    && var p := ParseResourcePath(path[|s.prefix|..]);
       p.Some? && (p.value.group, p.value.namespace, p.value.name) == (e.group, e.namespace, e.name)
  }

  lemma {:induction false} FileChangesIff(c: LogCommit, files: seq<(char, string)>, x: Change)
    ensures x in FileChanges(c, files) <==> x.sha == c.sha && x.time == c.time && (x.status, x.path) in files
  {
    if files != [] { FileChangesIff(c, files[1..], x); }
  }

  lemma {:induction false} LogChangesIff(commits: seq<LogCommit>, x: Change)
    ensures x in LogChanges(commits) <==>
      exists c :: c in commits && x.sha == c.sha && x.time == c.time && (x.status, x.path) in c.files
  {
    if commits != [] {
      FileChangesIff(commits[0], commits[0].files, x);
      LogChangesIff(commits[1..], x);
      assert forall c :: c in commits <==> c == commits[0] || c in commits[1..];
    }
  }

  lemma {:induction false} UnquotedIff(changes: seq<Change>, x: Change)
    ensures x in Unquoted(changes) <==> x in changes && !Quoted(x.path)
  {
    if changes != [] {
      var n := |changes| - 1;
      UnquotedIff(changes[..n], x);
      assert x in changes <==> x in changes[..n] || x == changes[n];
    }
  }

  lemma {:induction false} RelevantOnlyIff(s: Settings, changes: seq<Change>, l: Located)
    ensures l in RelevantOnly(s, changes) <==> l.change in changes && Relevant(s, l.change.path) && l == Locate(s, l.change)
  {
    if changes != [] {
      var n := |changes| - 1;
      RelevantOnlyIff(s, changes[..n], l);
      assert l.change in changes <==> l.change in changes[..n] || l.change == changes[n];
    }
  }

  lemma {:induction false} EventsOfAt(s: Settings, ls: seq<Located>, i: nat)
    requires i < |ls|
    ensures EventsOf(s, ls)[i] == EventOf(s, ls[i])
  {
    if i < |ls| - 1 { EventsOfAt(s, ls[..|ls| - 1], i); }
  }

  lemma {:induction false} HistoryIff(s: Settings, changes: seq<Located>, blobs: Blobs, e: ChangeEvent)
    ensures e in History(EventsOf(s, changes), changes, blobs) <==>
      exists l :: l in changes && e == EventOf(s, l).(kind := OwnKind(blobs, l.change))
  {
    var h := History(EventsOf(s, changes), changes, blobs);
    forall i | 0 <= i < |h| ensures h[i] == EventOf(s, changes[i]).(kind := OwnKind(blobs, changes[i].change)) {
      EventsOfAt(s, changes, i);
    }
    if e in h {
      var i :| 0 <= i < |h| && h[i] == e;
      assert changes[i] in changes;
    }
    if l :| l in changes && e == EventOf(s, l).(kind := OwnKind(blobs, l.change)) {
      var i :| 0 <= i < |changes| && changes[i] == l;
      assert h[i] == e;
    }
  }

  lemma EventReports(s: Settings, blobs: Blobs, c: LogCommit, status: char, path: string, e: ChangeEvent)
    requires PrintableFile((status, path)) && !Quoted(path)
    ensures
      var x := Change(c.sha, c.time, status, path);
      (Relevant(s, path) && e == EventOf(s, Locate(s, x)).(kind := OwnKind(blobs, x))) <==> Reports(s, blobs, c, status, path, e)
  {
  }

  /**
   The index holds an event exactly when some file of some commit does what it says:
   an unquoted resource path below the directory, with the commit's id and time, the
   group, namespace and name of the path, the type of its status and the kind of its
   own file.
   */
  lemma {:induction false} EventsAreReports(
    s: Settings, commits: seq<LogCommit>, blobs: Blobs, catFile: seq<string> -> string, r: Option<seq<ChangeEvent>>, e: ChangeEvent)
    requires forall c :: c in commits ==> Printable(c)
    requires Lookable(blobs, RelevantOnly(s, Unquoted(LogChanges(commits))))
    requires forall names :: catFile(names) == EncodeAll(AnswersFor(blobs, names))
    requires Built(s, Join(LogLines(commits), '\n'), catFile, r)
    ensures r.Some?
    ensures e in r.value <==>
      exists c, status, path :: c in commits && (status, path) in c.files && Reports(s, blobs, c, status, path, e)
  {
    var all := LogChanges(commits);
    var changes := RelevantOnly(s, Unquoted(all));
    IndexHoldsTheHistory(s, commits, blobs, catFile, r);
    HistoryIff(s, changes, blobs, e);
    assert e in r.value <==> e in multiset(r.value);
    assert e in History(EventsOf(s, changes), changes, blobs) <==> e in multiset(History(EventsOf(s, changes), changes, blobs));
    if e in r.value {
      var l :| l in changes && e == EventOf(s, l).(kind := OwnKind(blobs, l.change));
      ReportOfChange(s, commits, blobs, l, e);
    }
    if c, status, path :| c in commits && (status, path) in c.files && Reports(s, blobs, c, status, path, e) {
      ChangeOfReport(s, commits, blobs, c, status, path, e);
    }
  }

  lemma {:induction false} ReportOfChange(s: Settings, commits: seq<LogCommit>, blobs: Blobs, l: Located, e: ChangeEvent)
    requires forall c :: c in commits ==> Printable(c)
    requires l in RelevantOnly(s, Unquoted(LogChanges(commits)))
    requires e == EventOf(s, l).(kind := OwnKind(blobs, l.change))
    ensures exists c, status, path :: c in commits && (status, path) in c.files && Reports(s, blobs, c, status, path, e)
  {
    var x := l.change;
    RelevantOnlyIff(s, Unquoted(LogChanges(commits)), l);
    UnquotedIff(LogChanges(commits), x);
    LogChangesIff(commits, x);
    var c :| c in commits && x.sha == c.sha && x.time == c.time && (x.status, x.path) in c.files;
    assert Printable(c) && PrintableFile((x.status, x.path));
    EventReports(s, blobs, c, x.status, x.path, e);
  }

  lemma {:induction false} ChangeOfReport(
    s: Settings, commits: seq<LogCommit>, blobs: Blobs, c: LogCommit, status: char, path: string, e: ChangeEvent)
    requires c in commits && Printable(c) && (status, path) in c.files && Reports(s, blobs, c, status, path, e)
    ensures exists l ::
      l in RelevantOnly(s, Unquoted(LogChanges(commits))) && e == EventOf(s, l).(kind := OwnKind(blobs, l.change))
  {
    var x := Change(c.sha, c.time, status, path);
    assert PrintableFile((status, path));
    EventReports(s, blobs, c, status, path, e);
    LogChangesIff(commits, x);
    UnquotedIff(LogChanges(commits), x);
    RelevantOnlyIff(s, Unquoted(LogChanges(commits)), Locate(s, x));
  }

  /** In particular every change the daemon's commits make to a resource's file is an event with the resource's identity. */
  lemma ResourceChangeIsReported(
    s: Settings, blobs: Blobs, c: LogCommit, status: char, id: ResourceId, kind: string, t: ChangeType)
    requires WellNamed(id) && !Quoted(s.prefix + ResourcePath(id)) && TypeFits(status, t)
    requires KindFits(blobs, c.sha, s.prefix + ResourcePath(id), status, kind)
    ensures Reports(s, blobs, c, status, s.prefix + ResourcePath(id),
                    ChangeEvent(s.parseTime(c.time), c.sha, s.cluster, id.ApiGroup(), kind, id.namespace, id.name, t))
  {
    FoundIsRelevant(s, id);
    ParseInvertsLayout(id);
    assert (s.prefix + ResourcePath(id))[|s.prefix|..] == ResourcePath(id);
  }

  // ----- Losing step -----

  /** A cluster-scoped resource whose name has these words. */
  function SpacedId(group: string, version: string, resource: string, n: nat): ResourceId {
    ResourceId(group, version, false, "", resource, "x" + SpacedTail(n))
  }

  function SpacedTail(n: nat): string {
    " blob " + Dec(n) + " y"
  }

  lemma SpacedIdIsFine(group: string, version: string, resource: string, n: nat)
    requires PathElement(group) && PathElement(version) && PathElement(resource)
    ensures WellNamed(SpacedId(group, version, resource, n))
  {
    AtoiInvertsDec(n);
    var name := SpacedId(group, version, resource, n).name;
    assert name[0] == 'x' && |name| > 2;
  }

  lemma {:induction false} NoSpaceJoin(parts: seq<string>)
    requires forall p :: p in parts ==> NoSpace(p)
    ensures NoSpace(Join(parts, '/'))
  {
    if |parts| > 1 {
      NoSpaceJoin(parts[1..]);
      assert NoSpace(parts[0]);
    } else if |parts| == 1 {
      assert NoSpace(parts[0]);
    }
  }

  /** The object name of such a resource's file, up to the first space; `head` is the commit and the directory. */
  function FirstWord(head: string, group: string, version: string, resource: string): string {
    head + Join([group, version, resource, "x"], '/')
  }

  lemma {:induction false} SpacedObjectName(head: string, group: string, version: string, resource: string, n: nat)
    requires group != ""
    ensures head + ResourcePath(SpacedId(group, version, resource, n)) ==
            Three(FirstWord(head, group, version, resource), "blob", Dec(n)) + " " + "y.yaml"
  {
    var dir, tail := [group, version, resource], SpacedTail(n) + ".yaml";
    JoinAppendsToLast(dir, "x", tail, '/');
    assert "x" + SpacedTail(n) + ".yaml" == "x" + tail;
    assert PathParts(SpacedId(group, version, resource, n)) == dir + ["x" + tail];
    assert dir + ["x"] == [group, version, resource, "x"];
    WordsOf(FirstWord(head, group, version, resource), n);
  }

  lemma {:induction false} WordsOf(first: string, n: nat)
    ensures first + (SpacedTail(n) + ".yaml") == Three(first, "blob", Dec(n)) + " " + "y.yaml"
  {
  }

  /** The object name of such a resource's file, in any directory. */
  function SpacedName(s: Settings, sha: string, group: string, version: string, resource: string, n: nat): string {
    sha + ":" + (s.prefix + ResourcePath(SpacedId(group, version, resource, n)))
  }

  lemma SpacedNameLooks(s: Settings, sha: string, group: string, version: string, resource: string, n: nat)
    requires NoSpace(sha) && NoSpace(s.prefix) && group != ""
    requires NoSpace(group) && NoSpace(version) && NoSpace(resource)
    ensures
      var name := SpacedName(s, sha, group, version, resource, n);
      '\n' !in name && LooksLikeBlob(name) && SizeRead(name) == n
  {
    var head, path := sha + ":" + s.prefix, ResourcePath(SpacedId(group, version, resource, n));
    assert SpacedName(s, sha, group, version, resource, n) == head + path;
    SpacedObjectName(head, group, version, resource, n);
    NoSpaceJoin([group, version, resource, "x"]);
    LookalikeName(FirstWord(head, group, version, resource), n, "y.yaml");
  }

  /**
   For every entry that may come next there is a resource of any type, say a cluster
   role, whose file the reader asks for, and which makes it lose that entry when git
   does not have the file.
   */
  lemma SpacedPathLosesStep(
    s: Settings, sha: string, time: string, group: string, version: string, resource: string, next: Answer, other: string)
    requires NoSpace(sha) && NoSpace(s.prefix)
    requires PathElement(group) && PathElement(version) && PathElement(resource)
    requires NoSpace(group) && NoSpace(version) && NoSpace(resource)
    ensures
      var c := Change(sha, time, 'M', s.prefix + ResourcePath(SpacedId(group, version, resource, |Encode(next)|)));
      var name := ObjectName(c);
      && Relevant(s, c.path) && '\n' !in name && !KeepsStep(name)
      && (other != name ==>
            var r := ReadAll([name, other], EncodeAll([Missing(name), next]), map[]);
            r.Some? && other !in r.value)
  {
    var n := |Encode(next)|;
    var name := SpacedName(s, sha, group, version, resource, n);
    SpacedIdIsFine(group, version, resource, n);
    FoundIsRelevant(s, SpacedId(group, version, resource, n));
    SpacedNameLooks(s, sha, group, version, resource, n);
    assert n > 0;
    if other != name { LookalikeSwallowsNext(name, other, next); }
  }
}

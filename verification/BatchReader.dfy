/**
 Reading the output of `git cat-file --batch`: one header line per object, and for
 blobs as many bytes as the header says (section "BATCH OUTPUT" of git-cat-file(1)).
 */
module BatchReader {
  import opened Wrappers
  import opened Strings
  import opened Kinds

  // ----- One entry -----

  datatype Step =
    | Stop                               // a read failed: the loop ends
    | Panic                              // a negative buffer size
    | Skip(rest: string)                 // no content follows this header
    | Found(rest: string, kind: string)

  function LineLength(s: string): (n: nat)
    ensures n <= |s| && (forall i :: 0 <= i < n ==> s[i] != '\n') && (n < |s| ==> s[n] == '\n')
  {
    if s == "" || s[0] == '\n' then 0 else 1 + LineLength(s[1..])
  }

  /** One turn of the reader loop on the rest of the stream. */
  function ReadEntry(s: string): Step {
    var n := LineLength(s);
    if n == |s| then Stop
    else
      var parts := Fields(TrimRightSet(s[..n + 1], {'\r', '\n'}));
      var rest := s[n + 1..];
      if |parts| < 3 || parts[1] != "blob" then Skip(rest)
      else ReadContent(rest, Atoi(parts[2]))
  }

  function ReadContent(rest: string, size: int): Step {
    var window := if size < WINDOW then size else WINDOW;
    if window < 0 then Panic
    else if |rest| < window then Stop
    else if |rest| < size then Stop
    else
      var after := rest[size..];
      Found(if after != "" && after[0] == '\n' then after[1..] else after, KindFromYAML(rest[..window]))
  }

  // ----- The protocol -----

  datatype Answer = Blob(oid: string, content: string) | Missing(name: string)

  predicate WellFormed(a: Answer) {
    match a
    case Blob(oid, _) => oid != "" && NoSpace(oid)
    case Missing(name) => '\n' !in name
  }

  function Encode(a: Answer): string {
    match a
    case Blob(oid, content) => Three(oid, "blob", Dec(|content|)) + "\n" + content + "\n"
    case Missing(name) => name + " missing\n"
  }

  /** The kind read from an answer: that of a blob's own first bytes. */
  function KindOf(a: Answer): string
    requires a.Blob?
  {
    KindFromYAML(a.content)
  }

  /** A name whose "missing" line reads like a blob header: its second field is `blob`. */
  predicate LooksLikeBlob(name: string) {
    |Fields(name)| >= 2 && Fields(name)[1] == "blob"
  }

  /** The size read from the third field of such a line; a field that is no number reads as 0. */
  function SizeRead(name: string): int
    requires LooksLikeBlob(name)
  {
    Atoi((Fields(name) + ["missing"])[2])
  }

  /** A missing name that takes nothing from the entries behind it. */
  predicate KeepsStep(name: string) {
    LooksLikeBlob(name) ==> SizeRead(name) == 0
  }

  lemma {:induction false} LineLengthOf(line: string, rest: string)
    requires '\n' !in line
    ensures LineLength(line + "\n" + rest) == |line|
  {
    if line == "" {
      assert (line + "\n" + rest)[0] == '\n';
    } else {
      assert (line + "\n" + rest)[1..] == line[1..] + "\n" + rest;
      LineLengthOf(line[1..], rest);
    }
  }

  /** How a complete header line is taken apart. */
  lemma {:induction false} ReadHeader(line: string, rest: string)
    requires '\n' !in line
    ensures
      var parts := Fields(line);
      ReadEntry(line + "\n" + rest) ==
      if |parts| < 3 || parts[1] != "blob" then Skip(rest) else ReadContent(rest, Atoi(parts[2]))
  {
    var s := line + "\n" + rest;
    LineLengthOf(line, rest);
    assert s[..|line| + 1] == line + "\n" && s[|line| + 1..] == rest;
    FieldsIgnoreTrimmed(line + "\n", {'\r', '\n'});
    FieldsConcat(line, '\n', "");
    assert line + ['\n'] + "" == line + "\n";
  }

  function BlobHeader(a: Answer): string
    requires a.Blob?
  {
    Three(a.oid, "blob", Dec(|a.content|))
  }

  lemma BlobHeaderFields(a: Answer)
    requires a.Blob? && WellFormed(a)
    ensures '\n' !in BlobHeader(a)
    ensures Fields(BlobHeader(a)) == [a.oid, "blob", Dec(|a.content|)]
    ensures Atoi(Dec(|a.content|)) == |a.content|
  {
    AtoiInvertsDec(|a.content|);
    FieldsOfThree(a.oid, "blob", Dec(|a.content|));
  }

  /** The content is taken by its length, and one line end after it. */
  lemma ReadWholeContent(content: string, rest: string)
    ensures ReadContent(content + "\n" + rest, |content|) == Found(rest, KindFromYAML(content))
  {
    var body := content + "\n" + rest;
    assert body[|content|..] == "\n" + rest && ("\n" + rest)[1..] == rest;
    var window := if |content| < WINDOW then |content| else WINDOW;
    assert body[..window] == content[..window];
    assert |content| < WINDOW ==> content[..window] == content;
    assert content[..window][..window] == content[..window];
  }

  /** A blob entry is read whole, whatever its bytes, and leaves exactly what follows it. */
  lemma BlobIsReadWhole(a: Answer, rest: string)
    requires a.Blob? && WellFormed(a)
    ensures ReadEntry(Encode(a) + rest) == Found(rest, KindOf(a))
  {
    var body := a.content + "\n" + rest;
    assert Encode(a) + rest == BlobHeader(a) + "\n" + body;
    BlobHeaderFields(a);
    ReadHeader(BlobHeader(a), body);
    ReadWholeContent(a.content, rest);
  }

  lemma {:induction false} MissingFields(name: string)
    ensures Fields(name + " missing") == Fields(name) + ["missing"]
  {
    FieldsSnoc(name, "missing");
    assert name + " " + "missing" == name + " missing";
  }

  /** A missing entry is passed over, and nothing else, exactly when it does not read like a blob header. */
  lemma MissingIsSkippedIff(name: string, rest: string)
    requires '\n' !in name
    ensures ReadEntry(Encode(Missing(name)) + rest) == Skip(rest) <==> !LooksLikeBlob(name)
  {
    assert Encode(Missing(name)) + rest == name + " missing" + "\n" + rest;
    MissingFields(name);
    ReadHeader(name + " missing", rest);
  }

  predicate LeavesExactly(r: Step, rest: string) {
    r == Skip(rest) || (r.Found? && r.rest == rest)
  }

  lemma EmptyContent(rest: string)
    requires rest != "" ==> rest[0] != '\n'
    ensures ReadContent(rest, 0) == Found(rest, "")
  {
    assert rest[0..] == rest && rest[..0] == "";
    assert KindFromYAML("") == "" by { assert Split("", '\n') == [""] && FirstKind([""]) == FirstKind([""][1..]); }
  }

  lemma LookalikeIsRead(name: string, rest: string)
    requires '\n' !in name && LooksLikeBlob(name)
    ensures ReadEntry(Encode(Missing(name)) + rest) == ReadContent(rest, SizeRead(name))
  {
    var line := name + " missing";
    assert Encode(Missing(name)) + rest == line + "\n" + rest;
    MissingFields(name);
    ReadHeader(line, rest);
  }

  /** A missing entry leaves exactly what follows it if and only if its name keeps step. */
  lemma MissingLeavesRestIff(name: string, rest: string)
    requires '\n' !in name && (rest != "" ==> rest[0] != '\n')
    ensures LeavesExactly(ReadEntry(Encode(Missing(name)) + rest), rest) <==> KeepsStep(name)
    ensures KeepsStep(name) && LooksLikeBlob(name) ==> ReadEntry(Encode(Missing(name)) + rest) == Found(rest, "")
  {
    MissingIsSkippedIff(name, rest);
    if LooksLikeBlob(name) {
      LookalikeIsRead(name, rest);
      if SizeRead(name) == 0 { EmptyContent(rest); }
    }
  }

  // ----- The whole stream -----

  function EncodeAll(answers: seq<Answer>): string {
    if answers == [] then "" else Encode(answers[0]) + EncodeAll(answers[1..])
  }

  ghost predicate AllWellFormed(answers: seq<Answer>) {
    forall i :: 0 <= i < |answers| ==> WellFormed(answers[i])
  }

  /** No missing entry takes bytes of another one. */
  ghost predicate AllKeepStep(answers: seq<Answer>) {
    forall i :: 0 <= i < |answers| && answers[i].Missing? ==> KeepsStep(answers[i].name)
  }

  lemma {:induction false} StreamStart(answers: seq<Answer>)
    requires AllWellFormed(answers)
    ensures EncodeAll(answers) != "" ==> EncodeAll(answers)[0] != '\n'
  {
    if answers != [] {
    }
  }

  /** What one entry leads to in front of others. */
  lemma {:induction false} EntryInStream(a: Answer, rest: seq<Answer>)
    requires WellFormed(a) && AllWellFormed(rest)
    ensures LeavesExactly(ReadEntry(Encode(a) + EncodeAll(rest)), EncodeAll(rest)) <==> (a.Missing? ==> KeepsStep(a.name))
  {
    StreamStart(rest);
    if a.Blob? { BlobIsReadWhole(a, EncodeAll(rest)); } else { MissingLeavesRestIff(a.name, EncodeAll(rest)); }
  }

  /** What is left to read after some turns of the loop; none when it has ended. */
  function After(s: string, turns: nat): Option<string> {
    if turns == 0 then Some(s)
    else
      match ReadEntry(s)
      case Stop => None
      case Panic => None
      case Skip(rest) => After(rest, turns - 1)
      case Found(rest, _) => After(rest, turns - 1)
  }

  ghost predicate InStep(answers: seq<Answer>) {
    forall n :: 0 <= n <= |answers| ==> InStepAt(answers, n)
  }

  ghost predicate InStepAt(answers: seq<Answer>, n: nat)
    requires n <= |answers|
  {
    After(EncodeAll(answers), n) == Some(EncodeAll(answers[n..]))
  }

  /** On any well-formed stream the reader stands at the start of the right entry at every turn iff all names keep step. */
  lemma {:induction false} InStepIff(answers: seq<Answer>)
    requires AllWellFormed(answers)
    ensures InStep(answers) <==> AllKeepStep(answers)
  {
    if answers == [] {
      assert forall n :: 0 <= n <= |answers| ==> answers[n..] == answers;
    } else {
      var a, rest := answers[0], answers[1..];
      InStepIff(rest);
      EntryInStream(a, rest);
      assert AllKeepStep(answers) <==> (a.Missing? ==> KeepsStep(a.name)) && AllKeepStep(rest) by {
        assert forall i :: 0 < i < |answers| ==> answers[i] == rest[i - 1];
      }
      assert answers[0..] == answers;
      if a.Missing? ==> KeepsStep(a.name) {
        forall n | 0 <= n < |answers| ensures InStepAt(answers, n + 1) <==> InStepAt(rest, n) {
          assert answers[n + 1..] == rest[n..];
        }
        if InStep(rest) {
          forall n | 0 <= n <= |answers| ensures InStepAt(answers, n) { if n > 0 { assert InStepAt(rest, n - 1); } }
        }
        if InStep(answers) {
          forall n | 0 <= n <= |rest| ensures InStepAt(rest, n) { assert InStepAt(answers, n + 1); }
        }
      } else {
        OneTurn(EncodeAll(answers));
        assert !InStepAt(answers, 1);
      }
    }
  }

  lemma {:induction false} OneTurn(s: string)
    ensures
      var r := ReadEntry(s);
      After(s, 1) == if r.Skip? || r.Found? then Some(r.rest) else None
  {
    if ReadEntry(s).Skip? || ReadEntry(s).Found? { assert After(ReadEntry(s).rest, 0) == Some(ReadEntry(s).rest); }
  }

  /** The reader loop: the kinds found for a list of requested names, or a panic. */
  function ReadAll(names: seq<string>, s: string, kinds: map<string, string>): Option<map<string, string>>
    decreases |names|
  {
    if names == [] then Some(kinds)
    else
      match ReadEntry(s)
      case Stop => Some(kinds)
      case Panic => None
      case Skip(rest) => ReadAll(names[1..], rest, kinds)
      case Found(rest, kind) => ReadAll(names[1..], rest, kinds[names[0] := kind])
  }

  function Dedup(names: seq<string>): seq<string> {
    if names == [] then []
    else
      var init, last := Dedup(names[..|names| - 1]), names[|names| - 1];
      if last in init then init else init + [last]
  }

  /** batchReadKinds, over any behaviour of the git process. */
  method BatchReadKinds(refs: seq<string>, catFile: seq<string> -> string) returns (kinds: Option<map<string, string>>)
    ensures refs == [] ==> kinds == Some(map[])
    ensures refs != [] ==> kinds == ReadAll(Dedup(refs), catFile(Dedup(refs)), map[])
  {
    if |refs| == 0 {
      return Some(map[]);
    }
    var ordered: seq<string> := [];
    for i := 0 to |refs|
      invariant ordered == Dedup(refs[..i])
    {
      assert refs[..i + 1][..i] == refs[..i];
      if refs[i] !in ordered {
        ordered := ordered + [refs[i]];
      }
    }
    assert refs[..|refs|] == refs;
    var rest, found := catFile(ordered), map[];
    for i := 0 to |ordered|
      invariant ReadAll(ordered[i..], rest, found) == ReadAll(ordered, catFile(ordered), map[])
    {
      assert ordered[i..][1..] == ordered[i + 1..];
      match ReadEntry(rest)
      case Stop => return Some(found);
      case Panic => return None;
      case Skip(rest') => rest := rest';
      case Found(rest', kind) => rest, found := rest', found[ordered[i] := kind];
    }
    return Some(found);
  }

  lemma {:induction false} DedupIsDistinct(names: seq<string>)
    ensures Distinct(Dedup(names))
    ensures forall n :: n in Dedup(names) <==> n in names
  {
    if names != [] {
      var init, last := names[..|names| - 1], names[|names| - 1];
      assert names == init + [last];
      DedupIsDistinct(init);
    }
  }

  ghost predicate Distinct(names: seq<string>) {
    forall i, j :: 0 <= i < j < |names| ==> names[i] != names[j]
  }

  /** An answer for each name in order; a missing answer repeats the name it was asked for. */
  ghost predicate Answers(names: seq<string>, answers: seq<Answer>) {
    && |answers| == |names|
    && forall i :: 0 <= i < |names| ==>
         WellFormed(answers[i]) && (answers[i].Missing? ==> answers[i].name == names[i])
  }

  /** The kind an answer stands for; none for a missing object. */
  function KindFor(a: Answer): string {
    if a.Blob? then KindOf(a) else ""
  }

  function KindIn(kinds: map<string, string>, name: string): string {
    if name in kinds then kinds[name] else ""
  }

  /** Each name is looked up as the kind in its own blob, and a missing name as none. */
  ghost predicate OwnKinds(names: seq<string>, answers: seq<Answer>, kinds: map<string, string>)
    requires |answers| == |names|
  {
    && (forall i :: 0 <= i < |names| ==> KindIn(kinds, names[i]) == KindFor(answers[i]))
    && forall n :: n in kinds ==> n in names
  }

  /** The map after one entry; only a missing name that looks like a header is recorded, without a kind. */
  function Noted(kinds: map<string, string>, name: string, a: Answer): map<string, string> {
    if a.Blob? || LooksLikeBlob(name) then kinds[name := KindFor(a)] else kinds
  }

  function OwnKindMap(names: seq<string>, answers: seq<Answer>, kinds: map<string, string>): map<string, string>
    requires |answers| == |names|
  {
    if names == [] then kinds else OwnKindMap(names[1..], answers[1..], Noted(kinds, names[0], answers[0]))
  }

  lemma {:induction false} ReadAllStaysInStep(names: seq<string>, answers: seq<Answer>, kinds: map<string, string>)
    requires Answers(names, answers) && AllKeepStep(answers)
    ensures ReadAll(names, EncodeAll(answers), kinds) == Some(OwnKindMap(names, answers, kinds))
    decreases |names|
  {
    if names != [] {
      var rest := EncodeAll(answers[1..]);
      assert Answers(names[1..], answers[1..]) && AllKeepStep(answers[1..]);
      StreamStart(answers[1..]);
      if answers[0].Blob? {
        BlobIsReadWhole(answers[0], rest);
      } else {
        MissingIsSkippedIff(names[0], rest);
        MissingLeavesRestIff(names[0], rest);
      }
      ReadAllStaysInStep(names[1..], answers[1..], Noted(kinds, names[0], answers[0]));
    }
  }

  lemma {:induction false} OwnKindMapIsRight(names: seq<string>, answers: seq<Answer>, kinds: map<string, string>)
    requires |answers| == |names| && Distinct(names)
    requires forall i :: 0 <= i < |names| ==> names[i] !in kinds
    ensures
      var r := OwnKindMap(names, answers, kinds);
      && (forall i :: 0 <= i < |names| ==> KindIn(r, names[i]) == KindFor(answers[i]))
      && (forall n :: n in r ==> n in kinds || n in names)
      && (forall n :: n !in names ==> (n in r <==> n in kinds) && KindIn(r, n) == KindIn(kinds, n))
    decreases |names|
  {
    if names != [] {
      var rest := names[1..];
      assert names == [names[0]] + rest && names[0] !in rest;
      OwnKindMapIsRight(rest, answers[1..], Noted(kinds, names[0], answers[0]));
      var r := OwnKindMap(names, answers, kinds);
      forall i | 0 <= i < |names| ensures KindIn(r, names[i]) == KindFor(answers[i]) {
        if i > 0 { assert names[i] == rest[i - 1] && answers[i] == answers[1..][i - 1]; }
      }
    }
  }

  /**
   On any well-formed stream for the requested names, whatever bytes the blobs
   hold, each name gets the kind of its own blob and a missing name none, as long as
   every missing name keeps step.
   */
  lemma {:induction false} ReaderStaysInStep(refs: seq<string>, answers: seq<Answer>)
    requires Answers(Dedup(refs), answers) && AllKeepStep(answers)
    ensures
      var r := ReadAll(Dedup(refs), EncodeAll(answers), map[]);
      r.Some? && OwnKinds(Dedup(refs), answers, r.value)
  {
    var names := Dedup(refs);
    DedupIsDistinct(refs);
    ReadAllStaysInStep(names, answers, map[]);
    OwnKindMapIsRight(names, answers, map[]);
  }

  lemma EncodeTwo(a: Answer, b: Answer)
    ensures EncodeAll([a, b]) == Encode(a) + Encode(b)
  {
    assert [a, b][1..] == [b] && [b][1..] == [];
    assert EncodeAll([b]) == Encode(b) + EncodeAll([]) && EncodeAll([]) == "";
    assert Encode(b) + "" == Encode(b);
  }

  lemma TakeAllContent(tail: string)
    ensures ReadContent(tail, |tail|) == Found("", KindOf(Blob("", tail)))
  {
    assert tail[|tail|..] == "";
    var window := if |tail| < WINDOW then |tail| else WINDOW;
    assert |tail| < WINDOW ==> tail[..window] == tail;
    assert tail[..window][..window] == tail[..window];
  }

  /** A missing name that reads like a blob header takes the bytes after it as its content. */
  lemma LookalikeTakesContent(name: string, tail: string)
    requires '\n' !in name && LooksLikeBlob(name) && SizeRead(name) == |tail|
    ensures ReadEntry(Encode(Missing(name)) + tail) == Found("", KindOf(Blob("", tail)))
  {
    LookalikeIsRead(name, tail);
    TakeAllContent(tail);
  }

  lemma LookalikeSwallowsNext(name: string, other: string, next: Answer)
    requires '\n' !in name && LooksLikeBlob(name) && other != name && SizeRead(name) == |Encode(next)|
    ensures
      var r := ReadAll([name, other], EncodeAll([Missing(name), next]), map[]);
      r.Some? && other !in r.value
  {
    var first := ReadEntry(Encode(Missing(name)) + Encode(next));
    EncodeTwo(Missing(name), next);
    LookalikeTakesContent(name, Encode(next));
    assert ReadAll([name, other], EncodeAll([Missing(name), next]), map[]) ==
           ReadAll([other], "", map[name := first.kind]) by { assert [name, other][1..] == [other]; }
    assert ReadEntry("") == Stop;
  }

  /** A name of these words looks like a header of a blob of `n` bytes. */
  lemma {:induction false} LookalikeName(first: string, n: nat, last: string)
    requires IsWord(first) && IsWord(last)
    ensures
      var name := Three(first, "blob", Dec(n)) + " " + last;
      '\n' !in name && LooksLikeBlob(name) && SizeRead(name) == n
  {
    AtoiInvertsDec(n);
    FieldsOfThree(first, "blob", Dec(n));
    FieldsSnoc(Three(first, "blob", Dec(n)), last);
  }

  // ----- Truncated output -----

  /** A stream cut inside an entry ends the loop, or has already given that entry's own kind. */
  lemma CutEntry(a: Answer, cut: nat)
    requires WellFormed(a) && cut < |Encode(a)|
    ensures
      var r := ReadEntry(Encode(a)[..cut]);
      r == Stop || (a.Blob? && r == Found("", KindOf(a)))
  {
    if a.Missing? {
      assert Encode(a) == a.name + " missing" + "\n" + "";
      CutLine(a.name + " missing", "", cut);
    } else {
      CutBlob(a, cut);
    }
  }

  lemma CutBlob(a: Answer, cut: nat)
    requires a.Blob? && WellFormed(a) && cut < |Encode(a)|
    ensures ReadEntry(Encode(a)[..cut]) == Stop || ReadEntry(Encode(a)[..cut]) == Found("", KindOf(a))
  {
    var header, content := BlobHeader(a), a.content + "\n";
    BlobHeaderFields(a);
    assert Encode(a) == header + "\n" + content;
    CutLine(header, content, cut);
    if cut > |header| {
      var body := content[..cut - |header| - 1];
      ReadHeader(header, body);
      CutContent(a.content, body);
    }
  }

  /** A cut before the end of the header line leaves nothing to read. */
  lemma CutLine(header: string, content: string, cut: nat)
    requires '\n' !in header && cut < |header| + 1 + |content|
    ensures cut <= |header| ==> ReadEntry((header + "\n" + content)[..cut]) == Stop
    ensures cut > |header| ==>
      (header + "\n" + content)[..cut] == header + "\n" + content[..cut - |header| - 1]
  {
    if cut <= |header| {
      assert (header + "\n" + content)[..cut] == header[..cut];
    }
  }

  lemma CutContent(content: string, body: string)
    requires body <= content
    ensures ReadContent(body, |content|) == if body == content then Found("", KindFromYAML(content)) else Stop
  {
    if body == content {
      TakeAllContent(content);
    } else {
      assert |body| < |content|;
    }
  }

  ghost predicate IsOwnKind(names: seq<string>, answers: seq<Answer>, n: string, kind: string)
    requires |answers| == |names|
  {
    exists i :: 0 <= i < |names| && n == names[i] && kind == KindFor(answers[i])
  }

  lemma OwnKindOfTail(names: seq<string>, answers: seq<Answer>, n: string, kind: string)
    requires |answers| == |names| > 0 && IsOwnKind(names[1..], answers[1..], n, kind)
    ensures IsOwnKind(names, answers, n, kind)
  {
    var i :| 0 <= i < |names[1..]| && n == names[1..][i] && kind == KindFor(answers[1..][i]);
    assert n == names[i + 1] && kind == KindFor(answers[i + 1]);
  }

  /** If git dies and the stream is cut anywhere, every kind that was read is still the right one. */
  lemma {:induction false} TruncationNeverMisreads(
    names: seq<string>, answers: seq<Answer>, cut: nat, kinds: map<string, string>)
    requires Answers(names, answers) && AllKeepStep(answers) && cut <= |EncodeAll(answers)|
    ensures
      var r := ReadAll(names, EncodeAll(answers)[..cut], kinds);
      r.Some? && forall n :: n in r.value ==>
        (n in kinds && r.value[n] == kinds[n]) || IsOwnKind(names, answers, n, r.value[n])
    decreases |names|
  {
    if names != [] {
      var kinds' := Noted(kinds, names[0], answers[0]);
      var left := OneNameCut(names, answers, cut, kinds);
      TruncationNeverMisreads(names[1..], answers[1..], left, kinds');
      var r := ReadAll(names[1..], EncodeAll(answers[1..])[..left], kinds').value;
      forall n | n in r && !(n in kinds && r[n] == kinds[n]) ensures IsOwnKind(names, answers, n, r[n]) {
        if IsOwnKind(names[1..], answers[1..], n, r[n]) { OwnKindOfTail(names, answers, n, r[n]); }
      }
    }
  }

  /** The first name on a cut stream: the loop ends, or goes on with the rest of the names, cut where it was. */
  lemma OneNameCut(names: seq<string>, answers: seq<Answer>, cut: nat, kinds: map<string, string>) returns (left: nat)
    requires Answers(names, answers) && AllKeepStep(answers) && cut <= |EncodeAll(answers)| && names != []
    ensures Answers(names[1..], answers[1..]) && AllKeepStep(answers[1..]) && left <= |EncodeAll(answers[1..])|
    ensures
      var r := ReadAll(names, EncodeAll(answers)[..cut], kinds);
      || r == Some(kinds)
      || r == ReadAll(names[1..], EncodeAll(answers[1..])[..left], Noted(kinds, names[0], answers[0]))
  {
    var first, rest := Encode(answers[0]), EncodeAll(answers[1..]);
    left := if cut < |first| then 0 else cut - |first|;
    StreamStart(answers[1..]);
    CutStep(answers[0], rest, cut, rest[..left]);
  }

  /** One turn on a cut stream: it stops, or goes on just as on the whole stream. */
  lemma CutStep(a: Answer, rest: string, cut: nat, left: string)
    requires WellFormed(a) && (a.Missing? ==> KeepsStep(a.name)) && cut <= |Encode(a) + rest|
    requires rest != "" ==> rest[0] != '\n'
    requires left == rest[..if cut < |Encode(a)| then 0 else cut - |Encode(a)|]
    ensures
      var r := ReadEntry((Encode(a) + rest)[..cut]);
      r == Stop || r == if a.Blob? || LooksLikeBlob(a.name) then Found(left, KindFor(a)) else Skip(left)
  {
    if cut < |Encode(a)| {
      assert (Encode(a) + rest)[..cut] == Encode(a)[..cut];
      CutEntry(a, cut);
    } else {
      assert (Encode(a) + rest)[..cut] == Encode(a) + left;
      if a.Blob? {
        BlobIsReadWhole(a, left);
      } else {
        MissingIsSkippedIff(a.name, left);
        MissingLeavesRestIff(a.name, left);
      }
    }
  }
}

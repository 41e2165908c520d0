/**
 The kind of a resource file, as it is read off the first bytes of its text without
 parsing it, and when that is the kind of the document.
 */
module Kinds {
  import opened Strings

  const WINDOW := 512

  predicate ReadsAsKind(line: string) {
    HasPrefix(TrimSpace(line), "kind:")
  }

  function KindOfLine(line: string): string
    requires ReadsAsKind(line)
  {
    TrimSpace(TrimSpace(line)[5..])
  }

  function FirstKind(lines: seq<string>): string {
    if lines == [] then "" else if ReadsAsKind(lines[0]) then KindOfLine(lines[0]) else FirstKind(lines[1..])
  }

  /** kindFromYAML: the first line that starts with `kind:` in the first 512 bytes. */
  function KindFromYAML(content: string): string {
    FirstKind(Split(if |content| < WINDOW then content else content[..WINDOW], '\n'))
  }

  // ----- Lines that read as a kind -----

  lemma {:induction false} TrimRightKeepsStart(s: string, start: string)
    requires start != "" && !IsSpace(start[|start| - 1])
    ensures HasPrefix(TrimRight(s), start) <==> HasPrefix(s, start)
  {
    if s != "" && IsSpace(s[|s| - 1]) {
      TrimRightKeepsStart(s[..|s| - 1], start);
      assert HasPrefix(s, start) ==> s[|start| - 1] == start[|start| - 1];
    }
  }

  lemma {:induction false} TrimLeftOfCut(s: string, n: nat)
    requires n <= |s|
    ensures TrimLeft(s[..n]) <= TrimLeft(s)
  {
    if n > 0 && IsSpace(s[0]) {
      assert s[..n][1..] == s[1..][..n - 1];
      TrimLeftOfCut(s[1..], n - 1);
    }
  }

  lemma {:induction false} ReadsAsKindIff(line: string)
    ensures ReadsAsKind(line) <==> HasPrefix(TrimLeft(line), "kind:")
  {
    TrimRightKeepsStart(TrimLeft(line), "kind:");
  }

  /** No beginning of a line reads as a kind if the line does not. */
  lemma CutIsNoKind(line: string, n: nat)
    requires n <= |line| && !ReadsAsKind(line)
    ensures !ReadsAsKind(line[..n])
  {
    ReadsAsKindIff(line);
    ReadsAsKindIff(line[..n]);
    TrimLeftOfCut(line, n);
  }

  predicate AllSpace(s: string) {
    forall i :: 0 <= i < |s| ==> IsSpace(s[i])
  }

  lemma {:induction false} TrimIndent(indent: string, text: string)
    requires AllSpace(indent) && (text != "" ==> !IsSpace(text[0]))
    ensures TrimLeft(indent + text) == text
  {
    if indent == "" {
      assert indent + text == text;
    } else {
      assert (indent + text)[1..] == indent[1..] + text;
      TrimIndent(indent[1..], text);
    }
  }

  lemma {:induction false} TrimRightIsStart(s: string)
    ensures TrimRight(s) <= s
  {
    if s != "" && IsSpace(s[|s| - 1]) { TrimRightIsStart(s[..|s| - 1]); }
  }

  lemma {:induction false} TrimRightBehind(a: string, s: string)
    requires a != "" && !IsSpace(a[|a| - 1])
    ensures TrimRight(a + s) == a + TrimRight(s)
  {
    if s == "" {
      assert a + s == a;
    } else if IsSpace(s[|s| - 1]) {
      assert (a + s)[..|a + s| - 1] == a + s[..|s| - 1];
      TrimRightBehind(a, s[..|s| - 1]);
    }
  }

  /** The value of a kind line is the text behind the colon, trimmed. */
  lemma {:induction false} KindLineValue(indent: string, value: string)
    requires AllSpace(indent) && (value != "" ==> !IsSpace(value[0]))
    ensures ReadsAsKind(indent + "kind: " + value)
    ensures KindOfLine(indent + "kind: " + value) == TrimRight(value)
  {
    var line, text := indent + "kind: " + value, "kind:" + (" " + value);
    assert line == indent + text;
    TrimIndent(indent, text);
    TrimRightBehind("kind:", " " + value);
    ReadsAsKindIff(line);
    assert TrimSpace(line)[5..] == TrimRight(" " + value);
    SpaceIsTrimmed(value);
  }

  lemma {:induction false} SpaceIsTrimmed(value: string)
    requires value != "" ==> !IsSpace(value[0])
    ensures TrimSpace(TrimRight(" " + value)) == TrimRight(value)
  {
    if value == "" {
      assert " " + value == " " && " "[..0] == "";
    } else {
      var head, tail := value[..1], value[1..];
      assert value == head + tail && " " + value == (" " + head) + tail;
      TrimRightBehind(head, tail);
      TrimRightBehind(" " + head, tail);
      var trimmed := TrimRight(value);
      assert TrimRight(" " + value) == " " + trimmed;
      TrimIndent(" ", trimmed);
      TrimTwice(value);
    }
  }

  lemma {:induction false} TrimTwice(s: string)
    ensures TrimRight(TrimRight(s)) == TrimRight(s)
  {
    if s != "" && IsSpace(s[|s| - 1]) { TrimTwice(s[..|s| - 1]); }
  }

  // ----- Documents -----

  /** Lines, each with its line end. */
  function Ended(lines: seq<string>): string {
    if lines == [] then "" else lines[0] + "\n" + Ended(lines[1..])
  }

  /** Lines of their own that do not read as a kind. */
  predicate Kindless(lines: seq<string>) {
    forall l :: l in lines ==> '\n' !in l && !ReadsAsKind(l)
  }

  lemma {:induction false} KindlessLinesAreSkipped(before: seq<string>, rest: string)
    requires Kindless(before)
    ensures FirstKind(Split(Ended(before) + rest, '\n')) == FirstKind(Split(rest, '\n'))
  {
    if before == [] {
      assert Ended(before) + rest == rest;
    } else {
      var later := Ended(before[1..]) + rest;
      assert Ended(before) + rest == before[0] + ['\n'] + later;
      SplitPart(before[0], later, '\n');
      assert ([before[0]] + Split(later, '\n'))[1..] == Split(later, '\n');
      KindlessLinesAreSkipped(before[1..], rest);
    }
  }

  /** A text cut within such lines has no kind. */
  lemma {:induction false} CutWithinKindless(before: seq<string>, n: nat)
    requires Kindless(before) && n <= |Ended(before)|
    ensures FirstKind(Split(Ended(before)[..n], '\n')) == ""
    decreases |before|
  {
    if before == [] {
      OneLine("");
      assert !ReadsAsKind("");
    } else if n <= |before[0]| {
      var line := before[0][..n];
      assert Ended(before)[..n] == line;
      CutIsNoKind(before[0], n);
      OneLine(line);
    } else {
      var later := Ended(before[1..])[..n - |before[0]| - 1];
      assert Ended(before)[..n] == before[0] + ['\n'] + later;
      SplitPart(before[0], later, '\n');
      assert ([before[0]] + Split(later, '\n'))[1..] == Split(later, '\n');
      CutWithinKindless(before[1..], n - |before[0]| - 1);
    }
  }

  lemma {:induction false} OneLine(line: string)
    requires '\n' !in line
    ensures FirstKind(Split(line, '\n')) == if ReadsAsKind(line) then KindOfLine(line) else ""
  {
    SplitWhole(line, '\n');
    assert [line][1..] == [];
  }

  lemma {:induction false} FirstLine(line: string, rest: string)
    requires '\n' !in line && ReadsAsKind(line)
    ensures FirstKind(Split(line + "\n" + rest, '\n')) == KindOfLine(line)
  {
    assert line + "\n" + rest == line + ['\n'] + rest;
    SplitPart(line, rest, '\n');
  }

  predicate PlainValue(k: string) {
    k != "" && '\n' !in k && !IsSpace(k[0]) && !IsSpace(k[|k| - 1])
  }

  predicate Indent(s: string) {
    AllSpace(s) && '\n' !in s
  }

  function KindLine(indent: string, k: string): string {
    indent + "kind: " + k
  }

  lemma CutKindLine(indent: string, k: string, n: nat)
    requires Indent(indent) && PlainValue(k) && n < |KindLine(indent, k)|
    ensures FirstKind(Split(KindLine(indent, k)[..n], '\n')) != k
  {
    var line := KindLine(indent, k)[..n];
    assert '\n' !in KindLine(indent, k);
    OneLine(line);
    var start := |indent| + 6;
    if n >= start {
      var value := k[..n - start];
      assert line == indent + "kind: " + value;
      KindLineValue(indent, value);
      TrimRightIsStart(value);
    } else {
      assert line == (indent + "kind: ")[..n];
      NoValueYet(indent, n);
    }
  }

  lemma NoValueYet(indent: string, n: nat)
    requires AllSpace(indent) && n <= |indent| + 6
    ensures
      var line := (indent + "kind: ")[..n];
      ReadsAsKind(line) ==> KindOfLine(line) == ""
  {
    var whole := indent + "kind: ";
    var line := whole[..n];
    TrimIndent(indent, "kind: ");
    TrimLeftOfCut(whole, n);
    TrimRightIsStart(TrimLeft(line));
    if ReadsAsKind(line) {
      assert TrimSpace(line) <= "kind: ";
    }
  }

  /** The text of a document: lines that read as no kind, a kind line, and the rest. */
  function Document(before: seq<string>, indent: string, k: string, rest: string): string {
    Ended(before) + KindLine(indent, k) + "\n" + rest
  }

  /** The kind is read exactly when its line ends within the first 512 bytes; a line that starts behind them counts for nothing. */
  lemma {:induction false} KindReadIff(before: seq<string>, indent: string, k: string, rest: string)
    requires Kindless(before) && Indent(indent) && PlainValue(k)
    ensures KindFromYAML(Document(before, indent, k, rest)) == k <==> |Ended(before)| + |KindLine(indent, k)| <= WINDOW
    ensures |Ended(before)| >= WINDOW ==> KindFromYAML(Document(before, indent, k, rest)) == ""
  {
    var p, line, content := Ended(before), KindLine(indent, k), Document(before, indent, k, rest);
    var n := if |content| < WINDOW then |content| else WINDOW;
    assert content[..|content|] == content;
    if |p| + |line| <= WINDOW {
      KindInWindow(before, indent, k, rest, n);
    } else if n <= |p| {
      assert content[..n] == p[..n];
      CutWithinKindless(before, n);
    } else {
      assert content[..n] == p + line[..n - |p|];
      KindlessLinesAreSkipped(before, line[..n - |p|]);
      CutKindLine(indent, k, n - |p|);
    }
  }

  lemma CutBehind(a: string, line: string, rest: string, n: nat)
    requires |a| + |line| < n <= |a + line + "\n" + rest|
    ensures (a + line + "\n" + rest)[..n] == a + (line + "\n" + rest[..n - |a| - |line| - 1])
  {
  }

  lemma {:induction false} KindInWindow(before: seq<string>, indent: string, k: string, rest: string, n: nat)
    requires Kindless(before) && Indent(indent) && PlainValue(k)
    requires |Ended(before)| + |KindLine(indent, k)| <= n <= |Document(before, indent, k, rest)|
    ensures FirstKind(Split(Document(before, indent, k, rest)[..n], '\n')) == k
  {
    var p, line, cut := Ended(before), KindLine(indent, k), Document(before, indent, k, rest)[..n];
    KindLineValue(indent, k);
    assert '\n' !in line;
    if n == |p| + |line| {
      assert cut == p + line;
      KindlessLinesAreSkipped(before, line);
      OneLine(line);
    } else {
      var later := rest[..n - |p| - |line| - 1];
      CutBehind(p, line, rest, n);
      KindlessLinesAreSkipped(before, line + "\n" + later);
      FirstLine(line, later);
    }
  }

  /** A document whose kind stands at the start of a line, as at the top level of a mapping. */
  function Manifest(before: seq<string>, k: string, rest: string): string {
    Document(before, "", k, rest)
  }

  /** The document's own kind is read exactly when its line ends within the window. */
  lemma {:induction false} OwnKindReadIff(before: seq<string>, k: string, rest: string)
    requires Kindless(before) && PlainValue(k)
    ensures KindFromYAML(Manifest(before, k, rest)) == k <==> |Ended(before)| + 6 + |k| <= WINDOW
  {
    KindReadIff(before, "", k, rest);
  }

  lemma EndedOne(line: string)
    ensures Ended([line]) == line + "\n"
  {
    assert [line][1..] == [] && line + "\n" + "" == line + "\n";
  }

  lemma {:induction false} EndedConcat(a: seq<string>, b: seq<string>)
    ensures Ended(a + b) == Ended(a) + Ended(b)
  {
    if a == [] {
      assert a + b == b;
    } else {
      assert (a + b)[1..] == a[1..] + b;
      EndedConcat(a[1..], b);
    }
  }

  lemma {:induction false} EndedThree(before: seq<string>, line: string, between: seq<string>)
    ensures Ended(before + [line] + between) == Ended(before) + line + "\n" + Ended(between)
  {
    EndedConcat(before + [line], between);
    EndedConcat(before, [line]);
    EndedOne(line);
  }

  lemma {:induction false} ManifestAgain(before: seq<string>, line: string, between: seq<string>, k: string, rest: string)
    ensures Manifest(before + [line] + between, k, rest) ==
            Ended(before) + line + "\n" + (Ended(between) + KindLine("", k) + "\n" + rest)
  {
    EndedThree(before, line, between);
    assert Ended(before) + line + "\n" + Ended(between) + KindLine("", k) + "\n" + rest ==
           Ended(before) + line + "\n" + Ended(between) + KindLine("", k) + ("\n" + rest);
    assert Ended(between) + KindLine("", k) + "\n" + rest == Ended(between) + KindLine("", k) + ("\n" + rest);
  }

  /** A line before it that reads as a kind, at any depth, is taken instead. */
  lemma {:induction false} EarlierKindWins(before: seq<string>, indent: string, other: string, between: seq<string>, k: string, rest: string)
    requires Kindless(before) && Indent(indent) && PlainValue(other)
    requires |Ended(before)| + |KindLine(indent, other)| <= WINDOW
    ensures KindFromYAML(Manifest(before + [KindLine(indent, other)] + between, k, rest)) == other
  {
    var later := Ended(between) + KindLine("", k) + "\n" + rest;
    ManifestAgain(before, KindLine(indent, other), between, k, rest);
    KindReadIff(before, indent, other, later);
  }

  // ----- Config maps -----

  lemma StartsOtherwise(indent: string, text: string)
    requires AllSpace(indent) && text != "" && text[0] != 'k' && !IsSpace(text[0])
    ensures !ReadsAsKind(indent + text)
  {
    TrimIndent(indent, text);
    ReadsAsKindIff(indent + text);
  }

  lemma {:induction false} OneMoreLine(before: seq<string>, indent: string, text: string)
    requires Kindless(before) && Indent(indent) && '\n' !in text
    requires text != "" && text[0] != 'k' && !IsSpace(text[0])
    ensures Kindless(before + [indent + text])
    ensures |Ended(before + [indent + text])| == |Ended(before)| + |indent| + |text| + 1
  {
    StartsOtherwise(indent, text);
    EndedConcat(before, [indent + text]);
    EndedOne(indent + text);
  }

  /** The keys of a written object are sorted, so the data of a config map stands before its kind. */
  const TOP := ["" + "apiVersion: v1"] + ["" + "data:"]

  lemma TopLines()
    ensures Kindless(TOP) && |Ended(TOP)| == 21
  {
    var first, second := "apiVersion: v1", "data:";
    OneMoreLine([], "", first);
    assert [] + ["" + first] == ["" + first];
    OneMoreLine(["" + first], "", second);
  }

  /** A config map with much data is recorded without a kind. */
  lemma LongConfigMapHasNoKind(value: string, rest: string)
    requires '\n' !in value && |value| >= 490
    ensures KindFromYAML(Manifest(TOP + ["  " + ("a: " + value)], "ConfigMap", rest)) == ""
  {
    TopLines();
    OneMoreLine(TOP, "  ", "a: " + value);
    KindReadIff(TOP + ["  " + ("a: " + value)], "", "ConfigMap", rest);
  }

  /** One that holds a manifest is recorded with the kind of that manifest. */
  lemma ConfigMapTakesManifestKind(other: string, between: seq<string>, rest: string)
    requires PlainValue(other) && |other| <= 400
    ensures
      KindFromYAML(Manifest(TOP + ["  " + "a: |"] + [KindLine("    ", other)] + between, "ConfigMap", rest)) == other
  {
    TopLines();
    OneMoreLine(TOP, "  ", "a: |");
    EarlierKindWins(TOP + ["  " + "a: |"], "    ", other, between, "ConfigMap", rest);
  }
}

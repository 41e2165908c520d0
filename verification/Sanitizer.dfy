/**
 The field-path sanitizer: a scanner for paths such as
 `metadata.annotations["a.b/c"]` or `status.conditions[*].time`, and the deletion
 of the locations a path names from a document.
 */
module Sanitizer {
  import opened Wrappers
  import opened Values

  // ----- Path scanner -----

  datatype Scan = Scan(segments: seq<string>, cur: string, inBracket: bool, inQuote: bool) {
    /** Ends the segment being read, unless it is empty. */
    function Flush(): Scan {
      if cur == "" then this else this.(segments := segments + [cur], cur := "")
    }
  }

  /** One turn of the scanner loop: how many characters it takes and the new state. */
  function Next(path: string, st: Scan): (r: (nat, Scan))
    requires path != ""
    ensures 1 <= r.0 <= |path|
  {
    var c := path[0];
    if c == '"' && st.inBracket then (1, st.(inQuote := !st.inQuote))
    else if c == '\\' && st.inBracket && st.inQuote && |path| > 1 then (2, st.(cur := st.cur + [path[1]]))
    else if c == '[' && !st.inQuote then (1, st.Flush().(inBracket := true))
    else if c == ']' && st.inBracket && !st.inQuote then (1, st.Flush().(inBracket := false))
    else if c == '.' && !st.inBracket && !st.inQuote then (1, st.Flush())
    else (1, st.(cur := st.cur + [c]))
  }

  /** The scan of the rest of a path, from a given scanner state. */
  function Run(path: string, st: Scan): seq<string>
    decreases |path|
  {
    if path == "" then st.Flush().segments
    else
      var (n, st') := Next(path, st);
      Run(path[n..], st')
  }

  const START := Scan([], "", false, false)

  function Segments(path: string): seq<string> {
    Run(path, START)
  }

  /** The scanner loop. */
  method ParsePath(path: string) returns (segments: seq<string>)
    ensures segments == Segments(path)
  {
    segments := [];
    var cur, inBracket, inQuote := "", false, false;
    var i := 0;
    while i < |path|
      invariant 0 <= i <= |path|
      invariant Run(path[i..], Scan(segments, cur, inBracket, inQuote)) == Segments(path)
    {
      var c := path[i];
      assert path[i..][1..] == path[i + 1..];
      assert i + 1 < |path| ==> path[i..][2..] == path[i + 2..];
      if c == '"' && inBracket {
        inQuote := !inQuote;
        i := i + 1;
      } else if c == '\\' && inBracket && inQuote && i + 1 < |path| {
        i := i + 1;
        cur := cur + [path[i]];
        i := i + 1;
      } else if c == '[' && !inQuote {
        if |cur| > 0 { segments, cur := segments + [cur], ""; }
        inBracket := true;
        i := i + 1;
      } else if c == ']' && inBracket && !inQuote {
        if |cur| > 0 { segments, cur := segments + [cur], ""; }
        inBracket := false;
        i := i + 1;
      } else if c == '.' && !inBracket && !inQuote {
        if |cur| > 0 { segments, cur := segments + [cur], ""; }
        i := i + 1;
      } else {
        cur := cur + [c];
        i := i + 1;
      }
    }
    assert path[i..] == "";
    if |cur| > 0 { segments := segments + [cur]; }
  }

  /** Every segment is non-empty, whatever the text. */
  lemma {:induction false} SegmentsAreNonEmpty(path: string, st: Scan)
    requires "" !in st.segments
    ensures "" !in Run(path, st)
    decreases |path|
  {
    if path != "" {
      var (n, st') := Next(path, st);
      SegmentsAreNonEmpty(path[n..], st');
    }
  }

  // ----- Printing keys as a path -----

  predicate Plain(key: string) {
    '.' !in key && '[' !in key
  }

  function EscapeChar(c: char): string {
    if c == '"' || c == '\\' then ['\\', c] else [c]
  }

  function Escape(key: string): string {
    if key == "" then "" else EscapeChar(key[0]) + Escape(key[1..])
  }

  /** One segment in a text: after a dot, quoted in brackets, or as it is in brackets. */
  datatype Piece = Dotted(key: string) | Quoted(key: string) | Bare(key: string) {
    predicate Valid() {
      && key != ""
      && (Dotted? ==> Plain(key))
      && (Bare? ==> '"' !in key && '[' !in key && ']' !in key)
    }

    /** Quotes and backslashes between quotes are escaped. */
    function Text(): string {
      if Dotted? then "." + key else if Quoted? then "[\"" + Escape(key) + "\"]" else "[" + key + "]"
    }
  }

  function KeysOf(ps: seq<Piece>): (keys: seq<string>)
    ensures |keys| == |ps| && forall i :: 0 <= i < |ps| ==> keys[i] == ps[i].key
  {
    if ps == [] then [] else [ps[0].key] + KeysOf(ps[1..])
  }

  function PrintRest(ps: seq<Piece>): string {
    if ps == [] then "" else ps[0].Text() + PrintRest(ps[1..])
  }

  /** A path text; a dot in front of the first segment is left out. */
  function Print(ps: seq<Piece>): string {
    if ps != [] && ps[0].Dotted? then ps[0].key + PrintRest(ps[1..]) else PrintRest(ps)
  }

  /** Plain keys behind dots, all others quoted. */
  function Styled(keys: seq<string>): (ps: seq<Piece>)
    ensures |ps| == |keys|
    ensures forall i :: 0 <= i < |ps| ==> ps[i] == if Plain(keys[i]) then Dotted(keys[i]) else Quoted(keys[i])
  {
    if keys == [] then []
    else [if Plain(keys[0]) then Dotted(keys[0]) else Quoted(keys[0])] + Styled(keys[1..])
  }

  function PrintPath(keys: seq<string>): string {
    Print(Styled(keys))
  }

  lemma {:induction false} RunPlainKey(key: string, rest: string, st: Scan)
    requires Plain(key) && !st.inBracket && !st.inQuote
    ensures Run(key + rest, st) == Run(rest, st.(cur := st.cur + key))
    decreases |key|
  {
    if key == "" {
      assert key + rest == rest && st.cur + key == st.cur;
    } else {
      var st' := st.(cur := st.cur + [key[0]]);
      assert Next(key + rest, st) == (1, st') && (key + rest)[1..] == key[1..] + rest;
      RunPlainKey(key[1..], rest, st');
      assert st'.cur + key[1..] == st.cur + key;
    }
  }

  lemma {:induction false} RunQuotedKey(key: string, rest: string, st: Scan)
    requires st.inBracket && st.inQuote
    ensures Run(Escape(key) + rest, st) == Run(rest, st.(cur := st.cur + key))
    decreases |key|
  {
    if key == "" {
      assert Escape(key) + rest == rest && st.cur + key == st.cur;
    } else {
      assert Escape(key) + rest == EscapeChar(key[0]) + (Escape(key[1..]) + rest);
      RunQuotedKey(key[1..], rest, st.(cur := st.cur + [key[0]]));
      assert st.cur + [key[0]] + key[1..] == st.cur + key;
    }
  }

  lemma {:induction false} RunOpenBracket(body: string, st: Scan)
    requires !st.inBracket && !st.inQuote
    ensures Run("[\"" + body, st) == Run(body, st.Flush().(inBracket := true, inQuote := true))
  {
    assert ("[\"" + body)[1..] == "\"" + body && ("\"" + body)[1..] == body;
  }

  lemma {:induction false} RunCloseBracket(rest: string, st: Scan)
    requires st.inBracket && st.inQuote
    ensures Run("\"]" + rest, st) == Run(rest, st.Flush().(inBracket := false, inQuote := false))
  {
    assert ("\"]" + rest)[1..] == "]" + rest && ("]" + rest)[1..] == rest;
  }

  /** A bracketed key is one whole segment. */
  lemma {:induction false} RunBracketedKey(key: string, rest: string, st: Scan)
    requires key != "" && !st.inBracket && !st.inQuote
    ensures Run("[\"" + Escape(key) + "\"]" + rest, st) ==
            Run(rest, st.Flush().(segments := st.Flush().segments + [key]))
  {
    var body := Escape(key) + ("\"]" + rest);
    var quoted := st.Flush().(inBracket := true, inQuote := true);
    calc {
      Run("[\"" + Escape(key) + "\"]" + rest, st);
      { assert "[\"" + Escape(key) + "\"]" + rest == "[\"" + body; }
      Run("[\"" + body, st);
      { RunOpenBracket(body, st); }
      Run(body, quoted);
      { RunQuotedKey(key, "\"]" + rest, quoted); assert quoted.cur + key == key; }
      Run("\"]" + rest, quoted.(cur := key));
      { RunCloseBracket(rest, quoted.(cur := key)); }
      Run(rest, st.Flush().(segments := st.Flush().segments + [key]));
    }
  }

  lemma {:induction false} RunDottedKey(key: string, rest: string, st: Scan)
    requires Plain(key) && !st.inBracket && !st.inQuote
    ensures Run("." + key + rest, st) == Run(rest, st.Flush().(cur := key))
  {
    var text, done := "." + key + rest, st.Flush();
    assert Next(text, st) == (1, done) && text[1..] == key + rest && done.cur + key == key;
    RunPlainKey(key, rest, done);
  }

  lemma {:induction false} RunBareText(key: string, rest: string, st: Scan)
    requires '"' !in key && '[' !in key && ']' !in key && st.inBracket && !st.inQuote
    ensures Run(key + rest, st) == Run(rest, st.(cur := st.cur + key))
    decreases |key|
  {
    if key == "" {
      assert key + rest == rest && st.cur + key == st.cur;
    } else {
      var st' := st.(cur := st.cur + [key[0]]);
      assert Next(key + rest, st) == (1, st') && (key + rest)[1..] == key[1..] + rest;
      RunBareText(key[1..], rest, st');
      assert st'.cur + key[1..] == st.cur + key;
    }
  }

  /** Brackets without quotes hold one whole segment too. */
  lemma {:induction false} RunBareKey(key: string, rest: string, st: Scan)
    requires Bare(key).Valid() && !st.inBracket && !st.inQuote
    ensures Run("[" + key + "]" + rest, st) == Run(rest, st.Flush().(segments := st.Flush().segments + [key]))
  {
    var text, open := "[" + key + "]" + rest, st.Flush().(inBracket := true);
    assert Next(text, st) == (1, open) && text[1..] == key + ("]" + rest);
    RunBareText(key, "]" + rest, open);
    var read := open.(cur := key);
    assert open.cur + key == key && ("]" + rest)[1..] == rest;
    assert Next("]" + rest, read) == (1, st.Flush().(segments := st.Flush().segments + [key]));
  }

  lemma {:induction false} RunPrintRest(ps: seq<Piece>, st: Scan)
    requires (forall p :: p in ps ==> p.Valid()) && !st.inBracket && !st.inQuote
    ensures Run(PrintRest(ps), st) == st.Flush().segments + KeysOf(ps)
    decreases |ps|
  {
    if ps != [] {
      var key, done, rest := ps[0].key, st.Flush(), PrintRest(ps[1..]);
      assert ps[0] in ps && ps[0].Valid();
      assert done.segments + [key] + KeysOf(ps[1..]) == done.segments + KeysOf(ps);
      match ps[0] {
        case Dotted(_) =>
          RunDottedKey(key, rest, st);
          RunPrintRest(ps[1..], done.(cur := key));
        case Quoted(_) =>
          RunBracketedKey(key, rest, st);
          RunPrintRest(ps[1..], done.(segments := done.segments + [key]));
        case Bare(_) =>
          RunBareKey(key, rest, st);
          RunPrintRest(ps[1..], done.(segments := done.segments + [key]));
      }
    }
  }

  /** Printing any segments, each in a form that suits it, and scanning the text gives the same segments back. */
  lemma {:induction false} PrintedPiecesScanBack(ps: seq<Piece>)
    requires forall p :: p in ps ==> p.Valid()
    ensures Segments(Print(ps)) == KeysOf(ps)
  {
    if ps != [] && ps[0].Dotted? {
      var key, rest := ps[0].key, PrintRest(ps[1..]);
      assert ps[0] in ps && ps[0].Valid();
      assert Segments(Print(ps)) == Run(key + rest, START);
      RunPlainKey(key, rest, START);
      assert "" + key == key && [key] + KeysOf(ps[1..]) == KeysOf(ps);
      RunPrintRest(ps[1..], START.(cur := key));
    } else {
      RunPrintRest(ps, START);
    }
  }

  /** Printing any non-empty keys and scanning the text gives the same keys back. */
  lemma PrintedPathScansBack(keys: seq<string>)
    requires "" !in keys
    ensures Segments(PrintPath(keys)) == keys
  {
    PrintedPiecesScanBack(Styled(keys));
  }

  // Texts that are no printed paths.

  /** A bracket that is not closed. */
  lemma OpenBracket(key: string)
    requires Bare(key).Valid()
    ensures Segments("[" + key) == [key]
  {
    var text, open := "[" + key, START.(inBracket := true);
    assert Next(text, START) == (1, open) && text[1..] == key + "" && open.cur + key == key;
    RunBareText(key, "", open);
  }

  lemma {:induction false} RunInnerBracket(key: string, st: Scan)
    requires Bare(key).Valid() && st.inBracket && !st.inQuote && st.cur != ""
    ensures Run("[" + key + "]", st) == st.segments + [st.cur] + [key]
  {
    var text, next := "[" + key + "]", st.Flush();
    assert Next(text, st) == (1, next) && text[1..] == key + "]" && next.cur + key == key;
    RunBareText(key, "]", next);
    assert Next("]", next.(cur := key)).1.segments == next.segments + [key] && "]"[1..] == "";
  }

  /** A bracket inside another one ends the first segment. */
  lemma NestedBracket(a: string, b: string)
    requires Bare(a).Valid() && Bare(b).Valid()
    ensures Segments("[" + a + "[" + b + "]") == [a, b]
  {
    var inner, open := "[" + b + "]", START.(inBracket := true);
    var text := "[" + (a + inner);
    assert text == "[" + a + "[" + b + "]" && Next(text, START) == (1, open) && text[1..] == a + inner;
    assert open.cur + a == a;
    RunBareText(a, inner, open);
    RunInnerBracket(b, open.(cur := a));
  }

  /** A backslash at the end of a text stands for itself. */
  lemma LastBackslash(key: string)
    requires '"' !in key && '\\' !in key
    ensures Segments("[\"" + key + "\\") == [key + "\\"]
  {
    var quoted := START.(inBracket := true, inQuote := true);
    EscapeNothing(key);
    assert "[\"" + key + "\\" == "[\"" + (key + "\\");
    RunOpenBracket(key + "\\", START);
    RunQuotedKey(key, "\\", quoted);
    assert quoted.cur + key == key;
    var read := quoted.(cur := key);
    assert Next("\\", read) == (1, read.(cur := key + "\\")) && "\\"[1..] == "";
  }

  lemma {:induction false} EscapeNothing(key: string)
    requires '"' !in key && '\\' !in key
    ensures Escape(key) == key
  {
    if key != "" { EscapeNothing(key[1..]); }
  }

  // ----- Deletion -----

  predicate Wildcard(p: seq<string>) {
    |p| > 2 && p[1] == "*"
  }

  /** deleteAt: removes the key the segments lead to, in every array element under `*`. */
  function DeleteAt(m: Object, p: seq<string>): Object
    requires p != []
    decreases |p|, 0
  {
    if |p| == 1 then m - {p[0]}
    else if p[0] !in m then m
    else if Wildcard(p) then
      if m[p[0]].List? then m[p[0] := List(DeleteInItems(m[p[0]].items, p[2..]))] else m
    else
      if m[p[0]].Map? then m[p[0] := Map(DeleteAt(m[p[0]].fields, p[1..]))] else m
  }

  /** The wildcard loop: elements that are not maps are skipped. */
  function DeleteInItems(items: seq<Value>, p: seq<string>): (r: seq<Value>)
    requires p != []
    ensures |r| == |items|
    ensures forall i :: 0 <= i < |items| ==>
      r[i] == if items[i].Map? then Map(DeleteAt(items[i].fields, p)) else items[i]
    decreases |p|, |items|
  {
    if items == [] then []
    else
      [if items[0].Map? then Map(DeleteAt(items[0].fields, p)) else items[0]] + DeleteInItems(items[1..], p)
  }

  function Delete(m: Object, path: string): Object {
    var p := Segments(path);
    if p == [] then m else DeleteAt(m, p)
  }

  function DeleteAll(m: Object, paths: seq<string>): Object {
    if paths == [] then m else DeleteAll(Delete(m, paths[0]), paths[1..])
  }

  /** A listed cluster object; the sanitizer works on it in place. */
  class Unstructured {
    var content: Object

    constructor (o: Object)
      ensures content == o
    {
      content := o;
    }

    method DeleteField(path: string)
      modifies this
      ensures content == Delete(old(content), path)
    {
      var segments := ParsePath(path);
      if |segments| == 0 {
        return;
      }
      content := DeleteAt(content, segments);
    }

    method DeleteFields(paths: seq<string>)
      modifies this
      ensures content == DeleteAll(old(content), paths)
    {
      for i := 0 to |paths|
        invariant DeleteAll(content, paths[i..]) == DeleteAll(old(content), paths)
      {
        assert paths[i..][1..] == paths[i + 1..];
        DeleteField(paths[i]);
      }
    }
  }

  // ----- What a pattern names -----

  /** The pattern names exactly this location. */
  predicate Matches(p: seq<string>, loc: seq<Step>) {
    && p != [] && loc != [] && loc[0] == Field(p[0])
    && if |p| == 1 then |loc| == 1
       else if Wildcard(p) then |loc| > 1 && loc[1].Elem? && Matches(p[2..], loc[2..])
       else Matches(p[1..], loc[1..])
  }

  /** The location is named by the pattern or lies below one that is. */
  ghost predicate Removed(p: seq<string>, loc: seq<Step>) {
    exists n :: 0 <= n <= |loc| && Matches(p, loc[..n])
  }

  ghost predicate RemovedByPath(path: string, loc: seq<Step>) {
    Removed(Segments(path), loc)
  }

  lemma {:induction false} RemovedUnfolds(p: seq<string>, loc: seq<Step>)
    requires p != []
    ensures loc == [] || loc[0] != Field(p[0]) ==> !Removed(p, loc)
    ensures loc != [] && loc[0] == Field(p[0]) ==>
      Removed(p, loc) ==
      if |p| == 1 then true
      else if Wildcard(p) then |loc| > 1 && loc[1].Elem? && Removed(p[2..], loc[2..])
      else Removed(p[1..], loc[1..])
  {
    if loc != [] && loc[0] == Field(p[0]) {
      if |p| == 1 {
        assert Matches(p, loc[..1]);
      } else {
        var d := if Wildcard(p) then 2 else 1;
        if Removed(p, loc) {
          var n :| 0 <= n <= |loc| && Matches(p, loc[..n]);
          assert loc[..n][d..] == loc[d..][..n - d];
        }
        if |loc| >= d && (d == 2 ==> loc[1].Elem?) && Removed(p[d..], loc[d..]) {
          var n :| 0 <= n <= |loc[d..]| && Matches(p[d..], loc[d..][..n]);
          assert loc[..n + d][d..] == loc[d..][..n];
          assert Matches(p, loc[..n + d]);
        }
      }
    }
  }

  /**
   A deletion removes precisely the matched locations and what lies below them;
   every other location keeps its value.
   */
  lemma {:induction false} DeleteAtLocations(m: Object, p: seq<string>, loc: seq<Step>)
    requires p != []
    ensures TagAt(Map(DeleteAt(m, p)), loc) == if Removed(p, loc) then None else TagAt(Map(m), loc)
    decreases |p|
  {
    RemovedUnfolds(p, loc);
    if loc != [] && loc[0] == Field(p[0]) && |p| > 1 && p[0] in m {
      var val, m' := m[p[0]], DeleteAt(m, p);
      assert At(Map(m), loc) == At(val, loc[1..]) && At(Map(m'), loc) == At(m'[p[0]], loc[1..]);
      if Wildcard(p) {
        if val.List? && |loc| > 1 && loc[1].Elem? && loc[1].index < |val.items| {
          var item := val.items[loc[1].index];
          assert loc[1..][1..] == loc[2..];
          if item.Map? {
            DeleteAtLocations(item.fields, p[2..], loc[2..]);
          } else {
            RemovedNeedsMap(p[2..], item, loc[2..]);
          }
        }
      } else if val.Map? {
        DeleteAtLocations(val.fields, p[1..], loc[1..]);
      } else {
        RemovedNeedsMap(p[1..], val, loc[1..]);
      }
    }
  }

  lemma RemovedNeedsMap(p: seq<string>, v: Value, loc: seq<Step>)
    requires p != [] && !v.Map?
    ensures Removed(p, loc) ==> TagAt(v, loc) == None
  {
    RemovedUnfolds(p, loc);
  }

  /** The same for a list of paths: a location survives iff no path removes it. */
  lemma {:induction false} DeleteAllLocations(m: Object, paths: seq<string>, loc: seq<Step>)
    ensures TagAt(Map(DeleteAll(m, paths)), loc) ==
      if exists path :: path in paths && RemovedByPath(path, loc) then None else TagAt(Map(m), loc)
    decreases |paths|
  {
    if paths != [] {
      var p := Segments(paths[0]);
      if p != [] { DeleteAtLocations(m, p, loc); }
      DeleteAllLocations(Delete(m, paths[0]), paths[1..], loc);
      assert paths[0] in paths;
      assert forall path :: path in paths[1..] ==> path in paths;
      assert forall path :: path in paths ==> path == paths[0] || path in paths[1..];
    }
  }

  /** Two path lists with the same patterns give the same document. */
  lemma {:induction false} OrderAndRepetitionIrrelevant(m: Object, ps: seq<string>, qs: seq<string>)
    requires forall p :: p in ps ==> exists q :: q in qs && Segments(q) == Segments(p)
    requires forall q :: q in qs ==> exists p :: p in ps && Segments(p) == Segments(q)
    ensures DeleteAll(m, ps) == DeleteAll(m, qs)
  {
    var a, b := Map(DeleteAll(m, ps)), Map(DeleteAll(m, qs));
    forall loc ensures TagAt(a, loc) == TagAt(b, loc) {
      DeleteAllLocations(m, ps, loc);
      DeleteAllLocations(m, qs, loc);
    }
    SameTagsSameValue(a, b);
  }

  lemma {:induction false} DeleteAllConcat(m: Object, ps: seq<string>, qs: seq<string>)
    ensures DeleteAll(m, ps + qs) == DeleteAll(DeleteAll(m, ps), qs)
    decreases |ps|
  {
    if ps == [] {
      assert ps + qs == qs;
    } else {
      assert (ps + qs)[1..] == ps[1..] + qs;
      DeleteAllConcat(Delete(m, ps[0]), ps[1..], qs);
    }
  }

  /** Sanitising twice is sanitising once. */
  lemma {:induction false} DeleteAllIdempotent(m: Object, ps: seq<string>)
    ensures DeleteAll(DeleteAll(m, ps), ps) == DeleteAll(m, ps)
  {
    DeleteAllConcat(m, ps, ps);
    OrderAndRepetitionIrrelevant(m, ps + ps, ps);
  }

  // ----- Deletion, on the text of a path -----

  /** The location lies at or below the key `k` of some element of the list at these keys. */
  predicate InElement(loc: seq<Step>, keys: seq<string>, k: string) {
    var n := |keys|;
    |loc| >= n + 2 && loc[..n] == FieldSteps(keys) && loc[n].Elem? && loc[n + 1] == Field(k)
  }

  lemma {:induction false} StarMatches(keys: seq<string>, k: string, loc: seq<Step>)
    requires keys != [] && "*" !in keys[1..]
    ensures Removed(keys + ["*", k], loc) <==> InElement(loc, keys, k)
    decreases |keys|
  {
    var p := keys + ["*", k];
    RemovedUnfolds(p, loc);
    if loc != [] && loc[0] == Field(keys[0]) {
      var rest := keys[1..];
      if rest == [] {
        assert p[2..] == [k] && Wildcard(p);
        if |loc| > 1 { RemovedUnfolds([k], loc[2..]); }
        assert FieldSteps(keys) == [Field(keys[0])] == loc[..1];
      } else {
        assert p[1] == rest[0] && rest[0] in rest && p[1..] == rest + ["*", k];
        StarMatches(rest, k, loc[1..]);
        assert FieldSteps(keys) == [Field(keys[0])] + FieldSteps(rest);
        if |loc| > |rest| { assert loc[..|keys|] == [loc[0]] + loc[1..][..|rest|]; }
      }
    } else {
      assert |loc| >= |keys| ==> loc[..|keys|][0] == loc[0];
    }
  }

  /**
   A text such as `status.conditions[*].time` removes that key from every element of the
   list, and every other location keeps its value.
   */
  lemma {:induction false} WildcardTextDeletes(o: Object, keys: seq<string>, k: string, loc: seq<Step>)
    requires keys != [] && "" !in keys && "*" !in keys[1..] && k != "" && Plain(k)
    ensures
      var text := Print(Styled(keys) + [Bare("*"), Dotted(k)]);
      TagAt(Map(DeleteAll(o, [text])), loc) == if InElement(loc, keys, k) then None else TagAt(Map(o), loc)
  {
    var ps := Styled(keys) + [Bare("*"), Dotted(k)];
    PrintedPiecesScanBack(ps);
    assert KeysOf(ps) == keys + ["*", k];
    StarMatches(keys, k, loc);
    DeleteAllLocations(o, [Print(ps)], loc);
    assert Print(ps) in [Print(ps)];
  }

  lemma PrintStarred(a: string, b: string, k: string)
    requires Plain(a) && Plain(b)
    ensures Print(Styled([a, b]) + [Bare("*"), Dotted(k)]) == a + "." + b + "[*]." + k
  {
    var ps := Styled([a, b]) + [Bare("*"), Dotted(k)];
    assert ps == [Dotted(a), Dotted(b), Bare("*"), Dotted(k)];
    assert ps[1..] == [Dotted(b), Bare("*"), Dotted(k)] && ps[2..] == [Bare("*"), Dotted(k)];
    assert ps[1..][1..] == ps[2..] && ps[2..][1..] == [Dotted(k)] && [Dotted(k)][1..] == [];
    assert PrintRest([Dotted(k)]) == "." + k;
    assert PrintRest(ps[2..]) == "[" + "*" + "]" + ("." + k);
    assert PrintRest(ps[1..]) == "." + b + PrintRest(ps[2..]);
  }

  lemma {:induction false} StarredTextDeletes(o: Object, a: string, b: string, k: string, loc: seq<Step>)
    requires Plain(a) && Plain(b) && Plain(k) && "" !in [a, b, k] && b != "*"
    ensures TagAt(Map(DeleteAll(o, [a + "." + b + "[*]." + k])), loc) ==
      if InElement(loc, [a, b], k) then None else TagAt(Map(o), loc)
  {
    PrintStarred(a, b, k);
    assert [a, b][1..] == [b] && "" !in [a, b];
    WildcardTextDeletes(o, [a, b], k, loc);
  }

  /** The shipped path for nodes. */
  lemma {:induction false} HeartbeatsAreDeleted(o: Object, loc: seq<Step>, text: string)
    requires text == "status.conditions[*].lastHeartbeatTime"
    ensures TagAt(Map(DeleteAll(o, [text])), loc) ==
      if InElement(loc, ["status", "conditions"], "lastHeartbeatTime") then None else TagAt(Map(o), loc)
  {
    var a, b, k := "status", "conditions", "lastHeartbeatTime";
    HeartbeatText(text);
    StarredTextDeletes(o, a, b, k, loc);
  }

  lemma HeartbeatText(text: string)
    requires text == "status.conditions[*].lastHeartbeatTime"
    ensures text == "status" + "." + "conditions" + "[*]." + "lastHeartbeatTime"
  {
  }

  lemma {:induction false} KeysMatch(keys: seq<string>, loc: seq<Step>)
    requires keys != [] && forall i :: 0 < i < |keys| - 1 ==> keys[i] != "*"
    ensures Removed(keys, loc) <==> |loc| >= |keys| && loc[..|keys|] == FieldSteps(keys)
    decreases |keys|
  {
    RemovedUnfolds(keys, loc);
    if loc != [] && loc[0] == Field(keys[0]) && |keys| > 1 {
      var rest := keys[1..];
      assert forall i :: 0 < i < |rest| - 1 ==> rest[i] == keys[i + 1];
      KeysMatch(rest, loc[1..]);
      assert FieldSteps(keys) == [Field(keys[0])] + FieldSteps(rest);
      if |loc| > |rest| { assert loc[..|keys|] == [loc[0]] + loc[1..][..|rest|]; }
    } else {
      assert |loc| >= |keys| ==> loc[..|keys|][0] == loc[0];
      if |keys| == 1 && loc != [] { assert loc[..1] == [loc[0]]; }
    }
  }

  /** A printed path without `*` removes the location its keys lead to, with all below it, and nothing else. */
  lemma {:induction false} PathTextDeletes(o: Object, keys: seq<string>, loc: seq<Step>)
    requires keys != [] && "" !in keys && forall i :: 0 < i < |keys| - 1 ==> keys[i] != "*"
    ensures TagAt(Map(DeleteAll(o, [PrintPath(keys)])), loc) ==
      if |loc| >= |keys| && loc[..|keys|] == FieldSteps(keys) then None else TagAt(Map(o), loc)
  {
    PrintedPathScansBack(keys);
    KeysMatch(keys, loc);
    DeleteAllLocations(o, [PrintPath(keys)], loc);
    assert PrintPath(keys) in [PrintPath(keys)];
  }
}

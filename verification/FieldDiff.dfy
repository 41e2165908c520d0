/**
 The structural diff of two decoded documents, reporting the paths where they
 differ. Key sequences identify paths; the code prints them joined by dots.
 */
module FieldDiff {
  import opened Values
  import Strings

  type Keys = seq<string>

  function JoinPath(prefix: string, key: string): string {
    if prefix == "" then key else prefix + "." + key
  }

  /** The printed form of a key sequence below a printed prefix. */
  function Printed(prefix: string, p: Keys): string
    decreases |p|
  {
    if p == [] then prefix else Printed(JoinPath(prefix, p[0]), p[1..])
  }

  /** A path where the documents differ and no deeper map comparison is possible. */
  predicate Reported(before: Object, after: Object, p: Keys)
    decreases |p|
  {
    && p != []
    && var k := p[0];
       if |p| == 1 then
         if k in before && k in after then !(before[k].Map? && after[k].Map?) && before[k] != after[k]
         else k in before || k in after
       else
         k in before && k in after && before[k].Map? && after[k].Map?
         && Reported(before[k].fields, after[k].fields, p[1..])
  }

  ghost predicate Distinct(ps: seq<Keys>) {
    forall i, j :: 0 <= i < j < |ps| ==> ps[i] != ps[j]
  }

  /** The paths start with one of these keys. */
  predicate Heads(ps: seq<Keys>, ks: set<string>) {
    forall i :: 0 <= i < |ps| ==> ps[i] != [] && ps[i][0] in ks
  }

  ghost predicate Prints(lines: seq<string>, prefix: string, ps: seq<Keys>) {
    |lines| == |ps| && forall i :: 0 <= i < |ps| ==> lines[i] == Printed(prefix, ps[i])
  }

  /** What the two loops of diffFields have found for the keys `done`. */
  ghost predicate Found(before: Object, after: Object, ks: set<string>, ps: seq<Keys>) {
    && Distinct(ps) && Heads(ps, ks)
    && forall p :: p in ps <==> Reported(before, after, p) && p[0] in ks
  }

  /** Exactly the reported paths, each once. */
  ghost predicate Reports(before: Object, after: Object, ps: seq<Keys>) {
    Distinct(ps) && forall p :: p in ps <==> Reported(before, after, p)
  }

  /** The paths reported for two documents. */
  function PathSet(before: Object, after: Object): set<Keys>
    decreases Map(after)
  {
    (set k | k in before.Keys + after.Keys && Reported(before, after, [k]) :: [k])
    + set k, p | k in before && k in after && before[k].Map? && after[k].Map?
                 && p in PathSet(before[k].fields, after[k].fields) :: [k] + p
  }

  lemma {:induction false} PathSetIsReported(before: Object, after: Object, p: Keys)
    ensures p in PathSet(before, after) <==> Reported(before, after, p)
    decreases |p|
  {
    var own := set k | k in before.Keys + after.Keys && Reported(before, after, [k]) :: [k];
    assert p in own <==> |p| == 1 && Reported(before, after, p) by { if |p| == 1 { assert p == [p[0]]; } }
    if p != [] && p[0] in before && p[0] in after && before[p[0]].Map? && after[p[0]].Map? {
      PathSetIsReported(before[p[0]].fields, after[p[0]].fields, p[1..]);
      assert p == [p[0]] + p[1..];
    }
    forall k: string, q: Keys | p == [k] + q ensures k == p[0] && q == p[1..] {}
  }

  /** How many of the reported paths are printed as this field. */
  function TimesReported(before: Object, after: Object, prefix: string, field: string): nat {
    |set p | p in PathSet(before, after) && Printed(prefix, p) == field|
  }

  ghost function PrintedAs(prefix: string, ps: seq<Keys>, field: string): set<Keys> {
    set p | p in ps && Printed(prefix, p) == field
  }

  lemma {:induction false} PrintedAsSnoc(prefix: string, ps: seq<Keys>, p: Keys, field: string)
    requires p !in ps
    ensures |PrintedAs(prefix, ps + [p], field)| == |PrintedAs(prefix, ps, field)| + (if Printed(prefix, p) == field then 1 else 0)
  {
    assert PrintedAs(prefix, ps + [p], field) == PrintedAs(prefix, ps, field) + (if Printed(prefix, p) == field then {p} else {});
  }

  lemma {:induction false} LastPrinted(lines: seq<string>, prefix: string, ps: seq<Keys>)
    requires Prints(lines, prefix, ps) && Distinct(ps) && ps != []
    ensures
      var n := |ps| - 1;
      && lines == lines[..n] + [Printed(prefix, ps[n])] && ps == ps[..n] + [ps[n]]
      && Prints(lines[..n], prefix, ps[..n]) && Distinct(ps[..n]) && ps[n] !in ps[..n]
  {
  }

  lemma {:induction false} LinesOccur(lines: seq<string>, prefix: string, ps: seq<Keys>, field: string)
    requires Prints(lines, prefix, ps) && Distinct(ps)
    ensures multiset(lines)[field] == |PrintedAs(prefix, ps, field)|
    decreases |ps|
  {
    if ps != [] {
      var n := |ps| - 1;
      LastPrinted(lines, prefix, ps);
      LinesOccur(lines[..n], prefix, ps[..n], field);
      PrintedAsSnoc(prefix, ps[..n], ps[n], field);
    }
  }

  lemma LinesAreReports(lines: seq<string>, prefix: string, ps: seq<Keys>, before: Object, after: Object, field: string)
    requires Reports(before, after, ps) && Prints(lines, prefix, ps)
    ensures multiset(lines)[field] == TimesReported(before, after, prefix, field)
  {
    LinesOccur(lines, prefix, ps, field);
    forall p ensures p in ps <==> p in PathSet(before, after) { PathSetIsReported(before, after, p); }
    assert PrintedAs(prefix, ps, field) == set p | p in PathSet(before, after) && Printed(prefix, p) == field;
  }

  lemma PrintsConcat(a: seq<string>, b: seq<string>, prefix: string, ps: seq<Keys>, qs: seq<Keys>)
    requires Prints(a, prefix, ps) && Prints(b, prefix, qs)
    ensures Prints(a + b, prefix, ps + qs)
  {
  }

  /** Each reported path exactly once, in an unspecified order, as printed lines. */
  method DiffFields(before: Object, after: Object, prefix: string)
    returns (changed: seq<string>, ghost paths: seq<Keys>)
    ensures forall line :: multiset(changed)[line] == TimesReported(before, after, prefix, line)
    ensures Reports(before, after, paths) && Prints(changed, prefix, paths)
    decreases Map(after)
  {
    changed, paths := ChangedKeys(before, after, prefix);
    var lines;
    ghost var more;
    lines, more := DeletedKeys(before, after, prefix);
    FoundEverything(before, after, paths, more);
    PrintsConcat(changed, lines, prefix, paths, more);
    changed, paths := changed + lines, paths + more;
    forall line { LinesAreReports(changed, prefix, paths, before, after, line); }
  }

  /** The loop over the keys of `after`. */
  method ChangedKeys(before: Object, after: Object, prefix: string)
    returns (changed: seq<string>, ghost paths: seq<Keys>)
    ensures Found(before, after, after.Keys, paths)
    ensures Prints(changed, prefix, paths)
    decreases Map(after), 1
  {
    changed, paths := [], [];
    var todo := after.Keys;
    while todo != {}
      invariant todo <= after.Keys
      invariant Found(before, after, after.Keys - todo, paths)
      invariant Prints(changed, prefix, paths)
    {
      var k :| k in todo;
      var lines;
      ghost var more;
      lines, more := DiffKey(before, after, prefix, k);
      ExtendFound(before, after, after.Keys - todo, k, paths, more);
      PrintsConcat(changed, lines, prefix, paths, more);
      assert after.Keys - todo + {k} == after.Keys - (todo - {k});
      changed, paths, todo := changed + lines, paths + more, todo - {k};
    }
    assert after.Keys - {} == after.Keys;
  }

  /** The body of the loop over the keys of `after`. */
  method DiffKey(before: Object, after: Object, prefix: string, k: string)
    returns (lines: seq<string>, ghost paths: seq<Keys>)
    requires k in after
    ensures Found(before, after, {k}, paths)
    ensures Prints(lines, prefix, paths)
    decreases Map(after), 0
  {
    var path := JoinPath(prefix, k);
    if k in before && before[k].Map? && after[k].Map? {
      ghost var inner: seq<Keys>;
      lines, inner := DiffFields(before[k].fields, after[k].fields, path);
      paths := seq(|inner|, i requires 0 <= i < |inner| => [k] + inner[i]);
      BelowKey(before, after, k, inner, paths);
      assert forall i :: 0 <= i < |inner| ==> paths[i][1..] == inner[i];
    } else if k !in before || before[k] != after[k] {
      lines, paths := [path], [[k]];
      OnlyKeyItself(before, after, k);
    } else {
      lines, paths := [], [];
      OnlyKeyItself(before, after, k);
    }
  }

  /** The loop over the keys of `before`. */
  method DeletedKeys(before: Object, after: Object, prefix: string)
    returns (lines: seq<string>, ghost paths: seq<Keys>)
    ensures Found(before, after, before.Keys - after.Keys, paths)
    ensures Prints(lines, prefix, paths)
  {
    lines, paths := [], [];
    var todo := before.Keys;
    while todo != {}
      invariant todo <= before.Keys
      invariant Found(before, after, before.Keys - after.Keys - todo, paths)
      invariant Prints(lines, prefix, paths)
    {
      var k :| k in todo;
      ghost var done := before.Keys - after.Keys - todo;
      todo := todo - {k};
      if k in after {
        assert before.Keys - after.Keys - todo == done;
      } else {
        OnlyKeyItself(before, after, k);
        ExtendFound(before, after, done, k, paths, [[k]]);
        assert before.Keys - after.Keys - todo == done + {k};
        lines, paths := lines + [JoinPath(prefix, k)], paths + [[k]];
      }
    }
    assert before.Keys - after.Keys - {} == before.Keys - after.Keys;
  }

  /** A key whose values are not both maps is reported by itself or not at all. */
  lemma {:induction false} OnlyKeyItself(before: Object, after: Object, k: string)
    requires !(k in before && k in after && before[k].Map? && after[k].Map?)
    ensures Found(before, after, {k}, if Reported(before, after, [k]) then [[k]] else [])
  {
    forall p | Reported(before, after, p) && p[0] == k ensures p == [k] {
      assert |p| == 1;
    }
  }

  /** A key whose values are both maps is reported through the paths below it. */
  lemma BelowKey(before: Object, after: Object, k: string, inner: seq<Keys>, paths: seq<Keys>)
    requires k in before && k in after && before[k].Map? && after[k].Map?
    requires Reports(before[k].fields, after[k].fields, inner)
    requires |paths| == |inner| && forall i :: 0 <= i < |inner| ==> paths[i] == [k] + inner[i]
    ensures Found(before, after, {k}, paths)
  {
    forall i | 0 <= i < |inner| ensures paths[i][1..] == inner[i] && Reported(before, after, paths[i]) {
      assert paths[i][1..] == inner[i] && inner[i] in inner;
    }
    forall p | Reported(before, after, p) && p[0] == k ensures p in paths {
      assert p[1..] in inner;
      var i :| 0 <= i < |inner| && inner[i] == p[1..];
      assert paths[i] == p;
    }
    forall i, j | 0 <= i < j < |paths| ensures paths[i] != paths[j] {
      assert paths[i][1..] != paths[j][1..];
    }
  }

  lemma FoundEverything(before: Object, after: Object, ps: seq<Keys>, more: seq<Keys>)
    requires Found(before, after, after.Keys, ps) && Found(before, after, before.Keys - after.Keys, more)
    ensures Reports(before, after, ps + more)
  {
    var all := ps + more;
    forall i, j | 0 <= i < j < |all| ensures all[i] != all[j] {
      if i < |ps| <= j {
        assert ps[i][0] in after && more[j - |ps|][0] !in after;
      }
    }
    forall p ensures p in all <==> Reported(before, after, p) {
      assert p in all <==> p in ps || p in more;
      assert Reported(before, after, p) ==> p[0] in after || p[0] in before;
    }
  }

  lemma ExtendFound(before: Object, after: Object, done: set<string>, k: string, ps: seq<Keys>, more: seq<Keys>)
    requires Found(before, after, done, ps) && k !in done && Found(before, after, {k}, more)
    ensures Found(before, after, done + {k}, ps + more)
  {
    var all := ps + more;
    forall i, j | 0 <= i < j < |all| ensures all[i] != all[j] {
      if i < |ps| <= j {
        assert ps[i][0] in done && more[j - |ps|][0] == k;
      }
    }
    forall p ensures p in all <==> Reported(before, after, p) && p[0] in done + {k} {
      assert p in all <==> p in ps || p in more;
    }
  }

  // ----- What the reported paths mean -----

  lemma {:induction false} NothingReportedForEqual(m: Object, p: Keys)
    ensures !Reported(m, m, p)
    decreases |p|
  {
    if |p| > 1 && p[0] in m && m[p[0]].Map? {
      NothingReportedForEqual(m[p[0]].fields, p[1..]);
    }
  }

  ghost predicate NothingReported(before: Object, after: Object) {
    forall p :: !Reported(before, after, p)
  }

  lemma {:induction false} NothingReportedMeansEqual(before: Object, after: Object)
    requires NothingReported(before, after)
    ensures before == after
    decreases Map(after)
  {
    forall k ensures (k in before <==> k in after) && (k in before ==> before[k] == after[k]) {
      assert !Reported(before, after, [k]);
      if k in before && before[k].Map? && after[k].Map? {
        forall p ensures !Reported(before[k].fields, after[k].fields, p) {
          assert !Reported(before, after, [k] + p) && (p == [] || ([k] + p)[1..] == p);
        }
        NothingReportedMeansEqual(before[k].fields, after[k].fields);
      }
    }
  }

  /** No path is reported exactly when the documents are equal. */
  lemma NothingReportedIffEqual(before: Object, after: Object)
    ensures NothingReported(before, after) <==> before == after
  {
    if before == after {
      forall p ensures !Reported(before, after, p) { NothingReportedForEqual(before, p); }
    } else if NothingReported(before, after) {
      NothingReportedMeansEqual(before, after);
    }
  }

  /** Swapping the documents reports the same paths. */
  lemma {:induction false} ReportIsSymmetric(before: Object, after: Object, p: Keys)
    ensures Reported(before, after, p) == Reported(after, before, p)
    decreases |p|
  {
    if |p| > 1 && p[0] in before && p[0] in after && before[p[0]].Map? && after[p[0]].Map? {
      ReportIsSymmetric(before[p[0]].fields, after[p[0]].fields, p[1..]);
    }
  }

  /** No reported path lies below another. */
  lemma {:induction false} ReportIsPrefixFree(before: Object, after: Object, p: Keys, q: Keys)
    requires Reported(before, after, p) && Reported(before, after, q) && p <= q
    ensures p == q
    decreases |p|
  {
    if |p| > 1 {
      ReportIsPrefixFree(before[p[0]].fields, after[p[0]].fields, p[1..], q[1..]);
    }
  }

  /** Copies the value of `after` to `m` at one path, or deletes it where `after` has none. */
  function CopyAt(m: Object, after: Object, p: Keys): Object
    requires Reported(m, after, p)
    decreases |p|
  {
    var k := p[0];
    if |p| == 1 then
      if k in after then m[k := after[k]] else m - {k}
    else m[k := Map(CopyAt(m[k].fields, after[k].fields, p[1..]))]
  }

  /** Copying one reported path settles that path and no other. */
  lemma {:induction false} CopySettlesOnePath(m: Object, after: Object, p: Keys, q: Keys)
    requires Reported(m, after, p)
    ensures Reported(CopyAt(m, after, p), after, q) <==> Reported(m, after, q) && q != p
    decreases |p|
  {
    var k := p[0];
    if q != [] && q[0] == k {
      if |p| == 1 {
        if |q| > 1 && k in after && after[k].Map? {
          NothingReportedForEqual(after[k].fields, q[1..]);
        }
        assert |q| == 1 ==> q == p;
      } else if |q| > 1 {
        CopySettlesOnePath(m[k].fields, after[k].fields, p[1..], q[1..]);
        assert p == [k] + p[1..] && q == [k] + q[1..];
      }
    }
  }

  /** Copies every listed path that still differs. */
  function CopyAll(m: Object, after: Object, ps: seq<Keys>): Object
    decreases |ps|
  {
    if ps == [] then m
    else CopyAll(if Reported(m, after, ps[0]) then CopyAt(m, after, ps[0]) else m, after, ps[1..])
  }

  lemma {:induction false} CopyAllSettles(m: Object, after: Object, ps: seq<Keys>, q: Keys)
    ensures Reported(CopyAll(m, after, ps), after, q) <==> Reported(m, after, q) && q !in ps
    decreases |ps|
  {
    if ps != [] {
      var m' := if Reported(m, after, ps[0]) then CopyAt(m, after, ps[0]) else m;
      if Reported(m, after, ps[0]) { CopySettlesOnePath(m, after, ps[0], q); }
      CopyAllSettles(m', after, ps[1..], q);
      assert q in ps <==> q == ps[0] || q in ps[1..];
    }
  }

  /**
   Copying the values of `after` at a list of paths, in any order, turns `before`
   into `after` exactly when the list holds every reported path.
   */
  lemma {:induction false} ReportIsPatch(before: Object, after: Object, ps: seq<Keys>)
    ensures CopyAll(before, after, ps) == after <==> forall p :: Reported(before, after, p) ==> p in ps
  {
    var patched := CopyAll(before, after, ps);
    NothingReportedIffEqual(patched, after);
    if patched == after {
      forall p | Reported(before, after, p) ensures p in ps { CopyAllSettles(before, after, ps, p); }
    }
    if forall p :: Reported(before, after, p) ==> p in ps {
      forall p ensures !Reported(patched, after, p) { CopyAllSettles(before, after, ps, p); }
    }
  }

  // ----- Printed paths -----

  /** A path is printed as its keys with dots between them; only an empty first key leaves no trace. */
  lemma {:induction false} PrintedIsJoined(p: Keys)
    requires p != [] ==> p[0] != ""
    ensures Printed("", p) == Strings.Join(p, '.')
  {
    if p != [] {
      PrintedBelow(p[0], p[1..]);
      assert [p[0]] + p[1..] == p;
    }
  }

  lemma {:induction false} PrintedBelow(prefix: string, p: Keys)
    requires prefix != ""
    ensures Printed(prefix, p) == Strings.Join([prefix] + p, '.')
    decreases |p|
  {
    if p != [] {
      var first, rest := prefix + "." + p[0], p[1..];
      PrintedBelow(first, rest);
      assert [prefix] + p == [prefix, p[0]] + rest;
      JoinedFirst(prefix, p[0], rest);
    }
  }

  lemma {:induction false} JoinedFirst(a: string, b: string, rest: seq<string>)
    ensures Strings.Join([a, b] + rest, '.') == Strings.Join([a + "." + b] + rest, '.')
  {
    assert ([a, b] + rest)[1..] == [b] + rest && ([a + "." + b] + rest)[1..] == rest && ([b] + rest)[1..] == rest;
  }

  /** Keys that survive the dotted form. */
  predicate DotFree(p: Keys) {
    forall i :: 0 <= i < |p| ==> p[i] != "" && '.' !in p[i]
  }

  lemma {:induction false} PrintedExtends(prefix: string, p: Keys)
    requires prefix != "" && DotFree(p)
    ensures Printed(prefix, p) == if p == [] then prefix else prefix + "." + Printed("", p)
    decreases |p|
  {
    if p != [] {
      assert DotFree(p[1..]);
      PrintedExtends(prefix + "." + p[0], p[1..]);
      PrintedExtends(p[0], p[1..]);
      if |p| > 1 {
        assert prefix + "." + p[0] + "." + Printed("", p[1..]) == prefix + "." + (p[0] + "." + Printed("", p[1..]));
      }
    }
  }

  /** Two different dot-free paths are printed differently. */
  lemma {:induction false} PrintedIsInjective(p: Keys, q: Keys)
    requires DotFree(p) && DotFree(q) && Printed("", p) == Printed("", q)
    ensures p == q
    decreases |p|
  {
    PrintedSplits(p);
    PrintedSplits(q);
    if p != [] && q != [] {
      SameFirstKey(p[0], q[0], Printed("", p[1..]), Printed("", q[1..]), |p| > 1, |q| > 1);
      assert DotFree(p[1..]) && DotFree(q[1..]);
      PrintedIsInjective(p[1..], q[1..]);
    }
  }

  lemma {:induction false} PrintedSplits(p: Keys)
    requires DotFree(p)
    ensures p == [] ==> Printed("", p) == ""
    ensures p != [] ==> Printed("", p) == p[0] + (if |p| > 1 then "." + Printed("", p[1..]) else "")
    ensures p != [] ==> Printed("", p) != ""
  {
    if p != [] {
      PrintedFrom(p[0], p[1..]);
    }
  }

  lemma {:induction false} PrintedFrom(first: string, rest: Keys)
    requires first != "" && DotFree(rest)
    ensures Printed(first, rest) == first + (if rest == [] then "" else "." + Printed("", rest))
  {
    PrintedExtends(first, rest);
    if rest != [] {
      assert first + "." + Printed("", rest) == first + ("." + Printed("", rest));
    } else {
      assert first + "" == first;
    }
  }

  lemma {:induction false} SameFirstKey(k: string, l: string, s: string, t: string, more: bool, more': bool)
    requires '.' !in k && '.' !in l && (!more ==> s == "") && (!more' ==> t == "")
    requires k + (if more then "." + s else "") == l + (if more' then "." + t else "")
    ensures k == l && s == t
    decreases |k|
  {
    var left, right := k + (if more then "." + s else ""), l + (if more' then "." + t else "");
    assert |k| < |left| ==> left[|k|] == '.';
    assert |l| < |right| ==> right[|l|] == '.';
    assert forall i :: 0 <= i < |k| ==> left[i] == k[i] && k[i] in k;
    assert forall i :: 0 <= i < |l| ==> right[i] == l[i] && l[i] in l;
    assert |k| == |l|;
    assert k == left[..|k|] && l == right[..|l|];
    assert left[|k|..] == right[|l|..];
    if more {
      assert left[|k|..][1..] == s && right[|l|..][1..] == t;
    }
  }

  /** With dots inside keys two different reported paths can be printed alike. */
  lemma DottedKeysCollide()
    ensures
      var before: Object := map["a.b" := Num(1), "a" := Map(map["b" := Num(1)])];
      var after: Object := map["a.b" := Num(2), "a" := Map(map["b" := Num(2)])];
      Reported(before, after, ["a.b"]) && Reported(before, after, ["a", "b"]) &&
      Printed("", ["a.b"]) == Printed("", ["a", "b"])
  {
    assert ["a", "b"][1..] == ["b"] && ["a.b"][1..] == [] && ["b"][1..] == [];
    assert Printed("", ["a", "b"]) == Printed("a", ["b"]) == Printed("a.b", []);
  }
}

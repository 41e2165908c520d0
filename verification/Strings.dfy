/**
 The string operations of the Go and TypeScript standard libraries that the
 modelled code relies on. A string stands for its bytes, one `char` per byte.
 */
module Strings {

  /** strings.Split with a one-byte separator: always at least one part. */
  function Split(s: string, sep: char): (parts: seq<string>)
    ensures |parts| >= 1
  {
    if s == "" then [""]
    else
      var rest := Split(s[1..], sep);
      if s[0] == sep then [""] + rest
      else [[s[0]] + rest[0]] + rest[1..]
  }

  function Join(parts: seq<string>, sep: char): string {
    if parts == [] then ""
    else if |parts| == 1 then parts[0]
    else parts[0] + [sep] + Join(parts[1..], sep)
  }

  lemma {:induction false} JoinSplit(s: string, sep: char)
    ensures Join(Split(s, sep), sep) == s
  {
    if s != "" {
      JoinSplit(s[1..], sep);
      var rest := Split(s[1..], sep);
      if s[0] == sep {
        assert Split(s, sep)[1..] == rest;
      } else if |rest| > 1 {
        assert Split(s, sep)[1..] == rest[1..];
      }
    }
  }

  /** A part free of the separator comes back whole, in front of the rest. */
  lemma {:induction false} SplitPart(part: string, rest: string, sep: char)
    requires sep !in part
    ensures Split(part + [sep] + rest, sep) == [part] + Split(rest, sep)
  {
    if part == "" {
      assert (part + [sep] + rest)[1..] == rest;
    } else {
      SplitPart(part[1..], rest, sep);
      assert (part + [sep] + rest)[1..] == part[1..] + [sep] + rest;
      assert ([part[1..]] + Split(rest, sep))[1..] == Split(rest, sep);
      assert [part[0]] + part[1..] == part;
    }
  }

  lemma {:induction false} SplitWhole(part: string, sep: char)
    requires sep !in part
    ensures Split(part, sep) == [part]
  {
    if part != "" {
      SplitWhole(part[1..], sep);
      assert [part[0]] + part[1..] == part;
    }
  }

  lemma {:induction false} SplitJoin(parts: seq<string>, sep: char)
    requires parts != [] && forall p :: p in parts ==> sep !in p
    ensures Split(Join(parts, sep), sep) == parts
  {
    if |parts| == 1 {
      SplitWhole(parts[0], sep);
    } else {
      SplitJoin(parts[1..], sep);
      SplitPart(parts[0], Join(parts[1..], sep), sep);
    }
  }

  lemma {:induction false} SplitAppend(a: string, b: string, sep: char)
    ensures Split(a + [sep] + b, sep) == Split(a, sep) + Split(b, sep)
  {
    if a == "" {
      assert (a + [sep] + b)[1..] == b;
    } else {
      assert (a + [sep] + b)[1..] == a[1..] + [sep] + b;
      SplitAppend(a[1..], b, sep);
    }
  }

  lemma {:induction false} SplitHasNoSeparator(s: string, sep: char)
    ensures forall p :: p in Split(s, sep) ==> sep !in p
  {
    if s != "" { SplitHasNoSeparator(s[1..], sep); }
  }

  lemma {:induction false} JoinAppend(a: seq<string>, b: seq<string>, sep: char)
    requires a != [] && b != []
    ensures Join(a + b, sep) == Join(a, sep) + [sep] + Join(b, sep)
  {
    if |a| == 1 {
      assert (a + b)[1..] == b;
    } else {
      assert (a + b)[1..] == a[1..] + b;
      JoinAppend(a[1..], b, sep);
    }
  }

  // ----- Prefixes, suffixes, letter case -----

  predicate HasPrefix(s: string, prefix: string) {
    prefix <= s
  }

  predicate HasSuffix(s: string, suffix: string) {
    |suffix| <= |s| && s[|s| - |suffix|..] == suffix
  }

  lemma LastOfSuffix(s: string, suffix: string)
    requires HasSuffix(s, suffix) && suffix != ""
    ensures s[|s| - 1] == suffix[|suffix| - 1]
  {
    assert s[|s| - |suffix|..][|suffix| - 1] == s[|s| - 1];
  }

  function TrimSuffix(s: string, suffix: string): string {
    if HasSuffix(s, suffix) then s[..|s| - |suffix|] else s
  }

  function LowerChar(c: char): char {
    if 'A' <= c <= 'Z' then c + ' ' else c
  }

  function Lower(s: string): string {
    if s == "" then "" else [LowerChar(s[0])] + Lower(s[1..])
  }

  /** strings.EqualFold, on ASCII letters. */
  predicate EqualFold(a: string, b: string) {
    Lower(a) == Lower(b)
  }

  predicate IsLetter(c: char) {
    'a' <= c <= 'z' || 'A' <= c <= 'Z'
  }

  /** The same character, or the same letter in the other case, which lies 32 further on. */
  predicate SameUpToCase(c: char, d: char) {
    c == d || (IsLetter(c) && IsLetter(d) && (c as int - d as int == 32 || d as int - c as int == 32))
  }

  lemma {:induction false} EqualFoldIff(a: string, b: string)
    ensures EqualFold(a, b) <==> |a| == |b| && forall i :: 0 <= i < |a| ==> SameUpToCase(a[i], b[i])
  {
    if a != [] && b != [] {
      EqualFoldIff(a[1..], b[1..]);
      assert LowerChar(a[0]) == LowerChar(b[0]) <==> SameUpToCase(a[0], b[0]);
      assert Lower(a)[1..] == Lower(a[1..]) && Lower(b)[1..] == Lower(b[1..]);
      assert forall i :: 0 < i < |a| ==> a[i] == a[1..][i - 1];
      assert forall i :: 0 < i < |b| ==> b[i] == b[1..][i - 1];
    }
  }

  // ----- White space -----

  predicate IsSpace(c: char) {
    c == ' ' || c == '\t' || c == '\n' || c == '\r' || c == '\U{0B}' || c == '\U{0C}'
  }

  /** White space by code: tab, line feed, the two after it, carriage return and the blank. */
  lemma SpaceCodes(c: char)
    ensures IsSpace(c) <==> c as int in {9, 10, 11, 12, 13, 32}
  {
  }

  predicate NoSpace(s: string) {
    forall i :: 0 <= i < |s| ==> !IsSpace(s[i])
  }

  /** The characters before the first white space. */
  function Word(s: string): (w: string)
    ensures w <= s && NoSpace(w)
    ensures s != "" && !IsSpace(s[0]) ==> w != ""
    ensures |w| < |s| ==> IsSpace(s[|w|])
  {
    if s == "" || IsSpace(s[0]) then "" else [s[0]] + Word(s[1..])
  }

  /** strings.Fields */
  function Fields(s: string): seq<string>
    decreases |s|
  {
    if s == "" then []
    else if IsSpace(s[0]) then Fields(s[1..])
    else [Word(s)] + Fields(s[|Word(s)|..])
  }

  lemma {:induction false} WordStopsAtSpace(w: string, rest: string)
    requires NoSpace(w) && (rest == "" || IsSpace(rest[0]))
    ensures Word(w + rest) == w
  {
    if w == "" {
      assert w + rest == rest;
    } else {
      assert (w + rest)[1..] == w[1..] + rest;
      WordStopsAtSpace(w[1..], rest);
    }
  }

  lemma {:induction false} FieldsConcat(a: string, c: char, b: string)
    requires IsSpace(c)
    ensures Fields(a + [c] + b) == Fields(a) + Fields(b)
    decreases |a|
  {
    var s := a + [c] + b;
    if a == "" {
      assert s[1..] == b;
    } else if IsSpace(a[0]) {
      assert s[1..] == a[1..] + [c] + b;
      FieldsConcat(a[1..], c, b);
    } else {
      var w := Word(a);
      var rest := a[|w|..];
      assert a == w + rest && s == w + (rest + [c] + b);
      WordStopsAtSpace(w, rest + [c] + b);
      assert s[|w|..] == rest + [c] + b;
      FieldsConcat(rest, c, b);
    }
  }

  lemma {:induction false} FieldsSnoc(a: string, w: string)
    requires w != "" && NoSpace(w)
    ensures Fields(a + " " + w) == Fields(a) + [w]
  {
    FieldsConcat(a, ' ', w);
    assert a + " " + w == a + [' '] + w;
    FieldsOfWord(w);
  }

  lemma {:induction false} FieldsOfWord(w: string)
    requires w != "" && NoSpace(w)
    ensures Fields(w) == [w]
  {
    WordStopsAtSpace(w, "");
    assert w + "" == w && w[|w|..] == "";
  }

  /** Three words on a line. */
  function Three(a: string, b: string, c: string): string {
    a + " " + b + " " + c
  }

  predicate IsWord(w: string) {
    w != "" && NoSpace(w)
  }

  lemma FieldsOfThree(a: string, b: string, c: string)
    requires IsWord(a) && IsWord(b) && IsWord(c)
    ensures Fields(Three(a, b, c)) == [a, b, c]
    ensures '\n' !in Three(a, b, c)
  {
    FieldsSnoc(a + " " + b, c);
    FieldsSnoc(a, b);
    FieldsOfWord(a);
  }

  function TrimLeft(s: string): string {
    if s != "" && IsSpace(s[0]) then TrimLeft(s[1..]) else s
  }

  function TrimRight(s: string): string {
    if s != "" && IsSpace(s[|s| - 1]) then TrimRight(s[..|s| - 1]) else s
  }

  /** bytes.TrimSpace */
  function TrimSpace(s: string): string {
    TrimRight(TrimLeft(s))
  }

  /** strings.TrimRight with a cut set of line-ending characters. */
  function TrimRightSet(s: string, cut: set<char>): string {
    if s != "" && s[|s| - 1] in cut then TrimRightSet(s[..|s| - 1], cut) else s
  }

  lemma {:induction false} FieldsIgnoreTrimmed(s: string, cut: set<char>)
    requires forall c :: c in cut ==> IsSpace(c)
    ensures Fields(TrimRightSet(s, cut)) == Fields(s)
    decreases |s|
  {
    if s != "" && s[|s| - 1] in cut {
      FieldsIgnoreTrimmed(s[..|s| - 1], cut);
      FieldsConcat(s[..|s| - 1], s[|s| - 1], "");
      assert s == s[..|s| - 1] + [s[|s| - 1]] + "";
    }
  }

  // ----- Decimal numbers -----

  function Digit(n: nat): char
    requires n < 10
  {
    '0' + n as char
  }

  function Dec(n: nat): string {
    if n < 10 then [Digit(n)] else Dec(n / 10) + [Digit(n % 10)]
  }

  predicate AllDigits(s: string) {
    forall i :: 0 <= i < |s| ==> '0' <= s[i] <= '9'
  }

  function DecValue(s: string): nat
    requires AllDigits(s)
  {
    if s == "" then 0 else 10 * DecValue(s[..|s| - 1]) + (s[|s| - 1] - '0') as nat
  }

  /** strconv.Atoi, whose value is 0 where it reports an error; the result is not bounded. */
  function Atoi(s: string): int {
    var digits := if s != "" && (s[0] == '-' || s[0] == '+') then s[1..] else s;
    if digits == "" || !AllDigits(digits) then 0
    else (if s[0] == '-' then -1 else 1) * DecValue(digits)
  }

  lemma {:induction false} AtoiInvertsDec(n: nat)
    ensures Dec(n) != "" && AllDigits(Dec(n)) && NoSpace(Dec(n))
    ensures DecValue(Dec(n)) == n && Atoi(Dec(n)) == n
  {
    if n >= 10 {
      AtoiInvertsDec(n / 10);
      assert Dec(n)[..|Dec(n)| - 1] == Dec(n / 10);
    } else {
      assert Dec(n)[..0] == "";
    }
  }

  /** A sign is read; anything else that is not a digit makes the whole text zero. */
  lemma {:induction false} AtoiSigned(n: nat, s: string, i: nat)
    ensures Atoi("-" + Dec(n)) == 0 - n && Atoi("+" + Dec(n)) == n
    ensures 0 < i < |s| && !('0' <= s[i] <= '9') ==> Atoi(s) == 0
    ensures Atoi("") == 0 && Atoi("-") == 0
  {
    AtoiInvertsDec(n);
    assert ("-" + Dec(n))[1..] == Dec(n) && ("+" + Dec(n))[1..] == Dec(n);
    if 0 < i < |s| { assert s[1..][i - 1] == s[i]; }
  }
}

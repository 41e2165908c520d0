/** The time index over commits: reversed, stably sorted, searched by bisection. */
module CommitIndex {
  import opened Wrappers

  datatype CommitRef = CommitRef(time: int, sha: string)

  function Reversed(s: seq<CommitRef>): seq<CommitRef> {
    if s == [] then [] else Reversed(s[1..]) + [s[0]]
  }

  lemma {:induction false} ReversedAt(s: seq<CommitRef>, k: nat)
    requires k < |s|
    ensures |Reversed(s)| == |s| && Reversed(s)[k] == s[|s| - 1 - k]
  {
    if |s| > 1 {
      ReversedAt(s[1..], if k < |s| - 1 then k else 0);
    }
  }

  /** The swap loop. */
  method ReverseInPlace(refs: array<CommitRef>)
    modifies refs
    ensures forall k :: 0 <= k < refs.Length ==> refs[k] == old(refs[refs.Length - 1 - k])
  {
    var i, j := 0, refs.Length - 1;
    while i < j
      invariant 0 <= i <= j + 1 && j == refs.Length - 1 - i
      invariant forall k :: 0 <= k < i ==> refs[k] == old(refs[refs.Length - 1 - k])
      invariant forall k :: j < k < refs.Length ==> refs[k] == old(refs[refs.Length - 1 - k])
      invariant forall k :: i <= k <= j ==> refs[k] == old(refs[k])
    {
      refs[i], refs[j] := refs[j], refs[i];
      i, j := i + 1, j - 1;
    }
  }

  lemma {:induction false} MirroredIsReversed(s: seq<CommitRef>, r: seq<CommitRef>)
    requires |r| == |s| && forall k :: 0 <= k < |r| ==> r[k] == s[|s| - 1 - k]
    ensures r == Reversed(s)
  {
    if s != [] { ReversedAt(s, 0); }
    forall k | 0 <= k < |r| ensures |Reversed(s)| == |r| && r[k] == Reversed(s)[k] { ReversedAt(s, k); }
  }

  // ----- Stable sorting -----

  ghost predicate Sorted(s: seq<CommitRef>) {
    forall i, j :: 0 <= i < j < |s| ==> s[i].time <= s[j].time
  }

  /** The entries with a given time, in their order. */
  function AtTime(s: seq<CommitRef>, t: int): seq<CommitRef> {
    if s == [] then [] else (if s[0].time == t then [s[0]] else []) + AtTime(s[1..], t)
  }

  /** A stable sort: ascending times, and entries with equal times keep their order. */
  ghost predicate StablySorted(r: seq<CommitRef>, s: seq<CommitRef>) {
    Sorted(r) && forall t :: AtTime(r, t) == AtTime(s, t)
  }

  /** Insertion behind every entry that is not later. */
  function InsertLast(s: seq<CommitRef>, x: CommitRef): seq<CommitRef> {
    if s == [] then [x]
    else if x.time < s[0].time then [x] + s
    else [s[0]] + InsertLast(s[1..], x)
  }

  function StableSort(s: seq<CommitRef>): seq<CommitRef> {
    if s == [] then [] else InsertLast(StableSort(s[..|s| - 1]), s[|s| - 1])
  }

  lemma {:induction false} InsertLastPermutes(s: seq<CommitRef>, x: CommitRef)
    ensures multiset(InsertLast(s, x)) == multiset(s) + multiset{x}
  {
    if s != [] {
      assert s == [s[0]] + s[1..];
      InsertLastPermutes(s[1..], x);
    }
  }

  lemma {:induction false} InsertLastSorted(s: seq<CommitRef>, x: CommitRef)
    requires Sorted(s)
    ensures Sorted(InsertLast(s, x))
  {
    if s != [] && x.time >= s[0].time {
      var rest := InsertLast(s[1..], x);
      InsertLastSorted(s[1..], x);
      InsertLastPermutes(s[1..], x);
      forall i | 0 <= i < |rest| ensures s[0].time <= rest[i].time {
        assert rest[i] in multiset(rest);
        assert rest[i] == x || rest[i] in s[1..];
      }
    }
  }

  lemma {:induction false} AtTimeCons(y: CommitRef, s: seq<CommitRef>, t: int)
    ensures AtTime([y] + s, t) == (if y.time == t then [y] else []) + AtTime(s, t)
  {
    assert ([y] + s)[1..] == s;
  }

  lemma {:induction false} InsertLastAtTime(s: seq<CommitRef>, x: CommitRef, t: int)
    requires Sorted(s)
    ensures AtTime(InsertLast(s, x), t) == AtTime(s, t) + (if x.time == t then [x] else [])
  {
    if s != [] {
      if x.time < s[0].time {
        AtTimeCons(x, s, t);
        if x.time == t { NoneAtEarlierTime(s, t); }
      } else {
        InsertLastAtTime(s[1..], x, t);
        AtTimeCons(s[0], InsertLast(s[1..], x), t);
      }
    }
  }

  lemma {:induction false} NoneAtEarlierTime(s: seq<CommitRef>, t: int)
    requires forall i :: 0 <= i < |s| ==> t < s[i].time
    ensures AtTime(s, t) == []
  {
    if s != [] { NoneAtEarlierTime(s[1..], t); }
  }

  lemma {:induction false} AtTimeSnoc(s: seq<CommitRef>, x: CommitRef, t: int)
    ensures AtTime(s + [x], t) == AtTime(s, t) + (if x.time == t then [x] else [])
  {
    if s != [] {
      AtTimeSnoc(s[1..], x, t);
      assert (s + [x])[1..] == s[1..] + [x];
    }
  }

  lemma {:induction false} StableSortIsStable(s: seq<CommitRef>)
    ensures StablySorted(StableSort(s), s) && multiset(StableSort(s)) == multiset(s)
  {
    if s != [] {
      var init, x := s[..|s| - 1], s[|s| - 1];
      assert s == init + [x];
      StableSortIsStable(init);
      InsertLastSorted(StableSort(init), x);
      InsertLastPermutes(StableSort(init), x);
      forall t ensures AtTime(StableSort(s), t) == AtTime(s, t) {
        InsertLastAtTime(StableSort(init), x, t);
        AtTimeSnoc(init, x, t);
      }
    }
  }

  /** There is only one stable sort of a list, so any stable algorithm computes this one. */
  lemma {:induction false} StableSortIsUnique(r: seq<CommitRef>, r': seq<CommitRef>)
    requires Sorted(r) && Sorted(r') && forall t :: AtTime(r, t) == AtTime(r', t)
    ensures r == r'
  {
    if r == [] || r' == [] {
      assert r != [] ==> AtTime(r, r[0].time) != [];
      assert r' != [] ==> AtTime(r', r'[0].time) != [];
    } else {
      FirstNotEarlier(r, r');
      FirstNotEarlier(r', r);
      assert AtTime(r, r[0].time) == AtTime(r', r[0].time);
      assert AtTime(r, r[0].time)[0] == r[0] && AtTime(r', r'[0].time)[0] == r'[0];
      forall t ensures AtTime(r[1..], t) == AtTime(r'[1..], t) {
        var first := if r[0].time == t then [r[0]] else [];
        assert first + AtTime(r[1..], t) == AtTime(r, t) == AtTime(r', t) == first + AtTime(r'[1..], t);
        assert AtTime(r, t)[|first|..] == AtTime(r[1..], t) && AtTime(r', t)[|first|..] == AtTime(r'[1..], t);
      }
      StableSortIsUnique(r[1..], r'[1..]);
      assert r == [r[0]] + r[1..] && r' == [r'[0]] + r'[1..];
    }
  }

  lemma {:induction false} FirstNotEarlier(r: seq<CommitRef>, r': seq<CommitRef>)
    requires r != [] && r' != [] && Sorted(r') && forall t :: AtTime(r, t) == AtTime(r', t)
    ensures r'[0].time <= r[0].time
  {
    if r[0].time < r'[0].time {
      NoneAtEarlierTime(r', r[0].time);
    }
  }

  // ----- Looking up a time -----

  /** The last entry not after `t`, counting from the end. */
  function LastUpTo(s: seq<CommitRef>, t: int): Option<CommitRef> {
    if s == [] then None
    else
      var r := LastUpTo(s[1..], t);
      if r.Some? then r else if s[0].time <= t then Some(s[0]) else None
  }

  /** The bisection: the last qualifying entry, or none. */
  method Bisect(refs: seq<CommitRef>, t: int) returns (r: Option<CommitRef>)
    requires Sorted(refs)
    ensures r == LastUpTo(refs, t)
  {
    var lo, hi := 0, |refs| - 1;
    var result := -1;
    while lo <= hi
      invariant 0 <= lo <= hi + 1 <= |refs| && result == lo - 1
      invariant forall k :: 0 <= k < lo ==> refs[k].time <= t
      invariant forall k :: hi < k < |refs| ==> t < refs[k].time
    {
      var mid := (lo + hi) / 2;
      if refs[mid].time <= t {
        result := mid;
        lo := mid + 1;
      } else {
        hi := mid - 1;
      }
    }
    LastUpToAt(refs, t, lo);
    if result == -1 {
      return None;
    }
    return Some(refs[result]);
  }

  lemma {:induction false} LastUpToAt(s: seq<CommitRef>, t: int, n: nat)
    requires n <= |s|
    requires forall k :: 0 <= k < n ==> s[k].time <= t
    requires forall k :: n <= k < |s| ==> t < s[k].time
    ensures LastUpTo(s, t) == if n == 0 then None else Some(s[n - 1])
  {
    if s != [] {
      LastUpToAt(s[1..], t, if n == 0 then 0 else n - 1);
    }
  }

  /** Entry `i` of the git log is the answer for time `t`: latest time, and first listed among equals. */
  ghost predicate IsAnswer(log: seq<CommitRef>, t: int, i: nat) {
    && i < |log| && log[i].time <= t
    && forall j :: 0 <= j < |log| && log[j].time <= t ==>
         log[j].time < log[i].time || (log[j].time == log[i].time && i <= j)
  }

  /** The answer for the log, or none exactly when every entry is later. */
  ghost predicate IsLookup(log: seq<CommitRef>, t: int, r: Option<CommitRef>) {
    if r.None? then forall i :: 0 <= i < |log| ==> t < log[i].time
    else exists i: nat :: IsAnswer(log, t, i) && log[i] == r.value
  }

  lemma {:induction false} LastUpToInsert(s: seq<CommitRef>, x: CommitRef, t: int)
    requires Sorted(s)
    ensures
      var old' := LastUpTo(s, t);
      LastUpTo(InsertLast(s, x), t) ==
      if x.time <= t && (old'.None? || old'.value.time <= x.time) then Some(x) else old'
  {
    if s != [] {
      if x.time < s[0].time {
        assert ([x] + s)[1..] == s;
        LastUpToIsLater(s, t);
      } else {
        LastUpToInsert(s[1..], x, t);
        assert ([s[0]] + InsertLast(s[1..], x))[1..] == InsertLast(s[1..], x);
      }
    }
  }

  lemma {:induction false} LastUpToIsLater(s: seq<CommitRef>, t: int)
    requires Sorted(s) && s != []
    ensures LastUpTo(s, t).Some? ==> s[0].time <= LastUpTo(s, t).value.time
  {
    if |s| > 1 {
      LastUpToIsLater(s[1..], t);
    }
  }

  /** Looking up the reversed and stably sorted log answers for the log itself. */
  lemma {:induction false} LookupAnswersForLog(log: seq<CommitRef>, t: int)
    ensures IsLookup(log, t, LastUpTo(StableSort(Reversed(log)), t))
  {
    if log != [] {
      var rest := log[1..];
      var sorted := StableSort(Reversed(rest));
      LookupAnswersForLog(rest, t);
      StableSortIsStable(Reversed(rest));
      assert Reversed(log)[..|Reversed(log)| - 1] == Reversed(rest);
      LastUpToInsert(sorted, log[0], t);
      AnswerForOneMore(log, t, LastUpTo(sorted, t));
    }
  }

  /** How one more commit in front of the log changes the answer. */
  lemma AnswerForOneMore(log: seq<CommitRef>, t: int, earlier: Option<CommitRef>)
    requires log != [] && IsLookup(log[1..], t, earlier)
    ensures IsLookup(log, t,
      if log[0].time <= t && (earlier.None? || earlier.value.time <= log[0].time) then Some(log[0]) else earlier)
  {
    var rest := log[1..];
    forall j | 1 <= j < |log| ensures log[j] == rest[j - 1] {}
    if earlier.Some? {
      var i: nat :| IsAnswer(rest, t, i) && rest[i] == earlier.value;
      assert log[i + 1] == rest[i];
      assert if log[0].time <= t && earlier.value.time <= log[0].time then IsAnswer(log, t, 0) else IsAnswer(log, t, i + 1);
    } else if log[0].time <= t {
      assert IsAnswer(log, t, 0);
    }
  }

  class CommitIndex {
    var refs: seq<CommitRef>
    /** The entries in the order git listed them. */
    ghost var log: seq<CommitRef>

    ghost predicate Valid()
      reads this
    {
      refs == StableSort(Reversed(log))
    }

    /** BuildCommitIndex, from the parsed log lines. */
    constructor (listed: seq<CommitRef>)
      ensures Valid() && log == listed
      ensures Sorted(refs) && multiset(refs) == multiset(Reversed(listed))
    {
      var a := new CommitRef[|listed|](i requires 0 <= i < |listed| => listed[i]);
      assert a[..] == listed;
      ReverseInPlace(a);
      MirroredIsReversed(listed, a[..]);
      StableSortIsStable(a[..]);
      refs, log := StableSort(a[..]), listed;
    }

    method FindBefore(t: int) returns (r: Option<CommitRef>)
      requires Valid()
      ensures IsLookup(log, t, r)
    {
      StableSortIsStable(Reversed(log));
      LookupAnswersForLog(log, t);
      r := Bisect(refs, t);
    }
  }
}

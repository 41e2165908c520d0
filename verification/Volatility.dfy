/** How often each resource changed within the most recent commits of the change index. */
module Volatility {
  import opened ChangeLog
  import opened ChangeQueries

  datatype Key = Key(cluster: string, group: string, kind: string, namespace: string, name: string)

  datatype VolatilityEntry = VolatilityEntry(key: Key, count: nat, total: nat)

  function KeyOf(e: ChangeEvent): Key {
    Key(e.cluster, e.group, e.kind, e.namespace, e.name)
  }

  // ----- Distinct commits, keys and pairs of a list of events -----

  function Shas(s: seq<ChangeEvent>): set<string> {
    set i | 0 <= i < |s| :: s[i].sha
  }

  function ShasFor(s: seq<ChangeEvent>, k: Key): set<string> {
    set i | 0 <= i < |s| && KeyOf(s[i]) == k :: s[i].sha
  }

  function Keys(s: seq<ChangeEvent>): set<Key> {
    set i | 0 <= i < |s| :: KeyOf(s[i])
  }

  function Pairs(s: seq<ChangeEvent>, ks: set<Key>): set<(Key, string)> {
    set i | 0 <= i < |s| && KeyOf(s[i]) in ks :: (KeyOf(s[i]), s[i].sha)
  }

  /** `window` is the longest suffix of the matching events with at most `maxCommits` distinct commits. */
  ghost predicate IsWindow(matched: seq<ChangeEvent>, window: seq<ChangeEvent>, maxCommits: int) {
    && |window| <= |matched|
    && var start := |matched| - |window|;
       && window == matched[start..]
       && (forall j :: 0 <= j <= |matched| ==> (|Shas(matched[j..])| <= maxCommits <==> start <= j))
  }

  /** The resources of the window, each once, with its number of distinct commits there. */
  ghost predicate Counted(window: seq<ChangeEvent>, total: nat, r: seq<VolatilityEntry>) {
    && (forall i, j :: 0 <= i < j < |r| ==> r[i].key != r[j].key)
    && (forall i :: 0 <= i < |r| ==>
          r[i].key in Keys(window) && r[i].count == |ShasFor(window, r[i].key)| && r[i].total == total)
    && KeysOf(r) == Keys(window)
  }

  function KeysOf(r: seq<VolatilityEntry>): set<Key> {
    set i | 0 <= i < |r| :: r[i].key
  }

  /** What the two maps of the loop hold for the events seen. */
  ghost predicate Tallied(seen: seq<ChangeEvent>, counts: map<Key, set<string>>) {
    counts.Keys == Keys(seen) && forall k :: k in counts ==> counts[k] == ShasFor(seen, k)
  }

  lemma TallyShas(seen: seq<ChangeEvent>, e: ChangeEvent)
    ensures Shas([e] + seen) == Shas(seen) + {e.sha}
  {
    var s := [e] + seen;
    assert s[0].sha == e.sha;
    forall x | x in Shas(seen) ensures x in Shas(s) {
      var i :| 0 <= i < |seen| && seen[i].sha == x;
      assert s[i + 1] == seen[i];
    }
  }

  lemma TallyKeys(seen: seq<ChangeEvent>, e: ChangeEvent)
    ensures Keys([e] + seen) == Keys(seen) + {KeyOf(e)}
  {
    var s := [e] + seen;
    assert KeyOf(s[0]) == KeyOf(e);
    forall k | k in Keys(seen) ensures k in Keys(s) {
      var i :| 0 <= i < |seen| && KeyOf(seen[i]) == k;
      assert s[i + 1] == seen[i];
    }
  }

  lemma TallyFor(seen: seq<ChangeEvent>, e: ChangeEvent, k: Key)
    ensures ShasFor([e] + seen, k) == ShasFor(seen, k) + (if KeyOf(e) == k then {e.sha} else {})
  {
    var s := [e] + seen;
    assert s[0] == e && forall i :: 0 < i < |s| ==> s[i] == seen[i - 1];
    forall x | x in ShasFor(seen, k) ensures x in ShasFor(s, k) {
      var i :| 0 <= i < |seen| && KeyOf(seen[i]) == k && seen[i].sha == x;
      assert s[i + 1] == seen[i];
    }
  }

  lemma TallyOne(seen: seq<ChangeEvent>, counts: map<Key, set<string>>, e: ChangeEvent)
    requires Tallied(seen, counts)
    ensures
      var k := KeyOf(e);
      Tallied([e] + seen, counts[k := (if k in counts then counts[k] else {}) + {e.sha}])
  {
    TallyKeys(seen, e);
    forall k { TallyFor(seen, e, k); }
    assert KeyOf(e) !in counts ==> ShasFor(seen, KeyOf(e)) == {};
  }

  lemma SuffixHasFewerShas(s: seq<ChangeEvent>, i: nat, j: nat)
    requires i <= j <= |s|
    ensures Shas(s[j..]) <= Shas(s[i..]) && |Shas(s[j..])| <= |Shas(s[i..])|
  {
    forall x | x in Shas(s[j..]) ensures x in Shas(s[i..]) {
      var k :| 0 <= k < |s[j..]| && s[j..][k].sha == x;
      assert s[i..][k + (j - i)] == s[j..][k];
    }
    SubsetIsSmaller(Shas(s[j..]), Shas(s[i..]));
  }

  lemma SubsetIsSmaller<T>(a: set<T>, b: set<T>)
    requires a <= b
    ensures |a| <= |b|
  {
    assert b == a + (b - a);
  }

  /** Stopping before the first event that would exceed the cap gives the longest suffix. */
  lemma StoppedIsWindow(matched: seq<ChangeEvent>, start: nat, maxCommits: int)
    requires start <= |matched| && |Shas(matched[start..])| <= maxCommits
    requires start > 0 ==> |Shas(matched[start - 1..])| > maxCommits
    ensures IsWindow(matched, matched[start..], maxCommits)
  {
    forall j | 0 <= j <= |matched| ensures |Shas(matched[j..])| <= maxCommits <==> start <= j {
      if start <= j { SuffixHasFewerShas(matched, start, j); } else { SuffixHasFewerShas(matched, j, start - 1); }
    }
  }

  /** What the loop leaves: the events counted, and how many distinct commits it noted. */
  ghost predicate Examined(matched: seq<ChangeEvent>, window: seq<ChangeEvent>, maxCommits: int, noted: nat) {
    if maxCommits <= 0 then window == matched && noted == 0
    else
      IsWindow(matched, window, maxCommits)
      && noted == if |window| < |matched| then maxCommits + 1 else |Shas(matched)|
  }

  /** The longest suffix of the matching events within the cap; everything without one. */
  ghost function Window(matched: seq<ChangeEvent>, maxCommits: int): seq<ChangeEvent> {
    if maxCommits <= 0 || |Shas(matched)| <= maxCommits then matched else Window(matched[1..], maxCommits)
  }

  /** The total reported: the commits of the window, one more when older ones were cut off, none without a cap. */
  ghost function Total(matched: seq<ChangeEvent>, maxCommits: int): nat {
    if maxCommits <= 0 then 0 else if |Shas(matched)| <= maxCommits then |Shas(matched)| else maxCommits + 1
  }

  lemma {:induction false} WindowIsLongest(matched: seq<ChangeEvent>, maxCommits: int)
    requires maxCommits > 0
    ensures IsWindow(matched, Window(matched, maxCommits), maxCommits)
    ensures |Window(matched, maxCommits)| == |matched| <==> |Shas(matched)| <= maxCommits
  {
    assert matched[0..] == matched;
    if |Shas(matched)| <= maxCommits {
      StoppedIsWindow(matched, 0, maxCommits);
    } else {
      var rest := matched[1..];
      WindowIsLongest(rest, maxCommits);
      var start := |matched| - |Window(rest, maxCommits)|;
      assert forall j :: 1 <= j <= |matched| ==> rest[j - 1..] == matched[j..];
      assert |Shas(rest[start - 1..])| <= maxCommits;
      if start > 1 { assert |Shas(rest[start - 2..])| > maxCommits; }
      StoppedIsWindow(matched, start, maxCommits);
    }
  }

  /** The loop's outcome is the specified one, and is determined by it. */
  lemma {:induction false} ExaminedIsWindow(matched: seq<ChangeEvent>, window: seq<ChangeEvent>, maxCommits: int, noted: nat)
    ensures Examined(matched, window, maxCommits, noted) <==>
      window == Window(matched, maxCommits) && noted == Total(matched, maxCommits)
  {
    if maxCommits > 0 {
      WindowIsLongest(matched, maxCommits);
      assert matched[0..] == matched;
      if IsWindow(matched, window, maxCommits) {
        var a, b := |matched| - |window|, |matched| - |Window(matched, maxCommits)|;
        assert |Shas(matched[a..])| <= maxCommits && |Shas(matched[b..])| <= maxCommits;
        assert a == b;
      }
    }
  }

  lemma StoppedEarly(matched: seq<ChangeEvent>, older: seq<ChangeEvent>, e: ChangeEvent, window: seq<ChangeEvent>, maxCommits: int)
    requires matched == older + [e] + window && maxCommits > 0
    requires |Shas(window)| <= maxCommits < |Shas([e] + window)|
    ensures Examined(matched, window, maxCommits, |Shas([e] + window)|)
  {
    var start := |older| + 1;
    assert matched[start..] == window && matched[start - 1..] == [e] + window;
    StoppedIsWindow(matched, start, maxCommits);
    TallyShas(window, e);
  }

  lemma RanOut(matched: seq<ChangeEvent>, maxCommits: int)
    requires maxCommits > 0 ==> |Shas(matched)| <= maxCommits
    ensures Examined(matched, matched, maxCommits, if maxCommits > 0 then |Shas(matched)| else 0)
  {
    assert matched[0..] == matched;
    if maxCommits > 0 {
      StoppedIsWindow(matched, 0, maxCommits);
    }
  }

  /** What the loop carries: the tallies of the events counted so far, within the cap. */
  ghost predicate Carried(window: seq<ChangeEvent>, counts: map<Key, set<string>>, commitSeen: set<string>, maxCommits: int) {
    && Tallied(window, counts)
    && commitSeen == (if maxCommits > 0 then Shas(window) else {})
    && (maxCommits > 0 ==> |Shas(window)| <= maxCommits)
  }

  /** The loop body for an event that passes the filter; `stop` is the break at the cap. */
  method Note(
    e: ChangeEvent, counts: map<Key, set<string>>, commitSeen: set<string>, maxCommits: int,
    ghost matched: seq<ChangeEvent>, ghost older: seq<ChangeEvent>, ghost window: seq<ChangeEvent>
  ) returns (counts': map<Key, set<string>>, commitSeen': set<string>, stop: bool)
    requires matched == older + [e] + window && Carried(window, counts, commitSeen, maxCommits)
    ensures stop ==> counts' == counts && Examined(matched, window, maxCommits, |commitSeen'|)
    ensures !stop ==> Carried([e] + window, counts', commitSeen', maxCommits)
  {
    counts', commitSeen' := counts, commitSeen;
    TallyShas(window, e);
    if maxCommits > 0 {
      commitSeen' := commitSeen + {e.sha};
      if |commitSeen'| > maxCommits {
        StoppedEarly(matched, older, e, window, maxCommits);
        return counts', commitSeen', true;
      }
    }
    TallyOne(window, counts, e);
    var k := KeyOf(e);
    counts' := counts[k := (if k in counts then counts[k] else {}) + {e.sha}];
    stop := false;
  }

  /** The event before the window joins it if it passes the filter. */
  lemma {:induction false} LastMatched(events: seq<ChangeEvent>, i: nat, f: Filter, window: seq<ChangeEvent>)
    requires i < |events|
    ensures
      var matched, older := Matched(events[..i + 1], f, ALWAYS) + window, Matched(events[..i], f, ALWAYS);
      if Passes(events[i], f) then matched == older + [events[i]] + window == older + ([events[i]] + window)
      else matched == older + window
  {
    assert events[..i + 1][..i] == events[..i];
  }

  /** The loop over the events from the newest, and the cap on distinct commits. */
  method CountCommits(events: seq<ChangeEvent>, f: Filter, maxCommits: int)
    returns (counts: map<Key, set<string>>, commitSeen: set<string>)
    ensures Tallied(Window(Matched(events, f, ALWAYS), maxCommits), counts)
    ensures |commitSeen| == Total(Matched(events, f, ALWAYS), maxCommits)
  {
    ghost var matched := Matched(events, f, ALWAYS);
    ghost var window: seq<ChangeEvent> := [];
    counts, commitSeen := map[], {};
    assert events[..|events|] == events && matched + [] == matched && Carried([], map[], {}, maxCommits);
    var i := |events| - 1;
    while i >= 0
      invariant -1 <= i < |events|
      invariant matched == Matched(events[..i + 1], f, ALWAYS) + window
      invariant Carried(window, counts, commitSeen, maxCommits)
    {
      var e := events[i];
      ghost var older := Matched(events[..i], f, ALWAYS);
      LastMatched(events, i, f, window);
      i := i - 1;
      if !Passes(e, f) {
        continue;
      }
      var stop;
      counts, commitSeen, stop := Note(e, counts, commitSeen, maxCommits, matched, older, window);
      if stop {
        ExaminedIsWindow(matched, window, maxCommits, |commitSeen|);
        return;
      }
      window := [e] + window;
    }
    assert Matched(events[..0], f, ALWAYS) == [] && window == matched;
    RanOut(matched, maxCommits);
    ExaminedIsWindow(matched, window, maxCommits, |commitSeen|);
  }

  /**
   Volatility. With a cap, the counts cover exactly the longest suffix of the
   matching events with at most that many distinct commits, and the total is one
   more than the cap whenever older commits were cut off. Without one, everything
   is counted and the total is zero.
   */
  method Volatility(events: seq<ChangeEvent>, f: Filter, maxCommits: int)
    returns (r: seq<VolatilityEntry>)
    ensures
      var matched := Matched(events, f, ALWAYS);
      Counted(Window(matched, maxCommits), Total(matched, maxCommits), r)
  {
    var counts, commitSeen := CountCommits(events, f, maxCommits);
    r := EntriesOf(counts, |commitSeen|);
  }

  ghost predicate Lists(r: seq<VolatilityEntry>, counts: map<Key, set<string>>, total: nat, done: set<Key>) {
    && done <= counts.Keys && KeysOf(r) == done
    && (forall i, j :: 0 <= i < j < |r| ==> r[i].key != r[j].key)
    && forall i :: 0 <= i < |r| ==> r[i].key in counts && r[i] == VolatilityEntry(r[i].key, |counts[r[i].key]|, total)
  }

  /** The loop that turns the counts into entries, in map iteration order. */
  method EntriesOf(counts: map<Key, set<string>>, total: nat) returns (r: seq<VolatilityEntry>)
    ensures Lists(r, counts, total, counts.Keys)
  {
    r := [];
    var todo := counts.Keys;
    while todo != {}
      invariant todo <= counts.Keys
      invariant Lists(r, counts, total, counts.Keys - todo)
    {
      var k :| k in todo;
      assert forall i :: 0 <= i < |r| ==> r[i].key in KeysOf(r);
      KeysOfSnoc(r, VolatilityEntry(k, |counts[k]|, total));
      r := r + [VolatilityEntry(k, |counts[k]|, total)];
      todo := todo - {k};
    }
    assert counts.Keys - {} == counts.Keys;
  }

  /** In plain terms: an entry counts the distinct commits of the window's events with its cluster, group, kind, namespace and name. */
  lemma {:induction false} EntryCountsResource(window: seq<ChangeEvent>, total: nat, r: seq<VolatilityEntry>, i: nat)
    requires Counted(window, total, r) && i < |r|
    ensures r[i].total == total
    ensures 0 < r[i].count == |set j | 0 <= j < |window| && ForResource(r[i].key, window[j]) :: window[j].sha|
  {
    var k := r[i].key;
    var shas := set j | 0 <= j < |window| && ForResource(k, window[j]) :: window[j].sha;
    assert ShasFor(window, k) == shas;
    var j :| 0 <= j < |window| && KeyOf(window[j]) == k;
    assert window[j].sha in shas;
  }

  /** Every event of the window has its entry, and no other entry is for its resource. */
  lemma {:induction false} EventHasEntry(window: seq<ChangeEvent>, total: nat, r: seq<VolatilityEntry>, j: nat) returns (i: nat)
    requires Counted(window, total, r) && j < |window|
    ensures i < |r| && forall k :: 0 <= k < |r| ==> (ForResource(r[k].key, window[j]) <==> k == i)
  {
    var key := KeyOf(window[j]);
    assert key in Keys(window);
    assert key in KeysOf(r);
    i :| 0 <= i < |r| && r[i].key == key;
    forall k | 0 <= k < |r| ensures ForResource(r[k].key, window[j]) <==> k == i {
      assert ForResource(r[k].key, window[j]) <==> r[k].key == key;
    }
  }

  predicate ForResource(k: Key, e: ChangeEvent) {
    && k.cluster == e.cluster && k.group == e.group && k.kind == e.kind
    && k.namespace == e.namespace && k.name == e.name
  }

  lemma KeysOfSnoc(r: seq<VolatilityEntry>, e: VolatilityEntry)
    ensures KeysOf(r + [e]) == KeysOf(r) + {e.key}
  {
    var s := r + [e];
    assert s[|r|] == e && forall i :: 0 <= i < |r| ==> s[i] == r[i];
    forall k | k in KeysOf(r) + {e.key} ensures k in KeysOf(s) {
      if k in KeysOf(r) {
        var i :| 0 <= i < |r| && r[i].key == k;
        assert s[i].key == k;
      } else {
        assert s[|r|].key == k;
      }
    }
  }

  // ----- What the counts mean -----

  function SumCounts(r: seq<VolatilityEntry>): nat {
    if r == [] then 0 else r[0].count + SumCounts(r[1..])
  }

  lemma {:induction false} TaggedSetSize(k: Key, shas: set<string>)
    ensures |(set x | x in shas :: (k, x))| == |shas|
    decreases shas
  {
    if shas != {} {
      var x :| x in shas;
      TaggedSetSize(k, shas - {x});
      assert (set y | y in shas :: (k, y)) == (set y | y in shas - {x} :: (k, y)) + {(k, x)};
    }
  }

  lemma PairsOfKey(window: seq<ChangeEvent>, k: Key)
    ensures |Pairs(window, {k})| == |ShasFor(window, k)|
  {
    TaggedSetSize(k, ShasFor(window, k));
    var tagged := set x | x in ShasFor(window, k) :: (k, x);
    assert Pairs(window, {k}) == tagged by {
      forall p | p in tagged ensures p in Pairs(window, {k}) {
        var i :| 0 <= i < |window| && KeyOf(window[i]) == k && window[i].sha == p.1;
        assert p == (KeyOf(window[i]), window[i].sha);
      }
    }
  }

  lemma PairsSplit(window: seq<ChangeEvent>, k: Key, ks: set<Key>)
    requires k !in ks
    ensures |Pairs(window, {k} + ks)| == |Pairs(window, {k})| + |Pairs(window, ks)|
  {
    var a, b := Pairs(window, {k}), Pairs(window, ks);
    assert Pairs(window, {k} + ks) == a + b;
    forall p ensures !(p in a && p in b) {}
    assert a !! b;
  }

  lemma {:induction false} CountsSumOverKeys(window: seq<ChangeEvent>, r: seq<VolatilityEntry>)
    requires forall i, j :: 0 <= i < j < |r| ==> r[i].key != r[j].key
    requires forall i :: 0 <= i < |r| ==> r[i].count == |ShasFor(window, r[i].key)|
    ensures SumCounts(r) == |Pairs(window, KeysOf(r))|
    decreases |r|
  {
    if r == [] {
      assert Pairs(window, KeysOf(r)) == {};
    } else {
      var k, rest := r[0].key, r[1..];
      CountsSumOverKeys(window, rest);
      PairsOfKey(window, k);
      assert KeysOf(r) == {k} + KeysOf(rest) by {
        forall x | x in KeysOf(rest) ensures x in KeysOf(r) {
          var i :| 0 <= i < |rest| && rest[i].key == x;
          assert r[i + 1] == rest[i];
        }
        assert r[0].key == k;
        forall i | 0 < i < |r| ensures r[i].key in KeysOf(rest) { assert rest[i - 1] == r[i]; }
      }
      PairsSplit(window, k, KeysOf(rest));
    }
  }

  /** The counts add up to the distinct (resource, commit) pairs of the window. */
  lemma {:induction false} CountsSumToPairs(window: seq<ChangeEvent>, total: nat, r: seq<VolatilityEntry>)
    requires Counted(window, total, r)
    ensures SumCounts(r) == |set i | 0 <= i < |window| :: (KeyOf(window[i]), window[i].sha)|
  {
    CountsSumOverKeys(window, r);
    assert forall i :: 0 <= i < |window| ==> KeyOf(window[i]) in Keys(window);
    assert Pairs(window, KeysOf(r)) == set i | 0 <= i < |window| :: (KeyOf(window[i]), window[i].sha);
  }

  /** The ratio the query layer ranks by; a zero total gives zero. */
  function Ratio(e: VolatilityEntry): real {
    if e.total > 0 then e.count as real / e.total as real else 0.0
  }

  /** A listed resource has a commit in the window, and no more than the window has. */
  lemma CountInWindow(window: seq<ChangeEvent>, total: nat, r: seq<VolatilityEntry>, i: nat)
    requires i < |r| && Counted(window, total, r)
    ensures 1 <= r[i].count <= |Shas(window)|
    ensures r[i].count == |Shas(window)| <==> ShasFor(window, r[i].key) == Shas(window)
  {
    var k := r[i].key;
    var j :| 0 <= j < |window| && KeyOf(window[j]) == k;
    var own, all := ShasFor(window, k), Shas(window);
    assert window[j].sha in own && own <= all;
    SubsetIsSmaller(own, all);
    assert all == own + (all - own);
  }

  lemma {:induction false} TotalOfWindow(matched: seq<ChangeEvent>, maxCommits: int)
    requires maxCommits > 0
    ensures |Shas(Window(matched, maxCommits))| <= Total(matched, maxCommits)
    ensures |Shas(Window(matched, maxCommits))| == Total(matched, maxCommits) <==> |Shas(matched)| <= maxCommits
  {
    var window := Window(matched, maxCommits);
    WindowIsLongest(matched, maxCommits);
    assert matched[|matched| - |window|..] == window && matched[0..] == matched;
  }

  /** With a cap every ratio lies in (0, 1]; it is 1 exactly for resources changed in every commit counted. */
  lemma {:induction false} RatiosAreProper(matched: seq<ChangeEvent>, maxCommits: int, r: seq<VolatilityEntry>, i: nat)
    requires maxCommits > 0 && i < |r|
    requires Counted(Window(matched, maxCommits), Total(matched, maxCommits), r)
    ensures 1 <= r[i].count <= r[i].total
    ensures 0.0 < Ratio(r[i]) <= 1.0
    ensures Ratio(r[i]) == 1.0 <==> |Shas(matched)| <= maxCommits && ShasFor(matched, r[i].key) == Shas(matched)
  {
    CountInWindow(Window(matched, maxCommits), Total(matched, maxCommits), r, i);
    TotalOfWindow(matched, maxCommits);
    ProperFraction(r[i].count, r[i].total);
  }

  lemma ProperFraction(count: nat, total: nat)
    requires 1 <= count <= total
    ensures 0.0 < count as real / total as real <= 1.0
    ensures count as real / total as real == 1.0 <==> count == total
  {
  }

  /** Without a cap the total is zero, so every ratio is zero and any positive threshold hides everything. */
  lemma {:induction false} UncappedRatiosAreZero(matched: seq<ChangeEvent>, maxCommits: int, r: seq<VolatilityEntry>, i: nat)
    requires maxCommits <= 0 && i < |r|
    requires Counted(Window(matched, maxCommits), Total(matched, maxCommits), r)
    ensures Ratio(r[i]) == 0.0 && r[i].count >= 1
  {
    var window := matched;
    assert r[i].key in Keys(window);
    var j :| 0 <= j < |window| && KeyOf(window[j]) == r[i].key;
    assert window[j].sha in ShasFor(window, r[i].key);
  }
}

/** Reading the change index: filtered pages newest first, and counts over recent commits. */
module ChangeQueries {
  import opened Wrappers
  import opened Strings
  import opened ChangeLog
  import ChangeIndex

  // ----- Filters -----

  /** Optional filters; an empty string filters nothing. */
  datatype Filter = Filter(
    cluster: string,
    group: string,
    kind: string,
    namespace: string,
    name: string
  )

  datatype Period = Period(since: Option<int>, until: Option<int>, changeType: Option<ChangeType>)

  predicate Passes(e: ChangeEvent, f: Filter) {
    && (f.cluster != "" ==> e.cluster == f.cluster)
    && (f.group != "" ==> EqualFold(e.group, f.group))
    && (f.kind != "" ==> EqualFold(e.kind, f.kind))
    && (f.namespace != "" ==> e.namespace == f.namespace)
    && (f.name != "" ==> e.name == f.name)
  }

  predicate InPeriod(e: ChangeEvent, p: Period) {
    && (p.since.Some? ==> p.since.value <= e.timestamp)
    && (p.until.Some? ==> e.timestamp <= p.until.value)
    && (p.changeType.Some? ==> e.changeType == p.changeType.value)
  }

  const ALWAYS := Period(None, None, None)

  const NO_FILTER := Filter("", "", "", "", "")

  function Matched(events: seq<ChangeEvent>, f: Filter, p: Period): seq<ChangeEvent> {
    if events == [] then []
    else
      var n := |events| - 1;
      Matched(events[..n], f, p) + (if InPeriod(events[n], p) && Passes(events[n], f) then [events[n]] else [])
  }

  lemma {:induction false} MatchedCount(events: seq<ChangeEvent>, f: Filter, p: Period, e: ChangeEvent)
    ensures multiset(Matched(events, f, p))[e] == if InPeriod(e, p) && Passes(e, f) then multiset(events)[e] else 0
  {
    if events != [] {
      var n := |events| - 1;
      MatchedCount(events[..n], f, p, e);
      assert events == events[..n] + [events[n]];
    }
  }

  /** How often an event is answered depends on its own fields alone: as often as it is indexed, or not at all. */
  lemma {:induction false} AnswerCount(events: seq<ChangeEvent>, f: Filter, p: Period, e: ChangeEvent)
    ensures multiset(Matched(events, f, p))[e] ==
      if && (f.cluster == "" || f.cluster == e.cluster)
         && (f.group == "" || EqualFold(f.group, e.group))
         && (f.kind == "" || EqualFold(f.kind, e.kind))
         && (f.namespace == "" || f.namespace == e.namespace)
         && (f.name == "" || f.name == e.name)
         && (p.changeType.None? || p.changeType.value == e.changeType)
         && !(p.since.Some? && e.timestamp < p.since.value)
         && !(p.until.Some? && e.timestamp > p.until.value)
      then multiset(events)[e] else 0
  {
    EqualFoldIff(f.group, e.group);
    EqualFoldIff(e.group, f.group);
    EqualFoldIff(f.kind, e.kind);
    EqualFoldIff(e.kind, f.kind);
    MatchedCount(events, f, p, e);
  }

  /**
   A period cuts one slice out of an index in order of time: what stands before the slice
   is earlier than `since`, what stands behind it is later than `until`, and nothing inside is either.
   */
  lemma {:induction false} PeriodIsSlice(events: seq<ChangeEvent>, since: Option<int>, until: Option<int>) returns (lo: nat, hi: nat)
    requires ChangeIndex.TimeSorted(events)
    ensures lo <= hi <= |events|
    ensures Matched(events, NO_FILTER, Period(since, until, None)) == events[lo..hi]
    ensures forall i :: 0 <= i < lo ==> since.Some? && events[i].timestamp < since.value
    ensures forall i :: hi <= i < |events| ==> until.Some? && events[i].timestamp > until.value
    ensures forall i :: lo <= i < hi ==>
      (since.Some? ==> since.value <= events[i].timestamp) && (until.Some? ==> events[i].timestamp <= until.value)
  {
    lo, hi := 0, |events|;
    if since.Some? { lo := FirstFrom(events, since.value); }
    if until.Some? { hi := FirstFrom(events, until.value + 1); }
    if hi < lo { hi := lo; }
    MatchedSlice(events, Period(since, until, None), lo, hi);
  }

  lemma {:induction false} FirstFrom(events: seq<ChangeEvent>, t: int) returns (n: nat)
    requires ChangeIndex.TimeSorted(events)
    ensures n <= |events|
    ensures forall i :: 0 <= i < n ==> events[i].timestamp < t
    ensures forall i :: n <= i < |events| ==> t <= events[i].timestamp
  {
    n := 0;
    if events != [] && events[0].timestamp < t {
      n := FirstFrom(events[1..], t);
      assert forall i :: 0 < i < |events| ==> events[i] == events[1..][i - 1];
      n := n + 1;
    }
  }

  lemma {:induction false} MatchedSlice(events: seq<ChangeEvent>, p: Period, lo: nat, hi: nat)
    requires lo <= hi <= |events|
    requires forall i :: 0 <= i < |events| ==> (InPeriod(events[i], p) <==> lo <= i < hi)
    ensures Matched(events, NO_FILTER, p) == events[lo..hi]
  {
    if events != [] {
      var n := |events| - 1;
      MatchedSlice(events[..n], p, Min(lo, n), Min(hi, n));
    }
  }

  // ----- Pages -----

  function NewestFirst<T>(s: seq<T>): (r: seq<T>)
    ensures |r| == |s| && forall i :: 0 <= i < |r| ==> r[i] == s[|s| - 1 - i]
  {
    if s == [] then [] else [s[|s| - 1]] + NewestFirst(s[..|s| - 1])
  }

  function Min(a: int, b: int): int {
    if a < b then a else b
  }

  /** The part of a list a page shows; offsets past the end show nothing. */
  function Page<T>(s: seq<T>, offset: nat, limit: nat): (r: seq<T>)
    ensures |r| == if offset >= |s| then 0 else if offset + limit <= |s| then limit else |s| - offset
    ensures forall i :: 0 <= i < |r| ==> r[i] == s[offset + i]
  {
    var start := Min(offset, |s|);
    s[start..Min(start + limit, |s|)]
  }

  method Query(events: seq<ChangeEvent>, f: Filter, p: Period, limit: nat, offset: nat)
    returns (page: seq<ChangeEvent>, total: nat)
    ensures total == |Matched(events, f, p)|
    ensures page == Page(NewestFirst(Matched(events, f, p)), offset, limit)
  {
    var matched: seq<ChangeEvent> := [];
    for i := 0 to |events|
      invariant matched == Matched(events[..i], f, p)
    {
      assert events[..i + 1][..i] == events[..i];
      if InPeriod(events[i], p) && Passes(events[i], f) {
        matched := matched + [events[i]];
      }
    }
    assert events[..|events|] == events;
    total := |matched|;
    if offset >= total {
      return [], total;
    }
    page := PageOf(matched, offset, limit);
  }

  /** The loop that copies a page in reverse order. */
  method PageOf(matched: seq<ChangeEvent>, offset: nat, limit: nat) returns (page: seq<ChangeEvent>)
    requires offset < |matched|
    ensures page == Page(NewestFirst(matched), offset, limit)
  {
    var total := |matched|;
    var end := offset + limit;
    if end > total {
      end := total;
    }
    page := [];
    var i := total - 1 - offset;
    while i >= total - end
      invariant total - end - 1 <= i <= total - 1 - offset
      invariant page == NewestFirst(matched)[offset..total - 1 - i]
    {
      page := page + [matched[i]];
      i := i - 1;
    }
  }

  /** paginate: clamped start and end indices. */
  method Paginate(offset: nat, limit: nat, total: nat) returns (start: nat, end: nat)
    ensures start <= end <= total
    ensures forall s: seq<ChangeEvent> :: |s| == total ==> s[start..end] == Page(s, offset, limit)
  {
    start := offset;
    if start > total {
      start := total;
    }
    end := start + limit;
    if end > total {
      end := total;
    }
  }

  /** The first `n` pages, one after the other. */
  function Pages<T>(s: seq<T>, limit: nat, n: nat): seq<T> {
    if n == 0 then [] else Pages(s, limit, n - 1) + Page(s, (n - 1) * limit, limit)
  }

  lemma PageExtends<T>(s: seq<T>, offset: nat, limit: nat)
    ensures s[..Min(offset, |s|)] + Page(s, offset, limit) == s[..Min(offset + limit, |s|)]
  {
  }

  lemma OnePageMore(n: nat, limit: nat)
    requires n > 0
    ensures n * limit == (n - 1) * limit + limit && (n - 1) * limit >= 0
  {
  }

  /** Pages at offsets 0, limit, 2·limit, ... are consecutive pieces of the list, without gap or overlap. */
  lemma {:induction false} PagesArePrefix<T>(s: seq<T>, limit: nat, n: nat)
    ensures Pages(s, limit, n) == s[..Min(n * limit, |s|)]
  {
    if n > 0 {
      var offset := (n - 1) * limit;
      OnePageMore(n, limit);
      PagesArePrefix(s, limit, n - 1);
      PageExtends(s, offset, limit);
      assert Pages(s, limit, n) == Pages(s, limit, n - 1) + Page(s, offset, limit);
    }
  }

  lemma {:induction false} EnoughPages<T>(s: seq<T>, limit: nat, n: nat)
    requires n * limit >= |s|
    ensures Pages(s, limit, n) == s
  {
    PagesArePrefix(s, limit, n);
  }

  /** Enough pages give the whole history: every event once, newest first. */
  lemma {:induction false} PagesCoverHistory<T>(s: seq<T>, limit: nat, n: nat)
    requires n * limit >= |s|
    ensures Pages(NewestFirst(s), limit, n) == NewestFirst(s)
    ensures multiset(Pages(NewestFirst(s), limit, n)) == multiset(s)
  {
    EnoughPages(NewestFirst(s), limit, n);
    NewestFirstPermutes(s);
  }

  lemma {:induction false} NewestFirstPermutes<T>(s: seq<T>)
    ensures multiset(NewestFirst(s)) == multiset(s)
  {
    if s != [] {
      NewestFirstPermutes(s[..|s| - 1]);
      assert s == s[..|s| - 1] + [s[|s| - 1]];
    }
  }

  // ----- Histories of several clusters -----

  datatype Cluster = Cluster(name: string, events: Option<seq<ChangeEvent>>)

  const QUERY_CAP := 1073741824  // 1 << 30

  predicate Asked(c: Cluster, cluster: string) {
    (cluster == "" || c.name == cluster) && c.events.Some?
  }

  /** What one cluster contributes to a merged history. */
  function ClusterHistory(c: Cluster, cluster: string, f: Filter, p: Period): seq<ChangeEvent> {
    if Asked(c, cluster) then Page(NewestFirst(Matched(c.events.value, f.(cluster := c.name), p)), 0, QUERY_CAP) else []
  }

  function Gathered(clusters: seq<Cluster>, cluster: string, f: Filter, p: Period): seq<ChangeEvent> {
    if clusters == [] then []
    else
      var n := |clusters| - 1;
      Gathered(clusters[..n], cluster, f, p) + ClusterHistory(clusters[n], cluster, f, p)
  }

  ghost predicate SortsNewestFirst(r: seq<ChangeEvent>, s: seq<ChangeEvent>) {
    && multiset(r) == multiset(s)
    && forall i, j :: 0 <= i < j < |r| ==> r[i].timestamp >= r[j].timestamp
  }

  /** GetHistory; `sortSlice` is the library's sort, one fixed outcome for each input. */
  method GetHistory(
    clusters: seq<Cluster>, cluster: string, f: Filter, p: Period, limit: nat, offset: nat,
    sortSlice: seq<ChangeEvent> -> seq<ChangeEvent>
  ) returns (page: seq<ChangeEvent>, total: nat)
    requires forall s :: SortsNewestFirst(sortSlice(s), s)
    ensures total == |Gathered(clusters, cluster, f, p)|
    ensures page == Page(sortSlice(Gathered(clusters, cluster, f, p)), offset, limit)
  {
    var all: seq<ChangeEvent> := [];
    for i := 0 to |clusters|
      invariant all == Gathered(clusters[..i], cluster, f, p)
    {
      assert clusters[..i + 1][..i] == clusters[..i];
      if (cluster != "" && clusters[i].name != cluster) || clusters[i].events.None? {
        continue;
      }
      var events, _ := Query(clusters[i].events.value, f.(cluster := clusters[i].name), p, QUERY_CAP, 0);
      all := all + events;
    }
    assert clusters[..|clusters|] == clusters;
    assert SortsNewestFirst(sortSlice(all), all);
    SameLength(sortSlice(all), all);
    all := sortSlice(all);
    total := |all|;
    var start, end := Paginate(offset, limit, total);
    return all[start..end], total;
  }

  lemma SameLength<T>(a: seq<T>, b: seq<T>)
    requires multiset(a) == multiset(b)
    ensures |a| == |b|
  {
    assert |multiset(a)| == |multiset(b)|;
  }

  function AllMatched(clusters: seq<Cluster>, cluster: string, f: Filter, p: Period): multiset<ChangeEvent> {
    if clusters == [] then multiset{}
    else
      var c := clusters[|clusters| - 1];
      AllMatched(clusters[..|clusters| - 1], cluster, f, p)
      + (if Asked(c, cluster) then multiset(Matched(c.events.value, f.(cluster := c.name), p)) else multiset{})
  }

  /** No cluster has more matching events than one query returns. */
  predicate BelowCap(clusters: seq<Cluster>, cluster: string, f: Filter, p: Period) {
    forall c :: c in clusters && Asked(c, cluster) ==> |Matched(c.events.value, f.(cluster := c.name), p)| <= QUERY_CAP
  }

  lemma {:induction false} GatheredIsAllMatched(clusters: seq<Cluster>, cluster: string, f: Filter, p: Period)
    requires BelowCap(clusters, cluster, f, p)
    ensures multiset(Gathered(clusters, cluster, f, p)) == AllMatched(clusters, cluster, f, p)
  {
    if clusters != [] {
      var c := clusters[|clusters| - 1];
      assert forall d :: d in clusters[..|clusters| - 1] ==> d in clusters;
      GatheredIsAllMatched(clusters[..|clusters| - 1], cluster, f, p);
      if Asked(c, cluster) {
        assert c in clusters;
        var m := Matched(c.events.value, f.(cluster := c.name), p);
        NewestFirstPermutes(m);
        assert Page(NewestFirst(m), 0, QUERY_CAP) == NewestFirst(m);
      }
    }
  }

  /** An event of the merged history is one that an asked cluster has indexed under its own name and the filters let through. */
  lemma {:induction false} GatheredIff(clusters: seq<Cluster>, cluster: string, f: Filter, p: Period, e: ChangeEvent)
    requires BelowCap(clusters, cluster, f, p)
    ensures e in Gathered(clusters, cluster, f, p) <==>
      && (exists c :: c in clusters && c.events.Some? && e in c.events.value
           && (c.name == "" || e.cluster == c.name) && (cluster == "" || cluster == c.name))
      && (f.group == "" || EqualFold(f.group, e.group))
      && (f.kind == "" || EqualFold(f.kind, e.kind))
      && (f.namespace == "" || f.namespace == e.namespace)
      && (f.name == "" || f.name == e.name)
      && (p.changeType.None? || p.changeType.value == e.changeType)
      && !(p.since.Some? && e.timestamp < p.since.value)
      && !(p.until.Some? && e.timestamp > p.until.value)
  {
    if clusters != [] {
      var n := |clusters| - 1;
      var c := clusters[n];
      assert forall d :: d in clusters <==> d in clusters[..n] || d == c;
      GatheredIff(clusters[..n], cluster, f, p, e);
      if Asked(c, cluster) {
        var m := Matched(c.events.value, f.(cluster := c.name), p);
        AnswerCount(c.events.value, f.(cluster := c.name), p, e);
        assert |m| <= QUERY_CAP;
        assert Page(NewestFirst(m), 0, QUERY_CAP) == NewestFirst(m);
        NewestFirstPermutes(m);
        assert e in m <==> e in multiset(m);
        assert e in NewestFirst(m) <==> e in multiset(NewestFirst(m));
      }
    }
  }

  /** Paging through the merged history of the clusters loses and repeats nothing, newest first. */
  lemma {:induction false} MergedPagesCoverHistory(
    clusters: seq<Cluster>, cluster: string, f: Filter, p: Period, limit: nat, n: nat, sorted: seq<ChangeEvent>)
    requires SortsNewestFirst(sorted, Gathered(clusters, cluster, f, p)) && BelowCap(clusters, cluster, f, p)
    requires n * limit >= |sorted|
    ensures
      var shown := Pages(sorted, limit, n);
      && multiset(shown) == AllMatched(clusters, cluster, f, p)
      && forall i, j :: 0 <= i < j < |shown| ==> shown[i].timestamp >= shown[j].timestamp
  {
    EnoughPages(sorted, limit, n);
    GatheredIsAllMatched(clusters, cluster, f, p);
  }
}

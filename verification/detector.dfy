/**
 The memoizing detector: a cache that is empty until the first successful detection
 and never changes afterwards, and the dispatch from the platform tag to the
 platform's gatherer.
 */
module Detector {
  import opened Prelude
  import opened OsDetect

  /** `OsDetector`: the cached record of the first successful detection, if any. */
  datatype OsDetector = OsDetector(cachedInfo: Option<OsInfo>)

  /** `OsDetector::new()`. */
  function New(): OsDetector {
    OsDetector(None)
  }

  /** The platform a build tag names; only `"windows"`, `"linux"` and `"macos"` are supported. */
  function PlatformOf(tag: string): (r: Option<Platform>)
    ensures r.Some? ==> Tag(r.value) == tag
    ensures r.None? ==> forall p: Platform :: tag != Tag(p)
  {
    if tag == "windows" then Some(Windows)
    else if tag == "linux" then Some(Linux)
    else if tag == "macos" then Some(MacOs)
    else None
  }

  /** The build tag of a supported platform. */
  function Tag(p: Platform): string {
    match p
    case Windows => "windows"
    case Linux => "linux"
    case MacOs => "macos"
  }

  /** Tags and supported platforms correspond one to one. */
  lemma PlatformTagRoundTrip(tag: string, p: Platform)
    ensures PlatformOf(Tag(p)) == Some(p)
    ensures PlatformOf(tag) == Some(p) <==> tag == Tag(p)
  {
  }

  /** One call: its result, the detector afterwards, and the queries it made. */
  datatype Step = Step(result: Result<OsInfo, OsDetectorError>, next: OsDetector, queries: seq<Query>)

  /**
   `get_os_info`: a cached record is returned at once; otherwise the platform tag
   selects a gatherer (any other tag fails with `UnsupportedOs`), a gatherer error is
   passed on and leaves the cache empty, and a gathered record is cached and returned.
   */
  function GetOsInfo(d: OsDetector, host: Host): (s: Step)
    ensures d.cachedInfo.Some? ==> s == Step(Ok(d.cachedInfo.value), d, [])
    ensures d.cachedInfo.None? && PlatformOf(host.os).None?
            ==> s == Step(Err(UnsupportedOs(host.os)), d, [])
    ensures d.cachedInfo.None? && PlatformOf(host.os).Some?
            ==> Attempted(PlatformOf(host.os).value, host, Gathered(s.result, s.queries))
    ensures d.cachedInfo.None? && PlatformOf(host.os).Some?
            ==> var g := Gather(PlatformOf(host.os).value, host);
                s.result == g.result && s.queries == g.queries
    ensures s.result.Err? ==> s.next == d
    ensures s.result.Ok? ==> s.next == OsDetector(Some(s.result.value))
    ensures (s.result.Err? && s.result.error.UnsupportedOs?)
            <==> (d.cachedInfo.None? && PlatformOf(host.os).None?)
    ensures s.queries == [] <==> (d.cachedInfo.Some? || PlatformOf(host.os).None?)
  {
    match d.cachedInfo
    case Some(info) => Step(Ok(info), d, [])
    case None =>
      match PlatformOf(host.os)
      case None => Step(Err(UnsupportedOs(host.os)), d, [])
      case Some(p) =>
        var g := Gather(p, host);
        match g.result
        case Err(e) => Step(Err(e), d, g.queries)
        case Ok(info) => Step(Ok(info), OsDetector(Some(info)), g.queries)
  }

  /** After a success, a second call returns an equal record, makes no query and keeps the cache. */
  lemma SecondCallHitsCache(d: OsDetector, h1: Host, h2: Host)
    requires GetOsInfo(d, h1).result.Ok?
    ensures var s1 := GetOsInfo(d, h1);
            GetOsInfo(s1.next, h2) == Step(s1.result, s1.next, [])
  {
  }

  /** After a failure the detector is as before, so the next call detects afresh. */
  lemma RetryAfterFailure(d: OsDetector, h1: Host, h2: Host)
    requires GetOsInfo(d, h1).result.Err?
    ensures GetOsInfo(GetOsInfo(d, h1).next, h2) == GetOsInfo(d, h2)
  {
  }

  /** A detection with an empty cache queries only the selected platform, starting with its first query. */
  lemma DispatchQueriesOwnPlatform(d: OsDetector, host: Host, p: Platform)
    requires d.cachedInfo.None? && PlatformOf(host.os) == Some(p)
    ensures var s := GetOsInfo(d, host);
            && s.queries != [] && s.queries[0] == PlanOf(p).first
            && forall k :: 0 <= k < |s.queries| ==> QueryPlatform(s.queries[k]) == p
  {
    var s := GetOsInfo(d, host);
    AttemptedQueriesOwnPlatform(p, host, Gathered(s.result, s.queries));
  }

  /**
   The other platforms' queries cannot influence a detection: two hosts with the same
   tag and architecture that agree on the selected platform's queries give the same step.
   */
  lemma DispatchIgnoresOtherPlatforms(d: OsDetector, h1: Host, h2: Host, p: Platform)
    requires h1.os == h2.os && h1.arch == h2.arch && PlatformOf(h1.os) == Some(p)
    requires forall q :: QueryPlatform(q) == p ==> h1.run(q) == h2.run(q)
    ensures GetOsInfo(d, h1) == GetOsInfo(d, h2)
  {
    var plan := PlanOf(p);
    assert h1.run(plan.first) == h2.run(plan.first);
    assert h1.run(plan.second) == h2.run(plan.second);
    match p
    case Windows =>
      assert WindowsBuildInfo(h1) == WindowsBuildInfo(h2);
      assert WindowsInfo(h1) == WindowsInfo(h2);
    case Linux =>
      assert LinuxInfo(h1) == LinuxInfo(h2);
    case MacOs =>
      assert MacOsInfo(h1) == MacOsInfo(h2);
  }

  /** The results of consecutive calls on one detector, the queries they made, and the final detector. */
  datatype Session = Session(
    results: seq<Result<OsInfo, OsDetectorError>>,
    queries: seq<Query>,
    last: OsDetector)

  /** Calls `get_os_info` once per host, in order, threading the detector through. */
  function Run(d: OsDetector, hosts: seq<Host>): (r: Session)
    ensures |r.results| == |hosts|
    decreases |hosts|
  {
    if hosts == [] then Session([], [], d)
    else
      var s := GetOsInfo(d, hosts[0]);
      var rest := Run(s.next, hosts[1..]);
      Session([s.result] + rest.results, s.queries + rest.queries, rest.last)
  }

  /** With a populated cache every call returns the cached record, no query is made, and the cache stays. */
  lemma {:induction false} CachedSessionIsConstant(d: OsDetector, hosts: seq<Host>)
    requires d.cachedInfo.Some?
    ensures forall k :: 0 <= k < |hosts| ==> Run(d, hosts).results[k] == Ok(d.cachedInfo.value)
    ensures Run(d, hosts).queries == [] && Run(d, hosts).last == d
    decreases |hosts|
  {
    if hosts != [] {
      CachedSessionIsConstant(d, hosts[1..]);
      var r := Run(d, hosts);
      forall k | 0 <= k < |hosts|
        ensures r.results[k] == Ok(d.cachedInfo.value)
      {
        if k > 0 {
          assert r.results[k] == Run(d, hosts[1..]).results[k - 1];
        }
      }
    }
  }

  /** Once a call has succeeded, every later call returns a record equal to that one. */
  lemma {:induction false} StableAfterFirstSuccess(d: OsDetector, hosts: seq<Host>, j: nat, k: nat)
    requires j < k < |hosts|
    requires Run(d, hosts).results[j].Ok?
    ensures Run(d, hosts).results[k] == Run(d, hosts).results[j]
    decreases |hosts|
  {
    var s := GetOsInfo(d, hosts[0]);
    var rest := Run(s.next, hosts[1..]);
    assert Run(d, hosts).results == [s.result] + rest.results;
    if j == 0 {
      CachedSessionIsConstant(s.next, hosts[1..]);
      assert rest.results[k - 1] == Ok(s.result.value);
    } else {
      StableAfterFirstSuccess(s.next, hosts[1..], j - 1, k - 1);
    }
  }

  /** While the cache is still empty after a run, no call of that run has succeeded. */
  lemma {:induction false} EmptyCacheMeansNoSuccess(d: OsDetector, hosts: seq<Host>)
    requires Run(d, hosts).last.cachedInfo.None?
    ensures forall k :: 0 <= k < |hosts| ==> Run(d, hosts).results[k].Err?
    decreases |hosts|
  {
    if hosts != [] {
      var s := GetOsInfo(d, hosts[0]);
      var rest := Run(s.next, hosts[1..]);
      assert Run(d, hosts).results == [s.result] + rest.results;
      assert Run(d, hosts).last == rest.last;
      if s.result.Ok? {
        CachedSessionIsConstant(s.next, hosts[1..]);
        assert false;
      }
      EmptyCacheMeansNoSuccess(s.next, hosts[1..]);
    }
  }

  /** On an unsupported platform every call fails with the tag verbatim, queries nothing, and caches nothing. */
  lemma {:induction false} UnsupportedFailsClosed(d: OsDetector, hosts: seq<Host>)
    requires d.cachedInfo.None?
    requires forall k :: 0 <= k < |hosts| ==> PlatformOf(hosts[k].os).None?
    ensures forall k :: 0 <= k < |hosts| ==> Run(d, hosts).results[k] == Err(UnsupportedOs(hosts[k].os))
    ensures Run(d, hosts).queries == [] && Run(d, hosts).last == d
    decreases |hosts|
  {
    if hosts != [] {
      assert PlatformOf(hosts[0].os).None?;
      UnsupportedFailsClosed(d, hosts[1..]);
      var r := Run(d, hosts);
      forall k | 0 <= k < |hosts|
        ensures r.results[k] == Err(UnsupportedOs(hosts[k].os))
      {
        if k > 0 {
          assert r.results[k] == Run(d, hosts[1..]).results[k - 1];
          assert hosts[k] == hosts[1..][k - 1];
        }
      }
    }
  }
}

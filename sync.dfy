/** The orchestrator (`main`): for each package type in order, for each page the
    paginator yields, for each package on the page, fetch the package's latest
    version, skip the package when that is absent or falsy, and otherwise upsert
    its entity into the catalog. An `IndexError` from an empty versions list is
    not caught and ends the run.

    The run is specified in two steps. `Worklist` lists the packages in the
    order they are visited; `RunJobs` replays the loop body over that list.
    `Upserts` is an independent description of the calls (the ingested packages
    in order, nothing else), and the lemmas connect the two. */
module Sync {
  import opened Records
  import opened Decimal
  import opened Pagination
  import opened LatestVersion
  import opened Transform

  /** The packages endpoint, per package type. */
  type Registry = string -> seq<PackagesResponse>

  /** The versions endpoint, per package URL. */
  type VersionsEndpoint = string -> VersionsResponse

  /** A package visited under a package type. */
  datatype Job = Job(packageType: string, package: Package)

  /** One call of the upserter. */
  datatype UpsertCall = UpsertCall(blueprintId: string, entity: Entity)

  /** The calls made so far, and whether an exception has ended the run. */
  datatype Run = Run(calls: seq<UpsertCall>, crashed: bool)

  // ---------------------------------------------------------------------------
  // The order of visits

  function PageJobs(packageType: string, packages: seq<Package>): (jobs: seq<Job>)
    ensures |jobs| == |packages|
    ensures forall i :: 0 <= i < |jobs| ==> jobs[i] == Job(packageType, packages[i])
  {
    seq(|packages|, i requires 0 <= i < |packages| => Job(packageType, packages[i]))
  }

  function PagesJobs(packageType: string, pages: seq<seq<Package>>): seq<Job>
    decreases |pages|
  {
    if pages == [] then []
    else PagesJobs(packageType, pages[..|pages| - 1]) + PageJobs(packageType, pages[|pages| - 1])
  }

  /** The packages visited for one package type. */
  function TypeJobs(packageType: string, registry: Registry): seq<Job> {
    PagesJobs(packageType, Yielded(registry(packageType)))
  }

  /** The packages visited for a list of package types, type by type. */
  function Worklist(types: seq<string>, registry: Registry): seq<Job>
    decreases |types|
  {
    if types == [] then []
    else
      Worklist(types[..|types| - 1], registry) + TypeJobs(types[|types| - 1], registry)
  }

  lemma {:induction false} PagesJobsAppend(packageType: string, a: seq<seq<Package>>, b: seq<seq<Package>>)
    ensures PagesJobs(packageType, a + b) == PagesJobs(packageType, a) + PagesJobs(packageType, b)
    decreases |b|
  {
    if b != [] {
      var n := |b| - 1;
      assert (a + b)[..|a + b| - 1] == a + b[..n];
      assert (a + b)[|a + b| - 1] == b[n];
      PagesJobsAppend(packageType, a, b[..n]);
      AppendAssoc(PagesJobs(packageType, a), PagesJobs(packageType, b[..n]), PageJobs(packageType, b[n]));
    } else {
      assert a + b == a;
    }
  }

  lemma {:induction false} WorklistAppend(a: seq<string>, b: seq<string>, registry: Registry)
    ensures Worklist(a + b, registry) == Worklist(a, registry) + Worklist(b, registry)
    decreases |b|
  {
    if b != [] {
      var n := |b| - 1;
      assert (a + b)[..|a + b| - 1] == a + b[..n];
      WorklistAppend(a, b[..n], registry);
    } else {
      assert a + b == a;
    }
  }

  /** Package types are visited in the order given: the packages of the i-th
      type come after those of the earlier types and before those of the later
      ones, and are determined by that type's own listing alone, so a failing
      listing for one type removes nothing of the others. */
  lemma WorklistByType(types: seq<string>, registry: Registry, i: nat)
    requires i < |types|
    ensures Worklist(types, registry) ==
      Worklist(types[..i], registry) + (TypeJobs(types[i], registry) + Worklist(types[i + 1..], registry))
  {
    var t := types[i];
    assert types == types[..i] + ([t] + types[i + 1..]);
    WorklistAppend(types[..i], [t] + types[i + 1..], registry);
    WorklistAppend([t], types[i + 1..], registry);
    WorklistSingle(t, registry);
  }

  /** A package type whose first listing request fails is dropped, and the
      types before and after it are visited as if it were not configured. */
  lemma FailedListing(types: seq<string>, registry: Registry, i: nat)
    requires i < |types| && |registry(types[i])| > 0 && registry(types[i])[0].PageErr?
    ensures Worklist(types, registry) == Worklist(types[..i], registry) + Worklist(types[i + 1..], registry)
  {
    WorklistByType(types, registry, i);
    FirstRequestFails(registry(types[i]));
    assert TypeJobs(types[i], registry) == PagesJobs(types[i], []);
  }

  lemma WorklistSingle(t: string, registry: Registry)
    ensures Worklist([t], registry) == TypeJobs(t, registry)
  {
    assert [t][..0] == [];
  }

  /** Within a package type, pages are visited in the order yielded. */
  lemma PagesJobsAt(packageType: string, pages: seq<seq<Package>>, i: nat)
    requires i < |pages|
    ensures PagesJobs(packageType, pages) ==
      PagesJobs(packageType, pages[..i]) +
      (PageJobs(packageType, pages[i]) + PagesJobs(packageType, pages[i + 1..]))
  {
    var pre, mid, post := pages[..i], [pages[i]], pages[i + 1..];
    assert pages == pre + (mid + post);
    PagesJobsAppend(packageType, pre, mid + post);
    PagesJobsAppend(packageType, mid, post);
    assert mid[..0] == [];
    assert PagesJobs(packageType, mid) == PageJobs(packageType, pages[i]);
  }

  lemma PagesJobsSnoc(packageType: string, pages: seq<seq<Package>>, i: nat)
    requires i < |pages|
    ensures PagesJobs(packageType, pages[..i + 1]) ==
      PagesJobs(packageType, pages[..i]) + PageJobs(packageType, pages[i])
  {
    assert pages[..i + 1][..i] == pages[..i];
  }

  /** Within a page, packages are visited in the order listed. */
  lemma PageJobsAt(packageType: string, packages: seq<Package>, k: nat)
    requires k < |packages|
    ensures PageJobs(packageType, packages) ==
      PageJobs(packageType, packages[..k]) +
      ([Job(packageType, packages[k])] + PageJobs(packageType, packages[k + 1..]))
  {
  }

  lemma PageJobsSnoc(packageType: string, packages: seq<Package>, k: nat)
    requires k < |packages|
    ensures PageJobs(packageType, packages[..k + 1]) ==
      PageJobs(packageType, packages[..k]) + [Job(packageType, packages[k])]
  {
  }

  lemma Regroup3<T>(a: seq<T>, b: seq<T>, c: seq<T>, d: seq<T>)
    ensures a + (b + (c + d)) == ((a + b) + c) + d
  {
  }

  lemma AppendAssoc<T>(a: seq<T>, b: seq<T>, c: seq<T>)
    ensures (a + b) + c == a + (b + c)
  {
  }

  /** The orchestrator's order as one list, for the fixed package types. */
  function AllJobs(registry: Registry): seq<Job> {
    Worklist(PackageTypes, registry)
  }

  // ---------------------------------------------------------------------------
  // The loop body, replayed over the visits

  predicate Raises(job: Job, versions: VersionsEndpoint) {
    GetPackageMetadata(versions(job.package.url)).IndexError?
  }

  predicate Ingested(job: Job, versions: VersionsEndpoint) {
    IsTruthy(GetPackageMetadata(versions(job.package.url)))
  }

  /** The upsert made for an ingested package. */
  function UpsertFor(job: Job, versions: VersionsEndpoint): UpsertCall
    requires Ingested(job, versions)
  {
    var version := GetPackageMetadata(versions(job.package.url)).entry.version;
    UpsertCall(Blueprint, PackageEntity(job.package, version, job.packageType))
  }

  /** One iteration of the innermost loop. */
  function Step(r: Run, job: Job, versions: VersionsEndpoint): Run {
    if r.crashed then r
    else if Raises(job, versions) then Run(r.calls, true)
    else if Ingested(job, versions) then Run(r.calls + [UpsertFor(job, versions)], false)
    else r
  }

  function RunFrom(r: Run, jobs: seq<Job>, versions: VersionsEndpoint): Run
    decreases |jobs|
  {
    if jobs == [] then r else RunFrom(Step(r, jobs[0], versions), jobs[1..], versions)
  }

  /** The outcome of visiting `jobs` from the start of a run. */
  function RunJobs(jobs: seq<Job>, versions: VersionsEndpoint): Run {
    RunFrom(Run([], false), jobs, versions)
  }

  lemma {:induction false} RunFromAppend(r: Run, a: seq<Job>, b: seq<Job>, versions: VersionsEndpoint)
    ensures RunFrom(r, a + b, versions) == RunFrom(RunFrom(r, a, versions), b, versions)
    decreases |a|
  {
    if a == [] {
      assert a + b == b;
    } else {
      assert (a + b)[1..] == a[1..] + b;
      RunFromAppend(Step(r, a[0], versions), a[1..], b, versions);
    }
  }

  /** Once an exception has been raised nothing more happens. */
  lemma {:induction false} CrashedStays(r: Run, jobs: seq<Job>, versions: VersionsEndpoint)
    requires r.crashed
    ensures RunFrom(r, jobs, versions) == r
    decreases |jobs|
  {
    if jobs != [] {
      CrashedStays(r, jobs[1..], versions);
    }
  }

  lemma RunJobsSnoc(jobs: seq<Job>, job: Job, versions: VersionsEndpoint)
    ensures RunJobs(jobs + [job], versions) == Step(RunJobs(jobs, versions), job, versions)
  {
    RunFromAppend(Run([], false), jobs, [job], versions);
  }

  /** One visit of the innermost loop: a package that is not ingested leaves
      the run unchanged, and an ingested one adds its upsert. */
  lemma PackageVisited(done: seq<Job>, job: Job, versions: VersionsEndpoint)
    requires !RunJobs(done, versions).crashed && !Raises(job, versions)
    ensures var m := GetPackageMetadata(versions(job.package.url));
      RunJobs(done + [job], versions) ==
        if IsTruthy(m) then
          Run(RunJobs(done, versions).calls +
              [UpsertCall(Blueprint, PackageEntity(job.package, m.entry.version, job.packageType))], false)
        else RunJobs(done, versions)
  {
    RunJobsSnoc(done, job, versions);
  }

  /** An `IndexError` on a package ends the run: the calls made before it stand
      and no later package is visited. */
  lemma RaiseEndsRun(done: seq<Job>, job: Job, rest: seq<Job>, versions: VersionsEndpoint)
    requires !RunJobs(done, versions).crashed && Raises(job, versions)
    ensures RunJobs(done + ([job] + rest), versions) == Run(RunJobs(done, versions).calls, true)
  {
    AppendAssoc(done, [job], rest);
    RunJobsSnoc(done, job, versions);
    RunFromAppend(Run([], false), done + [job], rest, versions);
    CrashedStays(RunJobs(done + [job], versions), rest, versions);
  }

  /** Once the run has crashed, visiting more packages changes nothing. */
  lemma CrashedPrefix(done: seq<Job>, rest: seq<Job>, versions: VersionsEndpoint)
    requires RunJobs(done, versions).crashed
    ensures RunJobs(done + rest, versions) == RunJobs(done, versions)
  {
    RunFromAppend(Run([], false), done, rest, versions);
    CrashedStays(RunJobs(done, versions), rest, versions);
  }

  /** A package whose metadata is `None` or falsy leaves no trace: the run is
      the same as if the package had not been listed. */
  lemma SkippedPackage(jobs: seq<Job>, i: nat, versions: VersionsEndpoint)
    requires i < |jobs| && !Raises(jobs[i], versions) && !Ingested(jobs[i], versions)
    ensures RunJobs(jobs, versions) == RunJobs(jobs[..i] + jobs[i + 1..], versions)
  {
    assert jobs == jobs[..i] + [jobs[i]] + jobs[i + 1..];
    RunFromAppend(Run([], false), jobs[..i] + [jobs[i]], jobs[i + 1..], versions);
    RunJobsSnoc(jobs[..i], jobs[i], versions);
    RunFromAppend(Run([], false), jobs[..i], jobs[i + 1..], versions);
  }

  // ---------------------------------------------------------------------------
  // The calls, described independently

  /** The positions of the packages that get ingested, in increasing order. */
  function IngestedIndices(jobs: seq<Job>, versions: VersionsEndpoint): (idx: seq<nat>)
    ensures forall k :: 0 <= k < |idx| ==> idx[k] < |jobs| && Ingested(jobs[idx[k]], versions)
    ensures forall k, l :: 0 <= k < l < |idx| ==> idx[k] < idx[l]
    ensures forall i :: 0 <= i < |jobs| && Ingested(jobs[i], versions) ==> i in idx
    decreases |jobs|
  {
    if jobs == [] then []
    else
      var n := |jobs| - 1;
      IngestedIndices(jobs[..n], versions) + (if Ingested(jobs[n], versions) then [n] else [])
  }

  /** One upsert per ingested package, in visiting order. */
  function Upserts(jobs: seq<Job>, versions: VersionsEndpoint): seq<UpsertCall> {
    var idx := IngestedIndices(jobs, versions);
    seq(|idx|, k requires 0 <= k < |idx| => UpsertFor(jobs[idx[k]], versions))
  }

  /** The k-th call is for the k-th ingested package: under the package
      blueprint, identified by the package id, and carrying the package type
      it was listed under and the first entry of its versions list. */
  lemma UpsertsDescribe(jobs: seq<Job>, versions: VersionsEndpoint)
    ensures var calls, idx := Upserts(jobs, versions), IngestedIndices(jobs, versions);
      |calls| == |idx| &&
      forall k :: 0 <= k < |calls| ==>
        var job := jobs[idx[k]];
        var response := versions(job.package.url);
        calls[k].blueprintId == Blueprint &&
        ParseInt(calls[k].entity.identifier) == job.package.id &&
        calls[k].entity.properties["packageType"] == job.packageType &&
        response.VersionsOk? && |response.versions| > 0 && response.versions[0].Record? &&
        calls[k].entity.properties["latestVersionTag"] == response.versions[0].version.name
  {
    var calls, idx := Upserts(jobs, versions), IngestedIndices(jobs, versions);
    forall k | 0 <= k < |calls|
      ensures var job := jobs[idx[k]];
        var response := versions(job.package.url);
        calls[k].blueprintId == Blueprint &&
        ParseInt(calls[k].entity.identifier) == job.package.id &&
        calls[k].entity.properties["packageType"] == job.packageType &&
        response.VersionsOk? && |response.versions| > 0 && response.versions[0].Record? &&
        calls[k].entity.properties["latestVersionTag"] == response.versions[0].version.name
    {
      var job := jobs[idx[k]];
      TruthyMetadata(versions(job.package.url));
      assert calls[k] == UpsertFor(job, versions);
    }
  }

  lemma UpsertsSnoc(jobs: seq<Job>, versions: VersionsEndpoint)
    requires jobs != []
    ensures var n := |jobs| - 1;
      Upserts(jobs, versions) == Upserts(jobs[..n], versions) +
        (if Ingested(jobs[n], versions) then [UpsertFor(jobs[n], versions)] else [])
  {
    var n := |jobs| - 1;
    var prefix := jobs[..n];
    var idx0 := IngestedIndices(prefix, versions);
    assert IngestedIndices(jobs, versions) == idx0 + (if Ingested(jobs[n], versions) then [n] else []);
    var lhs := Upserts(jobs, versions);
    var rhs := Upserts(prefix, versions) +
      (if Ingested(jobs[n], versions) then [UpsertFor(jobs[n], versions)] else []);
    assert |lhs| == |rhs|;
    forall k | 0 <= k < |lhs|
      ensures lhs[k] == rhs[k]
    {
      if k < |idx0| {
        assert prefix[idx0[k]] == jobs[idx0[k]];
      }
    }
  }

  /** While no package raises, the run makes exactly the calls of `Upserts`:
      one per ingested package, in order. */
  lemma {:induction false} RunMatchesUpserts(jobs: seq<Job>, versions: VersionsEndpoint)
    requires forall i :: 0 <= i < |jobs| ==> !Raises(jobs[i], versions)
    ensures RunJobs(jobs, versions) == Run(Upserts(jobs, versions), false)
    decreases |jobs|
  {
    if jobs != [] {
      var n := |jobs| - 1;
      assert jobs == jobs[..n] + [jobs[n]];
      RunMatchesUpserts(jobs[..n], versions);
      RunJobsSnoc(jobs[..n], jobs[n], versions);
      UpsertsSnoc(jobs, versions);
    }
  }

  /** When a package raises, the run has made the calls of the packages before
      the first one that raises, and is marked as crashed. */
  lemma RunStopsAtFirstRaise(jobs: seq<Job>, i: nat, versions: VersionsEndpoint)
    requires i < |jobs| && Raises(jobs[i], versions)
    requires forall k :: 0 <= k < i ==> !Raises(jobs[k], versions)
    ensures RunJobs(jobs, versions) == Run(Upserts(jobs[..i], versions), true)
  {
    RunMatchesUpserts(jobs[..i], versions);
    assert jobs == jobs[..i] + ([jobs[i]] + jobs[i + 1..]);
    RaiseEndsRun(jobs[..i], jobs[i], jobs[i + 1..], versions);
  }

  /** Packages with distinct ids get distinct catalog identifiers. */
  lemma DistinctIdentifiers(jobs: seq<Job>, versions: VersionsEndpoint)
    requires forall i, j :: 0 <= i < j < |jobs| ==> jobs[i].package.id != jobs[j].package.id
    ensures var calls := Upserts(jobs, versions);
      forall k, l :: 0 <= k < l < |calls| ==> calls[k].entity.identifier != calls[l].entity.identifier
  {
    var calls := Upserts(jobs, versions);
    var idx := IngestedIndices(jobs, versions);
    forall k, l | 0 <= k < l < |calls|
      ensures calls[k].entity.identifier != calls[l].entity.identifier
    {
      assert idx[k] < idx[l];
      IntStringRoundTrip(jobs[idx[k]].package.id);
      IntStringRoundTrip(jobs[idx[l]].package.id);
    }
  }

  lemma {:induction false} AllIngestedIndices(jobs: seq<Job>, versions: VersionsEndpoint)
    requires forall i :: 0 <= i < |jobs| ==> Ingested(jobs[i], versions)
    ensures var idx := IngestedIndices(jobs, versions);
      |idx| == |jobs| && forall k :: 0 <= k < |idx| ==> idx[k] == k
    decreases |jobs|
  {
    if jobs != [] {
      var n := |jobs| - 1;
      var prefix := jobs[..n];
      forall i | 0 <= i < n
        ensures Ingested(prefix[i], versions)
      {
        assert prefix[i] == jobs[i];
      }
      AllIngestedIndices(prefix, versions);
      var idx0 := IngestedIndices(prefix, versions);
      assert Ingested(jobs[n], versions);
      assert IngestedIndices(jobs, versions) == idx0 + [n];
    }
  }

  /** When every package is ingested, the k-th call is for the k-th package. */
  lemma AllIngested(jobs: seq<Job>, versions: VersionsEndpoint)
    requires forall i :: 0 <= i < |jobs| ==> Ingested(jobs[i], versions)
    ensures var calls := Upserts(jobs, versions);
      |calls| == |jobs| && forall k :: 0 <= k < |jobs| ==> calls[k] == UpsertFor(jobs[k], versions)
  {
    AllIngestedIndices(jobs, versions);
  }

  /** A package whose versions list starts with a version record is ingested,
      and upserted with that record as its latest version. */
  lemma UpsertForRecord(job: Job, versions: VersionsEndpoint)
    requires StartsWithRecord(versions(job.package.url))
    ensures Ingested(job, versions) && !Raises(job, versions)
    ensures UpsertFor(job, versions) ==
      UpsertCall(Blueprint, PackageEntity(job.package, FirstVersion(versions(job.package.url)), job.packageType))
  {
  }

  lemma WorklistPrefixSnoc(types: seq<string>, registry: Registry, i: nat)
    requires i < |types|
    ensures Worklist(types[..i + 1], registry) == Worklist(types[..i], registry) + TypeJobs(types[i], registry)
  {
    assert types[..i + 1][..i] == types[..i];
  }

  lemma WorklistSnoc(types: seq<string>, t: string, registry: Registry)
    ensures Worklist(types + [t], registry) == Worklist(types, registry) + TypeJobs(t, registry)
  {
    assert (types + [t])[..|types|] == types;
  }

  /** Types whose listing is one empty page add no visits. */
  lemma {:induction false} EmptyListings(types: seq<string>, empty: seq<string>, registry: Registry)
    requires forall i :: 0 <= i < |empty| ==> registry(empty[i]) == [PageOk([])]
    ensures Worklist(types + empty, registry) == Worklist(types, registry)
    decreases |empty|
  {
    if empty != [] {
      var n := |empty| - 1;
      assert types + empty == (types + empty[..n]) + [empty[n]];
      EmptyListings(types, empty[..n], registry);
      WorklistSnoc(types + empty[..n], empty[n], registry);
      OneShortPage(empty[n], registry, []);
    } else {
      assert types + empty == types;
    }
  }

  /** A type whose listing is one short page visits that page's packages. */
  lemma OneShortPage(t: string, registry: Registry, packages: seq<Package>)
    requires registry(t) == [PageOk(packages)] && |packages| < PageSize
    ensures TypeJobs(t, registry) == PageJobs(t, packages)
  {
    assert Yielded(registry(t)) == [packages];
    assert PagesJobs(t, [packages]) == PagesJobs(t, []) + PageJobs(t, packages);
  }

  lemma PageJobsPair(packageType: string, x: Package, y: Package)
    ensures PageJobs(packageType, [x, y]) == [Job(packageType, x), Job(packageType, y)]
  {
  }

  lemma ConcatPairs<T>(w: T, x: T, y: T, z: T)
    ensures ([] + [w, x]) + [y, z] == [w, x, y, z]
  {
  }

  /** The visiting order when two package types list one page of two
      packages each and every later type lists one empty page. */
  lemma TwoTypesVisits(registry: Registry, a: Package, b: Package, c: Package, d: Package)
    requires registry("npm") == [PageOk([a, b])] && registry("maven") == [PageOk([c, d])]
    requires forall i :: 2 <= i < |PackageTypes| ==> registry(PackageTypes[i]) == [PageOk([])]
    ensures AllJobs(registry) == [Job("npm", a), Job("npm", b), Job("maven", c), Job("maven", d)]
  {
    var first, empty := PackageTypes[..2], PackageTypes[2..];
    assert PackageTypes == first + empty;
    EmptyListings(first, empty, registry);
    var none: seq<string> := [];
    WorklistSnoc(none, "npm", registry);
    assert none + ["npm"] == ["npm"];
    WorklistSnoc(["npm"], "maven", registry);
    assert ["npm"] + ["maven"] == first;
    OneShortPage("npm", registry, [a, b]);
    OneShortPage("maven", registry, [c, d]);
    PageJobsPair("npm", a, b);
    PageJobsPair("maven", c, d);
    ConcatPairs(Job("npm", a), Job("npm", b), Job("maven", c), Job("maven", d));
  }

  /** When the versions list of every visited package starts with a version
      record, every visited package is upserted, in visiting order, with its
      own first version as the latest one, and the run completes. */
  lemma EveryPackageIngested(jobs: seq<Job>, versions: VersionsEndpoint)
    requires forall i :: 0 <= i < |jobs| ==> StartsWithRecord(versions(jobs[i].package.url))
    ensures var run := RunJobs(jobs, versions);
      !run.crashed && |run.calls| == |jobs| &&
      forall k :: 0 <= k < |jobs| ==>
        var package := jobs[k].package;
        run.calls[k] == UpsertCall(Blueprint,
          PackageEntity(package, FirstVersion(versions(package.url)), jobs[k].packageType))
  {
    forall i | 0 <= i < |jobs|
      ensures !Raises(jobs[i], versions) && Ingested(jobs[i], versions)
      ensures UpsertFor(jobs[i], versions) == UpsertCall(Blueprint,
        PackageEntity(jobs[i].package, FirstVersion(versions(jobs[i].package.url)), jobs[i].packageType))
    {
      UpsertForRecord(jobs[i], versions);
    }
    RunMatchesUpserts(jobs, versions);
    AllIngested(jobs, versions);
  }

  /** The k-th call of such a run. */
  lemma NthCall(jobs: seq<Job>, versions: VersionsEndpoint, k: nat)
    requires forall i :: 0 <= i < |jobs| ==> StartsWithRecord(versions(jobs[i].package.url))
    requires k < |jobs|
    ensures var run, package := RunJobs(jobs, versions), jobs[k].package;
      !run.crashed && |run.calls| == |jobs| &&
      run.calls[k] == UpsertCall(Blueprint, PackageEntity(package, FirstVersion(versions(package.url)), jobs[k].packageType))
  {
    EveryPackageIngested(jobs, versions);
  }

  /** When the versions list of every visited package starts with a version
      record, packages with distinct ids get distinct identifiers in the
      calls. */
  lemma DistinctRecordIdentifiers(jobs: seq<Job>, versions: VersionsEndpoint)
    requires forall i :: 0 <= i < |jobs| ==> StartsWithRecord(versions(jobs[i].package.url))
    requires forall i, j :: 0 <= i < j < |jobs| ==> jobs[i].package.id != jobs[j].package.id
    ensures var calls := RunJobs(jobs, versions).calls;
      |calls| == |jobs| &&
      forall k, l :: 0 <= k < l < |calls| ==> calls[k].entity.identifier != calls[l].entity.identifier
  {
    EveryPackageIngested(jobs, versions);
    var calls := RunJobs(jobs, versions).calls;
    forall k, l | 0 <= k < l < |calls|
      ensures calls[k].entity.identifier != calls[l].entity.identifier
    {
      var p, q := jobs[k].package, jobs[l].package;
      IdentifierDeterminesPackageId(p, FirstVersion(versions(p.url)), jobs[k].packageType,
                                    q, FirstVersion(versions(q.url)), jobs[l].packageType);
    }
  }

  /** The calls of a run over two npm and two maven packages whose versions
      lists each start with a version record. */
  lemma FourCalls(a: Package, b: Package, c: Package, d: Package, versions: VersionsEndpoint)
    requires StartsWithRecord(versions(a.url)) && StartsWithRecord(versions(b.url))
    requires StartsWithRecord(versions(c.url)) && StartsWithRecord(versions(d.url))
    ensures var run := RunJobs([Job("npm", a), Job("npm", b), Job("maven", c), Job("maven", d)], versions);
      !run.crashed && |run.calls| == 4 &&
      run.calls[0] == UpsertCall(Blueprint, PackageEntity(a, FirstVersion(versions(a.url)), "npm")) &&
      run.calls[1] == UpsertCall(Blueprint, PackageEntity(b, FirstVersion(versions(b.url)), "npm")) &&
      run.calls[2] == UpsertCall(Blueprint, PackageEntity(c, FirstVersion(versions(c.url)), "maven")) &&
      run.calls[3] == UpsertCall(Blueprint, PackageEntity(d, FirstVersion(versions(d.url)), "maven"))
  {
    var jobs := [Job("npm", a), Job("npm", b), Job("maven", c), Job("maven", d)];
    assert forall i :: 0 <= i < |jobs| ==> StartsWithRecord(versions(jobs[i].package.url));
    NthCall(jobs, versions, 0);
    NthCall(jobs, versions, 1);
    NthCall(jobs, versions, 2);
    NthCall(jobs, versions, 3);
  }

  /** In that run, four distinct package ids give four distinct identifiers. */
  lemma FourDistinctIdentifiers(a: Package, b: Package, c: Package, d: Package, versions: VersionsEndpoint)
    requires StartsWithRecord(versions(a.url)) && StartsWithRecord(versions(b.url))
    requires StartsWithRecord(versions(c.url)) && StartsWithRecord(versions(d.url))
    ensures var jobs := [Job("npm", a), Job("npm", b), Job("maven", c), Job("maven", d)];
      var calls, ids := RunJobs(jobs, versions).calls, [a.id, b.id, c.id, d.id];
      (forall i, j :: 0 <= i < j < 4 ==> ids[i] != ids[j]) ==>
      |calls| == 4 && forall k, l :: 0 <= k < l < 4 ==> calls[k].entity.identifier != calls[l].entity.identifier
  {
    var jobs := [Job("npm", a), Job("npm", b), Job("maven", c), Job("maven", d)];
    var ids := [a.id, b.id, c.id, d.id];
    if forall i, j :: 0 <= i < j < 4 ==> ids[i] != ids[j] {
      assert forall i :: 0 <= i < 4 ==> jobs[i].package.id == ids[i];
      DistinctRecordIdentifiers(jobs, versions);
    }
  }

  /** Two package types with one page of two packages each, every later type
      with an empty page, and every versions list starting with a version
      record: the run completes with four upserts, in listing order, each
      with its package's own first version; packages with distinct ids get
      four distinct identifiers. */
  lemma TwoTypesScenario(registry: Registry, a: Package, b: Package, c: Package, d: Package,
                         versions: VersionsEndpoint)
    requires registry("npm") == [PageOk([a, b])] && registry("maven") == [PageOk([c, d])]
    requires forall i :: 2 <= i < |PackageTypes| ==> registry(PackageTypes[i]) == [PageOk([])]
    requires StartsWithRecord(versions(a.url)) && StartsWithRecord(versions(b.url))
    requires StartsWithRecord(versions(c.url)) && StartsWithRecord(versions(d.url))
    ensures var run := RunJobs(AllJobs(registry), versions);
      !run.crashed && |run.calls| == 4 &&
      run.calls[0] == UpsertCall(Blueprint, PackageEntity(a, FirstVersion(versions(a.url)), "npm")) &&
      run.calls[1] == UpsertCall(Blueprint, PackageEntity(b, FirstVersion(versions(b.url)), "npm")) &&
      run.calls[2] == UpsertCall(Blueprint, PackageEntity(c, FirstVersion(versions(c.url)), "maven")) &&
      run.calls[3] == UpsertCall(Blueprint, PackageEntity(d, FirstVersion(versions(d.url)), "maven"))
    ensures var run, ids := RunJobs(AllJobs(registry), versions), [a.id, b.id, c.id, d.id];
      (forall i, j :: 0 <= i < j < 4 ==> ids[i] != ids[j]) ==>
      forall k, l :: 0 <= k < l < 4 ==> run.calls[k].entity.identifier != run.calls[l].entity.identifier
  {
    var jobs := [Job("npm", a), Job("npm", b), Job("maven", c), Job("maven", d)];
    TwoTypesVisits(registry, a, b, c, d);
    FourCalls(a, b, c, d, versions);
    FourDistinctIdentifiers(a, b, c, d, versions);
  }

  // ---------------------------------------------------------------------------
  // The imperative orchestrator

  /** The catalog, seen through the upsert calls it receives. */
  class Catalog {
    var calls: seq<UpsertCall>

    constructor ()
      ensures calls == []
    {
      calls := [];
    }

    /** `add_entity_to_port`: posts the entity; a non-OK status is only
        logged, so the call returns normally whatever `responseOk` is. */
    method AddEntityToPort(blueprintId: string, entity: Entity, responseOk: bool)
      modifies this
      ensures calls == old(calls) + [UpsertCall(blueprintId, entity)]
    {
      calls := calls + [UpsertCall(blueprintId, entity)];
    }
  }

  /** `ingest_package_into_port`: builds the entity and upserts it under the
      package blueprint. */
  method IngestPackageIntoPort(catalog: Catalog, package: Package, version: Version,
                               packageType: string, upsertOk: Entity -> bool)
    modifies catalog
    ensures catalog.calls ==
      old(catalog.calls) + [UpsertCall(Blueprint, PackageEntity(package, version, packageType))]
  {
    var entity := PackageEntity(package, version, packageType);
    catalog.AddEntityToPort(Blueprint, entity, upsertOk(entity));
  }

  /** The innermost loop of `main`: the packages of one page, visited after
      `before`. The calls already made are `base + RunJobs(before).calls`. */
  method IngestPage(catalog: Catalog, packageType: string, packages: seq<Package>,
                    versions: VersionsEndpoint, upsertOk: Entity -> bool,
                    ghost base: seq<UpsertCall>, ghost before: seq<Job>)
    returns (completed: bool)
    requires catalog.calls == base + RunJobs(before, versions).calls && !RunJobs(before, versions).crashed
    modifies catalog
    ensures var r := RunJobs(before + PageJobs(packageType, packages), versions);
      catalog.calls == base + r.calls && (completed <==> !r.crashed)
  {
    ghost var done := before;
    assert packages[..0] == [];
    for k := 0 to |packages|
      invariant done == before + PageJobs(packageType, packages[..k])
      invariant catalog.calls == base + RunJobs(done, versions).calls
      invariant !RunJobs(done, versions).crashed
    {
      var package := packages[k];
      ghost var job := Job(packageType, package);
      var metadata := GetPackageMetadata(versions(package.url));
      PageJobsAt(packageType, packages, k);
      Regroup3(before, PageJobs(packageType, packages[..k]), [job], PageJobs(packageType, packages[k + 1..]));
      if metadata.IndexError? {
        RunJobsSnoc(done, job, versions);
        CrashedPrefix(done + [job], PageJobs(packageType, packages[k + 1..]), versions);
        return false;
      }
      PackageVisited(done, job, versions);
      PageJobsSnoc(packageType, packages, k);
      done := done + [job];
      if !IsTruthy(metadata) {
        continue;
      }
      IngestPackageIntoPort(catalog, package, metadata.entry.version, packageType, upsertOk);
    }
    assert packages[..|packages|] == packages;
    return true;
  }

  /** The middle loop of `main`: the pages yielded for one package type. */
  method IngestPages(catalog: Catalog, packageType: string, pages: seq<seq<Package>>,
                     versions: VersionsEndpoint, upsertOk: Entity -> bool,
                     ghost base: seq<UpsertCall>, ghost before: seq<Job>)
    returns (completed: bool)
    requires catalog.calls == base + RunJobs(before, versions).calls && !RunJobs(before, versions).crashed
    modifies catalog
    ensures var r := RunJobs(before + PagesJobs(packageType, pages), versions);
      catalog.calls == base + r.calls && (completed <==> !r.crashed)
  {
    ghost var done := before;
    assert before + PagesJobs(packageType, pages[..0]) == before;
    for pi := 0 to |pages|
      invariant done == before + PagesJobs(packageType, pages[..pi])
      invariant catalog.calls == base + RunJobs(done, versions).calls
      invariant !RunJobs(done, versions).crashed
    {
      var ok := IngestPage(catalog, packageType, pages[pi], versions, upsertOk, base, done);
      PagesJobsAt(packageType, pages, pi);
      Regroup3(before, PagesJobs(packageType, pages[..pi]), PageJobs(packageType, pages[pi]),
               PagesJobs(packageType, pages[pi + 1..]));
      if !ok {
        CrashedPrefix(done + PageJobs(packageType, pages[pi]), PagesJobs(packageType, pages[pi + 1..]), versions);
        return false;
      }
      PagesJobsSnoc(packageType, pages, pi);
      AppendAssoc(before, PagesJobs(packageType, pages[..pi]), PageJobs(packageType, pages[pi]));
      done := done + PageJobs(packageType, pages[pi]);
    }
    assert pages[..|pages|] == pages;
    return true;
  }

  /** `main`: the outer loop over the package types. It returns false when an
      exception ends the run. The upsert statuses `upsertOk` have no effect on
      what is done. */
  method RunIntegration(catalog: Catalog, registry: Registry, versions: VersionsEndpoint,
                        upsertOk: Entity -> bool)
    returns (completed: bool)
    requires forall i :: 0 <= i < |PackageTypes| ==> Terminates(registry(PackageTypes[i]))
    modifies catalog
    ensures catalog.calls == old(catalog.calls) + RunJobs(AllJobs(registry), versions).calls
    ensures completed <==> !RunJobs(AllJobs(registry), versions).crashed
  {
    ghost var done: seq<Job> := [];
    assert PackageTypes[..0] == [];
    for ti := 0 to |PackageTypes|
      invariant done == Worklist(PackageTypes[..ti], registry)
      invariant catalog.calls == old(catalog.calls) + RunJobs(done, versions).calls
      invariant !RunJobs(done, versions).crashed
    {
      var packageType := PackageTypes[ti];
      var pages, _ := GetGithubPackages(packageType, registry(packageType));
      var ok := IngestPages(catalog, packageType, pages, versions, upsertOk, old(catalog.calls), done);
      WorklistByType(PackageTypes, registry, ti);
      AppendAssoc(done, TypeJobs(packageType, registry), Worklist(PackageTypes[ti + 1..], registry));
      if !ok {
        CrashedPrefix(done + TypeJobs(packageType, registry), Worklist(PackageTypes[ti + 1..], registry), versions);
        return false;
      }
      WorklistPrefixSnoc(PackageTypes, registry, ti);
      done := done + TypeJobs(packageType, registry);
    }
    assert PackageTypes[..|PackageTypes|] == PackageTypes;
    return true;
  }
}

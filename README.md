# GitHub packages to Port catalog sync, modelled in Dafny

The modelled program is a sequential sync script. It does the following:

- It walks the configured package types of a GitHub organisation in a fixed order: npm, maven, rubygems, docker, nuget, container.
- For each type it pages through the organisation's packages on the registry, 100 per page, starting at page 1.
- It stops asking for pages after a page shorter than 100, or after a non-OK response.
- For each listed package it fetches the versions list and takes element 0 as the latest version.
- It skips a package whose metadata is `None` or falsy.
- For every other package it builds a catalog entity and upserts it into the Port catalog under the blueprint `githubPackage`. A failed upsert is only logged.

The HTTP calls are replaced by given inputs:

- The packages endpoint is a sequence of responses per package type. The k-th response answers the request for page k.
- The versions endpoint is a function from a package URL to a response.
- The upsert status is a function from an entity to a boolean. The model never reads its value, because the script only logs it.
- The catalog is an object whose `calls` field records every upsert call, as (blueprint id, entity) pairs.

Files, one module each:

- `records.dfy` (`Records`): the constants (blueprint, package types, page size, first page) and the JSON records as datatypes.
- `decimal.dfy` (`Decimal`): Python's `str` on an integer, its inverse, and the round trip. This `str` builds the entity identifier.
- `pagination.dfy` (`Pagination`): `get_github_packages`. It is a method with the source's `while` loop, proved against the functions `StopIndex` (the last request made) and `Yielded` (the pages yielded).
- `metadata.dfy` (`LatestVersion`): `get_package_metadata`, as a function. Its outcome is `NoMetadata` (the source's `None`), `Latest(entry)`, or `IndexError` for an empty versions list.
- `entity.dfy` (`Transform`): the entity dict of `ingest_package_into_port`, as a function.
- `sync.dfy` (`Sync`): `main`, `ingest_package_into_port` and `add_entity_to_port`.
  - `RunIntegration`, `IngestPages` and `IngestPage` are the source's three nested loops, one method per loop level, in the same nesting. The innermost one keeps the `continue`. Each method states its effect relative to the packages visited before it.
  - `Worklist` gives the order in which packages are visited.
  - `RunJobs` replays the loop body over that order.
  - `Upserts` is an independent description of the calls: the ingested packages, in order.
  - Lemmas connect these descriptions.

Two details of the code shape the model:

- `get_package_metadata` can raise. An OK versions response with an empty list makes `metadata[0]` raise `IndexError` (app.py:130). Nothing catches it, so the whole run ends. The model keeps this as the `IndexError` outcome. `RunIntegration` then returns `completed == false`, and the upsert calls made before that point stand.
- The skip test is truthiness, not absence (`if not package_metadata`, app.py:164). It also skips a `null` or `{}` first entry of the versions list. The model keeps such an entry as `VersionEntry.Falsy`.

## Model

| member | source | states |
|---|---|---|
| `Pagination.StopIndex` | app.py:84-102 | the last request made answers with the first response that is non-OK or shorter than 100; every earlier response is an OK page of at least 100 |
| `Pagination.YieldedPages` | app.py:94-102 | the pages yielded are the OK pages of the requests made, in request order, up to and including the short page that ends the loop; a failing last request yields nothing; every yielded page but the last is full |
| `Pagination.FirstRequestFails` | app.py:94-96 | a failing first request ends the sequence at once, with nothing yielded |
| `Pagination.GetGithubPackages` | app.py:65-102 | yields exactly `Yielded(registry)`; makes `StopIndex + 1` (at least one) requests; the k-th request asks for page k with `per_page` 100 and the given package type |
| `LatestVersion.GetPackageMetadata` | app.py:125-130 | `None` exactly when the versions response is non-OK; `IndexError` exactly when the list is empty; otherwise exactly element 0 of the list |
| `LatestVersion.TruthyMetadata` | app.py:125-130 | the metadata is truthy exactly when the response is OK and element 0 of a non-empty list is a version record |
| `Transform.PackageEntity` | app.py:139-151 | identifier is `str` of the package id, a canonical numeral that parses back to the id; title is the package name; the properties have exactly the seven keys, mapped from the package, the version and the package type |
| `Transform.IdentifierDeterminesPackageId` | app.py:140 | two entities have the same identifier exactly when their packages have the same id |
| `Transform.TransformExample` | app.py:139-151 | package 42 "pkg" with version "v1.0" and type "npm" gives identifier "42" and the expected seven properties |
| `Decimal.NatStringRoundTrip` | app.py:140 | the digits of a natural number parse back to it |
| `Decimal.IntStringRoundTrip` | app.py:140 | `str` of any integer is a well-formed numeral that parses back to it |
| `Decimal.IntStringInjective` | app.py:140 | `str` gives equal strings exactly for equal integers |
| `Decimal.IntString` | app.py:140 | `str` of an integer is a canonical numeral: digits with no leading zero, after a '-' exactly for negative numbers, and never "-0" |
| `Decimal.ParseNatRoundTrip` | app.py:140 | a digit string without leading zeros is the numeral of its own value |
| `Decimal.CanonicalNumeralUnique` | app.py:140 | every canonical numeral is `str` of its value, so `str` is the only canonical way to write an integer |
| `Sync.WorklistByType` | app.py:160-162 | the packages of the i-th package type are visited after those of earlier types and before those of later ones |
| `Sync.FailedListing` | app.py:94-96 | a package type whose first listing request fails is dropped; the other types are visited as if it were not configured |
| `Sync.PagesJobsAt` | app.py:161-162 | within a type, the pages are visited in the order yielded |
| `Sync.PageJobsAt` | app.py:162 | within a page, the packages are visited in the order listed |
| `Sync.EmptyListings` | app.py:160-162 | package types that list one empty page add no visits |
| `Sync.OneShortPage` | app.py:84-102 | a type that lists one short page visits exactly that page's packages |
| `Sync.CrashedStays` | app.py:130 | once `IndexError` is raised, no further package changes the run |
| `Sync.RaiseEndsRun` | app.py:130 | an `IndexError` keeps the calls made before it and ends the run |
| `Sync.CrashedPrefix` | app.py:130 | after an `IndexError`, whatever packages remain to be visited change nothing |
| `Sync.SkippedPackage` | app.py:163-165 | a package with `None` or falsy metadata leaves the run as if it had not been listed |
| `Sync.IngestedIndices` | app.py:163-168 | the positions of the ingested packages, strictly increasing, each ingested, and none missing |
| `Sync.UpsertsDescribe` | app.py:139-153 | the k-th call is for the k-th ingested package, under `githubPackage`, with that package's id, its package type and its first version's tag |
| `Sync.RunMatchesUpserts` | app.py:160-168 | with no `IndexError`, the run makes exactly one call per ingested package, in visiting order, and completes |
| `Sync.RunStopsAtFirstRaise` | app.py:130 | with an `IndexError`, the run makes the calls of the packages before the first one that raises, and then aborts |
| `Sync.DistinctIdentifiers` | app.py:140 | packages with distinct ids get distinct identifiers in the calls |
| `Sync.AllIngested` | app.py:162-168 | when every package is ingested, there is one call per package and the k-th call is the upsert of the k-th package |
| `Sync.EveryPackageIngested` | app.py:160-168 | when the versions list of every visited package starts with a version record, however many versions follow, the run completes and the k-th call is the entity of the k-th visited package with its own first version |
| `Sync.DistinctRecordIdentifiers` | app.py:140 | in such a run, visited packages with pairwise distinct ids get pairwise distinct identifiers |
| `Sync.TwoTypesVisits` | app.py:19 | with npm and maven each listing one page of two packages and every later type an empty page, the visits are those four packages in order |
| `Sync.TwoTypesScenario` | app.py:156-168 | in that setting, with each package's versions list starting with a version record: the run completes with exactly four calls, in listing order, each carrying its package's own first version; with four distinct package ids, the four identifiers are distinct |
| `Sync.Catalog.AddEntityToPort` | app.py:33-62 | the call is appended to the catalog's calls, and the method returns normally whatever the response status |
| `Sync.IngestPackageIntoPort` | app.py:133-153 | exactly one upsert is made, of the entity built from the package, its version and its type, under `githubPackage` |
| `Sync.IngestPage` | app.py:162-168 | the catalog receives exactly the calls of `RunJobs` over the packages visited so far followed by this page's packages; it reports completion exactly when no `IndexError` occurred |
| `Sync.IngestPages` | app.py:161-168 | the same, over the pages yielded for one package type |
| `Sync.RunIntegration` | app.py:156-169 | the catalog receives exactly the calls of `RunJobs` over the whole visiting order; it reports completion exactly when no `IndexError` occurred; upsert statuses have no effect |

## Left out

- Token acquisition at import time, the global `headers`, and the environment and dotenv configuration (app.py:11-30). The token is a constant that is never looked at.
- The HTTP session, URL building with `urlencode`, request headers and JSON decoding. The registry's and the catalog's answers are inputs, as described above.
- async/await and `asyncio.run`. Execution is strictly serial, so the model uses plain sequential methods.
- Pagination.GetGithubPackages: it collects every page of a package type before any of them is processed. In the source, the generator asks for the next page only after the packages of the previous page have been processed. The upsert calls come out the same. What differs is the order of the network requests, and after an `IndexError` the source makes no further page requests. `RunIntegration` reports only the upsert calls, not the page requests.
- Pagination.GetGithubPackages and Sync.RunIntegration: they require that every package listing eventually gives a short page or a non-OK response. Without that, the source's loop never ends. The model does not cover a registry that returns full pages forever.
- The versions endpoint is a function of the package URL. Two visits of the same URL get the same answer.
- Logging calls. They have no effect on behaviour.
- The catalog's server-side upsert/merge semantics. These live in the remote service.
- `KeyError` on missing record fields. Records are datatypes that hold the fields the script reads.
- Other shapes of a versions list entry. The model treats every falsy JSON value (`null`, `{}` and the like) as `Falsy`, and every truthy entry as a version record.
- The assumption that element 0 of the versions list is the most recent version. That ordering is a property of the registry, not of this program.
- The process exit status. An `IndexError` appears only as `completed == false`.

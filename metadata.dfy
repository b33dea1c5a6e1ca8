/** The metadata fetcher (`get_package_metadata`): given the registry's answer
    to a package's versions request, select the entry treated as the latest
    version. */
module LatestVersion {
  import opened Records

  /** What the fetch comes to: `None` (the request failed), the first entry of
      the versions list, or the `IndexError` raised by indexing an empty list,
      which nothing catches. */
  datatype Metadata = NoMetadata | Latest(entry: VersionEntry) | IndexError

  function GetPackageMetadata(response: VersionsResponse): (m: Metadata)
    ensures m.NoMetadata? <==> response.VersionsErr?
    ensures m.IndexError? <==> response.VersionsOk? && response.versions == []
    ensures m.Latest? ==>
      response.VersionsOk? && |response.versions| > 0 && m.entry == response.versions[0]
  {
    match response
    case VersionsErr(_) => NoMetadata
    case VersionsOk(versions) => if versions == [] then IndexError else Latest(versions[0])
  }

  /** The orchestrator goes on to ingest a package only when the metadata is
      truthy: neither `None` nor a falsy entry. */
  predicate IsTruthy(m: Metadata) {
    m.Latest? && m.entry.Record?
  }

  /** The versions request succeeded and its list starts with a version
      record. */
  predicate StartsWithRecord(response: VersionsResponse) {
    response.VersionsOk? && |response.versions| > 0 && response.versions[0].Record?
  }

  /** The version record at the head of such a list. */
  function FirstVersion(response: VersionsResponse): Version
    requires StartsWithRecord(response)
  {
    response.versions[0].version
  }

  /** The package is ingested exactly when the versions request succeeded and
      the first entry of the list is a version record. */
  lemma TruthyMetadata(response: VersionsResponse)
    ensures IsTruthy(GetPackageMetadata(response)) <==>
      (response.VersionsOk? && |response.versions| > 0 && response.versions[0].Record?)
  {
  }
}

/** The configuration constants of the sync script and the JSON records it reads
    from the package registry, as Dafny datatypes. Only the fields the script
    looks up are kept. */
module Records {

  /** Blueprint under which every entity is upserted into the catalog. */
  const Blueprint: string := "githubPackage"

  /** Package ecosystems, in the order the script visits them. */
  const PackageTypes: seq<string> := ["npm", "maven", "rubygems", "docker", "nuget", "container"]

  /** Number of packages asked for per page (`per_page`). */
  const PageSize: nat := 100

  /** Page number of the first packages request. */
  const DefaultPageNumber: nat := 1

  /** A package record as listed by the registry's packages endpoint. */
  datatype Package = Package(
    id: int,
    name: string,
    url: string,
    visibility: string,
    createdAt: string,
    htmlUrl: string)

  /** The fields of a version record the script reads. */
  datatype Version = Version(name: string, htmlUrl: string, createdAt: string)

  /** One element of a versions list: either a version record or a JSON value
      that Python treats as false (`null`, `{}`). */
  datatype VersionEntry = Falsy | Record(version: Version)

  /** The answer to one packages request: an OK status with the decoded list,
      or a non-OK status. */
  datatype PackagesResponse = PageOk(packages: seq<Package>) | PageErr(status: int)

  /** The answer to one versions request. */
  datatype VersionsResponse = VersionsOk(versions: seq<VersionEntry>) | VersionsErr(status: int)
}

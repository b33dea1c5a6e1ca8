/** The entity transformer of `ingest_package_into_port`: the catalog entity
    built from a package, its latest version and the package type. */
module Transform {
  import opened Records
  import opened Decimal

  /** The upsert payload: identifier, title and the properties map. */
  datatype Entity = Entity(identifier: string, title: string, properties: map<string, string>)

  /** The keys of the properties map, and no others. */
  const PropertyKeys: set<string> := {
    "packageType", "visibility", "createdAt", "link",
    "latestVersionTag", "latestVersionLink", "latestVersionCreatedAt"
  }

  function PackageEntity(package: Package, version: Version, packageType: string): (e: Entity)
    ensures e.identifier == IntString(package.id)
    ensures IsNumeral(e.identifier) && ParseInt(e.identifier) == package.id
    ensures e.title == package.name
    ensures e.properties.Keys == PropertyKeys
    ensures e.properties["packageType"] == packageType
    ensures e.properties["visibility"] == package.visibility
    ensures e.properties["createdAt"] == package.createdAt
    ensures e.properties["link"] == package.htmlUrl
    ensures e.properties["latestVersionTag"] == version.name
    ensures e.properties["latestVersionLink"] == version.htmlUrl
    ensures e.properties["latestVersionCreatedAt"] == version.createdAt
  {
    IntStringRoundTrip(package.id);
    Entity(
      IntString(package.id),
      package.name,
      map[
        "packageType" := packageType,
        "visibility" := package.visibility,
        "createdAt" := package.createdAt,
        "link" := package.htmlUrl,
        "latestVersionTag" := version.name,
        "latestVersionLink" := version.htmlUrl,
        "latestVersionCreatedAt" := version.createdAt
      ])
  }

  /** Two packages get the same catalog identifier exactly when their ids are
      equal, so re-running the sync upserts the same record for a package and
      never merges two packages. */
  lemma IdentifierDeterminesPackageId(p: Package, v: Version, t: string, q: Package, w: Version, u: string)
    ensures PackageEntity(p, v, t).identifier == PackageEntity(q, w, u).identifier <==> p.id == q.id
  {
    IntStringInjective(p.id, q.id);
  }

  /** The worked example of a transformation. */
  lemma TransformExample()
    ensures PackageEntity(
      Package(42, "pkg", "https://api/42", "public", "2024-01-01", "http://x/42"),
      Version("v1.0", "http://x/42/v1", "2024-02-01"),
      "npm")
      == Entity("42", "pkg", map[
        "packageType" := "npm",
        "visibility" := "public",
        "createdAt" := "2024-01-01",
        "link" := "http://x/42",
        "latestVersionTag" := "v1.0",
        "latestVersionLink" := "http://x/42/v1",
        "latestVersionCreatedAt" := "2024-02-01"])
  {
    assert NatString(42) == NatString(4) + [DigitChar(2)];
  }
}

/** The evidence a retained tarball carries: what is recorded of it, and when it matches its record. */
module RetainedTarball {
  import opened Common
  import opened VersionOrder
  import opened ReleaseEvidence
  import TarInspection

  /** What the manifest in the tarball declares. */
  datatype PackageManifest = PackageManifest(name: string, version: string, internalDependencies: map<string, string>)

  /** The digests, and the reader of the manifest's JSON text. */
  datatype Tools = Tools(
    sha512: seq<byte> -> string,
    sri: seq<byte> -> string,
    sha256: seq<byte> -> string,
    readManifest: seq<byte> -> Option<PackageManifest>)

  datatype TarballError =
    | NotInspectable(error: TarInspection.InspectionError)
    | BadManifest
    | WrongName
    | UnstableVersion

  function PackageEvidenceFromTarball(tools: Tools, definition: Definition, tarball: seq<byte>)
    : Result<PackageRecord, TarballError>
  {
    var inspected := TarInspection.Inspect(tarball, TarInspection.RELEASE_LIMITS);
    if inspected.Err? then Err(NotInspectable(inspected.error))
    else
      var manifest := tools.readManifest(inspected.value.manifestBytes);
      if manifest.None? then Err(BadManifest)
      else if manifest.value.name != definition.name then Err(WrongName)
      else if !Stable(manifest.value.version) then Err(UnstableVersion)
      else
        Ok(PackageRecord(
          definition.dir, manifest.value.name, manifest.value.version, tools.sha512(tarball), tools.sri(tarball),
          tools.sha256(inspected.value.manifestBytes), inspected.value.unpackedSize, inspected.value.fileCount,
          manifest.value.internalDependencies))
  }

  /** validateExpectedTarball: the evidence of these bytes is the record, field for field. */
  predicate MatchesRecord(tools: Tools, record: PackageRecord, tarball: seq<byte>) {
    PackageEvidenceFromTarball(tools, Definition(record.dir, record.name), tarball) == Ok(record)
  }

  /** Bytes that match a record have the recorded digests, and the record a stable version. */
  lemma {:induction false} MatchBindsBytes(tools: Tools, record: PackageRecord, tarball: seq<byte>)
    requires MatchesRecord(tools, record, tarball)
    ensures tools.sha512(tarball) == record.tarballSha512 && tools.sri(tarball) == record.expectedSri
    ensures Stable(record.version)
  {
    hide TarInspection.Inspect, Stable;
  }
}

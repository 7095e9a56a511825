/** Expected evidence, registry observations and final evidence, and the chain of checks between them. */
module ReleaseEvidence {
  import opened Common
  import opened VersionOrder

  datatype Definition = Definition(dir: string, name: string)

  datatype PackageRecord = PackageRecord(
    dir: string, name: string, version: string, tarballSha512: string, expectedSri: string, manifestSha256: string,
    unpackedSize: int, fileCount: int, internalDependencies: map<string, string>)

  datatype FinalRecord = FinalRecord(
    expected: PackageRecord, registrySri: string, registryTarballSha512: string, registryManifestSha256: string,
    registryInternalDependencies: map<string, string>)

  datatype ExpectedEvidence = ExpectedEvidence(
    schemaVersion: int, sourceCommit: string, releaseVersion: string, packages: seq<PackageRecord>)

  datatype FinalEvidence = FinalEvidence(
    schemaVersion: int, sourceCommit: string, releaseVersion: string, expectedEvidenceSha256: string,
    packages: seq<FinalRecord>)

  datatype Observation = Observation(
    sri: string, tarballSha512: string, manifestSha256: string, internalDependencies: map<string, string>,
    latestVersion: Option<string>)

  /** What is fixed for a release: the public package table and the digest encodings. */
  datatype Contract = Contract(
    definitions: seq<Definition>,
    sriOf: string -> string,
    digestOf: ExpectedEvidence -> string)

  datatype EvidenceError =
    | InvalidExpected
    | InvalidFinal
    | InvalidDigest
    | MissingObservation(name: string)
    | ConflictingObservation(name: string)
    | UnknownObservation
    | DigestNotLinked
    | IdentityMismatch
    | ChangedRecord(name: string)
    | RegistryConflict(name: string)

  // ---------------------------------------------------------------- validation

  predicate LowerHex(s: string, length: nat) {
    |s| == length && forall i | 0 <= i < |s| :: IsDigit(s[i]) || 'a' <= s[i] <= 'f'
  }

  predicate SafeCount(n: int) { 0 <= n < 0x20_0000_0000_0000 }

  predicate IsPublicName(contract: Contract, name: string) {
    exists i | 0 <= i < |contract.definitions| :: contract.definitions[i].name == name
  }

  /** Every internal dependency is a public package at exactly the release version. */
  predicate ExactInternalDependencies(contract: Contract, dependencies: map<string, string>, version: string) {
    Stable(version) && forall d | d in dependencies :: IsPublicName(contract, d) && dependencies[d] == version
  }

  predicate ValidRecord(contract: Contract, r: PackageRecord) {
    && Definition(r.dir, r.name) in contract.definitions
    && Stable(r.version)
    && LowerHex(r.tarballSha512, 128)
    && r.expectedSri == contract.sriOf(r.tarballSha512)
    && LowerHex(r.manifestSha256, 64)
    && ExactInternalDependencies(contract, r.internalDependencies, r.version)
    && SafeCount(r.unpackedSize) && SafeCount(r.fileCount)
  }

  predicate ValidExpected(contract: Contract, e: ExpectedEvidence) {
    && e.schemaVersion == 1
    && LowerHex(e.sourceCommit, 40)
    && Stable(e.releaseVersion)
    && |e.packages| == |contract.definitions|
    && forall i | 0 <= i < |e.packages| ::
         && ValidRecord(contract, e.packages[i])
         && e.packages[i].name == contract.definitions[i].name
         && e.packages[i].version == e.releaseVersion
  }

  predicate ValidFinalRecord(contract: Contract, r: FinalRecord) {
    && ValidRecord(contract, r.expected)
    && LowerHex(r.registryTarballSha512, 128)
    && r.registrySri == contract.sriOf(r.registryTarballSha512)
    && LowerHex(r.registryManifestSha256, 64)
    && ExactInternalDependencies(contract, r.registryInternalDependencies, r.expected.version)
  }

  predicate ValidFinal(contract: Contract, f: FinalEvidence) {
    && f.schemaVersion == 1
    && LowerHex(f.sourceCommit, 40)
    && Stable(f.releaseVersion)
    && LowerHex(f.expectedEvidenceSha256, 64)
    && |f.packages| == |contract.definitions|
    && forall i | 0 <= i < |f.packages| ::
         && ValidFinalRecord(contract, f.packages[i])
         && f.packages[i].expected.name == contract.definitions[i].name
         && f.packages[i].expected.version == f.releaseVersion
  }

  // ---------------------------------------------------------------- classification

  datatype Verdict = NeedsPublish | Skip | Differs

  function ClassifyRegistryObservation(expected: PackageRecord, observation: Option<Observation>): (v: Verdict)
    ensures v == Skip <==> observation.Some? && MatchesRegistry(expected, observation.value)
    ensures v == NeedsPublish <==> observation.None?
  {
    if observation.None? then NeedsPublish
    else if MatchesRegistry(expected, observation.value) then Skip
    else Differs
  }

  predicate MatchesRegistry(expected: PackageRecord, o: Observation) {
    && o.sri == expected.expectedSri
    && o.tarballSha512 == expected.tarballSha512
    && o.manifestSha256 == expected.manifestSha256
    && o.internalDependencies == expected.internalDependencies
  }

  // ---------------------------------------------------------------- final evidence

  /** The one final record an expected record can lead to. */
  function ExtendRecord(r: PackageRecord): FinalRecord {
    FinalRecord(r, r.expectedSri, r.tarballSha512, r.manifestSha256, r.internalDependencies)
  }

  function ExtendAll(packages: seq<PackageRecord>): (r: seq<FinalRecord>)
    ensures |r| == |packages| && forall i | 0 <= i < |r| :: r[i] == ExtendRecord(packages[i])
  {
    seq(|packages|, i requires 0 <= i < |packages| => ExtendRecord(packages[i]))
  }

  function Extend(e: ExpectedEvidence, digest: string): FinalEvidence {
    FinalEvidence(1, e.sourceCommit, e.releaseVersion, digest, ExtendAll(e.packages))
  }

  function RecordFromObservation(r: PackageRecord, o: Observation): FinalRecord {
    FinalRecord(r, o.sri, o.tarballSha512, o.manifestSha256, o.internalDependencies)
  }

  function CollectRecords(packages: seq<PackageRecord>, observations: map<string, Observation>)
    : Result<seq<FinalRecord>, EvidenceError>
  {
    if packages == [] then Ok([])
    else
      var r := packages[0];
      if r.name !in observations then Err(MissingObservation(r.name))
      else if ClassifyRegistryObservation(r, Some(observations[r.name])) != Skip
        then Err(ConflictingObservation(r.name))
      else
        var rest :- CollectRecords(packages[1..], observations);
        Ok([RecordFromObservation(r, observations[r.name])] + rest)
  }

  function CreateFinalEvidence(contract: Contract, expected: ExpectedEvidence, digest: string,
                               observations: map<string, Observation>): Result<FinalEvidence, EvidenceError>
  {
    if !ValidExpected(contract, expected) then Err(InvalidExpected)
    else if !LowerHex(digest, 64) then Err(InvalidDigest)
    else
      var packages :- CollectRecords(expected.packages, observations);
      if exists name | name in observations :: !IsPublicName(contract, name) then Err(UnknownObservation)
      else
        var f := FinalEvidence(1, expected.sourceCommit, expected.releaseVersion, digest, packages);
        if ValidFinal(contract, f) then Ok(f) else Err(InvalidFinal)
  }

  predicate AllObserved(packages: seq<PackageRecord>, observations: map<string, Observation>) {
    forall i | 0 <= i < |packages| ::
      packages[i].name in observations && MatchesRegistry(packages[i], observations[packages[i].name])
  }

  lemma {:induction false} MatchExtends(r: PackageRecord, o: Observation)
    ensures MatchesRegistry(r, o) ==> RecordFromObservation(r, o) == ExtendRecord(r)
  {
  }

  lemma {:induction false} CollectMeaning(packages: seq<PackageRecord>, observations: map<string, Observation>)
    ensures CollectRecords(packages, observations).Ok? <==> AllObserved(packages, observations)
    ensures CollectRecords(packages, observations).Ok? ==>
              CollectRecords(packages, observations).value == ExtendAll(packages)
  {
    hide MatchesRegistry, ExtendAll, ExtendRecord, RecordFromObservation;
    if packages != [] {
      var rest := packages[1..];
      CollectMeaning(rest, observations);
      assert packages == [packages[0]] + rest;
      assert ExtendAll(packages) == [ExtendRecord(packages[0])] + ExtendAll(rest);
      if packages[0].name in observations {
        MatchExtends(packages[0], observations[packages[0].name]);
      }
    }
  }

  lemma {:induction false} ExtendIsValid(contract: Contract, expected: ExpectedEvidence, digest: string)
    requires ValidExpected(contract, expected) && LowerHex(digest, 64)
    ensures ValidFinal(contract, Extend(expected, digest))
  {
    hide LowerHex, ExactInternalDependencies, Stable;
    var f := Extend(expected, digest);
    forall i | 0 <= i < |f.packages|
      ensures ValidFinalRecord(contract, f.packages[i])
    {
      assert f.packages[i] == ExtendRecord(expected.packages[i]);
    }
  }

  /** Final evidence is created exactly when every package was observed as expected and nothing else was. */
  lemma {:induction false} CreateFinalEvidenceMeaning(contract: Contract, expected: ExpectedEvidence, digest: string,
                                                      observations: map<string, Observation>)
    ensures var r := CreateFinalEvidence(contract, expected, digest, observations);
            && (r.Ok? <==>
                 && ValidExpected(contract, expected) && LowerHex(digest, 64)
                 && AllObserved(expected.packages, observations)
                 && (forall name | name in observations :: IsPublicName(contract, name)))
            && (r.Ok? ==> r.value == Extend(expected, digest))
  {
    hide ValidExpected, ValidFinal, LowerHex, MatchesRegistry, CollectRecords, IsPublicName, ExtendAll;
    CollectMeaning(expected.packages, observations);
    if ValidExpected(contract, expected) && LowerHex(digest, 64) {
      ExtendIsValid(contract, expected, digest);
    }
  }

  // ---------------------------------------------------------------- verification

  /** The digest the verifier demands: the given one, or the one it computes. */
  function DemandedDigest(contract: Contract, expected: ExpectedEvidence, given: Option<string>): string {
    if given.Some? then given.value else contract.digestOf(expected)
  }

  function RegistryView(r: FinalRecord): Observation {
    Observation(r.registrySri, r.registryTarballSha512, r.registryManifestSha256, r.registryInternalDependencies, None)
  }

  /** `final` is the extension of valid expected evidence under the demanded digest. */
  predicate Verified(contract: Contract, expected: ExpectedEvidence, final: FinalEvidence, given: Option<string>) {
    var digest := DemandedDigest(contract, expected, given);
    ValidExpected(contract, expected) && LowerHex(digest, 64) && final == Extend(expected, digest)
  }

  /** verifyFinalEvidence accepts exactly the extension of valid expected evidence under the demanded digest. */
  method VerifyFinalEvidence(contract: Contract, expected: ExpectedEvidence, final: FinalEvidence,
                             given: Option<string>)
    returns (r: Result<(), EvidenceError>)
    ensures r.Ok? <==> Verified(contract, expected, final, given)
  {
    hide ValidRecord, ValidFinalRecord, LowerHex, ExtendAll;
    if !ValidExpected(contract, expected) { return Err(InvalidExpected); }
    var digest := DemandedDigest(contract, expected, given);
    if !ValidFinal(contract, final) {
      if LowerHex(digest, 64) { ExtendIsValid(contract, expected, digest); }
      return Err(InvalidFinal);
    }
    if final.expectedEvidenceSha256 != digest { return Err(DigestNotLinked); }
    if final.sourceCommit != expected.sourceCommit || final.releaseVersion != expected.releaseVersion {
      return Err(IdentityMismatch);
    }
    for index := 0 to |expected.packages|
      invariant forall i | 0 <= i < index :: final.packages[i] == ExtendRecord(expected.packages[i])
    {
      var e, f := expected.packages[index], final.packages[index];
      if e != f.expected { return Err(ChangedRecord(e.name)); }
      if ClassifyRegistryObservation(e, Some(RegistryView(f))) != Skip { return Err(RegistryConflict(e.name)); }
    }
    assert final.packages == ExtendAll(expected.packages);
    return Ok(());
  }

  /** Whatever creation returns is accepted by verification, and is the only final evidence that is. */
  lemma {:induction false} FinalEvidenceIsDetermined(contract: Contract, expected: ExpectedEvidence, digest: string,
                                                     observations: map<string, Observation>, other: FinalEvidence)
    requires CreateFinalEvidence(contract, expected, digest, observations).Ok?
    ensures var f := CreateFinalEvidence(contract, expected, digest, observations).value;
            && Verified(contract, expected, f, Some(digest))
            && (Verified(contract, expected, other, Some(digest)) ==> other == f)
            && forall i | 0 <= i < |expected.packages| :: f.packages[i] == ExtendRecord(expected.packages[i])
  {
    CreateFinalEvidenceMeaning(contract, expected, digest, observations);
  }
}

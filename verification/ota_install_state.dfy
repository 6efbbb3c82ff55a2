/** The durable OTA install record and its transitions (src/ota_install_state.cpp).
  *
  * A fixed `char` array is modelled as the text before its first NUL; an array
  * without one is a text whose length reaches the capacity, which every
  * validity rule refuses.
  */
module OtaInstallState {
  import opened Bytes

  const MAXIMUM_RELEASE_COUNTER := MAX_SIGNED_64
  const RELEASE_ID_CAPACITY := 49
  const FIRMWARE_VERSION_CAPACITY := 33
  const BUILD_ID_CAPACITY := 65
  const DIGEST_SIZE := 32

  type Digest = d: bytes | |d| == DIGEST_SIZE witness seq(DIGEST_SIZE, _ => 0)

  function ZeroDigest(): Digest {
    seq(DIGEST_SIZE, _ => 0)
  }

  datatype ImageIdentity = ImageIdentity(partitionAddress: nat, sha256: Digest)

  /** What an image says about itself: kM5goFirmwareVersion and kM5goBuildId. */
  datatype Build = Build(firmwareVersion: string, buildId: string)

  datatype InstallState = InstallState(
    confirmedReleaseId: string,
    confirmedFirmwareVersion: string,
    confirmedBuildId: string,
    previousReleaseId: string,
    pendingReleaseId: string,
    pendingFirmwareVersion: string,
    pendingBuildId: string,
    confirmedReleaseCounter: nat,
    pendingReleaseCounter: nat,
    pending: bool,
    developmentPending: bool,
    pendingImageAccepted: bool,
    pendingValidated: bool,
    runningDevelopmentImage: bool,
    pendingPartitionAddress: nat,
    pendingImageSha256: Digest)

  /** A value-initialised record: what a device without a stored record starts from. */
  function EmptyState(): (r: InstallState)
    ensures IsValid(r) && !Open(r)
  {
    InstallState("", "", "", "", "", "", "", 0, 0, false, false, false, false, false, 0, ZeroDigest())
  }

  /** The signed claims a production release brings along (OtaManifest). */
  datatype Manifest = Manifest(releaseCounter: nat, firmwareVersion: string, buildId: string)

  predicate CanonicalByte(c: char, allowColon: bool) {
    'A' <= c <= 'Z' || 'a' <= c <= 'z' || '0' <= c <= '9' || c == '.' || c == '_' ||
    c == '+' || c == '-' || (allowColon && c == ':')
  }

  predicate CanonicalText(value: string, capacity: nat, allowEmpty: bool, allowColon: bool) {
    && |value| < capacity
    && (allowEmpty || value != "")
    && forall i :: 0 <= i < |value| ==> CanonicalByte(value[i], allowColon)
  }

  predicate ReleaseId(value: string, allowEmpty: bool) {
    || (allowEmpty && value == "")
    || (&& |value| == 36
        && value[..4] == "rel-"
        && forall i :: 4 <= i < 36 ==> LowerHex(value[i]))
  }

  predicate DigestIsZero(d: Digest) {
    d == ZeroDigest()
  }

  predicate PartitionAddressIsValid(address: nat) {
    address != 0 && address % 0x1_0000 == 0 && address < U32_LIMIT
  }

  predicate IdentityIsValid(identity: ImageIdentity) {
    PartitionAddressIsValid(identity.partitionAddress) && !DigestIsZero(identity.sha256)
  }

  /** Either image transaction is open. */
  predicate Open(s: InstallState) {
    s.pending || s.developmentPending
  }

  predicate ConfirmedPartIsValid(s: InstallState) {
    var empty := s.confirmedReleaseCounter == 0;
    && s.confirmedReleaseCounter <= MAXIMUM_RELEASE_COUNTER
    && ReleaseId(s.confirmedReleaseId, empty)
    && ReleaseId(s.previousReleaseId, true)
    && CanonicalText(s.confirmedFirmwareVersion, FIRMWARE_VERSION_CAPACITY, empty, false)
    && CanonicalText(s.confirmedBuildId, BUILD_ID_CAPACITY, empty, true)
    && (empty ==> && s.confirmedReleaseId == ""
                  && s.previousReleaseId == ""
                  && s.confirmedFirmwareVersion == ""
                  && s.confirmedBuildId == "")
  }

  /** No production claim is carried (a development image, or no transaction). */
  predicate NoPendingRelease(s: InstallState) {
    && s.pendingReleaseCounter == 0
    && s.pendingReleaseId == ""
    && s.pendingFirmwareVersion == ""
    && s.pendingBuildId == ""
  }

  predicate NothingPending(s: InstallState) {
    && !s.pending && !s.developmentPending
    && !s.pendingImageAccepted && !s.pendingValidated
    && s.pendingPartitionAddress == 0
    && DigestIsZero(s.pendingImageSha256)
    && NoPendingRelease(s)
  }

  predicate PendingReleaseIsValid(s: InstallState) {
    && s.confirmedReleaseCounter < s.pendingReleaseCounter <= MAXIMUM_RELEASE_COUNTER
    && ReleaseId(s.pendingReleaseId, false)
    && CanonicalText(s.pendingFirmwareVersion, FIRMWARE_VERSION_CAPACITY, false, false)
    && CanonicalText(s.pendingBuildId, BUILD_ID_CAPACITY, false, true)
  }

  predicate IsValid(s: InstallState) {
    && ConfirmedPartIsValid(s)
    && !(s.pending && s.developmentPending)
    && if !Open(s) then NothingPending(s)
       else
         && PartitionAddressIsValid(s.pendingPartitionAddress)
         && (s.pendingValidated ==> s.pendingImageAccepted)
         && s.pendingImageAccepted == !DigestIsZero(s.pendingImageSha256)
         && if s.developmentPending then NoPendingRelease(s) else PendingReleaseIsValid(s)
  }

  function ClearPending(s: InstallState): (r: InstallState)
    ensures ConfirmedPartIsValid(s) ==> IsValid(r) && !Open(r)
    ensures IsValid(s) && !Open(s) ==> r == s
  {
    InstallState(s.confirmedReleaseId, s.confirmedFirmwareVersion, s.confirmedBuildId,
                 s.previousReleaseId, "", "", "", s.confirmedReleaseCounter, 0,
                 false, false, false, false, s.runningDevelopmentImage, 0, ZeroDigest())
  }

  predicate IdentityMatches(s: InstallState, identity: ImageIdentity) {
    && IsValid(s) && Open(s) && s.pendingImageAccepted
    && s.pendingPartitionAddress == identity.partitionAddress
    && s.pendingImageSha256 == identity.sha256
  }

  predicate ReleaseMatches(s: InstallState, running: Build) {
    s.pending ==> && s.pendingFirmwareVersion == running.firmwareVersion
                  && s.pendingBuildId == running.buildId
  }

  predicate ConfirmedProductionMatchesRunningImage(s: InstallState, running: Build) {
    && IsValid(s) && !s.runningDevelopmentImage && s.confirmedReleaseCounter != 0
    && s.confirmedFirmwareVersion == running.firmwareVersion
    && s.confirmedBuildId == running.buildId
  }

  /** Every `candidate` below is checked for validity again before it is stored,
    * as the source does; `r` is None when either check refuses it. */
  function Checked(candidate: InstallState): (r: Option<InstallState>)
  {
    if IsValid(candidate) then Some(candidate) else None
  }

  function StagePendingRelease(s: InstallState, releaseId: string, manifest: Manifest,
                               target: nat): (r: Option<InstallState>)
    ensures r.Some? <==>
            && IsValid(s)
            && s.confirmedReleaseCounter < manifest.releaseCounter <= MAXIMUM_RELEASE_COUNTER
            && PartitionAddressIsValid(target)
            && ReleaseId(releaseId, false)
            && CanonicalText(manifest.firmwareVersion, FIRMWARE_VERSION_CAPACITY, false, false)
            && CanonicalText(manifest.buildId, BUILD_ID_CAPACITY, false, true)
    ensures r.Some? ==>
              && IsValid(r.value) && r.value.pending && !r.value.pendingImageAccepted
              && r.value.pendingReleaseCounter == manifest.releaseCounter
              && ClearPending(r.value) == ClearPending(s)
  {
    if !IsValid(s) || manifest.releaseCounter <= s.confirmedReleaseCounter ||
       manifest.releaseCounter > MAXIMUM_RELEASE_COUNTER || !PartitionAddressIsValid(target) ||
       !ReleaseId(releaseId, false) ||
       !CanonicalText(manifest.firmwareVersion, FIRMWARE_VERSION_CAPACITY, false, false) ||
       !CanonicalText(manifest.buildId, BUILD_ID_CAPACITY, false, true)
    then None
    else
      Checked(ClearPending(s).(pending := true,
                               pendingPartitionAddress := target,
                               pendingReleaseCounter := manifest.releaseCounter,
                               pendingReleaseId := releaseId,
                               pendingFirmwareVersion := manifest.firmwareVersion,
                               pendingBuildId := manifest.buildId))
  }

  function StagePendingDevelopmentImage(s: InstallState, target: nat): (r: Option<InstallState>)
    ensures r.Some? <==> IsValid(s) && !Open(s) && PartitionAddressIsValid(target)
    ensures r.Some? ==>
              && IsValid(r.value) && r.value.developmentPending && !r.value.pendingImageAccepted
              && ClearPending(r.value) == s
  {
    if !IsValid(s) || Open(s) || !PartitionAddressIsValid(target) then None
    else Checked(ClearPending(s).(developmentPending := true, pendingPartitionAddress := target))
  }

  function MarkPendingImageAccepted(s: InstallState, identity: ImageIdentity): (r: Option<InstallState>)
    ensures r.Some? <==>
            && IsValid(s) && Open(s) && !s.pendingImageAccepted
            && s.pendingPartitionAddress == identity.partitionAddress
            && !DigestIsZero(identity.sha256)
    ensures r.Some? ==>
              && IdentityMatches(r.value, identity) && !r.value.pendingValidated
              && r.value.pending == s.pending
              && ClearPending(r.value) == ClearPending(s)
  {
    if !IsValid(s) || !Open(s) || s.pendingImageAccepted ||
       s.pendingPartitionAddress != identity.partitionAddress || DigestIsZero(identity.sha256)
    then None
    else Checked(s.(pendingImageAccepted := true, pendingImageSha256 := identity.sha256))
  }

  function CancelPendingRelease(s: InstallState): (r: InstallState)
    ensures IsValid(s) ==> IsValid(r) && !r.pending
    ensures ClearPending(r) == ClearPending(s)
  {
    if s.pending then ClearPending(s) else s
  }

  function CancelPendingDevelopmentImage(s: InstallState): (r: InstallState)
    ensures IsValid(s) ==> IsValid(r) && !r.developmentPending
    ensures ClearPending(r) == ClearPending(s)
  {
    if s.developmentPending then ClearPending(s) else s
  }

  function MarkPendingValidated(s: InstallState, running: Build): (r: Option<InstallState>)
    ensures r.Some? <==>
            && IsValid(s) && Open(s) && s.pendingImageAccepted
            && (s.pending ==> s.pendingBuildId == running.buildId)
    ensures r.Some? ==> IsValid(r.value) && r.value.(pendingValidated := s.pendingValidated) == s
                        && r.value.pendingValidated
  {
    if !IsValid(s) || !Open(s) || !s.pendingImageAccepted ||
       (s.pending && s.pendingBuildId != running.buildId)
    then None
    else Checked(s.(pendingValidated := true))
  }

  function ConfirmPendingDevelopmentImage(s: InstallState): (r: Option<InstallState>)
    ensures r.Some? <==> IsValid(s) && s.developmentPending && s.pendingValidated
    ensures r.Some? ==>
              && IsValid(r.value) && !Open(r.value) && r.value.runningDevelopmentImage
              && r.value.confirmedReleaseCounter == s.confirmedReleaseCounter
  {
    if !IsValid(s) || !s.developmentPending || !s.pendingImageAccepted || !s.pendingValidated
    then None
    else Checked(ClearPending(s).(runningDevelopmentImage := true))
  }

  /** `previousReleaseId` keeps the release that was confirmed until now. */
  function ConfirmPendingRelease(s: InstallState, running: Build): (r: Option<InstallState>)
    ensures r.Some? <==>
            IsValid(s) && s.pending && s.pendingValidated && s.pendingBuildId == running.buildId
    ensures r.Some? ==>
              && IsValid(r.value) && !Open(r.value) && !r.value.runningDevelopmentImage
              && s.confirmedReleaseCounter < r.value.confirmedReleaseCounter == s.pendingReleaseCounter
              && r.value.confirmedReleaseId == s.pendingReleaseId
              && r.value.previousReleaseId == s.confirmedReleaseId
              && (s.pendingFirmwareVersion == running.firmwareVersion ==>
                    ConfirmedProductionMatchesRunningImage(r.value, running))
  {
    if !IsValid(s) || !s.pending || !s.pendingValidated || s.pendingBuildId != running.buildId
    then None
    else
      Checked(ClearPending(s.(confirmedReleaseCounter := s.pendingReleaseCounter,
                              previousReleaseId := s.confirmedReleaseId,
                              confirmedReleaseId := s.pendingReleaseId,
                              confirmedFirmwareVersion := s.pendingFirmwareVersion,
                              confirmedBuildId := s.pendingBuildId,
                              runningDevelopmentImage := false)))
  }
}

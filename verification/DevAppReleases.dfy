/**
 * Publishing a DevApp: uploads and their central builds, release numbers, and the releases that
 * are kept. One project and its publication.
 */
module DevAppReleases {
  import opened Prelude
  import opened RuntimeImage

  type Id = nat
  type Principal = nat
  type Organization = nat
  type StorageId = nat

  const RETENTION := 10
  const UPLOAD_TTL_MS := 30 * 60000
  const STATIC_LIMIT := 32 * 1024 * 1024
  const SERVICE_LIMIT := 256 * 1024 * 1024
  const NAME_LIMIT := 80
  const DESCRIPTION_LIMIT := 500
  const FRAMEWORK_LIMIT := 80
  const ENTRY_PATH_LIMIT := 512
  const LOGO_LIMIT := 128 * 1024
  const ERROR_LIMIT := 1000

  datatype RuntimeKind = Static | Service

  datatype BuildStatus = Queued | Building | Ready | Failed

  /** What the builder says the release consists of; only whether its runtime is a container matters here. */
  datatype Parts = Parts(hasContainer: bool, tag: nat)

  /** What storage knows of an uploaded file. The hash is absent when storage reports none that can be read. */
  datatype Stored = Stored(size: nat, isZip: bool, hash: Option<string>)

  datatype Build = Build(
    id: string, status: BuildStatus, sourceDigest: string, packageManifestDigest: string,
    image: Option<ReleaseImage>, parts: Option<Parts>, error: Option<string>)

  datatype File = File(storageId: StorageId, contentHash: string, kind: RuntimeKind)

  datatype Upload = Upload(createdBy: Principal, organization: Organization, expiresAt: int, file: Option<File>,
                           build: Option<Build>)

  datatype Release = Release(
    id: Id, version: nat, kind: RuntimeKind, contentHash: string, parts: Option<Parts>,
    sourceDigest: Option<string>, packageManifestDigest: Option<string>, image: Option<ReleaseImage>)

  datatype Publication = Publication(organization: Organization, activeReleaseId: Id, isActive: bool)

  /** The text a publisher supplies, trimmed. */
  datatype Listing = Listing(
    name: string, description: Option<string>, framework: string, entryPath: string, logo: Option<string>,
    permissionSetHash: Option<string>)

  datatype PublishError =
    | Forbidden | NoOrganization | NotMember | BadUpload | WrongKind | BadArtifact | BadText | BadEntryPath | BadLogo
    | BadPermissionHash | NoBuild | BuildNotReady | OtherOrganization | BadHash | NoFile | HasBuild | BadBuildId
    | BuildUnavailable | IncompleteBuild | BadImage | NotFound

  function Limit(kind: RuntimeKind): nat {
    if kind == Service then SERVICE_LIMIT else STATIC_LIMIT
  }

  predicate IsBounded(text: string, limit: nat) {
    0 < |text| <= limit
  }

  predicate Contains(s: string, t: string) {
    t <= s || (s != "" && Contains(s[1..], t))
  }

  predicate IsEntryPath(path: string) {
    !Contains(path, "..") && !("/" <= path) && !Contains(path, "\\")
  }

  predicate IsBuildId(s: string) {
    0 < |s| <= 128
    && forall i :: 0 <= i < |s| ==>
         'A' <= s[i] <= 'Z' || 'a' <= s[i] <= 'z' || '0' <= s[i] <= '9' || s[i] == '_' || s[i] == '-'
  }

  function DefaultParts(kind: RuntimeKind): Parts {
    Parts(kind == Service, 0)
  }

  // ---------- What may be published ----------

  /** A zip file with that hash, of at most 256 MiB for a service and 32 MiB otherwise. */
  ghost predicate IsFit(stored: Stored, kind: RuntimeKind, contentHash: string) {
    && stored.isZip && stored.hash == Some(contentHash)
    && stored.size <= (if kind == Service then 268_435_456 else 33_554_432)
  }

  /** No step up, no start at the root and no backslash. */
  ghost predicate StaysInside(path: string) {
    && (forall i :: 0 < i < |path| ==> !(path[i - 1] == '.' && path[i] == '.'))
    && '\\' !in path && (path != "" ==> path[0] != '/')
  }

  ghost predicate HasTexts(listing: Listing) {
    && 1 <= |listing.name| <= 80 && 1 <= |listing.framework| <= 80
    && (listing.description.Some? ==> 1 <= |listing.description.value| <= 500)
    && 1 <= |listing.entryPath| <= 512
  }

  ghost predicate HasPermissions(listing: Listing, kind: RuntimeKind) {
    kind == Service ==> listing.permissionSetHash.Some? && IsDigest("sha256:" + listing.permissionSetHash.value)
  }

  ghost predicate IsWritten(listing: Listing, kind: RuntimeKind) {
    && HasTexts(listing) && StaysInside(listing.entryPath)
    && (listing.logo.Some? ==> |listing.logo.value| <= 131_072) && HasPermissions(listing, kind)
  }

  /** Letters, digits, underscores and dashes, at most 128 of them. */
  ghost predicate IsIdentifier(s: string) {
    && 1 <= |s| <= 128
    && forall c :: c in s ==>
         'A' <= c <= 'Z' || 'a' <= c <= 'z' || '0' <= c <= '9' || c == '_' || c == '-'
  }

  lemma {:induction false} ContainsOne(s: string, c: char)
    ensures Contains(s, [c]) <==> c in s
  {
    if s != "" {
      ContainsOne(s[1..], c);
      assert [c] <= s <==> s[0] == c;
    }
  }

  lemma {:induction false} ContainsTwo(s: string, c: char, d: char)
    ensures Contains(s, [c, d]) <==> exists i :: 0 < i < |s| && s[i - 1] == c && s[i] == d
  {
    if s != "" {
      var rest := s[1..];
      ContainsTwo(rest, c, d);
      assert [c, d] <= s <==> |s| > 1 && s[0] == c && s[1] == d;
      if i :| 0 < i < |s| && s[i - 1] == c && s[i] == d {
        assert i > 1 ==> rest[i - 2] == c && rest[i - 1] == d;
      }
      if i :| 0 < i < |rest| && rest[i - 1] == c && rest[i] == d {
        assert s[i] == c && s[i + 1] == d;
      }
    }
  }

  lemma EntryPathsMean(path: string)
    ensures IsEntryPath(path) <==> StaysInside(path)
  {
    hide Contains;
    ContainsTwo(path, '.', '.');
    ContainsOne(path, '\\');
    assert "/" <= path <==> path != "" && path[0] == '/';
  }

  lemma HashesMean(hash: string)
    ensures IsHexDigest(hash) <==> IsDigest("sha256:" + hash)
  {
    DigestsMean("sha256:" + hash);
    hide IsHexDigest, IsDigest;
    assert ("sha256:" + hash)[7..] == hash && ("sha256:" + hash)[..7] == "sha256:";
    HexDigestLength(hash);
  }

  lemma HexDigestLength(hash: string)
    ensures IsHexDigest(hash) ==> |hash| == 64
    ensures IsSha256Digest("sha256:" + hash) ==> |hash| == 64
  {
  }

  /** A listing is accepted exactly when it is written as it should be, or the first thing wrong is reported. */
  lemma ListingsMean(listing: Listing, kind: RuntimeKind)
    ensures var found, isInside := ListingProblem(listing, kind), StaysInside(listing.entryPath);
            var hasLogo := listing.logo.Some? ==> |listing.logo.value| <= 131_072;
            && (found.None? <==> IsWritten(listing, kind))
            && (found == Some(BadText) <==> !HasTexts(listing))
            && (found == Some(BadEntryPath) <==> HasTexts(listing) && !isInside)
            && (found == Some(BadLogo) <==> HasTexts(listing) && isInside && !hasLogo)
            && (found == Some(BadPermissionHash) <==>
                HasTexts(listing) && isInside && hasLogo && !HasPermissions(listing, kind))
            && (found.Some? ==> found.value in {BadText, BadEntryPath, BadLogo, BadPermissionHash})
  {
    hide IsEntryPath, StaysInside, IsHexDigest, IsDigest;
    EntryPathsMean(listing.entryPath);
    if listing.permissionSetHash.Some? {
      HashesMean(listing.permissionSetHash.value);
    }
  }

  lemma BuildIdsMean(s: string)
    ensures IsBuildId(s) <==> IsIdentifier(s)
  {
    assert forall i :: 0 <= i < |s| ==> s[i] in s;
  }

  /** The one upload that carries a build id. */
  ghost predicate IsOnlyCarrier(uploads: map<Id, Upload>, id: Id, buildId: string) {
    && id in uploads && uploads[id].build.Some? && uploads[id].build.value.id == buildId
    && forall other | other in uploads && uploads[other].build.Some? ::
         uploads[other].build.value.id == buildId ==> other == id
  }

  /** It is in time, and its build is not final. */
  ghost predicate IsUnfinished(uploads: map<Id, Upload>, id: Id, buildId: string, now: int) {
    && IsOnlyCarrier(uploads, id, buildId) && now < uploads[id].expiresAt
    && uploads[id].build.value.status in {Queued, Building}
  }

  /** The caller's own upload to the organization, in time, with a file. */
  ghost predicate IsOwn(uploads: map<Id, Upload>, id: Id, caller: Principal, organization: Organization, now: int) {
    && id in uploads && uploads[id].createdBy == caller && uploads[id].organization == organization
    && now < uploads[id].expiresAt && uploads[id].file.Some?
  }

  /** A file of the kind that is published, and fit. */
  ghost predicate IsFitFile(file: File, kind: RuntimeKind, stored: Option<Stored>) {
    file.kind == kind && stored.Some? && IsFit(stored.value, kind, file.contentHash)
  }

  /** The build, if there is one, is ready; and for a service there is one. */
  ghost predicate IsBuilt(build: Option<Build>, kind: RuntimeKind) {
    if build.Some? then build.value.status == Ready else kind != Service
  }

  ghost predicate IsPublishable(uploads: map<Id, Upload>, id: Id, caller: Principal, organization: Organization,
                                kind: RuntimeKind, stored: Option<Stored>, now: int) {
    && IsOwn(uploads, id, caller, organization, now)
    && IsFitFile(uploads[id].file.value, kind, stored) && IsBuilt(uploads[id].build, kind)
  }

  // ---------- Uploads and builds ----------

  ghost predicate IsFinal(b: Build) {
    b.status == Ready || b.status == Failed
  }

  function Rank(s: BuildStatus): nat {
    match s
    case Queued => 0
    case Building => 1
    case Ready => 2
    case Failed => 2
  }

  /** A build has an image just when it is ready, and then one made from its own source and package. */
  ghost predicate IsBuild(b: Build) {
    && IsHexDigest(b.sourceDigest) && IsSha256Digest(b.packageManifestDigest)
    && (b.image.Some? <==> b.status == Ready) && (b.parts.Some? <==> b.status == Ready)
    && (b.status == Ready ==>
          && b.parts.value.hasContainer
          && ValidateReleaseImage(b.image.value, Expected(b.sourceDigest, b.packageManifestDigest)).None?)
  }

  ghost predicate IsUpload(u: Upload) {
    && (u.build.Some? ==> u.file.Some? && IsBuild(u.build.value))
    && (u.file.Some? ==> IsHexDigest(u.file.value.contentHash))
  }

  /** How a build may change: its source is fixed, it only moves on, and once final it never changes. */
  ghost predicate BuildFollows(before: Build, after: Build) {
    && after.id == before.id && after.sourceDigest == before.sourceDigest
    && after.packageManifestDigest == before.packageManifestDigest
    && Rank(before.status) <= Rank(after.status)
    && (IsFinal(before) ==> after == before)
  }

  /** How an upload may change: a file or a build once registered stays the one. */
  ghost predicate Follows(before: Upload, after: Upload) {
    && after.createdBy == before.createdBy && after.organization == before.organization
    && after.expiresAt == before.expiresAt
    && (before.file.Some? ==> after.file == before.file)
    && (before.build.Some? ==> after.build.Some? && BuildFollows(before.build.value, after.build.value))
  }

  /** Uploads are added, changed as allowed, or removed, but not replaced. */
  ghost predicate UploadsFollow(before: map<Id, Upload>, after: map<Id, Upload>) {
    forall id :: id in before && id in after ==> Follows(before[id], after[id])
  }

  lemma FollowsIsTransitive(a: Upload, b: Upload, c: Upload)
    requires Follows(a, b) && Follows(b, c)
    ensures Follows(a, c)
  {
  }

  /** Whatever happens between, an upload that is still there has followed from what it was. */
  lemma {:induction false} RunFollows(run: seq<map<Id, Upload>>, id: Id)
    requires run != [] && forall i :: 0 < i < |run| ==> UploadsFollow(run[i - 1], run[i])
    requires forall i :: 0 <= i < |run| ==> id in run[i]
    ensures Follows(run[0][id], run[|run| - 1][id])
    decreases |run|
  {
    hide Follows;
    var last := |run| - 1;
    if last > 0 {
      var front := run[..last];
      assert forall i :: 0 <= i < last ==> front[i] == run[i];
      RunFollows(front, id);
      assert UploadsFollow(run[last - 1], run[last]);
      FollowsIsTransitive(run[0][id], run[last - 1][id], run[last][id]);
    } else {
      FollowsItself(run[0][id]);
    }
  }

  lemma FollowsItself(u: Upload)
    ensures Follows(u, u)
  {
  }

  /** A build that is ready or failed is so for good, image and all. */
  lemma FinalIsFinal(run: seq<map<Id, Upload>>, id: Id)
    requires run != [] && forall i :: 0 < i < |run| ==> UploadsFollow(run[i - 1], run[i])
    requires forall i :: 0 <= i < |run| ==> id in run[i]
    requires run[0][id].build.Some? && run[0][id].build.value.status in {Ready, Failed}
    ensures run[|run| - 1][id].build == run[0][id].build
  {
    RunFollows(run, id);
  }

  // ---------- Releases ----------

  /** A release with an image carries the digests the image was validated against; a service always has one. */
  ghost predicate IsRelease(r: Release) {
    && (r.image.Some? ==>
          && r.sourceDigest.Some? && r.packageManifestDigest.Some?
          && ValidateReleaseImage(r.image.value, Expected(r.sourceDigest.value, r.packageManifestDigest.value)).None?)
    && (r.kind == Service ==> r.image.Some?)
  }

  /** After n publications: the last ten versions, in order, and no others. */
  ghost predicate IsRetained(releases: seq<Release>, n: nat) {
    && |releases| == (if n < RETENTION then n else RETENTION)
    && forall i :: 0 <= i < |releases| ==> releases[i].version == n - |releases| + 1 + i
  }

  function LatestVersion(releases: seq<Release>): nat {
    if releases == [] then 0 else releases[|releases| - 1].version
  }

  function Kept(releases: seq<Release>): seq<Release> {
    if |releases| > RETENTION then releases[|releases| - RETENTION..] else releases
  }

  ghost function Versions(releases: seq<Release>): set<nat> {
    set r | r in releases :: r.version
  }

  /** The next version is one past the last, and keeping ten keeps versions max(1, n - 9) to n. */
  lemma PublishingRetains(releases: seq<Release>, n: nat, r: Release)
    requires IsRetained(releases, n) && r.version == LatestVersion(releases) + 1
    ensures r.version == n + 1 && IsRetained(Kept(releases + [r]), n + 1)
  {
  }

  lemma RetainedVersions(releases: seq<Release>, n: nat)
    requires IsRetained(releases, n)
    ensures Versions(releases) == Range(if n > 10 then n - 9 else 1, n)
  {
    forall v | v in Range(if n > RETENTION then n - RETENTION + 1 else 1, n)
      ensures v in Versions(releases)
    {
      var i := v - n + |releases| - 1;
      assert releases[i] in releases && releases[i].version == v;
    }
  }

  /** The numbers from one to another, both included. */
  ghost function Range(first: nat, last: nat): (range: set<nat>)
    ensures forall v: nat :: v in range <==> first <= v <= last
    decreases last + 1 - first
  {
    if first > last then {} else {first} + Range(first + 1, last)
  }

  /** The kept releases, the publication that points at the last of them, and the count of publications. */
  ghost predicate AreReleases(publication: Option<Publication>, releases: seq<Release>, published: nat, nextId: Id) {
    && IsRetained(releases, published)
    && (publication.None? <==> published == 0)
    && (publication.Some? ==> publication.value.activeReleaseId == releases[|releases| - 1].id)
    && (forall i :: 0 <= i < |releases| ==> IsRelease(releases[i]) && releases[i].id < nextId)
  }

  lemma PublishingKeepsReleases(publication: Option<Publication>, releases: seq<Release>, published: nat, nextId: Id,
                                r: Release, after: Publication)
    requires AreReleases(publication, releases, published, nextId) && IsRelease(r)
    requires r.version == LatestVersion(releases) + 1 && r.id == nextId == after.activeReleaseId
    ensures AreReleases(Some(after), Kept(releases + [r]), published + 1, nextId + 1)
    ensures Kept(releases + [r])[|Kept(releases + [r])| - 1] == r && r.version == published + 1
  {
    hide IsRelease;
    PublishingRetains(releases, published, r);
  }

  ghost predicate AreUploads(uploads: map<Id, Upload>, nextId: Id) {
    forall id :: id in uploads ==> IsUpload(uploads[id]) && id < nextId
  }

  class DevApp {
    var publication: Option<Publication>
    var releases: seq<Release>
    var uploads: map<Id, Upload>
    var nextId: Id
    /** How many times the DevApp has been published. */
    ghost var published: nat

    ghost predicate Valid()
      reads this
    {
      AreReleases(publication, releases, published, nextId) && AreUploads(uploads, nextId)
    }

    constructor ()
      ensures Valid() && published == 0 && uploads == map[]
    {
      publication, releases, uploads, nextId, published := None, [], map[], 0, 0;
    }

    /** Everything about publications stays as it was. */
    twostate predicate KeepsReleases()
      reads this
    {
      publication == old(publication) && releases == old(releases) && published == old(published)
    }

    method CreateUploadReservation(caller: Principal, mayEdit: bool, organization: Option<Organization>, isMember: bool,
                                   now: int)
      returns (r: Result<Id, PublishError>)
      requires Valid()
      modifies this
      ensures Valid() && KeepsReleases() && UploadsFollow(old(uploads), uploads)
      ensures r.Ok? <==> mayEdit && organization.Some? && isMember
      ensures r == Err(Forbidden) <==> !mayEdit
      ensures r == Err(NoOrganization) <==> mayEdit && organization.None?
      ensures r == Err(NotMember) <==> mayEdit && organization.Some? && !isMember
      ensures r.Err? ==> uploads == old(uploads)
      ensures r.Ok? ==> r.value !in old(uploads)
                        && var upload := Upload(caller, organization.value, now + 1_800_000, None, None);
                           uploads == old(uploads)[r.value := upload]
    {
      hide IsRelease, IsRetained;
      if !mayEdit {
        return Err(Forbidden);
      }
      if organization.None? {
        return Err(NoOrganization);
      }
      if !isMember {
        return Err(NotMember);
      }
      uploads := uploads[nextId := Upload(caller, organization.value, now + UPLOAD_TTL_MS, None, None)];
      nextId := nextId + 1;
      return Ok(nextId - 1);
    }

    /** Records the file of an upload, once, and says whether it passes its checks; publishing checks again. */
    method RegisterUploadedArtifact(caller: Principal, id: Id, storageId: StorageId, contentHash: string,
                                    kind: RuntimeKind,
                                    stored: Option<Stored>, now: int)
      returns (r: Result<bool, PublishError>)
      requires Valid()
      modifies this`uploads
      ensures Valid() && UploadsFollow(old(uploads), uploads)
      ensures r == (if !(id in old(uploads) && old(uploads)[id].createdBy == caller && now < old(uploads)[id].expiresAt
                         && old(uploads)[id].file.None?)
                    then Err(BadUpload)
                    else if !IsDigest("sha256:" + contentHash) then Err(BadHash)
                    else if stored.None? then Err(NoFile)
                    else Ok(IsFit(stored.value, kind, contentHash)))
      ensures uploads == if r.Ok?
                         then old(uploads)[id := old(uploads)[id].(file := Some(File(storageId, contentHash, kind)))]
                         else old(uploads)
    {
      hide IsRelease, IsRetained, IsBuild, IsHexDigest, IsDigest;
      HashesMean(contentHash);
      if id !in uploads || uploads[id].createdBy != caller || uploads[id].expiresAt <= now || uploads[id].file.Some? {
        return Err(BadUpload);
      }
      if !IsHexDigest(contentHash) {
        return Err(BadHash);
      }
      if stored.None? {
        return Err(NoFile);
      }
      assert IsUpload(uploads[id]);
      uploads := uploads[id := uploads[id].(file := Some(File(storageId, contentHash, kind)))];
      if stored.value.size > Limit(kind) {
        return Ok(false);
      }
      if !stored.value.isZip {
        return Ok(false);
      }
      if stored.value.hash != Some(contentHash) {
        return Ok(false);
      }
      return Ok(true);
    }

    method AbandonUploadReservation(caller: Principal, id: Id) returns (removed: bool)
      requires Valid()
      modifies this`uploads
      ensures Valid() && UploadsFollow(old(uploads), uploads)
      ensures removed <==> id in old(uploads) && old(uploads)[id].createdBy == caller
      ensures uploads == if removed then old(uploads) - {id} else old(uploads)
    {
      hide IsRelease, IsRetained, IsUpload;
      if id !in uploads || uploads[id].createdBy != caller {
        ItselfFollows(uploads);
        return false;
      }
      ItselfFollows(uploads);
      uploads := uploads - {id};
      return true;
    }

    /** Gives an upload with a file its one build. */
    method RegisterRuntimeBuild(caller: Principal, isActive: bool, id: Id, buildId: string, sourceDigest: string,
                                packageManifestDigest: string, now: int)
      returns (r: Result<(), PublishError>)
      requires Valid()
      modifies this`uploads
      ensures Valid() && UploadsFollow(old(uploads), uploads)
      ensures r == (if !(isActive && id in old(uploads) && old(uploads)[id].createdBy == caller
                         && now < old(uploads)[id].expiresAt
                         && old(uploads)[id].file.Some?)
                    then Err(BadUpload)
                    else if old(uploads)[id].build.Some? then Err(HasBuild)
                    else if !IsIdentifier(buildId) then Err(BadBuildId)
                    else if !IsDigest("sha256:" + sourceDigest) || !IsDigest(packageManifestDigest) then Err(BadHash)
                    else Ok(()))
      ensures uploads == if r.Ok? then
                           var b := Build(buildId, Queued, sourceDigest, packageManifestDigest, None, None, None);
                           old(uploads)[id := old(uploads)[id].(build := Some(b))]
                         else old(uploads)
    {
      hide IsRelease, IsRetained, IsHexDigest, IsSha256Digest, IsBuildId, IsIdentifier, IsDigest;
      BuildIdsMean(buildId);
      HashesMean(sourceDigest);
      DigestsMean(packageManifestDigest);
      if !isActive || id !in uploads || uploads[id].createdBy != caller || uploads[id].expiresAt <= now
         || uploads[id].file.None? {
        return Err(BadUpload);
      }
      if uploads[id].build.Some? {
        return Err(HasBuild);
      }
      if !IsBuildId(buildId) {
        return Err(BadBuildId);
      }
      if !IsHexDigest(sourceDigest) || !IsSha256Digest(packageManifestDigest) {
        return Err(BadHash);
      }
      var build := Build(buildId, Queued, sourceDigest, packageManifestDigest, None, None, None);
      uploads := uploads[id := uploads[id].(build := Some(build))];
      return Ok(());
    }

    /** The uploads that carry a build id. */
    function WithBuild(buildId: string): set<Id>
      reads this
    {
      set id | id in uploads && uploads[id].build.Some? && uploads[id].build.value.id == buildId
    }

    /**
     * What the builder reports. A build that is final takes no further report, and it gets ready
     * only with an image that is valid for its own source and package.
     */
    method CompleteRuntimeBuild(buildId: string, status: BuildStatus, image: Option<ReleaseImage>, parts: Option<Parts>,
                                error: string, now: int)
      returns (r: Result<Id, PublishError>)
      requires Valid() && status != Queued
      modifies this`uploads
      ensures Valid() && UploadsFollow(old(uploads), uploads)
      ensures r.Err? ==> uploads == old(uploads)
      ensures r.Ok? <==>
                && IsIdentifier(buildId)
                && exists id :: && IsOnlyCarrier(old(uploads), id, buildId) && now < old(uploads)[id].expiresAt
                                && IsReport(old(uploads)[id].build.value, status, image, parts, error)
      ensures r == Err(BadBuildId) <==> !IsIdentifier(buildId)
      ensures r == Err(BuildUnavailable) <==>
                IsIdentifier(buildId) && forall id :: !IsUnfinished(old(uploads), id, buildId, now)
      ensures (exists id :: IsUnfinished(old(uploads), id, buildId, now)) && IsIdentifier(buildId) && r.Err? ==>
                r.error == (if status == Failed then BadText
                            else if image.None? || parts.None? then IncompleteBuild else BadImage)
      ensures r.Ok? ==>
                && IsOnlyCarrier(old(uploads), r.value, buildId)
                && var b := old(uploads)[r.value].build.value;
                   !IsFinal(b)
                   && uploads == old(uploads)[r.value := old(uploads)[r.value].(build := Some(
                        match status
                        case Ready => b.(status := Ready, image := image, parts := parts, error := None)
                        case Failed => b.(status := Failed, error := Some(error))
                        case _ => b.(status := Building)))]
      ensures r.Ok? && status == Ready ==>
                var b := old(uploads)[r.value].build.value;
                && image.Some?
                && ValidateReleaseImage(image.value, Expected(b.sourceDigest, b.packageManifestDigest)).None?
    {
      hide IsRelease, IsRetained, IsHexDigest, IsSha256Digest, IsBuildId, ValidateReleaseImage, IsIdentifier;
      BuildIdsMean(buildId);
      OneCarrier(uploads, buildId, WithBuild(buildId));
      if !IsBuildId(buildId) {
        return Err(BadBuildId);
      }
      if |WithBuild(buildId)| != 1 {
        return Err(BuildUnavailable);
      }
      var id :| id in WithBuild(buildId);
      OnlyOne(WithBuild(buildId), id);
      var upload := uploads[id];
      var build := upload.build.value;
      assert IsUpload(upload);
      if upload.expiresAt <= now || build.status == Ready || build.status == Failed {
        return Err(BuildUnavailable);
      }
      assert IsUnfinished(uploads, id, buildId, now);
      if status == Ready {
        if image.None? || parts.None? {
          return Err(IncompleteBuild);
        }
        var problem := ValidateReleaseImage(image.value, Expected(build.sourceDigest, build.packageManifestDigest));
        if problem.Some? || !parts.value.hasContainer {
          return Err(BadImage);
        }
        build := build.(status := Ready, image := image, parts := parts, error := None);
      } else if status == Failed {
        if !IsBounded(error, ERROR_LIMIT) {
          return Err(BadText);
        }
        build := build.(status := Failed, error := Some(error));
      } else {
        build := build.(status := Building);
      }
      uploads := uploads[id := upload.(build := Some(build))];
      return Ok(id);
    }

    /** Why an upload cannot be published, if it cannot. */
    function UploadProblem(caller: Principal, id: Id, organization: Organization, kind: RuntimeKind,
                           stored: Option<Stored>, now: int)
      : (problem: Option<PublishError>)
      reads this
      ensures problem.None? <==> IsPublishable(uploads, id, caller, organization, kind, stored, now)
      ensures problem == Some(BadUpload) <==> !IsOwn(uploads, id, caller, organization, now)
      ensures problem == Some(WrongKind) <==>
                IsOwn(uploads, id, caller, organization, now) && uploads[id].file.value.kind != kind
      ensures problem == Some(BadArtifact) <==>
                && IsOwn(uploads, id, caller, organization, now) && uploads[id].file.value.kind == kind
                && !IsFitFile(uploads[id].file.value, kind, stored)
      ensures problem == Some(NoBuild) <==>
                && IsOwn(uploads, id, caller, organization, now) && IsFitFile(uploads[id].file.value, kind, stored)
                && !IsBuilt(uploads[id].build, kind) && uploads[id].build.None?
      ensures problem == Some(BuildNotReady) <==>
                && IsOwn(uploads, id, caller, organization, now) && IsFitFile(uploads[id].file.value, kind, stored)
                && !IsBuilt(uploads[id].build, kind) && uploads[id].build.Some?
    {
      if id !in uploads || uploads[id].createdBy != caller || uploads[id].organization != organization
         || uploads[id].expiresAt <= now || uploads[id].file.None?
      then Some(BadUpload)
      else if uploads[id].file.value.kind != kind then Some(WrongKind)
      else if stored.None? || !PassesChecks(stored.value, kind, uploads[id].file.value.contentHash)
      then Some(BadArtifact)
      else if kind == Service && uploads[id].build.None? then Some(NoBuild)
      else if uploads[id].build.Some? && uploads[id].build.value.status != Ready then Some(BuildNotReady)
      else None
    }

    /**
     * Publishes an upload as the next version, makes it the active release, uses the upload up,
     * and drops the releases past the ten latest.
     */
    method Publish(caller: Principal, mayEdit: bool, organization: Option<Organization>, isMember: bool, id: Id,
                   kind: RuntimeKind,
                   listing: Listing, stored: Option<Stored>, now: int)
      returns (r: Result<Id, PublishError>)
      requires Valid()
      modifies this
      ensures Valid() && UploadsFollow(old(uploads), uploads)
      ensures r.Err? ==> KeepsReleases() && uploads == old(uploads)
      ensures r.Ok? <==>
                && mayEdit && organization.Some? && isMember && IsWritten(listing, kind)
                && (old(publication).Some? ==> old(publication).value.organization == organization.value)
                && IsPublishable(old(uploads), id, caller, organization.value, kind, stored, now)
      ensures r == Err(Forbidden) <==> !mayEdit
      ensures r == Err(NoOrganization) <==> mayEdit && organization.None?
      ensures r == Err(NotMember) <==> mayEdit && organization.Some? && !isMember
      ensures mayEdit && organization.Some? && isMember ==>
                var problem := old(UploadProblem(caller, id, organization.value, kind, stored, now));
                var isElsewhere := old(publication).Some? && old(publication).value.organization != organization.value;
                var isReadable := problem.None? || problem.value in {NoBuild, BuildNotReady};
                var bad := ListingProblem(listing, kind);
                && (!isReadable ==> r == Err(problem.value))
                && (isReadable && bad.Some? ==> r == Err(bad.value))
                && (isReadable && bad.None? && problem.Some? ==> r == Err(problem.value))
                && (problem.None? && bad.None? && isElsewhere ==> r == Err(OtherOrganization))
      ensures r.Ok? ==>
                && published == old(published) + 1
                && publication == Some(Publication(organization.value, r.value, true))
                && uploads == old(uploads) - {id}
                && releases[|releases| - 1].version == published
      ensures r.Ok? ==>
                && IsLastTen(old(releases) + [releases[|releases| - 1]], releases)
                && IsReleaseOf(old(uploads)[id], releases[|releases| - 1]) && releases[|releases| - 1].id == r.value
    {
      hide AreReleases, IsRelease, IsRetained, IsUpload, ListingProblem, ReleaseOf, PassesChecks, Kept, IsWritten,
           HasTexts, HasPermissions, StaysInside, IsFit, IsLastTen, IsReleaseOf;
      ListingsMean(listing, kind);
      if !mayEdit {
        return Err(Forbidden);
      }
      if organization.None? {
        return Err(NoOrganization);
      }
      if !isMember {
        return Err(NotMember);
      }
      var problem := UploadProblem(caller, id, organization.value, kind, stored, now);
      if problem.Some? && problem.value in {BadUpload, WrongKind, BadArtifact} {
        return Err(problem.value);
      }
      var bad := ListingProblem(listing, kind);
      if bad.Some? {
        return Err(bad.value);
      }
      if problem.Some? {
        return Err(problem.value);
      }
      if publication.Some? && publication.value.organization != organization.value {
        return Err(OtherOrganization);
      }
      var version := LatestVersion(releases) + 1;
      var release := ReleaseOf(uploads[id], nextId, version);
      UploadIsReleased(uploads[id], nextId, version);
      PublishingKeepsReleases(publication, releases, published, nextId, release,
                              Publication(organization.value, nextId, true));
      LastTenAreKept(releases + [release]);
      releases := releases + [release];
      publication := Some(Publication(organization.value, nextId, true));
      nextId := nextId + 1;
      ItselfFollows(uploads);
      uploads := uploads - {id};
      DropStaleReleases();
      published := published + 1;
      return Ok(nextId - 1);
    }

    method DropStaleReleases()
      modifies this`releases
      ensures releases == Kept(old(releases))
    {
      var stale := if |releases| > RETENTION then |releases| - RETENTION else 0;
      for i := 0 to stale
        invariant releases == old(releases)[i..]
        modifies this`releases
      {
        releases := releases[1..];
      }
    }

    /** Hides the DevApp; its releases stay. */
    method Archive(isOrgAdmin: bool) returns (r: Result<(), PublishError>)
      requires Valid()
      modifies this`publication
      ensures Valid()
      ensures r == if old(publication).None? then Err(NotFound) else if !isOrgAdmin then Err(Forbidden) else Ok(())
      ensures publication == if r.Ok? then Some(old(publication).value.(isActive := false)) else old(publication)
    {
      if publication.None? {
        return Err(NotFound);
      }
      if !isOrgAdmin {
        return Err(Forbidden);
      }
      publication := Some(publication.value.(isActive := false));
      return Ok(());
    }
  }

  /** A report that a build can take: it is not final, and a success brings a valid image and its parts. */
  ghost predicate IsReport(b: Build, status: BuildStatus, image: Option<ReleaseImage>, parts: Option<Parts>,
                           error: string) {
    && b.status in {Queued, Building}
    && (status == Ready ==>
          && image.Some? && parts.Some? && parts.value.hasContainer
          && ValidateReleaseImage(image.value, Expected(b.sourceDigest, b.packageManifestDigest)).None?)
    && (status == Failed ==> 1 <= |error| <= 1000)
  }

  predicate PassesChecks(stored: Stored, kind: RuntimeKind, contentHash: string) {
    stored.size <= Limit(kind) && stored.isZip && stored.hash == Some(contentHash)
  }

  function ListingProblem(listing: Listing, kind: RuntimeKind): Option<PublishError> {
    if !IsBounded(listing.name, NAME_LIMIT)
       || (listing.description.Some? && !IsBounded(listing.description.value, DESCRIPTION_LIMIT))
       || !IsBounded(listing.framework, FRAMEWORK_LIMIT) || !IsBounded(listing.entryPath, ENTRY_PATH_LIMIT)
    then Some(BadText)
    else if !IsEntryPath(listing.entryPath) then Some(BadEntryPath)
    else if listing.logo.Some? && |listing.logo.value| > LOGO_LIMIT then Some(BadLogo)
    else if kind == Service && !(listing.permissionSetHash.Some? && IsHexDigest(listing.permissionSetHash.value))
    then Some(BadPermissionHash)
    else None
  }

  /** The release an upload becomes. */
  function ReleaseOf(u: Upload, id: Id, version: nat): Release
    requires u.file.Some?
  {
    var file := u.file.value;
    match u.build
    case None => Release(id, version, file.kind, file.contentHash, Some(DefaultParts(file.kind)), None, None, None)
    case Some(b) =>
      Release(id, version, file.kind, file.contentHash,
              if b.parts.Some? then b.parts else Some(DefaultParts(file.kind)),
              Some(b.sourceDigest), Some(b.packageManifestDigest), b.image)
  }

  /** The file's kind and hash, and the build's digests, image and parts if there is one. */
  ghost predicate IsReleaseOf(u: Upload, r: Release)
    requires u.file.Some?
  {
    && r.kind == u.file.value.kind && r.contentHash == u.file.value.contentHash
    && (u.build.None? ==>
          && r.image == None && r.sourceDigest == None && r.packageManifestDigest == None
          && r.parts == Some(Parts(r.kind == Service, 0)))
    && (u.build.Some? ==>
          && r.image == u.build.value.image && r.sourceDigest == Some(u.build.value.sourceDigest)
          && r.packageManifestDigest == Some(u.build.value.packageManifestDigest)
          && (u.build.value.parts.Some? ==> r.parts == u.build.value.parts))
  }

  ghost predicate IsLastTen(all: seq<Release>, kept: seq<Release>) {
    kept == if |all| <= 10 then all else all[|all| - 10..]
  }

  lemma LastTenAreKept(releases: seq<Release>)
    ensures IsLastTen(releases, Kept(releases))
  {
  }

  lemma OneCarrier(uploads: map<Id, Upload>, buildId: string, carriers: set<Id>)
    requires forall id :: id in carriers <==>
                          id in uploads && uploads[id].build.Some? && uploads[id].build.value.id == buildId
    ensures |carriers| == 1 ==> forall id :: id in carriers ==> IsOnlyCarrier(uploads, id, buildId)
    ensures forall id: Id :: IsOnlyCarrier(uploads, id, buildId) ==> carriers == {id}
  {
    if |carriers| == 1 {
      forall id | id in carriers
        ensures IsOnlyCarrier(uploads, id, buildId)
      {
        OnlyOne(carriers, id);
      }
    }
  }

  lemma UploadIsReleased(u: Upload, id: Id, version: nat)
    requires IsUpload(u) && u.file.Some? && (u.build.Some? ==> u.build.value.status == Ready)
    requires u.file.value.kind == Service ==> u.build.Some?
    ensures IsRelease(ReleaseOf(u, id, version)) && ReleaseOf(u, id, version).id == id
    ensures IsReleaseOf(u, ReleaseOf(u, id, version))
    ensures ReleaseOf(u, id, version).version == version
  {
    hide ValidateReleaseImage, IsHexDigest, IsSha256Digest;
  }

  lemma ItselfFollows(uploads: map<Id, Upload>)
    ensures UploadsFollow(uploads, uploads)
  {
  }

  lemma OnlyOne(ids: set<Id>, id: Id)
    requires |ids| == 1 && id in ids
    ensures ids == {id}
  {
    assert |ids - {id}| == 0;
  }
}

/** Runtime images of published releases: what the validator lets through, and what can be launched from it. */
module RuntimeImage {
  import opened Prelude
  import opened Strings

  const MAX_SIGNATURE_LENGTH := 16384
  const MAX_MATERIALS := 32
  const MAX_URI_LENGTH := 2048
  const MAX_SAFE_INTEGER := 0x1F_FFFF_FFFF_FFFF
  const DIGEST_HEX_LENGTH := 64

  datatype Platform = LinuxArm64 | LinuxAmd64 | OtherPlatform(name: string)

  datatype PlatformImage = PlatformImage(platform: Platform, digest: string)

  datatype Material = Material(uri: string, digest: string)

  datatype Attestation = Attestation(
    version: int, isCentralBuilder: bool, reproducible: bool, sourceDigest: string, packageManifestDigest: string,
    manifestDigest: string, builtAt: int, platforms: seq<PlatformImage>, materials: seq<Material>)

  datatype ReleaseImage = ReleaseImage(
    reference: string, manifestDigest: string, platforms: seq<PlatformImage>, signature: string,
    attestationDigest: string,
    attestation: Attestation)

  datatype Expected = Expected(sourceDigest: string, packageManifestDigest: string)

  datatype ImageError =
    | BadReference | BadAuthority | BadPlatforms | WrongPlatforms | BadAttestation | InconsistentPlatforms

  // ---------- Digests, references, signatures ----------

  predicate IsHex(c: char) {
    'a' <= c <= 'f' || '0' <= c <= '9'
  }

  predicate IsHexDigest(s: string) {
    |s| == DIGEST_HEX_LENGTH && forall i :: 0 <= i < |s| ==> IsHex(s[i])
  }

  predicate IsSha256Digest(s: string) {
    |s| == 7 + DIGEST_HEX_LENGTH && s[..7] == "sha256:" && IsHexDigest(s[7..])
  }

  predicate IsDigestPinned(reference: string) {
    var marker := LastIndexOf(reference, '@');
    marker.Some? && marker.value > 0 && IsSha256Digest(reference[marker.value + 1..])
  }

  predicate IsBase64(c: char) {
    'A' <= c <= 'Z' || 'a' <= c <= 'z' || '0' <= c <= '9' || c == '+' || c == '/'
  }

  /** The length of a string without the padding at its end, at most two signs of it. */
  function Unpadded(s: string): (n: nat)
    ensures n <= |s|
  {
    if |s| >= 2 && s[|s| - 2..] == "==" then |s| - 2
    else if |s| >= 1 && s[|s| - 1] == '=' then |s| - 1
    else |s|
  }

  predicate IsSignature(s: string) {
    Unpadded(s) > 0 && |s| <= MAX_SIGNATURE_LENGTH && forall i :: 0 <= i < Unpadded(s) ==> IsBase64(s[i])
  }

  // ---------- Validation ----------

  /** The digest listed for a platform; the last one, when the platform is listed twice. */
  function DigestFor(platforms: seq<PlatformImage>, platform: Platform): Option<string> {
    if platforms == [] then None
    else if platforms[|platforms| - 1].platform == platform then Some(platforms[|platforms| - 1].digest)
    else DigestFor(platforms[..|platforms| - 1], platform)
  }

  function ListedPlatforms(platforms: seq<PlatformImage>): set<Platform> {
    set i | 0 <= i < |platforms| :: platforms[i].platform
  }

  predicate IsListed(platforms: seq<PlatformImage>, platform: Platform) {
    var digest := DigestFor(platforms, platform);
    digest.Some? && IsSha256Digest(digest.value)
  }

  predicate IsMaterial(m: Material) {
    m.uri != "" && |m.uri| <= MAX_URI_LENGTH && IsSha256Digest(m.digest)
  }

  predicate IsStatement(a: Attestation, manifestDigest: string, expected: Expected) {
    && a.version == 1 && a.isCentralBuilder && a.reproducible
    && a.sourceDigest == expected.sourceDigest && a.packageManifestDigest == expected.packageManifestDigest
    && a.manifestDigest == manifestDigest && 0 < a.builtAt <= MAX_SAFE_INTEGER
    && |a.materials| <= MAX_MATERIALS && forall i :: 0 <= i < |a.materials| ==> IsMaterial(a.materials[i])
  }

  function ReferenceDigest(reference: string): string
    requires IsDigestPinned(reference)
  {
    reference[LastIndexOf(reference, '@').value + 1..]
  }

  /** The first thing wrong with an image, in the order things are looked at. */
  function ValidateReleaseImage(image: ReleaseImage, expected: Expected): Option<ImageError> {
    if !IsDigestPinned(image.reference) then Some(BadReference)
    else if image.manifestDigest != ReferenceDigest(image.reference) || !IsSha256Digest(image.manifestDigest)
            || !IsSha256Digest(image.attestationDigest) || !IsSignature(image.signature)
    then Some(BadAuthority)
    else if exists i :: 0 <= i < |image.platforms| && image.platforms[i].platform.OtherPlatform? then Some(BadPlatforms)
    else if |image.platforms| != 2 || |ListedPlatforms(image.platforms)| != 2
            || !IsListed(image.platforms, LinuxArm64) || !IsListed(image.platforms, LinuxAmd64)
    then Some(WrongPlatforms)
    else if !IsStatement(image.attestation, image.manifestDigest, expected) then Some(BadAttestation)
    else if image.attestation.platforms != image.platforms then Some(InconsistentPlatforms)
    else None
  }

  // ---------- What a valid image is ----------

  ghost predicate IsSpelledWith(text: string, alphabet: string) {
    forall i :: 0 <= i < |text| ==> text[i] in alphabet
  }

  /** The name of the hash and 64 hexadecimal digits in lower case. */
  ghost predicate IsDigest(s: string) {
    exists digits :: |digits| == 64 && IsSpelledWith(digits, "0123456789abcdef") && s == "sha256:" + digits
  }

  /** Base 64 with at most two signs of padding, and not too long. */
  ghost predicate IsSigned(s: string) {
    |s| <= 16384
    && exists n :: IsBody(s, n) && s[n..] in ["", "=", "=="]
  }

  /** The first n signs are letters, digits, plus or slash. */
  ghost predicate IsBody(s: string, n: int) {
    && 1 <= n <= |s|
    && forall i :: 0 <= i < n ==>
         'A' <= s[i] <= 'Z' || 'a' <= s[i] <= 'z' || '0' <= s[i] <= '9' || s[i] == '+' || s[i] == '/'
  }

  /** One image for each of the two platforms, in either order. */
  ghost predicate HasBothPlatforms(platforms: seq<PlatformImage>) {
    && |platforms| == 2 && IsDigest(platforms[0].digest) && IsDigest(platforms[1].digest)
    && ((platforms[0].platform == LinuxArm64 && platforms[1].platform == LinuxAmd64)
        || (platforms[0].platform == LinuxAmd64 && platforms[1].platform == LinuxArm64))
  }

  /** The statement says of this manifest that it was built from that source and package, and of what. */
  ghost predicate VouchesFor(a: Attestation, manifestDigest: string, expected: Expected) {
    && a.version == 1 && a.isCentralBuilder && a.reproducible
    && a.manifestDigest == manifestDigest && a.sourceDigest == expected.sourceDigest
    && a.packageManifestDigest == expected.packageManifestDigest
    && 1 <= a.builtAt <= 9_007_199_254_740_991 && |a.materials| <= 32
    && forall m :: m in a.materials ==> 1 <= |m.uri| <= 2048 && IsDigest(m.digest)
  }

  /** A reference pinned to a digest, both platforms, and a statement of how that very digest was built. */
  ghost predicate IsAuthentic(image: ReleaseImage, expected: Expected) {
    && (exists name :: name != "" && image.reference == name + "@" + image.manifestDigest)
    && IsDigest(image.manifestDigest) && IsDigest(image.attestationDigest) && IsSigned(image.signature)
    && HasBothPlatforms(image.platforms) && image.attestation.platforms == image.platforms
    && VouchesFor(image.attestation, image.manifestDigest, expected)
  }

  lemma DigestsMean(s: string)
    ensures IsSha256Digest(s) <==> IsDigest(s)
  {
    forall c ensures IsHex(c) <==> c in "0123456789abcdef" { HexDigits(c); }
    hide IsHex;
    if IsSha256Digest(s) {
      var digits := s[7..];
      assert s == "sha256:" + digits;
    }
    if digits :| |digits| == 64 && IsSpelledWith(digits, "0123456789abcdef") && s == "sha256:" + digits {
      assert s[7..] == digits && s[..7] == "sha256:";
    }
  }

  lemma HexDigits(c: char)
    ensures IsHex(c) <==> c in "0123456789abcdef"
  {
    var digits := "0123456789abcdef";
    if '0' <= c <= '9' {
      assert digits[c as int - '0' as int] == c;
    } else if 'a' <= c <= 'f' {
      assert digits[c as int - 'a' as int + 10] == c;
    }
  }

  lemma PaddingIs(s: string, k: nat)
    requires k <= |s| && s[k..] in ["", "=", "=="]
    ensures |s| - 2 <= k && forall i :: k <= i < |s| ==> s[i] == '='
  {
    assert forall i :: k <= i < |s| ==> s[i] == s[k..][i - k];
  }

  lemma UnpaddedEnds(s: string)
    ensures s[Unpadded(s)..] in ["", "=", "=="]
  {
    assert s[|s|..] == "";
    assert |s| >= 1 ==> s[|s| - 1..] == [s[|s| - 1]];
  }

  /** A sign that is no padding, with nothing but padding after it, ends what is not padding. */
  lemma UnpaddedIs(s: string, k: nat)
    requires 1 <= k <= |s| && |s| - 2 <= k && s[k - 1] != '=' && forall i :: k <= i < |s| ==> s[i] == '='
    ensures Unpadded(s) == k
  {
    assert |s| >= 2 ==> s[|s| - 2..] == [s[|s| - 2], s[|s| - 1]];
  }

  lemma SignaturesMean(s: string)
    ensures IsSignature(s) <==> IsSigned(s)
  {
    hide Unpadded;
    UnpaddedEnds(s);
    if IsSignature(s) {
      assert IsBody(s, Unpadded(s));
    }
    if IsSigned(s) {
      var k :| IsBody(s, k) && s[k..] in ["", "=", "=="];
      PaddingIs(s, k);
      assert s[k - 1] != '=';
      UnpaddedIs(s, k);
    }
  }

  lemma StatementsMean(a: Attestation, manifestDigest: string, expected: Expected)
    ensures IsStatement(a, manifestDigest, expected) <==> VouchesFor(a, manifestDigest, expected)
  {
    hide IsSha256Digest, IsDigest;
    forall s ensures IsSha256Digest(s) <==> IsDigest(s) { DigestsMean(s); }
  }

  lemma DigestHasNoMark(digest: string)
    requires IsSha256Digest(digest)
    ensures '@' !in digest
  {
    assert digest == digest[..7] + digest[7..];
  }

  lemma PinnedMeans(reference: string, digest: string)
    ensures IsDigestPinned(reference) && digest == ReferenceDigest(reference)
            <==> IsDigest(digest) && exists name :: name != "" && reference == name + "@" + digest
  {
    hide IsSha256Digest, IsDigest;
    DigestsMean(digest);
    if IsDigestPinned(reference) && digest == ReferenceDigest(reference) {
      var marker := LastIndexOf(reference, '@').value;
      assert reference == reference[..marker] + "@" + digest;
      assert reference[..marker] != "";
    }
    if IsSha256Digest(digest) {
      DigestHasNoMark(digest);
      if name :| name != "" && reference == name + "@" + digest {
        LastMarkIsFound('@', name, digest);
        assert reference[|name| + 1..] == digest;
      }
    }
  }

  lemma TwoDigests(platforms: seq<PlatformImage>, platform: Platform)
    requires |platforms| == 2
    ensures DigestFor(platforms, platform)
            == (if platforms[1].platform == platform then Some(platforms[1].digest)
                else if platforms[0].platform == platform then Some(platforms[0].digest)
                else None)
  {
    var front := platforms[..1];
    assert DigestFor(front, platform)
        == if front[0].platform == platform then Some(front[0].digest) else DigestFor(front[..0], platform);
  }

  lemma BothPlatformsMeans(platforms: seq<PlatformImage>)
    ensures (forall i :: 0 <= i < |platforms| ==> !platforms[i].platform.OtherPlatform?)
            && |platforms| == 2 && |ListedPlatforms(platforms)| == 2
            && IsListed(platforms, LinuxArm64) && IsListed(platforms, LinuxAmd64)
            <==> HasBothPlatforms(platforms)
  {
    hide IsSha256Digest, IsDigest;
    forall s ensures IsSha256Digest(s) <==> IsDigest(s) { DigestsMean(s); }
    if |platforms| == 2 {
      TwoDigests(platforms, LinuxArm64);
      TwoDigests(platforms, LinuxAmd64);
      hide DigestFor;
      var first, second := platforms[0].platform, platforms[1].platform;
      assert ListedPlatforms(platforms) == {first, second};
      assert |{first, second}| == 2 <==> first != second;
    }
  }

  /** The validator accepts exactly the authentic images. */
  lemma ValidMeansAuthentic(image: ReleaseImage, expected: Expected)
    ensures ValidateReleaseImage(image, expected).None? <==> IsAuthentic(image, expected)
  {
    hide IsSha256Digest, IsSignature, IsStatement, IsListed, ListedPlatforms, IsDigestPinned, ReferenceDigest,
         HasBothPlatforms, IsDigest, IsSigned, VouchesFor;
    forall s ensures IsSha256Digest(s) <==> IsDigest(s) { DigestsMean(s); }
    SignaturesMean(image.signature);
    StatementsMean(image.attestation, image.manifestDigest, expected);
    PinnedMeans(image.reference, image.manifestDigest);
    BothPlatformsMeans(image.platforms);
  }

  ghost predicate IsPinnedTo(reference: string, digest: string) {
    IsDigest(digest) && exists name :: name != "" && reference == name + "@" + digest
  }

  ghost predicate HasAuthority(image: ReleaseImage) {
    && IsPinnedTo(image.reference, image.manifestDigest)
    && IsDigest(image.attestationDigest) && IsSigned(image.signature)
  }

  /** What is found wrong with an image is the first of these that it lacks. */
  lemma ErrorsMean(image: ReleaseImage, expected: Expected)
    ensures var found := ValidateReleaseImage(image, expected);
            var isPinned := exists digest :: IsPinnedTo(image.reference, digest);
            var isKnown := forall i :: 0 <= i < |image.platforms| ==> !image.platforms[i].platform.OtherPlatform?;
            var isVouchedFor := VouchesFor(image.attestation, image.manifestDigest, expected);
            && (found == Some(BadReference) <==> !isPinned)
            && (found == Some(BadAuthority) <==> isPinned && !HasAuthority(image))
            && (found == Some(BadPlatforms) <==> HasAuthority(image) && !isKnown)
            && (found == Some(WrongPlatforms) <==>
                HasAuthority(image) && isKnown && !HasBothPlatforms(image.platforms))
            && (found == Some(BadAttestation) <==>
                HasAuthority(image) && HasBothPlatforms(image.platforms) && !isVouchedFor)
            && (found == Some(InconsistentPlatforms) <==>
                && HasAuthority(image) && HasBothPlatforms(image.platforms) && isVouchedFor
                && image.attestation.platforms != image.platforms)
  {
    hide IsSha256Digest, IsSignature, IsStatement, IsListed, ListedPlatforms, IsDigestPinned, ReferenceDigest,
         HasBothPlatforms, IsDigest, IsSigned, VouchesFor;
    forall s ensures IsSha256Digest(s) <==> IsDigest(s) { DigestsMean(s); }
    SignaturesMean(image.signature);
    StatementsMean(image.attestation, image.manifestDigest, expected);
    BothPlatformsMeans(image.platforms);
    if HasBothPlatforms(image.platforms) {
      BothAreKnown(image.platforms);
    }
    PinnedMeans(image.reference, image.manifestDigest);
    if IsDigestPinned(image.reference) {
      PinnedMeans(image.reference, ReferenceDigest(image.reference));
      assert IsPinnedTo(image.reference, ReferenceDigest(image.reference));
    }
    if digest :| IsPinnedTo(image.reference, digest) {
      PinnedMeans(image.reference, digest);
    }
  }

  lemma BothAreKnown(platforms: seq<PlatformImage>)
    requires HasBothPlatforms(platforms)
    ensures forall i :: 0 <= i < |platforms| ==> !platforms[i].platform.OtherPlatform?
  {
  }

  // ---------- Launching ----------

  datatype Launch = Launch(reference: string, platformDigest: string, platform: Platform)

  function FindPlatform(platforms: seq<PlatformImage>, platform: Platform): Option<string> {
    if platforms == [] then None
    else if platforms[0].platform == platform then Some(platforms[0].digest)
    else FindPlatform(platforms[1..], platform)
  }

  function SelectRuntimeImage(image: ReleaseImage, platform: Platform): Option<Launch> {
    match FindPlatform(image.platforms, platform)
    case None => None
    case Some(digest) => Some(Launch(image.reference, digest, platform))
  }

  /** A valid image has a build for either platform, and it is one that the statement vouches for. */
  lemma ValidImagesLaunch(image: ReleaseImage, expected: Expected, platform: Platform)
    requires ValidateReleaseImage(image, expected).None? && platform in {LinuxArm64, LinuxAmd64}
    ensures SelectRuntimeImage(image, platform).Some?
    ensures var launch := SelectRuntimeImage(image, platform).value;
            && launch.reference == image.reference && launch.platform == platform && IsDigest(launch.platformDigest)
            && PlatformImage(platform, launch.platformDigest) in image.attestation.platforms
  {
    hide IsDigest, IsSigned, ValidateReleaseImage;
    ValidMeansAuthentic(image, expected);
    var rest := image.platforms[1..];
    assert rest == [image.platforms[1]];
    assert FindPlatform(rest, platform)
        == if rest[0].platform == platform then Some(rest[0].digest) else FindPlatform(rest[1..], platform);
  }

  /** An image is bound to one source and one package: it is valid for no other. */
  lemma ValidForOneSource(image: ReleaseImage, a: Expected, b: Expected)
    requires ValidateReleaseImage(image, a).None? && ValidateReleaseImage(image, b).None?
    ensures a == b
  {
    ValidMeansAuthentic(image, a);
    ValidMeansAuthentic(image, b);
  }
}

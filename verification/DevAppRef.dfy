/**
 * The printed form of a DevApp reference and its parser: which references survive the trip,
 * and exactly which strings are accepted.
 */
module DevAppRef {
  import opened Prelude
  import opened Decimals
  import opened Strings

  datatype Version = Latest | Numbered(n: int)

  datatype Ref =
    | Builtin(appId: string)
    | Development(sourceId: string)
    | Publication(organizationId: string, publicationId: string, version: Version)

  const MAX_REF_LENGTH := 512
  const MAX_VERSION_DIGITS := 9
  const MAX_SEGMENT_LENGTH := 128

  function Prefix(): (p: string)
    ensures |p| == 13
  {
    "cozea-devapp:"
  }

  function BuiltinOwner(): string {
    "builtin"
  }

  function DevOwner(): string {
    "dev"
  }

  // ---------- Segments ----------

  predicate IsAlphanumeric(c: char) {
    'A' <= c <= 'Z' || 'a' <= c <= 'z' || '0' <= c <= '9'
  }

  predicate IsSegment(s: string) {
    && 0 < |s| <= MAX_SEGMENT_LENGTH && IsAlphanumeric(s[0])
    && forall i :: 0 <= i < |s| ==> IsAlphanumeric(s[i]) || s[i] == '_' || s[i] == '-'
  }

  lemma SegmentIsPlain(s: string)
    requires IsSegment(s)
    ensures '/' !in s && '@' !in s
  {
  }

  lemma OwnersAreSegments()
    ensures IsSegment(BuiltinOwner()) && IsSegment(DevOwner()) && BuiltinOwner() != DevOwner()
  {
    assert |BuiltinOwner()| == 7 && |DevOwner()| == 3;
  }

  // ---------- Printing and parsing ----------

  function FormatVersion(version: Version): string {
    match version
    case Latest => ""
    case Numbered(n) => "@" + Decimal(n)
  }

  function Owner(r: Ref): string {
    match r
    case Builtin(_) => BuiltinOwner()
    case Development(_) => DevOwner()
    case Publication(organizationId, _, _) => organizationId
  }

  function FormatDevAppRef(r: Ref): string {
    Prefix() +
    match r
    case Builtin(appId) => BuiltinOwner() + "/" + appId
    case Development(sourceId) => DevOwner() + "/" + sourceId
    case Publication(organizationId, publicationId, version) =>
      organizationId + "/" + (publicationId + FormatVersion(version))
  }

  function ParseDevAppRef(value: string): Option<Ref> {
    if |value| == 0 || |value| > MAX_REF_LENGTH then None
    else if !(Prefix() <= value) then None
    else ParseBody(value[|Prefix()|..])
  }

  function ParseBody(body: string): Option<Ref> {
    var slash := IndexOf(body, '/');
    if slash.None? || slash.value == 0 then None
    else ParseParts(body[..slash.value], body[slash.value + 1..])
  }

  function ParseParts(owner: string, rest: string): Option<Ref> {
    if rest == "" || '/' in rest then None
    else if owner == BuiltinOwner() then
      if '@' in rest || !IsSegment(rest) then None else Some(Builtin(rest))
    else if owner == DevOwner() then
      if '@' in rest || !IsSegment(rest) then None else Some(Development(rest))
    else if !IsSegment(owner) then None
    else ParsePublication(owner, rest)
  }

  function ParsePublication(owner: string, rest: string): Option<Ref> {
    var at := LastIndexOf(rest, '@');
    if at.None? then
      if IsSegment(rest) then Some(Publication(owner, rest, Latest)) else None
    else
      var publicationId, text := rest[..at.value], rest[at.value + 1..];
      if !IsSegment(publicationId) then None
      else if !(1 <= |text| <= MAX_VERSION_DIGITS && AreDigits(text)) then None
      else if Value(text) < 1 then None
      else Some(Publication(owner, publicationId, Numbered(Value(text))))
  }

  // ---------- What survives ----------

  predicate IsVersion(version: Version) {
    version.Latest? || 1 <= version.n < 1000000000
  }

  /** The references that the printed form can carry. */
  predicate IsTransportable(r: Ref) {
    match r
    case Builtin(appId) => IsSegment(appId)
    case Development(sourceId) => IsSegment(sourceId)
    case Publication(organizationId, publicationId, version) =>
      && IsSegment(organizationId) && organizationId != BuiltinOwner() && organizationId != DevOwner()
      && IsSegment(publicationId) && IsVersion(version)
  }

  /** What follows the owner, with so many zeros before the version. */
  function Tail(r: Ref, zeros: nat): string {
    match r
    case Builtin(appId) => appId
    case Development(sourceId) => sourceId
    case Publication(_, publicationId, Latest) => publicationId
    case Publication(_, publicationId, Numbered(n)) => publicationId + "@" + (Zeros(zeros) + Decimal(n))
  }

  function Padded(r: Ref, zeros: nat): string {
    Prefix() + (Owner(r) + "/" + Tail(r, zeros))
  }

  /** No more zeros than leave the version its nine places, and none where there is no version. */
  predicate IsPadding(r: Ref, zeros: nat) {
    if r.Publication? && r.version.Numbered? then zeros + |Decimal(r.version.n)| <= MAX_VERSION_DIGITS else zeros == 0
  }

  lemma FormatIsUnpadded(r: Ref)
    ensures FormatDevAppRef(r) == Padded(r, 0)
  {
    hide Prefix, BuiltinOwner, DevOwner, Decimal;
    if r.Publication? && r.version.Numbered? {
      assert Zeros(0) + Decimal(r.version.n) == Decimal(r.version.n);
      assert r.publicationId + "@" + Decimal(r.version.n) == r.publicationId + ("@" + Decimal(r.version.n));
    }
  }

  lemma NinePlaces(n: nat)
    ensures |Digits(n)| <= MAX_VERSION_DIGITS <==> n < 1000000000
  {
    DigitCount(n, 9);
    assert Power10(9) == 1000000000 by {
      assert Power10(5) == 100000;
    }
  }

  // ---------- Reading what was printed ----------

  lemma TailIsParsed(r: Ref, zeros: nat)
    requires IsTransportable(r) && IsPadding(r, zeros)
    ensures ParseParts(Owner(r), Tail(r, zeros)) == Some(r)
    ensures 0 < |Tail(r, zeros)| <= MAX_SEGMENT_LENGTH + 1 + MAX_VERSION_DIGITS
  {
    hide Digits, Value, BuiltinOwner, DevOwner;
    OwnersAreSegments();
    match r {
      case Builtin(appId) => SegmentIsPlain(appId);
      case Development(sourceId) => SegmentIsPlain(sourceId);
      case Publication(organizationId, publicationId, version) =>
        SegmentIsPlain(publicationId);
        if version.Numbered? {
          VersionIsParsed(organizationId, publicationId, version.n, zeros);
        }
    }
  }

  lemma VersionIsParsed(owner: string, publicationId: string, n: nat, zeros: nat)
    requires IsSegment(publicationId) && 1 <= n && zeros + |Digits(n)| <= MAX_VERSION_DIGITS
    ensures var rest := publicationId + "@" + (Zeros(zeros) + Digits(n));
            ParsePublication(owner, rest) == Some(Publication(owner, publicationId, Numbered(n))) && '/' !in rest
  {
    hide Digits, Value, IsSegment, LastIndexOf;
    var text := Zeros(zeros) + Digits(n);
    assert '@' !in text && '/' !in text;
    LastMarkIsFound('@', publicationId, text);
    ValueOfDigits(n);
    PaddedValue(zeros, Digits(n));
    SegmentIsPlain(publicationId);
    var rest := publicationId + "@" + text;
    assert rest[..|publicationId|] == publicationId && rest[|publicationId| + 1..] == text;
  }

  lemma PaddedIsParsed(r: Ref, zeros: nat)
    requires IsTransportable(r) && IsPadding(r, zeros)
    ensures ParseDevAppRef(Padded(r, zeros)) == Some(r)
  {
    hide Prefix, BuiltinOwner, DevOwner, ParseParts, Tail, IsPadding, IndexOf;
    OwnersAreSegments();
    OwnerIsShort(r);
    TailIsParsed(r, zeros);
    var owner, rest := Owner(r), Tail(r, zeros);
    var body := owner + "/" + rest;
    assert Padded(r, zeros)[|Prefix()|..] == body;
    FirstMarkIsFound('/', owner, rest);
    assert body[..|owner|] == owner && body[|owner| + 1..] == rest;
  }

  lemma OwnerIsShort(r: Ref)
    requires IsTransportable(r)
    ensures 0 < |Owner(r)| <= MAX_SEGMENT_LENGTH && '/' !in Owner(r)
  {
    hide BuiltinOwner, DevOwner;
    OwnersAreSegments();
    SegmentIsPlain(Owner(r));
  }

  // ---------- Printing what was read ----------

  lemma PublicationIsPadded(owner: string, rest: string) returns (zeros: nat)
    requires ParsePublication(owner, rest).Some? && IsSegment(owner) && owner != BuiltinOwner() && owner != DevOwner()
    ensures var r := ParsePublication(owner, rest).value;
            IsTransportable(r) && IsPadding(r, zeros) && Owner(r) == owner && rest == Tail(r, zeros)
  {
    hide IsSegment, Digits, Value;
    var at := LastIndexOf(rest, '@');
    zeros := 0;
    if at.Some? {
      var text := rest[at.value + 1..];
      zeros := DigitsOfValue(text);
      NinePlaces(Value(text));
      assert rest == rest[..at.value] + "@" + text;
    }
  }

  lemma PartsArePadded(owner: string, rest: string) returns (zeros: nat)
    requires ParseParts(owner, rest).Some?
    ensures var r := ParseParts(owner, rest).value;
            IsTransportable(r) && IsPadding(r, zeros) && Owner(r) == owner && rest == Tail(r, zeros)
  {
    hide IsSegment, ParsePublication, BuiltinOwner, DevOwner;
    if owner == BuiltinOwner() || owner == DevOwner() {
      zeros := 0;
    } else {
      zeros := PublicationIsPadded(owner, rest);
    }
  }

  lemma ParsedIsPadded(value: string) returns (zeros: nat)
    requires ParseDevAppRef(value).Some?
    ensures var r := ParseDevAppRef(value).value;
            IsTransportable(r) && IsPadding(r, zeros) && value == Padded(r, zeros)
  {
    hide ParseParts, IsTransportable, IsPadding, Tail, Owner, IndexOf, Prefix;
    var body := value[|Prefix()|..];
    var slash := IndexOf(body, '/').value;
    zeros := PartsArePadded(body[..slash], body[slash + 1..]);
    assert body == body[..slash] + "/" + body[slash + 1..];
    assert value == Prefix() + body;
  }

  /** The strings accepted for a reference: its printed form, perhaps with zeros before the version. */
  lemma AcceptedStrings(value: string, r: Ref)
    ensures ParseDevAppRef(value) == Some(r)
            <==> IsTransportable(r) && exists zeros :: IsPadding(r, zeros) && value == Padded(r, zeros)
  {
    hide ParseDevAppRef, IsTransportable, IsPadding, Padded;
    if ParseDevAppRef(value) == Some(r) {
      var zeros := ParsedIsPadded(value);
    }
    if zeros :| IsTransportable(r) && IsPadding(r, zeros) && value == Padded(r, zeros) {
      PaddedIsParsed(r, zeros);
    }
  }

  // ---------- The grammar ----------

  /** At most 128 letters, digits, dashes and underscores, the first a letter or a digit. */
  ghost predicate IsName(s: string) {
    && 1 <= |s| <= 128 && s[0] != '-' && s[0] != '_'
    && forall c :: c in s ==>
         'a' <= c <= 'z' || 'A' <= c <= 'Z' || '0' <= c <= '9' || c == '-' || c == '_'
  }

  lemma SegmentsAreNames(s: string)
    ensures IsSegment(s) <==> IsName(s)
  {
    assert forall i :: 0 <= i < |s| ==> s[i] in s;
  }

  /** The references that a text can stand for. */
  ghost predicate IsExpressible(r: Ref) {
    match r
    case Builtin(appId) => IsName(appId)
    case Development(sourceId) => IsName(sourceId)
    case Publication(organizationId, publicationId, version) =>
      && IsName(organizationId) && organizationId !in ["builtin", "dev"] && IsName(publicationId)
      && (version.Numbered? ==> 1 <= version.n <= 999_999_999)
  }

  /** A version is written with one to nine digits. */
  ghost predicate IsVersionText(text: string, n: int) {
    1 <= |text| <= 9 && AreDigits(text) && Value(text) == n
  }

  ghost predicate IsTextOf(value: string, r: Ref) {
    match r
    case Builtin(appId) => value == "cozea-devapp:" + ("builtin/" + appId)
    case Development(sourceId) => value == "cozea-devapp:" + ("dev/" + sourceId)
    case Publication(organizationId, publicationId, Latest) =>
      value == "cozea-devapp:" + (organizationId + "/" + publicationId)
    case Publication(organizationId, publicationId, Numbered(n)) =>
      exists text :: IsVersionText(text, n)
                     && value == "cozea-devapp:" + (organizationId + "/" + (publicationId + "@" + text))
  }

  lemma TransportablesAreExpressible(r: Ref)
    ensures IsTransportable(r) <==> IsExpressible(r)
  {
    hide IsSegment, IsName;
    match r {
      case Builtin(appId) => SegmentsAreNames(appId);
      case Development(sourceId) => SegmentsAreNames(sourceId);
      case Publication(organizationId, publicationId, _) =>
        SegmentsAreNames(organizationId);
        SegmentsAreNames(publicationId);
    }
  }

  lemma NumberedTexts(r: Ref, value: string)
    requires r.Publication? && r.version.Numbered? && r.version.n >= 1
    ensures (exists zeros :: IsPadding(r, zeros) && value == Padded(r, zeros)) <==> IsTextOf(value, r)
  {
    hide Digits, Value, AreDigits, Zeros;
    var n: nat := r.version.n;
    if zeros :| IsPadding(r, zeros) && value == Padded(r, zeros) {
      var text := Zeros(zeros) + Digits(n);
      PaddedValue(zeros, Digits(n));
      ValueOfDigits(n);
      PaddedDigits(zeros, n);
      assert IsVersionText(text, n);
    }
    if IsTextOf(value, r) {
      var text :| IsVersionText(text, n)
                  && value == "cozea-devapp:" + (r.organizationId + "/" + (r.publicationId + "@" + text));
      var zeros := DigitsOfValue(text);
      PaddedDigits(zeros, n);
      assert IsPadding(r, zeros) && value == Padded(r, zeros);
    }
  }

  lemma PaddedDigits(zeros: nat, n: nat)
    ensures |Zeros(zeros) + Digits(n)| == zeros + |Digits(n)| && AreDigits(Zeros(zeros) + Digits(n))
    ensures |Digits(n)| > 0 && AreDigits(Digits(n))
  {
  }

  lemma PlainTexts(r: Ref, value: string)
    requires !(r.Publication? && r.version.Numbered?)
    ensures (exists zeros :: IsPadding(r, zeros) && value == Padded(r, zeros)) <==> IsTextOf(value, r)
  {
    assert r.Builtin? ==> "builtin" + "/" + r.appId == "builtin/" + r.appId;
    assert r.Development? ==> "dev" + "/" + r.sourceId == "dev/" + r.sourceId;
    if IsTextOf(value, r) {
      assert IsPadding(r, 0) && value == Padded(r, 0);
    }
  }

  /** A text is read as a reference exactly when the reference is expressible and that is a text of it. */
  lemma TextsAreRead(value: string, r: Ref)
    ensures ParseDevAppRef(value) == Some(r) <==> IsExpressible(r) && IsTextOf(value, r)
  {
    hide ParseDevAppRef, IsTextOf, IsPadding, Padded, IsName;
    AcceptedStrings(value, r);
    TransportablesAreExpressible(r);
    if IsExpressible(r) {
      if r.Publication? && r.version.Numbered? {
        NumberedTexts(r, value);
      } else {
        PlainTexts(r, value);
      }
    }
  }

  /** What is printed: the scheme, the owner, and the version in decimals if it is not the latest. */
  lemma PrintedTexts(r: Ref)
    ensures r.Builtin? ==> FormatDevAppRef(r) == "cozea-devapp:" + ("builtin/" + r.appId)
    ensures r.Development? ==> FormatDevAppRef(r) == "cozea-devapp:" + ("dev/" + r.sourceId)
    ensures r.Publication? && r.version.Latest?
            ==> FormatDevAppRef(r) == "cozea-devapp:" + (r.organizationId + "/" + r.publicationId)
    ensures r.Publication? && r.version.Numbered? && r.version.n >= 0
            ==> FormatDevAppRef(r)
                == "cozea-devapp:" + (r.organizationId + "/" + (r.publicationId + "@" + Digits(r.version.n)))
    ensures r.Publication? && r.version.Numbered? && r.version.n < 0
            ==> FormatDevAppRef(r)
                == "cozea-devapp:" + (r.organizationId + "/" + (r.publicationId + "@-" + Digits(-r.version.n)))
  {
    hide Digits;
    assert r.Builtin? ==> "builtin" + "/" + r.appId == "builtin/" + r.appId;
    assert r.Development? ==> "dev" + "/" + r.sourceId == "dev/" + r.sourceId;
    if r.Publication? && r.version.Latest? {
      assert r.publicationId + "" == r.publicationId;
    }
    if r.Publication? && r.version.Numbered? && r.version.n >= 0 {
      assert r.publicationId + ("@" + Digits(r.version.n)) == r.publicationId + "@" + Digits(r.version.n);
    }
    if r.Publication? && r.version.Numbered? && r.version.n < 0 {
      assert r.publicationId + ("@" + ("-" + Digits(-r.version.n))) == r.publicationId + "@-" + Digits(-r.version.n);
    }
  }

  /**
   * A reference survives printing and parsing exactly when its parts fit the grammar and its owner
   * is no reserved word.
   */
  lemma RoundTrip(r: Ref)
    ensures ParseDevAppRef(FormatDevAppRef(r)) == Some(r) <==> IsExpressible(r)
  {
    hide ParseDevAppRef, FormatDevAppRef, Padded, IsSegment, IsName;
    TransportablesAreExpressible(r);
    FormatIsUnpadded(r);
    if IsTransportable(r) {
      TransportableFits(r);
      PaddedIsParsed(r, 0);
    } else if ParseDevAppRef(FormatDevAppRef(r)) == Some(r) {
      var zeros := ParsedIsPadded(FormatDevAppRef(r));
    }
  }

  lemma TransportableFits(r: Ref)
    requires IsTransportable(r)
    ensures IsPadding(r, 0)
  {
    hide IsSegment, Digits, BuiltinOwner, DevOwner;
    if r.Publication? && r.version.Numbered? {
      NinePlaces(r.version.n);
    }
  }

  /** Whatever string a reference was read from, printing it and reading it again gives it back. */
  lemma ReparseIsStable(value: string)
    requires ParseDevAppRef(value).Some?
    ensures ParseDevAppRef(FormatDevAppRef(ParseDevAppRef(value).value)) == ParseDevAppRef(value)
  {
    hide ParseDevAppRef, FormatDevAppRef, Padded, IsTransportable, IsExpressible;
    var zeros := ParsedIsPadded(value);
    TransportablesAreExpressible(ParseDevAppRef(value).value);
    RoundTrip(ParseDevAppRef(value).value);
  }

  /** A publication of an organization named like a reserved owner is read as something else, or not at all. */
  lemma ReservedOwnerIsLost(publicationId: string, version: Version)
    ensures var parsed := ParseDevAppRef(FormatDevAppRef(Publication(BuiltinOwner(), publicationId, version)));
            parsed.Some? ==> parsed.value.Builtin?
  {
    hide ParseDevAppRef, FormatDevAppRef, BuiltinOwner, DevOwner;
    var r := Publication(BuiltinOwner(), publicationId, version);
    var value := FormatDevAppRef(r);
    FormatIsUnpadded(r);
    if ParseDevAppRef(value).Some? {
      var zeros := ParsedIsPadded(value);
      SameOwner(r, ParseDevAppRef(value).value, zeros);
    }
  }

  lemma SameOwner(r: Ref, q: Ref, zeros: nat)
    requires IsTransportable(q) && Padded(r, 0) == Padded(q, zeros) && r.Publication?
    requires r.organizationId == BuiltinOwner()
    ensures q.Builtin?
  {
    hide Prefix, Tail, BuiltinOwner, DevOwner, IndexOf;
    OwnersAreSegments();
    SegmentIsPlain(BuiltinOwner());
    OwnerIsShort(q);
    assert Padded(r, 0)[13..] == Padded(q, zeros)[13..];
    FirstMarkIsFound('/', Owner(r), Tail(r, 0));
    FirstMarkIsFound('/', Owner(q), Tail(q, zeros));
    assert (Owner(r) + "/" + Tail(r, 0))[..|Owner(r)|] == Owner(r);
    assert (Owner(q) + "/" + Tail(q, zeros))[..|Owner(q)|] == Owner(q);
  }
}

/**
 The archive check run on every stored upload (`zipCheck`): each archive
 member whose name ends with `embedded.mobileprovision` must open, carry a
 PKCS#7 message whose signature verifies, hold a property list that decodes,
 and grant `Entitlements.application-identifier` equal to the configured
 application identifier. The first member that fails decides the outcome.
 */
module ZipCheck {
  import opened Libraries

  const MANIFEST_SUFFIX := "embedded.mobileprovision"
  const ENTITLEMENTS_KEY := "Entitlements"
  const APP_ID_KEY := "application-identifier"

  predicate HasSuffix(s: string, suffix: string) {
    |suffix| <= |s| && s[|s| - |suffix|..] == suffix
  }

  /** The members the check looks at: the embedded provisioning profiles. */
  predicate IsManifest(name: string) {
    HasSuffix(name, MANIFEST_SUFFIX)
  }

  /** A name matches iff it is some prefix followed by `embedded.mobileprovision`. */
  lemma IsManifestIff(name: string)
    ensures IsManifest(name) <==> exists prefix: string :: prefix + MANIFEST_SUFFIX == name
  {
    if IsManifest(name) {
      var prefix := name[..|name| - |MANIFEST_SUFFIX|];
      assert prefix + MANIFEST_SUFFIX == name;
    }
    if exists prefix: string :: prefix + MANIFEST_SUFFIX == name {
      var prefix: string :| prefix + MANIFEST_SUFFIX == name;
      assert name[|name| - |MANIFEST_SUFFIX|..] == MANIFEST_SUFFIX;
    }
  }

  /** Why reading the signed profile failed: the read, the PKCS#7 parse or the signature check. */
  datatype SmimeCause = ReadFailed | ParseFailed | VerifyFailed

  /** The errors `zipCheck` returns, one per stage. */
  datatype CheckError =
    | OpenZipError
    | OpenMemberError(name: string)
    | SmimeError(name: string, cause: SmimeCause)
    | PlistError
    | InvalidAppId(found: Option<Value>, expected: string)

  /**
   The outcome of the check: nil, an error, or the run-time panic raised by
   the unchecked type assertion on the `Entitlements` value.
   */
  datatype Verdict = Accepted | Rejected(error: CheckError) | Panic

  /** What `ioutil.ReadAll` yields on an opened member. */
  function ReadAll(data: MemberData): Option<Bytes> {
    if data.Readable? then Some(data.bytes) else None
  }

  /**
   `loadPKCS7Content`: read the member, parse it as PKCS#7 and verify the
   signature. Content comes back only from a message whose signature verified.
   */
  function LoadPkcs7Content(libs: Libraries, read: Option<Bytes>): (r: Result<Bytes, SmimeCause>)
    ensures r.Ok? <==> read.Some? && libs.parsePkcs7(read.value).Some?
                       && libs.parsePkcs7(read.value).value.signatureValid
    ensures r.Ok? ==> r.value == libs.parsePkcs7(read.value).value.content
    ensures r == Err(ReadFailed) <==> read.None?
    ensures r == Err(ParseFailed) <==> read.Some? && libs.parsePkcs7(read.value).None?
    ensures r == Err(VerifyFailed) <==> read.Some? && libs.parsePkcs7(read.value).Some?
                                        && !libs.parsePkcs7(read.value).value.signatureValid
  {
    match read
    case None => Err(ReadFailed)
    case Some(b) =>
      match libs.parsePkcs7(b)
      case None => Err(ParseFailed)
      case Some(msg) =>
        if msg.signatureValid then Ok(msg.content) else Err(VerifyFailed)
  }

  /** `profile["Entitlements"]["application-identifier"]`, when the first lookup gives a dictionary. */
  function AppIdOf(ents: map<string, Value>): Option<Value> {
    if APP_ID_KEY in ents then Some(ents[APP_ID_KEY]) else None
  }

  /**
   The identifier comparison on a decoded profile. A missing or non-dictionary
   `Entitlements` panics; a missing or non-string identifier never equals the
   configured string and is rejected.
   */
  function AppIdVerdict(profile: Profile, appId: string): (r: Verdict)
    ensures r == Panic <==> ENTITLEMENTS_KEY !in profile || !profile[ENTITLEMENTS_KEY].Dict?
    ensures r.Accepted? <==> ENTITLEMENTS_KEY in profile && profile[ENTITLEMENTS_KEY].Dict?
                             && APP_ID_KEY in profile[ENTITLEMENTS_KEY].entries
                             && profile[ENTITLEMENTS_KEY].entries[APP_ID_KEY] == Str(appId)
    ensures r.Rejected? ==> r.error.InvalidAppId? && r.error.expected == appId
                            && r.error.found != Some(Str(appId))
    ensures r.Rejected? ==> r.error.found == AppIdOf(profile[ENTITLEMENTS_KEY].entries)
    ensures r.Rejected? && APP_ID_KEY !in profile[ENTITLEMENTS_KEY].entries ==> r.error.found == None
  {
    if ENTITLEMENTS_KEY !in profile || !profile[ENTITLEMENTS_KEY].Dict? then
      Panic
    else
      var appID := AppIdOf(profile[ENTITLEMENTS_KEY].entries);
      if appID == Some(Str(appId)) then Accepted else Rejected(InvalidAppId(appID, appId))
  }

  /**
   A member passes all four stages: it is read, its PKCS#7 message parses and
   its signature verifies, the signed content decodes as a property list, and
   that profile's `Entitlements` dictionary maps `application-identifier` to
   the configured identifier string.
   */
  predicate PassesAllStages(libs: Libraries, m: Member, appId: string) {
    && m.data.Readable?
    && libs.parsePkcs7(m.data.bytes).Some?
    && libs.parsePkcs7(m.data.bytes).value.signatureValid
    && libs.decodePlist(libs.parsePkcs7(m.data.bytes).value.content).Some?
    && var profile := libs.decodePlist(libs.parsePkcs7(m.data.bytes).value.content).value;
       && ENTITLEMENTS_KEY in profile
       && profile[ENTITLEMENTS_KEY].Dict?
       && APP_ID_KEY in profile[ENTITLEMENTS_KEY].entries
       && profile[ENTITLEMENTS_KEY].entries[APP_ID_KEY] == Str(appId)
  }

  /**
   The four stages run on one matching member: open, PKCS#7, property list,
   identifier. Each stage's failure is reported only when every earlier stage
   succeeded.
   */
  function MemberVerdict(libs: Libraries, m: Member, appId: string): (r: Verdict)
    ensures (r.Rejected? && r.error.OpenMemberError?) <==> m.data.OpenFails?
    ensures r.Rejected? && r.error.OpenMemberError? ==> r.error.name == m.name
    ensures (r.Rejected? && r.error.SmimeError?) <==>
              !m.data.OpenFails? && LoadPkcs7Content(libs, ReadAll(m.data)).Err?
    ensures r.Rejected? && r.error.SmimeError? ==>
              r.error == SmimeError(m.name, LoadPkcs7Content(libs, ReadAll(m.data)).error)
    ensures (r.Rejected? && r.error.PlistError?) <==>
              !m.data.OpenFails? && LoadPkcs7Content(libs, ReadAll(m.data)).Ok?
              && libs.decodePlist(LoadPkcs7Content(libs, ReadAll(m.data)).value).None?
    ensures (r.Accepted? || r.Panic? || (r.Rejected? && r.error.InvalidAppId?)) <==>
              !m.data.OpenFails? && LoadPkcs7Content(libs, ReadAll(m.data)).Ok?
              && libs.decodePlist(LoadPkcs7Content(libs, ReadAll(m.data)).value).Some?
    ensures !m.data.OpenFails? && LoadPkcs7Content(libs, ReadAll(m.data)).Ok?
            && libs.decodePlist(LoadPkcs7Content(libs, ReadAll(m.data)).value).Some? ==>
              r == AppIdVerdict(libs.decodePlist(LoadPkcs7Content(libs, ReadAll(m.data)).value).value, appId)
    ensures r.Accepted? <==> PassesAllStages(libs, m, appId)
  {
    if m.data.OpenFails? then
      Rejected(OpenMemberError(m.name))
    else
      match LoadPkcs7Content(libs, ReadAll(m.data))
      case Err(cause) => Rejected(SmimeError(m.name, cause))
      case Ok(xml) =>
        match libs.decodePlist(xml)
        case None => Rejected(PlistError)
        case Some(profile) => AppIdVerdict(profile, appId)
  }

  /**
   The verdict on the members of an opened archive, taken in order. The
   archive-open error belongs to `zipCheck` alone; the member loop never
   reports it.
   */
  function EntriesVerdict(libs: Libraries, ms: seq<Member>, appId: string): (r: Verdict)
    ensures r != Rejected(OpenZipError)
    decreases |ms|
  {
    if ms == [] then
      Accepted
    else if !IsManifest(ms[0].name) then
      EntriesVerdict(libs, ms[1..], appId)
    else
      match MemberVerdict(libs, ms[0], appId)
      case Accepted => EntriesVerdict(libs, ms[1..], appId)
      case v => v
  }

  /**
   The verdict of `zipCheck` on the stored bytes: the archive-open error
   exactly when the archive does not open, otherwise the members' verdict.
   */
  function ZipCheckSpec(libs: Libraries, archive: Bytes, appId: string): (r: Verdict)
    ensures r == Rejected(OpenZipError) <==> libs.openZip(archive).None?
  {
    match libs.openZip(archive)
    case None => Rejected(OpenZipError)
    case Some(ms) => EntriesVerdict(libs, ms, appId)
  }

  /** The members that match the suffix, in archive order. */
  function Manifests(ms: seq<Member>): (r: seq<Member>)
    ensures |r| <= |ms|
    ensures forall k | 0 <= k < |r| :: IsManifest(r[k].name)
  {
    if ms == [] then []
    else (if IsManifest(ms[0].name) then [ms[0]] else []) + Manifests(ms[1..])
  }

  /** The indices below `n` of the matching members, in increasing order. */
  function ManifestIndices(ms: seq<Member>, n: nat): (r: seq<nat>)
    requires n <= |ms|
    ensures forall k | 0 <= k < |r| :: r[k] < n && IsManifest(ms[r[k]].name)
    ensures forall k, l | 0 <= k < l < |r| :: r[k] < r[l]
  {
    if n == 0 then []
    else ManifestIndices(ms, n - 1) + (if IsManifest(ms[n - 1].name) then [n - 1] else [])
  }

  /**
   The loop of `zipCheck` over the members of an opened archive. `examined`
   records the members opened, in order: exactly the matching ones, up to and
   including the first that fails.
   */
  method CheckMembers(libs: Libraries, ms: seq<Member>, appId: string)
    returns (v: Verdict, ghost examined: seq<nat>)
    ensures v == EntriesVerdict(libs, ms, appId)
    ensures forall k | 0 <= k < |examined| :: examined[k] < |ms| && IsManifest(ms[examined[k]].name)
    ensures v.Accepted? ==> examined == ManifestIndices(ms, |ms|)
    ensures !v.Accepted? ==>
              |examined| > 0 && examined[|examined| - 1] < |ms|
              && examined == ManifestIndices(ms, examined[|examined| - 1] + 1)
              && v == MemberVerdict(libs, ms[examined[|examined| - 1]], appId)
    ensures forall k | 0 <= k < |examined| && (v.Accepted? || k < |examined| - 1) ::
              MemberVerdict(libs, ms[examined[k]], appId).Accepted?
  {
    v, examined := Accepted, [];
    var i := 0;
    while i < |ms|
      invariant 0 <= i <= |ms|
      invariant examined == ManifestIndices(ms, i)
      invariant forall k | 0 <= k < |examined| :: MemberVerdict(libs, ms[examined[k]], appId).Accepted?
      invariant EntriesVerdict(libs, ms, appId) == EntriesVerdict(libs, ms[i..], appId)
    {
      assert ms[i..][1..] == ms[i + 1..];
      if !IsManifest(ms[i].name) {
        i := i + 1;
        continue;
      }
      examined := examined + [i];
      var r := MemberVerdict(libs, ms[i], appId);
      if !r.Accepted? {
        v := r;
        return;
      }
      i := i + 1;
    }
  }

  /** `zipCheck`: open the stored archive, then check its members. */
  method Check(libs: Libraries, archive: Bytes, appId: string)
    returns (v: Verdict, ghost examined: seq<nat>)
    ensures v == ZipCheckSpec(libs, archive, appId)
    ensures libs.openZip(archive).None? ==> v == Rejected(OpenZipError) && examined == []
    ensures libs.openZip(archive).Some? ==>
              forall k | 0 <= k < |examined| ::
                examined[k] < |libs.openZip(archive).value|
                && IsManifest(libs.openZip(archive).value[examined[k]].name)
  {
    match libs.openZip(archive)
    case None =>
      v, examined := Rejected(OpenZipError), [];
    case Some(ms) =>
      v, examined := CheckMembers(libs, ms, appId);
  }

  /** Only the matching members decide the verdict. */
  lemma {:induction false} ManifestsOnlyMatter(libs: Libraries, ms: seq<Member>, appId: string)
    ensures EntriesVerdict(libs, ms, appId) == EntriesVerdict(libs, Manifests(ms), appId)
    decreases |ms|
  {
    if ms != [] {
      ManifestsOnlyMatter(libs, ms[1..], appId);
      if IsManifest(ms[0].name) {
        var rest := Manifests(ms[1..]);
        assert Manifests(ms) == [ms[0]] + rest;
        assert ([ms[0]] + rest)[1..] == rest;
      } else {
        assert Manifests(ms) == Manifests(ms[1..]);
      }
    }
  }

  /**
   The loop adds no outcome of its own: its verdict is acceptance or the
   verdict of one of the matching members.
   */
  lemma {:induction false} VerdictOfSomeMember(libs: Libraries, ms: seq<Member>, appId: string)
    ensures var r := EntriesVerdict(libs, ms, appId);
      r.Accepted? || exists k | 0 <= k < |ms| :: IsManifest(ms[k].name) && r == MemberVerdict(libs, ms[k], appId)
    decreases |ms|
  {
    if ms != [] {
      VerdictOfSomeMember(libs, ms[1..], appId);
      var r := EntriesVerdict(libs, ms, appId);
      if !r.Accepted? && r == EntriesVerdict(libs, ms[1..], appId) {
        var k :| 0 <= k < |ms| - 1 && IsManifest(ms[1..][k].name) && r == MemberVerdict(libs, ms[1..][k], appId);
        assert ms[1..][k] == ms[k + 1];
      }
    }
  }

  /**
   Members that do not match cannot affect the result: two archives whose
   matching members agree get the same verdict, however their other members
   differ.
   */
  lemma OtherMembersIrrelevant(libs: Libraries, ms: seq<Member>, ms': seq<Member>, appId: string)
    requires Manifests(ms) == Manifests(ms')
    ensures EntriesVerdict(libs, ms, appId) == EntriesVerdict(libs, ms', appId)
  {
    ManifestsOnlyMatter(libs, ms, appId);
    ManifestsOnlyMatter(libs, ms', appId);
  }

  /** An archive with no matching member passes the check, whatever its other members hold. */
  lemma {:induction false} NoManifestAccepted(libs: Libraries, ms: seq<Member>, appId: string)
    requires forall k | 0 <= k < |ms| :: !IsManifest(ms[k].name)
    ensures EntriesVerdict(libs, ms, appId) == Accepted
    decreases |ms|
  {
    if ms != [] {
      NoManifestAccepted(libs, ms[1..], appId);
    }
  }

  /** The check passes iff every matching member passes all four stages. */
  lemma {:induction false} AcceptedIff(libs: Libraries, ms: seq<Member>, appId: string)
    ensures EntriesVerdict(libs, ms, appId).Accepted? <==>
              forall k | 0 <= k < |ms| && IsManifest(ms[k].name) :: PassesAllStages(libs, ms[k], appId)
    decreases |ms|
  {
    if ms != [] {
      AcceptedIff(libs, ms[1..], appId);
      assert forall k | 1 <= k < |ms| :: ms[k] == ms[1..][k - 1];
    }
  }

  /**
   The first matching member that fails decides the verdict, and the members
   after it are never looked at: any members may follow it.
   */
  lemma {:induction false} FirstFailureDecides(libs: Libraries, ms: seq<Member>, i: nat, later: seq<Member>, appId: string)
    requires i < |ms| && IsManifest(ms[i].name)
    requires !MemberVerdict(libs, ms[i], appId).Accepted?
    requires forall k | 0 <= k < i && IsManifest(ms[k].name) :: MemberVerdict(libs, ms[k], appId).Accepted?
    ensures EntriesVerdict(libs, ms, appId) == MemberVerdict(libs, ms[i], appId)
    ensures EntriesVerdict(libs, ms[..i + 1] + later, appId) == MemberVerdict(libs, ms[i], appId)
    decreases i
  {
    var cut := ms[..i + 1] + later;
    assert cut[0] == ms[0];
    if i > 0 {
      assert ms[1..][i - 1] == ms[i];
      assert forall k | 0 <= k < i - 1 :: ms[1..][k] == ms[k + 1];
      FirstFailureDecides(libs, ms[1..], i - 1, later, appId);
      assert cut[1..] == ms[1..][..i] + later;
    }
  }

  /**
   The scenario of one signed profile among any other members (the app's
   payload): the archive passes exactly when the profile's identifier is the
   configured one.
   */
  lemma SingleProfileScenario(libs: Libraries, archive: Bytes, m: Member, signed: Bytes, profile: Profile, id: string, appId: string)
    requires libs.openZip(archive).Some? && Manifests(libs.openZip(archive).value) == [m]
    requires m.data == Readable(signed)
    requires libs.parsePkcs7(signed).Some? && libs.parsePkcs7(signed).value.signatureValid
    requires libs.decodePlist(libs.parsePkcs7(signed).value.content) == Some(profile)
    requires ENTITLEMENTS_KEY in profile && profile[ENTITLEMENTS_KEY].Dict?
    requires APP_ID_KEY in profile[ENTITLEMENTS_KEY].entries
    requires profile[ENTITLEMENTS_KEY].entries[APP_ID_KEY] == Str(id)
    ensures ZipCheckSpec(libs, archive, appId).Accepted? <==> id == appId
    ensures id != appId ==> ZipCheckSpec(libs, archive, appId) == Rejected(InvalidAppId(Some(Str(id)), appId))
  {
    ManifestsOnlyMatter(libs, libs.openZip(archive).value, appId);
    assert IsManifest(m.name);
    assert [m][1..] == [];
    assert AppIdOf(profile[ENTITLEMENTS_KEY].entries) == Some(Str(id));
    assert MemberVerdict(libs, m, appId) == AppIdVerdict(profile, appId);
    assert EntriesVerdict(libs, [m][1..], appId) == Accepted;
    assert ZipCheckSpec(libs, archive, appId) == EntriesVerdict(libs, libs.openZip(archive).value, appId);
  }
}

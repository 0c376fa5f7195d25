/**
  Realm updates: merging a partial representation over the stored realm, replacing the realm by a
  full representation, and representing a stored realm for a reader.
 */
module RealmMerge {
  import opened Names
  import opened Prelude

  type I32 = x: int | -0x8000_0000 <= x < 0x8000_0000
  type U32 = x: int | 0 <= x < 0x1_0000_0000
  type I64 = x: int | -0x8000_0000_0000_0000 <= x < 0x8000_0000_0000_0000
  type Seconds = x: int | 0 < x < 0x1_0000_0000_0000_0000 witness 1

  datatype Algorithm = HmacSha1 | HmacSha256 | HmacSha512

  datatype Otp = Otp(algorithm: Algorithm, digits: U32, period: U32, window: U32)

  datatype Policy = Policy(rules: string)

  /** The JSON form of password policies. */
  datatype Codec = Codec(parse: string -> Option<Policy>, write: Policy -> string)

  datatype Lifespans<T> = Lifespans(access: T, refresh: T, ssoIdle: T, ssoMax: T, offlineIdle: T, rememberMe: T)

  /** The fields that are checked; an error names the first bad one. */
  datatype Checked =
    | RealmId | NameOfRealm | DisplayName | PasswordPolicy
    | AccessTokenLifespan | RefreshTokenLifespan | SsoSessionIdleTimeout | SsoSessionMaxLifespan
    | OfflineSessionIdleTimeout | RememberMeSessionIdleSecs | LoginTheme | EmailTheme | AdminTheme
    | OtpPolicyAlgorithm | OtpPolicyDigits | OtpPolicyPeriod | OtpPolicyLookAheadWindow

  /** The fields that are copied without a check. */
  datatype Field =
    | Enabled | SslRequired | InternationalizationEnabled | SupportedLocales | DefaultLocale | DefaultRole
    | BruteForceProtected | MaxLoginFailures | WaitIncrementSecs | MaxFailureWaitSecs | LockoutDurationSecs
    | RegistrationEnabled | ResetPasswordAllowed | RememberMeEnabled | VerifyEmailEnabled
    | LoginWithEmailAllowed | DuplicateEmailsAllowed | EditUsernameAllowed
    | EventsEnabled | EventsExpirationSecs | AdminEventsEnabled | IncludeRepresentations | EventsListeners
    | NotBefore | DefaultGroups
    | BrowserFlow | DirectGrantFlow | ResetCredentialsFlow | FirstBrokerLoginFlow | RegistrationFlow

  datatype Value = Flag(on: bool) | Number(n: int) | Text(text: string) | Texts(texts: seq<string>)

  /** A stored realm. A nullable field of `settings` that is unset is absent from the map. */
  datatype Realm = Realm(id: string, name: string, displayName: Option<string>, policy: Policy,
                         lifespans: Lifespans<Seconds>, loginTheme: Option<string>, emailTheme: Option<string>,
                         adminTheme: Option<string>, otp: Otp, attributes: map<string, string>,
                         settings: map<Field, Value>)

  /** A request or response body. */
  datatype Rep = Rep(id: Option<string>, realm: string, displayName: Option<string>, policy: Option<string>,
                     lifespans: Lifespans<Option<I64>>, loginTheme: Option<string>, emailTheme: Option<string>,
                     adminTheme: Option<string>, otpAlgorithm: Option<string>, otpDigits: Option<I32>,
                     otpPeriod: Option<I32>, otpWindow: Option<I32>, attributes: Option<map<string, string>>,
                     settings: map<Field, Value>)

  // --- Conversions ---------------------------------------------------------

  function AsI64(u: Seconds): (i: I64) {
    if u < 0x8000_0000_0000_0000 then u else u - 0x1_0000_0000_0000_0000
  }

  function AsI32(u: U32): (i: I32) {
    if u < 0x8000_0000 then u else u - 0x1_0000_0000
  }

  function Lifespan(value: Option<I64>, fallback: I64): (r: Option<Seconds>) {
    var seconds := Or(value, fallback);
    if seconds > 0 then Some(seconds) else None
  }

  function ParseAlgorithm(s: string): (r: Option<Algorithm>) {
    if s == "HmacSHA1" then Some(HmacSha1)
    else if s == "HmacSHA256" then Some(HmacSha256)
    else if s == "HmacSHA512" then Some(HmacSha512)
    else None
  }

  function PrintAlgorithm(a: Algorithm): (s: string)
    ensures ParseAlgorithm(s) == Some(a)
  {
    match a
    case HmacSha1 => "HmacSHA1"
    case HmacSha256 => "HmacSHA256"
    case HmacSha512 => "HmacSHA512"
  }

  function ThemeName(s: string): (r: Option<string>) {
    var name := ValidName(s);
    if name.Some? && ('/' in name.value || '\\' in name.value) then None else name
  }

  function OtpProblem(rep: Rep): (r: Option<Checked>) {
    if rep.otpAlgorithm.Some? && ParseAlgorithm(rep.otpAlgorithm.value).None? then Some(OtpPolicyAlgorithm)
    else if rep.otpDigits.Some? && rep.otpDigits.value !in {6, 8} then Some(OtpPolicyDigits)
    else if rep.otpPeriod.Some? && rep.otpPeriod.value < 1 then Some(OtpPolicyPeriod)
    else if rep.otpWindow.Some? && !(0 <= rep.otpWindow.value <= 5) then Some(OtpPolicyLookAheadWindow)
    else None
  }

  function OtpFrom(rep: Rep, stored: Otp): (r: Otp)
    requires OtpProblem(rep).None?
  {
    Otp(if rep.otpAlgorithm.Some? then ParseAlgorithm(rep.otpAlgorithm.value).value else stored.algorithm,
        Or(rep.otpDigits, stored.digits), Or(rep.otpPeriod, stored.period), Or(rep.otpWindow, stored.window))
  }

  // --- Merging -------------------------------------------------------------

  function SomeIf(bad: bool, field: Checked, otherwise: Option<Checked>): (r: Option<Checked>) {
    if bad then Some(field) else otherwise
  }

  predicate BadName(value: Option<string>) {
    value.Some? && ValidName(value.value).None?
  }

  predicate BadTheme(value: Option<string>) {
    value.Some? && ThemeName(value.value).None?
  }

  predicate BadPolicy(codec: Codec, value: Option<string>) {
    value.Some? && codec.parse(value.value).None?
  }

  predicate BadLifespan(value: Option<I64>, stored: Seconds) {
    Lifespan(value, AsI64(stored)).None?
  }

  function LeadingProblem(codec: Codec, rep: Rep): (r: Option<Checked>) {
    SomeIf(BadName(rep.displayName), DisplayName, SomeIf(BadPolicy(codec, rep.policy), PasswordPolicy, None))
  }

  function LifespanProblem(l: Lifespans<Option<I64>>, m: Lifespans<Seconds>): (r: Option<Checked>) {
    SomeIf(BadLifespan(l.access, m.access), AccessTokenLifespan,
    SomeIf(BadLifespan(l.refresh, m.refresh), RefreshTokenLifespan,
    SomeIf(BadLifespan(l.ssoIdle, m.ssoIdle), SsoSessionIdleTimeout,
    SomeIf(BadLifespan(l.ssoMax, m.ssoMax), SsoSessionMaxLifespan,
    SomeIf(BadLifespan(l.offlineIdle, m.offlineIdle), OfflineSessionIdleTimeout, None)))))
  }

  function ThemeProblem(rep: Rep): (r: Option<Checked>) {
    SomeIf(BadTheme(rep.loginTheme), LoginTheme,
    SomeIf(BadTheme(rep.emailTheme), EmailTheme,
    SomeIf(BadTheme(rep.adminTheme), AdminTheme, None)))
  }

  function TrailingProblem(rep: Rep, base: Realm): (r: Option<Checked>) {
    SomeIf(BadLifespan(rep.lifespans.rememberMe, base.lifespans.rememberMe), RememberMeSessionIdleSecs, OtpProblem(rep))
  }

  /** The first field, in the order of the merge, that the merge refuses. */
  function Problem(codec: Codec, rep: Rep, base: Realm): (r: Option<Checked>) {
    OrElse(LeadingProblem(codec, rep),
    OrElse(LifespanProblem(rep.lifespans, base.lifespans),
    OrElse(ThemeProblem(rep), TrailingProblem(rep, base))))
  }

  function MergedLifespans(l: Lifespans<Option<I64>>, m: Lifespans<Seconds>): (r: Lifespans<Seconds>)
    requires !BadLifespan(l.access, m.access) && !BadLifespan(l.refresh, m.refresh) && !BadLifespan(l.ssoIdle, m.ssoIdle)
    requires !BadLifespan(l.ssoMax, m.ssoMax) && !BadLifespan(l.offlineIdle, m.offlineIdle)
    requires !BadLifespan(l.rememberMe, m.rememberMe)
  {
    Lifespans(Lifespan(l.access, AsI64(m.access)).value, Lifespan(l.refresh, AsI64(m.refresh)).value,
              Lifespan(l.ssoIdle, AsI64(m.ssoIdle)).value, Lifespan(l.ssoMax, AsI64(m.ssoMax)).value,
              Lifespan(l.offlineIdle, AsI64(m.offlineIdle)).value, Lifespan(l.rememberMe, AsI64(m.rememberMe)).value)
  }

  function Merged(codec: Codec, rep: Rep, base: Realm): (r: Realm)
    requires Problem(codec, rep, base).None?
  {
    Realm(base.id, base.name,
          if rep.displayName.Some? then ValidName(rep.displayName.value) else base.displayName,
          if rep.policy.Some? then codec.parse(rep.policy.value).value else base.policy,
          MergedLifespans(rep.lifespans, base.lifespans),
          MergedTheme(rep.loginTheme, base.loginTheme),
          MergedTheme(rep.emailTheme, base.emailTheme),
          MergedTheme(rep.adminTheme, base.adminTheme),
          OtpFrom(rep, base.otp), Or(rep.attributes, base.attributes), base.settings + rep.settings)
  }

  function Merge(codec: Codec, rep: Rep, base: Realm): (r: Result<Realm, Checked>) {
    var problem := Problem(codec, rep, base);
    if problem.Some? then Err(problem.value) else Ok(Merged(codec, rep, base))
  }

  method LifespanOrError(value: Option<I64>, stored: Seconds, field: Checked) returns (r: Result<Seconds, Checked>)
    ensures r == if BadLifespan(value, stored) then Err(field) else Ok(Lifespan(value, AsI64(stored)).value)
  {
    var seconds := Lifespan(value, AsI64(stored));
    r := if seconds.Some? then Ok(seconds.value) else Err(field);
  }

  method MergeLeading(codec: Codec, rep: Rep, base: Realm) returns (r: Result<Realm, Checked>)
    ensures LeadingProblem(codec, rep).Some? ==> r == Err(LeadingProblem(codec, rep).value)
    ensures LeadingProblem(codec, rep).None? ==>
              r == Ok(base.(displayName := if rep.displayName.Some? then ValidName(rep.displayName.value) else base.displayName,
                            policy := if rep.policy.Some? then codec.parse(rep.policy.value).value else base.policy))
  {
    var realm := base;
    if rep.displayName.Some? {
      var name := ValidName(rep.displayName.value);
      if name.None? {
        return Err(DisplayName);
      }
      realm := realm.(displayName := name);
    }
    if rep.policy.Some? {
      var policy := codec.parse(rep.policy.value);
      if policy.None? {
        return Err(PasswordPolicy);
      }
      realm := realm.(policy := policy.value);
    }
    return Ok(realm);
  }

  /** The five lifespans that come first, overwritten one by one. */
  method MergeLifespans(l: Lifespans<Option<I64>>, stored: Lifespans<Seconds>) returns (r: Result<Lifespans<Seconds>, Checked>)
    ensures LifespanProblem(l, stored).Some? ==> r == Err(LifespanProblem(l, stored).value)
    ensures LifespanProblem(l, stored).None? ==>
              r == Ok(MergedLifespans(l.(rememberMe := Some(1)), stored).(rememberMe := stored.rememberMe))
  {
    var m := stored;
    var s := LifespanOrError(l.access, m.access, AccessTokenLifespan);
    if s.Err? {
      return Err(s.error);
    }
    m := m.(access := s.value);
    s := LifespanOrError(l.refresh, m.refresh, RefreshTokenLifespan);
    if s.Err? {
      return Err(s.error);
    }
    m := m.(refresh := s.value);
    s := LifespanOrError(l.ssoIdle, m.ssoIdle, SsoSessionIdleTimeout);
    if s.Err? {
      return Err(s.error);
    }
    m := m.(ssoIdle := s.value);
    s := LifespanOrError(l.ssoMax, m.ssoMax, SsoSessionMaxLifespan);
    if s.Err? {
      return Err(s.error);
    }
    m := m.(ssoMax := s.value);
    s := LifespanOrError(l.offlineIdle, m.offlineIdle, OfflineSessionIdleTimeout);
    if s.Err? {
      return Err(s.error);
    }
    return Ok(m.(offlineIdle := s.value));
  }

  function MergedTheme(value: Option<string>, stored: Option<string>): (r: Option<string>) {
    if value.Some? then ThemeName(value.value) else stored
  }

  method MergeThemes(rep: Rep, base: Realm) returns (r: Result<Realm, Checked>)
    ensures ThemeProblem(rep).Some? ==> r == Err(ThemeProblem(rep).value)
    ensures ThemeProblem(rep).None? ==>
              r == Ok(base.(loginTheme := MergedTheme(rep.loginTheme, base.loginTheme),
                            emailTheme := MergedTheme(rep.emailTheme, base.emailTheme),
                            adminTheme := MergedTheme(rep.adminTheme, base.adminTheme)))
  {
    var realm := base;
    if rep.loginTheme.Some? {
      var theme := ThemeName(rep.loginTheme.value);
      if theme.None? {
        return Err(LoginTheme);
      }
      realm := realm.(loginTheme := theme);
    }
    if rep.emailTheme.Some? {
      var theme := ThemeName(rep.emailTheme.value);
      if theme.None? {
        return Err(EmailTheme);
      }
      realm := realm.(emailTheme := theme);
    }
    if rep.adminTheme.Some? {
      var theme := ThemeName(rep.adminTheme.value);
      if theme.None? {
        return Err(AdminTheme);
      }
      realm := realm.(adminTheme := theme);
    }
    return Ok(realm);
  }

  /** The merge as it works: fields are overwritten in turn, and the first bad one ends it. */
  method MergeRealmRepresentation(codec: Codec, rep: Rep, base: Realm) returns (r: Result<Realm, Checked>)
    ensures r == Merge(codec, rep, base)
  {
    r := MergeLeading(codec, rep, base);
    if r.Err? {
      return;
    }
    var realm := r.value;
    var lifespans := MergeLifespans(rep.lifespans, realm.lifespans);
    if lifespans.Err? {
      return Err(lifespans.error);
    }
    realm := realm.(lifespans := lifespans.value);
    r := MergeThemes(rep, realm);
    if r.Err? {
      return;
    }
    realm := r.value;
    realm := realm.(settings := realm.settings + rep.settings);
    if rep.attributes.Some? {
      realm := realm.(attributes := rep.attributes.value);
    }
    var idle := LifespanOrError(rep.lifespans.rememberMe, realm.lifespans.rememberMe, RememberMeSessionIdleSecs);
    if idle.Err? {
      return Err(idle.error);
    }
    realm := realm.(lifespans := realm.lifespans.(rememberMe := idle.value));
    var problem := OtpProblem(rep);
    if problem.Some? {
      return Err(problem.value);
    }
    return Ok(realm.(otp := OtpFrom(rep, realm.otp)));
  }

  // --- Composition ---------------------------------------------------------

  function NewerLifespans(m: Lifespans<Option<I64>>, l: Lifespans<Option<I64>>): (r: Lifespans<Option<I64>>) {
    Lifespans(OrElse(m.access, l.access), OrElse(m.refresh, l.refresh), OrElse(m.ssoIdle, l.ssoIdle),
              OrElse(m.ssoMax, l.ssoMax), OrElse(m.offlineIdle, l.offlineIdle), OrElse(m.rememberMe, l.rememberMe))
  }

  /** One body that says what `first` and then `second` say. */
  function Overlay(first: Rep, second: Rep): (r: Rep) {
    Rep(second.id, second.realm, OrElse(second.displayName, first.displayName), OrElse(second.policy, first.policy),
        NewerLifespans(second.lifespans, first.lifespans),
        OrElse(second.loginTheme, first.loginTheme), OrElse(second.emailTheme, first.emailTheme),
        OrElse(second.adminTheme, first.adminTheme), OrElse(second.otpAlgorithm, first.otpAlgorithm),
        OrElse(second.otpDigits, first.otpDigits), OrElse(second.otpPeriod, first.otpPeriod),
        OrElse(second.otpWindow, first.otpWindow), OrElse(second.attributes, first.attributes),
        first.settings + second.settings)
  }

  lemma LifespansCompose(first: Option<I64>, second: Option<I64>, stored: Seconds)
    requires !BadLifespan(first, stored)
    ensures var middle := Lifespan(first, AsI64(stored)).value;
            Lifespan(second, AsI64(middle)) == Lifespan(OrElse(second, first), AsI64(stored))
  {
  }

  lemma AllLifespansCompose(l: Lifespans<Option<I64>>, m: Lifespans<Option<I64>>, stored: Lifespans<Seconds>)
    requires LifespanProblem(l, stored).None? && !BadLifespan(l.rememberMe, stored.rememberMe)
    ensures LifespanProblem(m, MergedLifespans(l, stored)) == LifespanProblem(NewerLifespans(m, l), stored)
    ensures BadLifespan(m.rememberMe, MergedLifespans(l, stored).rememberMe)
              == BadLifespan(NewerLifespans(m, l).rememberMe, stored.rememberMe)
    ensures var middle := MergedLifespans(l, stored);
            LifespanProblem(m, middle).None? && !BadLifespan(m.rememberMe, middle.rememberMe) ==>
              MergedLifespans(m, middle) == MergedLifespans(NewerLifespans(m, l), stored)
  {
    LifespansCompose(l.access, m.access, stored.access);
    LifespansCompose(l.refresh, m.refresh, stored.refresh);
    LifespansCompose(l.ssoIdle, m.ssoIdle, stored.ssoIdle);
    LifespansCompose(l.ssoMax, m.ssoMax, stored.ssoMax);
    LifespansCompose(l.offlineIdle, m.offlineIdle, stored.offlineIdle);
    LifespansCompose(l.rememberMe, m.rememberMe, stored.rememberMe);
  }

  lemma ProblemComposes(codec: Codec, first: Rep, second: Rep, base: Realm)
    requires Problem(codec, first, base).None?
    ensures Problem(codec, second, Merged(codec, first, base)) == Problem(codec, Overlay(first, second), base)
  {
    var both := Overlay(first, second);
    AllLifespansCompose(first.lifespans, second.lifespans, base.lifespans);
    assert LeadingProblem(codec, second) == LeadingProblem(codec, both);
    assert ThemeProblem(second) == ThemeProblem(both);
    assert OtpProblem(second) == OtpProblem(both);
  }

  lemma OtpComposes(first: Rep, second: Rep, stored: Otp)
    requires OtpProblem(first).None? && OtpProblem(second).None?
    ensures OtpProblem(Overlay(first, second)).None?
    ensures OtpFrom(second, OtpFrom(first, stored)) == OtpFrom(Overlay(first, second), stored)
  {
  }

  lemma MergedComposes(codec: Codec, first: Rep, second: Rep, base: Realm)
    requires Problem(codec, first, base).None? && Problem(codec, second, Merged(codec, first, base)).None?
    requires Problem(codec, Overlay(first, second), base).None?
    ensures Merged(codec, second, Merged(codec, first, base)) == Merged(codec, Overlay(first, second), base)
  {
    var middle := Merged(codec, first, base);
    var left, right := Merged(codec, second, middle), Merged(codec, Overlay(first, second), base);
    AllLifespansCompose(first.lifespans, second.lifespans, base.lifespans);
    OtpComposes(first, second, base.otp);
    PlainFieldsCompose(codec, first, second, base);
    assert left.lifespans == right.lifespans && left.otp == right.otp && left.attributes == right.attributes;
  }

  lemma PlainFieldsCompose(codec: Codec, first: Rep, second: Rep, base: Realm)
    requires Problem(codec, first, base).None? && Problem(codec, second, Merged(codec, first, base)).None?
    requires Problem(codec, Overlay(first, second), base).None?
    ensures var left, right := Merged(codec, second, Merged(codec, first, base)), Merged(codec, Overlay(first, second), base);
            && left.displayName == right.displayName && left.policy == right.policy && left.loginTheme == right.loginTheme
            && left.emailTheme == right.emailTheme && left.adminTheme == right.adminTheme && left.settings == right.settings
  {
    assert base.settings + first.settings + second.settings == base.settings + (first.settings + second.settings);
  }

  /** After an accepted merge, a second one acts, errors included, like one merge of both bodies. */
  lemma MergeComposes(codec: Codec, first: Rep, second: Rep, base: Realm)
    requires Merge(codec, first, base).Ok?
    ensures Merge(codec, second, Merge(codec, first, base).value) == Merge(codec, Overlay(first, second), base)
  {
    ProblemComposes(codec, first, second, base);
    if Problem(codec, Overlay(first, second), base).None? {
      MergedComposes(codec, first, second, base);
    }
  }

  const NO_LIFESPANS: Lifespans<Option<I64>> := Lifespans(None, None, None, None, None, None)

  /** The body that names the realm and nothing else. */
  function EmptyRep(realm: string): (r: Rep) {
    Rep(None, realm, None, None, NO_LIFESPANS, None, None, None, None, None, None, None, None, map[])
  }

  predicate FitsI64(l: Lifespans<Seconds>) {
    && l.access < 0x8000_0000_0000_0000 && l.refresh < 0x8000_0000_0000_0000 && l.ssoIdle < 0x8000_0000_0000_0000
    && l.ssoMax < 0x8000_0000_0000_0000 && l.offlineIdle < 0x8000_0000_0000_0000 && l.rememberMe < 0x8000_0000_0000_0000
  }

  /** Omitted fields keep their values exactly when every stored lifespan survives the signed cast. */
  lemma EmptyMergeIff(codec: Codec, base: Realm)
    ensures Merge(codec, EmptyRep(base.name), base) == Ok(base) <==> FitsI64(base.lifespans)
  {
    assert base.settings + map[] == base.settings;
  }

  // --- Reading a realm -----------------------------------------------------

  const SECTOR_KEY := "pairwise_sector_key"

  /** The representation of a stored realm, without its pairwise sector key. */
  function Represent(codec: Codec, realm: Realm): (r: Rep) {
    var l := realm.lifespans;
    Rep(Some(realm.id), realm.name, realm.displayName, Some(codec.write(realm.policy)),
        Lifespans(Some(AsI64(l.access)), Some(AsI64(l.refresh)), Some(AsI64(l.ssoIdle)), Some(AsI64(l.ssoMax)),
                  Some(AsI64(l.offlineIdle)), Some(AsI64(l.rememberMe))),
        realm.loginTheme, realm.emailTheme, realm.adminTheme, Some(PrintAlgorithm(realm.otp.algorithm)),
        Some(AsI32(realm.otp.digits)), Some(AsI32(realm.otp.period)), Some(AsI32(realm.otp.window)),
        Some(realm.attributes - {SECTOR_KEY}), realm.settings)
  }

  ghost predicate RoundTrips(codec: Codec) {
    forall p :: codec.parse(codec.write(p)) == Some(p)
  }

  predicate OtpInRange(otp: Otp) {
    otp.digits in {6, 8} && 1 <= otp.period < 0x8000_0000 && otp.window <= 5
  }

  /** The names a realm holds are names that their validators would store as they are. */
  predicate StoredNames(realm: Realm) {
    && (realm.displayName.Some? ==> ValidName(realm.displayName.value) == realm.displayName)
    && (realm.loginTheme.Some? ==> ThemeName(realm.loginTheme.value) == realm.loginTheme)
    && (realm.emailTheme.Some? ==> ThemeName(realm.emailTheme.value) == realm.emailTheme)
    && (realm.adminTheme.Some? ==> ThemeName(realm.adminTheme.value) == realm.adminTheme)
  }

  lemma ValidNamesStay(s: string)
    ensures ValidName(s).Some? ==> ValidName(ValidName(s).value) == ValidName(s)
    ensures ThemeName(s).Some? ==> ThemeName(ThemeName(s).value) == ThemeName(s)
  {
  }

  lemma RepresentationProblem(codec: Codec, realm: Realm, base: Realm)
    requires RoundTrips(codec) && StoredNames(realm)
    ensures Problem(codec, Represent(codec, realm), base).None? <==> FitsI64(realm.lifespans) && OtpInRange(realm.otp)
  {
    var rep := Represent(codec, realm);
    assert codec.parse(codec.write(realm.policy)) == Some(realm.policy);
    assert LeadingProblem(codec, rep).None? && ThemeProblem(rep).None?;
    assert OtpProblem(rep).None? <==> OtpInRange(realm.otp);
  }

  /** What a realm reads as is accepted again, and changes nothing but the sector key, exactly in range. */
  lemma RepresentationMergesIff(codec: Codec, realm: Realm)
    requires RoundTrips(codec) && StoredNames(realm)
    ensures var r := Merge(codec, Represent(codec, realm), realm);
            && (r.Ok? <==> FitsI64(realm.lifespans) && OtpInRange(realm.otp))
            && (r.Ok? ==> r.value == realm.(attributes := realm.attributes - {"pairwise_sector_key"}))
  {
    RepresentationProblem(codec, realm, realm);
    assert realm.settings + realm.settings == realm.settings;
    assert codec.parse(codec.write(realm.policy)) == Some(realm.policy);
  }

  // --- Full replacement ----------------------------------------------------

  /** The values a realm starts with; nullable fields start unset. */
  function DefaultRealm(policy: Policy): (r: Realm) {
    Realm("default", "default", None, policy, Lifespans(300, 1800, 1800, 36000, 2592000, 604800), None, None, None,
          Otp(HmacSha1, 6, 30, 1), map[],
          map[Enabled := Flag(true), SslRequired := Text("external"), InternationalizationEnabled := Flag(false),
              SupportedLocales := Texts([]), BruteForceProtected := Flag(false), MaxLoginFailures := Number(5),
              WaitIncrementSecs := Number(60), MaxFailureWaitSecs := Number(900), LockoutDurationSecs := Number(900),
              RegistrationEnabled := Flag(false), ResetPasswordAllowed := Flag(false), RememberMeEnabled := Flag(false),
              VerifyEmailEnabled := Flag(false), LoginWithEmailAllowed := Flag(true),
              DuplicateEmailsAllowed := Flag(false), EditUsernameAllowed := Flag(true), EventsEnabled := Flag(true),
              EventsExpirationSecs := Number(0), AdminEventsEnabled := Flag(true),
              IncludeRepresentations := Flag(false), EventsListeners := Texts(["logging"]), NotBefore := Number(0),
              DefaultGroups := Texts([])])
  }

  /** A stored lifespan of 2^63 seconds makes the merge refuse a body that does not mention it. */
  lemma HugeLifespanIsRefused(codec: Codec, policy: Policy)
    ensures var base := DefaultRealm(policy).(lifespans := DefaultRealm(policy).lifespans.(access := 0x8000_0000_0000_0000));
            Merge(codec, EmptyRep("default"), base) == Err(AccessTokenLifespan)
  {
  }

  predicate NotInRealmName(c: char) {
    IsSpace(c) || c in {'/', '\\', '?', '#', '%', '+', '&', '='} || c as int >= 0x80
  }

  function RealmName(s: string): (r: Option<string>) {
    var t := ValidName(s);
    if t.Some? && (exists i :: 0 <= i < |t.value| && NotInRealmName(t.value[i])) then None else t
  }

  /** The first field, in the order of the conversion, that a full replacement refuses. */
  function ReplaceProblem(codec: Codec, rep: Rep): (r: Option<Checked>) {
    var l := rep.lifespans;
    if OtpProblem(rep).Some? then OtpProblem(rep) else
    SomeIf(BadPolicy(codec, rep.policy), PasswordPolicy,
    SomeIf(rep.id == Some(""), RealmId,
    SomeIf(RealmName(rep.realm).None?, NameOfRealm,
    SomeIf(BadName(rep.displayName), DisplayName,
    SomeIf(Lifespan(l.access, 300).None?, AccessTokenLifespan,
    SomeIf(Lifespan(l.refresh, 1800).None?, RefreshTokenLifespan,
    SomeIf(Lifespan(l.ssoIdle, 1800).None?, SsoSessionIdleTimeout,
    SomeIf(Lifespan(l.ssoMax, 36000).None?, SsoSessionMaxLifespan,
    SomeIf(Lifespan(l.offlineIdle, 2592000).None?, OfflineSessionIdleTimeout,
    SomeIf(BadTheme(rep.loginTheme), LoginTheme,
    SomeIf(BadTheme(rep.emailTheme), EmailTheme,
    SomeIf(BadTheme(rep.adminTheme), AdminTheme,
    SomeIf(Lifespan(l.rememberMe, 604800).None?, RememberMeSessionIdleSecs, None)))))))))))))
  }

  /** The settings whose defaults the conversion names itself. */
  const REPLACED: map<Field, Value> :=
    map[Enabled := Flag(true), SslRequired := Text("external"), SupportedLocales := Texts([]), DefaultGroups := Texts([])]

  function Replacement(codec: Codec, policy: Policy, freshId: string, rep: Rep): (r: Realm)
    requires ReplaceProblem(codec, rep).None?
  {
    var l := rep.lifespans;
    Realm(Or(rep.id, freshId), RealmName(rep.realm).value,
          if rep.displayName.Some? then ValidName(rep.displayName.value) else None,
          if rep.policy.Some? then codec.parse(rep.policy.value).value else policy,
          Lifespans(Lifespan(l.access, 300).value, Lifespan(l.refresh, 1800).value, Lifespan(l.ssoIdle, 1800).value,
                    Lifespan(l.ssoMax, 36000).value, Lifespan(l.offlineIdle, 2592000).value,
                    Lifespan(l.rememberMe, 604800).value),
          MergedTheme(rep.loginTheme, None),
          MergedTheme(rep.emailTheme, None),
          MergedTheme(rep.adminTheme, None),
          OtpFrom(rep, Otp(HmacSha1, 6, 30, 1)), Or(rep.attributes, map[]),
          DefaultRealm(policy).settings + REPLACED + rep.settings)
  }

  function Replace(codec: Codec, policy: Policy, freshId: string, rep: Rep): (r: Result<Realm, Checked>) {
    var problem := ReplaceProblem(codec, rep);
    if problem.Some? then Err(problem.value) else Ok(Replacement(codec, policy, freshId, rep))
  }

  /** A full replacement is a merge over the default realm, but for the id and the name. */
  lemma ReplaceIsMergeOverDefaults(codec: Codec, policy: Policy, freshId: string, rep: Rep)
    ensures var merged, replaced := Merge(codec, rep, DefaultRealm(policy)), Replace(codec, policy, freshId, rep);
            && (replaced.Ok? <==> merged.Ok? && rep.id != Some("") && RealmName(rep.realm).Some?)
            && (replaced.Ok? ==>
                  replaced.value == merged.value.(id := Or(rep.id, freshId), name := RealmName(rep.realm).value))
  {
    assert DefaultRealm(policy).settings + REPLACED == DefaultRealm(policy).settings;
  }
}

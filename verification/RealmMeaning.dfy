/**
  What a realm body does, field by field: which values are acceptable, which bad field is reported, and what is
  stored, for the merge and for the replacement.
 */
module RealmMeaning {
  import opened Names
  import opened Prelude
  import opened RealmMerge

  // --- Acceptable values ---------------------------------------------------

  ghost predicate GoodName(given: Option<string>) {
    given.None? || ValidName(given.value).Some?
  }

  /** A theme is a name without slashes of either kind. */
  ghost predicate GoodTheme(given: Option<string>) {
    given.None? || exists name :: ValidName(given.value) == Some(name) && '/' !in name && '\\' !in name
  }

  /** A given lifespan is positive; a stored one has to fit a signed number, because it is cast to one. */
  ghost predicate GoodLifespan(given: Option<I64>, stored: Seconds) {
    if given.Some? then 0 < given.value else stored < 9223372036854775808
  }

  ghost predicate Good(codec: Codec, rep: Rep, base: Realm, f: Checked) {
    match f
    case RealmId => rep.id != Some("")
    case NameOfRealm => RealmName(rep.realm).Some?
    case DisplayName => GoodName(rep.displayName)
    case PasswordPolicy => rep.policy.Some? ==> codec.parse(rep.policy.value).Some?
    case AccessTokenLifespan => GoodLifespan(rep.lifespans.access, base.lifespans.access)
    case RefreshTokenLifespan => GoodLifespan(rep.lifespans.refresh, base.lifespans.refresh)
    case SsoSessionIdleTimeout => GoodLifespan(rep.lifespans.ssoIdle, base.lifespans.ssoIdle)
    case SsoSessionMaxLifespan => GoodLifespan(rep.lifespans.ssoMax, base.lifespans.ssoMax)
    case OfflineSessionIdleTimeout => GoodLifespan(rep.lifespans.offlineIdle, base.lifespans.offlineIdle)
    case RememberMeSessionIdleSecs => GoodLifespan(rep.lifespans.rememberMe, base.lifespans.rememberMe)
    case LoginTheme => GoodTheme(rep.loginTheme)
    case EmailTheme => GoodTheme(rep.emailTheme)
    case AdminTheme => GoodTheme(rep.adminTheme)
    case OtpPolicyAlgorithm => rep.otpAlgorithm.Some? ==> rep.otpAlgorithm.value in {"HmacSHA1", "HmacSHA256", "HmacSHA512"}
    case OtpPolicyDigits => rep.otpDigits.Some? ==> rep.otpDigits.value == 6 || rep.otpDigits.value == 8
    case OtpPolicyPeriod => rep.otpPeriod.Some? ==> 0 < rep.otpPeriod.value
    case OtpPolicyLookAheadWindow => rep.otpWindow.Some? ==> 0 <= rep.otpWindow.value < 6
  }

  // --- Which field is reported ---------------------------------------------

  const OTP_ORDER := [OtpPolicyAlgorithm, OtpPolicyDigits, OtpPolicyPeriod, OtpPolicyLookAheadWindow]
  const LIFESPAN_ORDER := [AccessTokenLifespan, RefreshTokenLifespan, SsoSessionIdleTimeout, SsoSessionMaxLifespan,
                           OfflineSessionIdleTimeout]
  const THEME_ORDER := [LoginTheme, EmailTheme, AdminTheme]

  const MERGE_ORDER :=
    [DisplayName, PasswordPolicy] + (LIFESPAN_ORDER + (THEME_ORDER + ([RememberMeSessionIdleSecs] + OTP_ORDER)))

  const REPLACE_ORDER :=
    OTP_ORDER + ([PasswordPolicy, RealmId, NameOfRealm, DisplayName] +
                 (LIFESPAN_ORDER + (THEME_ORDER + [RememberMeSessionIdleSecs])))

  ghost function FirstBad(codec: Codec, rep: Rep, base: Realm, order: seq<Checked>): (r: Option<Checked>) {
    if order == [] then None
    else if !Good(codec, rep, base, order[0]) then Some(order[0])
    else FirstBad(codec, rep, base, order[1..])
  }

  lemma {:induction false} FirstBadSplits(codec: Codec, rep: Rep, base: Realm, a: seq<Checked>, b: seq<Checked>)
    ensures FirstBad(codec, rep, base, a + b) == OrElse(FirstBad(codec, rep, base, a), FirstBad(codec, rep, base, b))
  {
    if a == [] {
      assert a + b == b;
    } else {
      assert (a + b)[1..] == a[1..] + b;
      FirstBadSplits(codec, rep, base, a[1..], b);
    }
  }

  lemma TwoBad(codec: Codec, rep: Rep, base: Realm, f: Checked, g: Checked)
    ensures FirstBad(codec, rep, base, [f]) == if Good(codec, rep, base, f) then None else Some(f)
    ensures FirstBad(codec, rep, base, [f, g]) ==
            if !Good(codec, rep, base, f) then Some(f) else if !Good(codec, rep, base, g) then Some(g) else None
  {
    assert [f][1..] == [] && [f, g][1..] == [g] && [g][1..] == [];
  }

  lemma ThemeIsGood(given: Option<string>)
    ensures BadTheme(given) <==> !GoodTheme(given)
  {
  }

  lemma FirstBadTheme(codec: Codec, rep: Rep, base: Realm)
    ensures ThemeProblem(rep) == FirstBad(codec, rep, base, THEME_ORDER)
  {
    TwoBad(codec, rep, base, EmailTheme, AdminTheme);
    assert THEME_ORDER[1..] == [EmailTheme, AdminTheme];
    ThemeIsGood(rep.loginTheme);
    ThemeIsGood(rep.emailTheme);
    ThemeIsGood(rep.adminTheme);
  }

  lemma FirstBadOtp(codec: Codec, rep: Rep, base: Realm)
    ensures OtpProblem(rep) == FirstBad(codec, rep, base, OTP_ORDER)
  {
    var front, back := [OtpPolicyAlgorithm, OtpPolicyDigits], [OtpPolicyPeriod, OtpPolicyLookAheadWindow];
    FirstBadSplits(codec, rep, base, front, back);
    assert OTP_ORDER == front + back;
    TwoBad(codec, rep, base, OtpPolicyAlgorithm, OtpPolicyDigits);
    TwoBad(codec, rep, base, OtpPolicyPeriod, OtpPolicyLookAheadWindow);
  }

  lemma FirstBadLifespan(codec: Codec, rep: Rep, base: Realm)
    ensures LifespanProblem(rep.lifespans, base.lifespans) == FirstBad(codec, rep, base, LIFESPAN_ORDER)
  {
    var rest := [SsoSessionMaxLifespan, OfflineSessionIdleTimeout];
    var middle := [RefreshTokenLifespan, SsoSessionIdleTimeout];
    FirstBadSplits(codec, rep, base, [AccessTokenLifespan] + middle, rest);
    FirstBadSplits(codec, rep, base, [AccessTokenLifespan], middle);
    assert LIFESPAN_ORDER == [AccessTokenLifespan] + middle + rest;
    TwoBad(codec, rep, base, AccessTokenLifespan, AccessTokenLifespan);
    TwoBad(codec, rep, base, RefreshTokenLifespan, SsoSessionIdleTimeout);
    TwoBad(codec, rep, base, SsoSessionMaxLifespan, OfflineSessionIdleTimeout);
  }

  /** A merge reports the first bad field in this order, and is accepted when there is none. */
  lemma MergeReportsFirst(codec: Codec, rep: Rep, base: Realm)
    ensures var bad := FirstBad(codec, rep, base, MERGE_ORDER);
            if bad.Some? then Merge(codec, rep, base) == Err(bad.value) else Merge(codec, rep, base).Ok?
  {
    var last := [RememberMeSessionIdleSecs] + OTP_ORDER;
    FirstBadSplits(codec, rep, base, [DisplayName, PasswordPolicy], LIFESPAN_ORDER + (THEME_ORDER + last));
    FirstBadSplits(codec, rep, base, LIFESPAN_ORDER, THEME_ORDER + last);
    FirstBadSplits(codec, rep, base, THEME_ORDER, last);
    FirstBadSplits(codec, rep, base, [RememberMeSessionIdleSecs], OTP_ORDER);
    TwoBad(codec, rep, base, DisplayName, PasswordPolicy);
    TwoBad(codec, rep, base, RememberMeSessionIdleSecs, RememberMeSessionIdleSecs);
    FirstBadLifespan(codec, rep, base);
    FirstBadTheme(codec, rep, base);
    FirstBadOtp(codec, rep, base);
  }

  // --- What is stored ------------------------------------------------------

  ghost predicate StoresLifespan(given: Option<I64>, stored: Seconds, after: Seconds) {
    after == if given.Some? then given.value else stored
  }

  ghost predicate StoresName(given: Option<string>, stored: Option<string>, after: Option<string>) {
    after == if given.Some? then ValidName(given.value) else stored
  }

  ghost predicate StoresLifespans(l: Lifespans<Option<I64>>, m: Lifespans<Seconds>, r: Lifespans<Seconds>) {
    && StoresLifespan(l.access, m.access, r.access) && StoresLifespan(l.refresh, m.refresh, r.refresh)
    && StoresLifespan(l.ssoIdle, m.ssoIdle, r.ssoIdle) && StoresLifespan(l.ssoMax, m.ssoMax, r.ssoMax)
    && StoresLifespan(l.offlineIdle, m.offlineIdle, r.offlineIdle) && StoresLifespan(l.rememberMe, m.rememberMe, r.rememberMe)
  }

  ghost predicate StoresOtp(rep: Rep, stored: Otp, after: Otp) {
    && (match rep.otpAlgorithm
        case None => after.algorithm == stored.algorithm
        case Some(name) =>
          && (name == "HmacSHA1" ==> after.algorithm == HmacSha1) && (name == "HmacSHA256" ==> after.algorithm == HmacSha256)
          && (name == "HmacSHA512" ==> after.algorithm == HmacSha512))
    && (after.digits == if rep.otpDigits.Some? then rep.otpDigits.value else stored.digits)
    && (after.period == if rep.otpPeriod.Some? then rep.otpPeriod.value else stored.period)
    && (after.window == if rep.otpWindow.Some? then rep.otpWindow.value else stored.window)
  }

  /** An accepted merge stores every given field, names trimmed, and keeps every other. */
  lemma MergeStores(codec: Codec, rep: Rep, base: Realm)
    requires Merge(codec, rep, base).Ok?
    ensures var r := Merge(codec, rep, base).value;
            && r.id == base.id && r.name == base.name && StoresName(rep.displayName, base.displayName, r.displayName)
            && (if rep.policy.Some? then Some(r.policy) == codec.parse(rep.policy.value) else r.policy == base.policy)
            && StoresLifespans(rep.lifespans, base.lifespans, r.lifespans) && StoresOtp(rep, base.otp, r.otp)
            && StoresName(rep.loginTheme, base.loginTheme, r.loginTheme)
            && StoresName(rep.emailTheme, base.emailTheme, r.emailTheme)
            && StoresName(rep.adminTheme, base.adminTheme, r.adminTheme)
            && (r.attributes == if rep.attributes.Some? then rep.attributes.value else base.attributes)
            && (forall k :: k in rep.settings ==> k in r.settings && r.settings[k] == rep.settings[k])
            && (forall k :: k !in rep.settings ==> Get(r.settings, k) == Get(base.settings, k))
  {
  }

  lemma NamesAndDefaults(codec: Codec, policy: Policy, rep: Rep)
    ensures FirstBad(codec, rep, DefaultRealm(policy), [PasswordPolicy, RealmId, NameOfRealm, DisplayName]) ==
            if BadPolicy(codec, rep.policy) then Some(PasswordPolicy) else if rep.id == Some("") then Some(RealmId)
            else if RealmName(rep.realm).None? then Some(NameOfRealm)
            else if BadName(rep.displayName) then Some(DisplayName) else None
  {
    var base := DefaultRealm(policy);
    FirstBadSplits(codec, rep, base, [PasswordPolicy, RealmId], [NameOfRealm, DisplayName]);
    assert [PasswordPolicy, RealmId] + [NameOfRealm, DisplayName] == [PasswordPolicy, RealmId, NameOfRealm, DisplayName];
    TwoBad(codec, rep, base, PasswordPolicy, RealmId);
    TwoBad(codec, rep, base, NameOfRealm, DisplayName);
  }

  /** A replacement reports in another order; omitted lifespans are the default ones, which are always good. */
  lemma ReplaceReportsFirst(codec: Codec, policy: Policy, freshId: string, rep: Rep)
    ensures var bad := FirstBad(codec, rep, DefaultRealm(policy), REPLACE_ORDER);
            if bad.Some? then Replace(codec, policy, freshId, rep) == Err(bad.value) else Replace(codec, policy, freshId, rep).Ok?
  {
    var base, names := DefaultRealm(policy), [PasswordPolicy, RealmId, NameOfRealm, DisplayName];
    var last := THEME_ORDER + [RememberMeSessionIdleSecs];
    FirstBadSplits(codec, rep, base, OTP_ORDER, names + (LIFESPAN_ORDER + last));
    FirstBadSplits(codec, rep, base, names, LIFESPAN_ORDER + last);
    FirstBadSplits(codec, rep, base, LIFESPAN_ORDER, last);
    FirstBadSplits(codec, rep, base, THEME_ORDER, [RememberMeSessionIdleSecs]);
    TwoBad(codec, rep, base, RememberMeSessionIdleSecs, RememberMeSessionIdleSecs);
    NamesAndDefaults(codec, policy, rep);
    FirstBadOtp(codec, rep, base);
    FirstBadLifespan(codec, rep, base);
    FirstBadTheme(codec, rep, base);
  }

  // --- Defaults ------------------------------------------------------------

  /** What a realm starts with: which switches are on, the numbers and the lists; all else is unset. */
  ghost function DefaultOf(k: Field): (v: Option<Value>) {
    if k in {Enabled, LoginWithEmailAllowed, EditUsernameAllowed, EventsEnabled, AdminEventsEnabled} then Some(Flag(true))
    else if k in {InternationalizationEnabled, BruteForceProtected, RegistrationEnabled, ResetPasswordAllowed,
                  RememberMeEnabled, VerifyEmailEnabled, DuplicateEmailsAllowed, IncludeRepresentations} then Some(Flag(false))
    else if k == MaxLoginFailures then Some(Number(5))
    else if k == WaitIncrementSecs then Some(Number(60))
    else if k in {MaxFailureWaitSecs, LockoutDurationSecs} then Some(Number(15 * 60))
    else if k in {EventsExpirationSecs, NotBefore} then Some(Number(0))
    else if k == SslRequired then Some(Text("external"))
    else if k == EventsListeners then Some(Texts(["logging"]))
    else if k in {SupportedLocales, DefaultGroups} then Some(Texts([]))
    else None
  }

  lemma DefaultFlagsAre(policy: Policy, k: Field)
    requires DefaultOf(k).Some? && DefaultOf(k).value.Flag?
    ensures Get(DefaultRealm(policy).settings, k) == DefaultOf(k)
  {
  }

  lemma DefaultValuesAre(policy: Policy, k: Field)
    requires DefaultOf(k).Some? && !DefaultOf(k).value.Flag?
    ensures Get(DefaultRealm(policy).settings, k) == DefaultOf(k)
  {
  }

  lemma OthersAreUnset(policy: Policy, k: Field)
    requires DefaultOf(k).None?
    ensures k !in DefaultRealm(policy).settings
  {
  }

  lemma DefaultSettingsAre(policy: Policy, k: Field)
    ensures Get(DefaultRealm(policy).settings, k) == DefaultOf(k)
  {
    if DefaultOf(k).None? {
      OthersAreUnset(policy, k);
    } else if DefaultOf(k).value.Flag? {
      DefaultFlagsAre(policy, k);
    } else {
      DefaultValuesAre(policy, k);
    }
  }

  lemma DefaultsAre(policy: Policy)
    ensures var d := DefaultRealm(policy);
            && d.lifespans == Lifespans(5 * 60, 30 * 60, 30 * 60, 10 * 3600, 30 * 86400, 7 * 86400)
            && d.otp == Otp(HmacSha1, 6, 30, 1) && d.attributes == map[] && d.policy == policy
            && d.displayName.None? && d.loginTheme.None? && d.emailTheme.None? && d.adminTheme.None?
            && forall k :: Get(d.settings, k) == DefaultOf(k)
  {
    forall k ensures Get(DefaultRealm(policy).settings, k) == DefaultOf(k) {
      DefaultSettingsAre(policy, k);
    }
  }

  // --- Realm names ---------------------------------------------------------

  /** The characters of a realm name: ASCII letters and digits, and the marks that mean nothing in a URL query or path. */
  ghost predicate RealmChar(c: char) {
    || 'a' <= c <= 'z' || 'A' <= c <= 'Z' || '0' <= c <= '9'
    || c in {'!', '\"', '$', '\'', '(', ')', '*', ',', '-', '.', ':', ';', '<'}
    || c in {'>', '@', '[', ']', '^', '_', '`', '{', '|', '}', '~'}
  }

  lemma RealmCharIsAllowed(c: char)
    requires RealmChar(c)
    ensures !NotInRealmName(c)
  {
  }

  lemma AllowedIsRealmChar(c: char)
    requires !IsControl(c) && !NotInRealmName(c)
    ensures RealmChar(c)
  {
    assert 0x21 <= c as int <= 0x7E;
  }

  /** A realm name is an acceptable name of such characters. */
  lemma RealmNameIff(s: string, t: string)
    ensures RealmName(s) == Some(t) <==> ValidName(s) == Some(t) && forall i :: 0 <= i < |t| ==> RealmChar(t[i])
  {
    if ValidName(s) == Some(t) {
      forall i | 0 <= i < |t| ensures RealmChar(t[i]) <==> !NotInRealmName(t[i]) {
        if RealmChar(t[i]) {
          RealmCharIsAllowed(t[i]);
        } else if !NotInRealmName(t[i]) {
          AllowedIsRealmChar(t[i]);
        }
      }
    }
  }
}

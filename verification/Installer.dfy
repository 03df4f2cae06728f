/** The installer's environment file over any number of runs: what it keeps, adds, drops and rotates. */
module Installer {
  import opened Wrappers
  import opened EnvFile

  datatype Setting =
    | PostgresPassword | SecretKey | AdminPassword | MasterKey | RelayToken
    | Version | AdminEmail | Profile | Domain | PublicBaseUrl | RelayEndpoint | CaddyTls

  function Name(s: Setting): (k: string)
    ensures k != ""
  {
    match s
    case PostgresPassword => "POSTGRES_PASSWORD"
    case SecretKey => "VULNA_SECRET_KEY"
    case AdminPassword => "VULNA_ADMIN_PASSWORD"
    case MasterKey => "VULNA_MASTER_KEY"
    case RelayToken => "VULNA_RELAY_EGRESS_TOKEN"
    case Version => "VULNA_VERSION"
    case AdminEmail => "VULNA_ADMIN_EMAIL"
    case Profile => "VULNA_DEPLOYMENT_PROFILE"
    case Domain => "VULNA_DOMAIN"
    case PublicBaseUrl => "VULNA_PUBLIC_BASE_URL"
    case RelayEndpoint => "VULNA_RELAY_ENDPOINT"
    case CaddyTls => "CADDY_TLS"
  }

  predicate Secret(s: Setting) {
    s.PostgresPassword? || s.SecretKey? || s.AdminPassword? || s.MasterKey? || s.RelayToken?
  }

  lemma NamesDiffer(s: Setting, t: Setting)
    ensures Name(s) == Name(t) <==> s == t
  {
    var a, b := Name(s), Name(t);
    if |a| == |b| && |a| > 9 {
      assert a[0] == b[0] && |a| > 12 && a[6] == b[6] ==> s == t;
    }
  }

  predicate Upper(k: string) {
    forall i :: 0 <= i < |k| ==> k[i] == '_' || 'A' <= k[i] <= 'Z'
  }

  lemma NamesAreClean(s: Setting)
    ensures CleanKey(Name(s))
  {
    assert Upper(Name(s)) by {
      if s.PostgresPassword? || s.SecretKey? || s.AdminPassword? || s.MasterKey? || s.RelayToken? || s.Version? {
        SomeNamesAreUpper(s);
      } else {
        OtherNamesAreUpper(s);
      }
    }
    hide Name;
  }

  lemma SomeNamesAreUpper(s: Setting)
    requires Secret(s) || s.Version?
    ensures Upper(Name(s))
  {
    assert |Name(s)| <= 24;
  }

  lemma OtherNamesAreUpper(s: Setting)
    requires !Secret(s) && !s.Version?
    ensures Upper(Name(s))
  {
    assert |Name(s)| <= 24;
  }

  // ----- One run -----

  /** What a run of the installer is given: its options, and the secrets its generator would return,
      `None` where the generator fails. */
  datatype Options = Options(version: string, adminEmail: string, profile: string, domain: string, caddyTls: string)

  type Draws = Setting -> Option<string>

  function PublicHost(o: Options): string {
    if o.domain == "" then "localhost" else o.domain
  }

  function Fallback(o: Options, draws: Draws, s: Setting): string {
    match s
    case Version => o.version
    case AdminEmail => o.adminEmail
    case Profile => o.profile
    case Domain => o.domain
    case PublicBaseUrl => "https://" + PublicHost(o)
    case RelayEndpoint => PublicHost(o) + ":51820"
    case CaddyTls => o.caddyTls
    case _ => if draws(s).Some? then draws(s).value else ""
  }

  /** `existing[key]`, which is empty for a missing key. */
  function Value(env: Env, s: Setting): string {
    if Name(s) in env then env[Name(s)] else ""
  }

  function Pick(existing: Env, s: Setting, fallback: string): string {
    if Value(existing, s) != "" then Value(existing, s) else fallback
  }

  /** The twelve settings and no others, each with its existing value unless that is empty. */
  ghost predicate Built(existing: Env, fallback: Setting -> string, env: Env) {
    && (forall s :: Name(s) in env && env[Name(s)] == Pick(existing, s, fallback(s)))
    && (forall k :: k in env ==> exists s :: k == Name(s))
  }

  predicate GeneratorFails(existing: Env, draws: Draws) {
    exists s :: Secret(s) && Value(existing, s) == "" && draws(s).None?
  }

  method BuildEnv(o: Options, draws: Draws, existing: Env) returns (r: Result<Env, string>)
    ensures r.Failure? <==> GeneratorFails(existing, draws)
    ensures r.Success? ==> Built(existing, s => Fallback(o, draws, s), r.value)
    ensures r.Success? ==> SecretsStand(r.value, existing, draws) && SettingsStand(r.value, existing, o)
  {
    hide Value, Pick, Chosen, FilledUpTo, Built, Fallback, KeepSecret, GeneratorFails, SettingsOf, Name,
      SecretsStand, SettingsStand;
    var kept := KeepSecrets(existing, draws);
    if kept.None? {
      return Failure("generator");
    }
    var (postgres, session, admin, master, relay) := kept.value;

    ghost var c := s => Chosen(existing, o, draws, s);
    ChosenSecrets(existing, o, draws);
    ChosenSettings(existing, o, draws);
    var env := PutSecrets(postgres, session, admin, master, relay, c);
    env := PutSettings(env, existing, o, c);
    AllFilled(existing, o, draws, env);
    BuiltStands(existing, o, draws, env);
    return Success(env);
  }

  /** The value of `key` where there is one that is not empty, and the fallback otherwise. */
  predicate Stands(env: Env, existing: Env, key: string, fallback: string) {
    key in env && env[key] == if key in existing && existing[key] != "" then existing[key] else fallback
  }

  function Drawn(draws: Draws, s: Setting): string {
    if draws(s).Some? then draws(s).value else ""
  }

  /** Every secret under its own name. */
  ghost predicate SecretsStand(env: Env, existing: Env, draws: Draws) {
    && Stands(env, existing, "POSTGRES_PASSWORD", Drawn(draws, PostgresPassword))
    && Stands(env, existing, "VULNA_SECRET_KEY", Drawn(draws, SecretKey))
    && Stands(env, existing, "VULNA_ADMIN_PASSWORD", Drawn(draws, AdminPassword))
    && Stands(env, existing, "VULNA_MASTER_KEY", Drawn(draws, MasterKey))
    && Stands(env, existing, "VULNA_RELAY_EGRESS_TOKEN", Drawn(draws, RelayToken))
  }

  /** Every other setting under its own name; URL and endpoint name the domain, or this host without one. */
  ghost predicate SettingsStand(env: Env, existing: Env, o: Options) {
    var host := if o.domain != "" then o.domain else "localhost";
    && Stands(env, existing, "VULNA_VERSION", o.version)
    && Stands(env, existing, "VULNA_ADMIN_EMAIL", o.adminEmail)
    && Stands(env, existing, "VULNA_DEPLOYMENT_PROFILE", o.profile)
    && Stands(env, existing, "VULNA_DOMAIN", o.domain)
    && Stands(env, existing, "VULNA_PUBLIC_BASE_URL", "https://" + host)
    && Stands(env, existing, "VULNA_RELAY_ENDPOINT", host + ":51820")
    && Stands(env, existing, "CADDY_TLS", o.caddyTls)
  }

  lemma BuiltStands(existing: Env, o: Options, draws: Draws, env: Env)
    requires Built(existing, s => Fallback(o, draws, s), env)
    ensures SecretsStand(env, existing, draws) && SettingsStand(env, existing, o)
  {
    assert forall s :: Stands(env, existing, Name(s), Fallback(o, draws, s));
    hide Built, Stands, Fallback, Name, SecretsStand, SettingsStand;
    SecretsAre(existing, o, draws, env);
    SettingsAre(existing, o, draws, env);
  }

  lemma SecretsAre(existing: Env, o: Options, draws: Draws, env: Env)
    requires forall s :: Stands(env, existing, Name(s), Fallback(o, draws, s))
    ensures SecretsStand(env, existing, draws)
  {
    hide Stands;
    assert Stands(env, existing, Name(PostgresPassword), Fallback(o, draws, PostgresPassword));
    assert Stands(env, existing, Name(SecretKey), Fallback(o, draws, SecretKey));
    assert Stands(env, existing, Name(AdminPassword), Fallback(o, draws, AdminPassword));
    assert Stands(env, existing, Name(MasterKey), Fallback(o, draws, MasterKey));
    assert Stands(env, existing, Name(RelayToken), Fallback(o, draws, RelayToken));
  }

  lemma SettingsAre(existing: Env, o: Options, draws: Draws, env: Env)
    requires forall s :: Stands(env, existing, Name(s), Fallback(o, draws, s))
    ensures SettingsStand(env, existing, o)
  {
    hide Stands;
    assert Stands(env, existing, Name(Version), Fallback(o, draws, Version));
    assert Stands(env, existing, Name(AdminEmail), Fallback(o, draws, AdminEmail));
    assert Stands(env, existing, Name(Profile), Fallback(o, draws, Profile));
    assert Stands(env, existing, Name(Domain), Fallback(o, draws, Domain));
    assert Stands(env, existing, Name(PublicBaseUrl), Fallback(o, draws, PublicBaseUrl));
    assert Stands(env, existing, Name(RelayEndpoint), Fallback(o, draws, RelayEndpoint));
    assert Stands(env, existing, Name(CaddyTls), Fallback(o, draws, CaddyTls));
  }

  method PutSecrets(postgres: string, session: string, admin: string, master: string, relay: string,
                    ghost c: Setting -> string)
    returns (env: Env)
    requires postgres == c(PostgresPassword) && session == c(SecretKey) && admin == c(AdminPassword)
    requires master == c(MasterKey) && relay == c(RelayToken)
    ensures FilledUpTo(env, c, 5)
  {
    hide FilledUpTo, Name;
    env := map[];
    NothingFilled(c);
    env := Put(env, PostgresPassword, postgres, c);
    env := Put(env, SecretKey, session, c);
    env := Put(env, AdminPassword, admin, c);
    env := Put(env, MasterKey, master, c);
    env := Put(env, RelayToken, relay, c);
  }

  method PutSettings(env0: Env, existing: Env, o: Options, ghost c: Setting -> string) returns (env: Env)
    requires FilledUpTo(env0, c, 5) && SettingsOf(existing, o, c)
    ensures FilledUpTo(env, c, 12)
  {
    hide FilledUpTo, Name, Pick;
    env := env0;
    env := Put(env, Version, Pick(existing, Version, o.version), c);
    env := Put(env, AdminEmail, Pick(existing, AdminEmail, o.adminEmail), c);
    env := Put(env, Profile, Pick(existing, Profile, o.profile), c);
    env := Put(env, Domain, Pick(existing, Domain, o.domain), c);
    var publicHost := o.domain;
    if publicHost == "" {
      publicHost := "localhost";
    }
    env := Put(env, PublicBaseUrl, Pick(existing, PublicBaseUrl, "https://" + publicHost), c);
    env := Put(env, RelayEndpoint, Pick(existing, RelayEndpoint, publicHost + ":51820"), c);
    env := Put(env, CaddyTls, Pick(existing, CaddyTls, o.caddyTls), c);
  }

  /** The five secrets in the order they are drawn, or nothing as soon as one cannot be drawn. */
  method KeepSecrets(existing: Env, draws: Draws) returns (kept: Option<(string, string, string, string, string)>)
    ensures kept.None? <==> GeneratorFails(existing, draws)
    ensures kept.Some? ==>
      && KeepSecret(existing, draws, PostgresPassword) == Some(kept.value.0)
      && KeepSecret(existing, draws, SecretKey) == Some(kept.value.1)
      && KeepSecret(existing, draws, AdminPassword) == Some(kept.value.2)
      && KeepSecret(existing, draws, MasterKey) == Some(kept.value.3)
      && KeepSecret(existing, draws, RelayToken) == Some(kept.value.4)
  {
    hide Value;
    var postgres := KeepSecret(existing, draws, PostgresPassword);
    if postgres.None? { return None; }
    var session := KeepSecret(existing, draws, SecretKey);
    if session.None? { return None; }
    var admin := KeepSecret(existing, draws, AdminPassword);
    if admin.None? { return None; }
    var master := KeepSecret(existing, draws, MasterKey);
    if master.None? { return None; }
    var relay := KeepSecret(existing, draws, RelayToken);
    if relay.None? { return None; }
    return Some((postgres.value, session.value, admin.value, master.value, relay.value));
  }

  // How far the assignments in `BuildEnv` have come.

  function Rank(s: Setting): nat {
    match s
    case PostgresPassword => 0 case SecretKey => 1 case AdminPassword => 2 case MasterKey => 3
    case RelayToken => 4 case Version => 5 case AdminEmail => 6 case Profile => 7
    case Domain => 8 case PublicBaseUrl => 9 case RelayEndpoint => 10 case CaddyTls => 11
  }

  ghost predicate FilledUpTo(env: Env, c: Setting -> string, n: nat) {
    && (forall s :: Rank(s) < n ==> Name(s) in env && env[Name(s)] == c(s))
    && (forall k :: k in env ==> exists s :: k == Name(s))
  }

  /** `env[key] = value`, in the order of the source. */
  method Put(env: Env, s: Setting, value: string, ghost c: Setting -> string) returns (env': Env)
    requires FilledUpTo(env, c, Rank(s)) && value == c(s)
    ensures env' == env[Name(s) := value]
    ensures FilledUpTo(env', c, Rank(s) + 1)
  {
    hide Name;
    forall t ensures Name(s) == Name(t) <==> s == t {
      NamesDiffer(s, t);
    }
    env' := env[Name(s) := value];
  }

  lemma NothingFilled(c: Setting -> string)
    ensures FilledUpTo(map[], c, 0)
  {}

  ghost function Chosen(existing: Env, o: Options, draws: Draws, s: Setting): string {
    Pick(existing, s, Fallback(o, draws, s))
  }

  ghost predicate SettingsOf(existing: Env, o: Options, c: Setting -> string) {
    && c(Version) == Pick(existing, Version, o.version)
    && c(AdminEmail) == Pick(existing, AdminEmail, o.adminEmail)
    && c(Profile) == Pick(existing, Profile, o.profile)
    && c(Domain) == Pick(existing, Domain, o.domain)
    && c(PublicBaseUrl) == Pick(existing, PublicBaseUrl, "https://" + PublicHost(o))
    && c(RelayEndpoint) == Pick(existing, RelayEndpoint, PublicHost(o) + ":51820")
    && c(CaddyTls) == Pick(existing, CaddyTls, o.caddyTls)
  }

  lemma ChosenSecrets(existing: Env, o: Options, draws: Draws)
    ensures forall s :: Secret(s) && KeepSecret(existing, draws, s).Some? ==>
      Chosen(existing, o, draws, s) == KeepSecret(existing, draws, s).value
  {
    hide Name;
  }

  lemma ChosenSettings(existing: Env, o: Options, draws: Draws)
    ensures SettingsOf(existing, o, s => Chosen(existing, o, draws, s))
  {
    hide Name, Pick;
  }

  lemma AllFilled(existing: Env, o: Options, draws: Draws, env: Env)
    requires FilledUpTo(env, s => Chosen(existing, o, draws, s), 12)
    ensures Built(existing, s => Fallback(o, draws, s), env)
  {
    hide Name, Pick, Fallback;
    forall s ensures Name(s) in env && env[Name(s)] == Pick(existing, s, Fallback(o, draws, s)) {
      assert Rank(s) < 12;
    }
  }

  function KeepSecret(existing: Env, draws: Draws, s: Setting): Option<string> {
    if Value(existing, s) == "" then draws(s) else Some(Value(existing, s))
  }

  /** The file that a run leaves behind, given what it read before. */
  ghost predicate Installed(existing: Env, fallback: Setting -> string, text: string) {
    exists env :: Built(existing, fallback, env) && Written(env, text)
  }

  /** What a run gets to see: an existing file that cannot be read counts as empty. */
  ghost function Seen(file: Option<string>, readable: bool): Env {
    if file.Some? && readable then Parse(file.value) else map[]
  }

  class Installation {
    var file: Option<string>

    constructor ()
      ensures file == None
    {
      file := None;
    }

    /** A missing file is no error. */
    method ReadEnv(readable: bool) returns (env: Env, ok: bool)
      ensures env == Seen(file, readable)
      ensures ok <==> file.None? || readable
    {
      if file.None? {
        return map[], true;
      }
      if !readable {
        return map[], false;
      }
      env := ReadLines(file.value);
      ok := true;
    }

    method WriteEnv(env: Env, writable: bool) returns (ok: bool)
      modifies this
      ensures ok == writable
      ensures ok ==> file.Some? && Written(env, file.value)
      ensures !ok ==> file == old(file)
    {
      if writable {
        var text := Render(env);
        file := Some(text);
      }
      ok := writable;
    }

    /** `Apply` ignores the error of the read. */
    method Apply(o: Options, draws: Draws, readable: bool, writable: bool) returns (ok: bool)
      modifies this
      ensures ok <==> writable && !GeneratorFails(Seen(old(file), readable), draws)
      ensures ok ==> file.Some? && Installed(Seen(old(file), readable), s => Fallback(o, draws, s), file.value)
      ensures !ok ==> file == old(file)
    {
      hide Built, Written, GeneratorFails;
      var existing, _ := ReadEnv(readable);
      var env := BuildEnv(o, draws, existing);
      if env.Failure? {
        return false;
      }
      ok := WriteEnv(env.value, writable);
    }

    method SetEnvVersion(version: string, readable: bool, writable: bool) returns (ok: bool)
      modifies this
      ensures ok <==> (old(file).None? || readable) && writable
      ensures ok ==> file.Some? && Written(Seen(old(file), readable)[Name(Version) := version], file.value)
      ensures !ok ==> file == old(file)
    {
      var env, read := ReadEnv(readable);
      if !read {
        return false;
      }
      ok := WriteEnv(env[Name(Version) := version], writable);
    }
  }

  // ----- What runs preserve -----

  ghost predicate CleanFallback(fallback: Setting -> string) {
    forall s :: CleanValue(fallback(s))
  }

  lemma BuiltIsClean(existing: Env, fallback: Setting -> string, env: Env)
    requires Built(existing, fallback, env) && Clean(existing) && CleanFallback(fallback)
    ensures Clean(env)
  {
    hide Name, CleanKey, CleanValue;
    forall k | k in env ensures CleanKey(k) && CleanValue(env[k]) {
      var s :| k == Name(s);
      NamesAreClean(s);
      assert CleanValue(fallback(s));
      assert env[Name(s)] == Pick(existing, s, fallback(s));
      assert CleanValue("") by { EmptyIsClean(); }
    }
  }

  lemma EmptyIsClean()
    ensures CleanValue("")
  {}

  /** What is read back after a run is what the run built. */
  lemma InstalledReads(existing: Env, fallback: Setting -> string, text: string)
    requires Clean(existing) && CleanFallback(fallback) && Installed(existing, fallback, text)
    ensures Built(existing, fallback, Parse(text)) && Written(Parse(text), text)
  {
    hide Built, Written, Clean, CleanFallback;
    var env :| Built(existing, fallback, env) && Written(env, text);
    BuiltIsClean(existing, fallback, env);
    RoundTrip(env, text);
  }

  lemma BuiltIsUnique(existing: Env, fallback: Setting -> string, env: Env, env': Env)
    requires Built(existing, fallback, env) && Built(existing, fallback, env')
    ensures env == env'
  {
    hide Name, Pick;
    forall k ensures k in env <==> k in env' {
      if k in env {
        var s :| k == Name(s);
      }
      if k in env' {
        var s :| k == Name(s);
      }
    }
    forall k | k in env ensures env[k] == env'[k] {
      var s :| k == Name(s);
    }
  }

  ghost predicate OnlySettings(env: Env) {
    && (forall s :: Name(s) in env)
    && (forall k :: k in env ==> exists s :: k == Name(s))
  }

  /** A run leaves the settings of a readable file as they were exactly when they are the twelve the
      installer knows and nothing empty has a fallback. Any other key is dropped. */
  lemma ApplyKeepsSettings(t0: string, fallback: Setting -> string, t1: string)
    requires CleanFallback(fallback) && Installed(Parse(t0), fallback, t1)
    ensures OnlySettings(Parse(t1))
    ensures Parse(t1) == Parse(t0) <==>
      OnlySettings(Parse(t0)) && forall s :: Value(Parse(t0), s) == "" ==> fallback(s) == ""
  {
    hide Name, Parse, Written, Built, OnlySettings, Value, Installed;
    ParseIsClean(t0);
    InstalledReads(Parse(t0), fallback, t1);
    BuiltKeepsSettings(Parse(t0), fallback, Parse(t1));
  }

  lemma BuiltKeepsSettings(existing: Env, fallback: Setting -> string, env: Env)
    requires Built(existing, fallback, env)
    ensures OnlySettings(env)
    ensures env == existing <==> OnlySettings(existing) && forall s :: Value(existing, s) == "" ==> fallback(s) == ""
  {
    hide Name;
    if OnlySettings(existing) && forall s :: Value(existing, s) == "" ==> fallback(s) == "" {
      BuiltIsUnique(existing, fallback, existing, env);
    }
    if env == existing {
      forall s | Value(existing, s) == "" ensures fallback(s) == "" {
        assert env[Name(s)] == Pick(existing, s, fallback(s));
      }
    }
  }

  /** Running the installer again leaves the file byte for byte the same, exactly when no setting that
      is still empty has been given a fallback since. */
  lemma ReinstallChangesNothing(t0: string, f1: Setting -> string, t1: string, f2: Setting -> string, t2: string)
    requires CleanFallback(f1) && Installed(Parse(t0), f1, t1)
    requires CleanFallback(f2) && Installed(Parse(t1), f2, t2)
    ensures t2 == t1 <==> forall s :: Value(Parse(t1), s) == "" ==> f2(s) == ""
  {
    hide Name, Parse, Written, Built, OnlySettings;
    ParseIsClean(t0);
    ParseIsClean(t1);
    InstalledReads(Parse(t0), f1, t1);
    InstalledReads(Parse(t1), f2, t2);
    ApplyKeepsSettings(t0, f1, t1);
    ApplyKeepsSettings(t1, f2, t2);
    if Parse(t2) == Parse(t1) {
      WrittenIsStable(Parse(t1), t1, t2);
    }
  }

  /** A value that is not empty survives a run, secrets included, unless the file could not be read. */
  lemma ValuesSurviveExactlyWhenRead(t0: string, fallback: Setting -> string, readable: bool, t1: string, s: Setting)
    requires CleanFallback(fallback) && Installed(Seen(Some(t0), readable), fallback, t1)
    requires Value(Parse(t0), s) != "" && Value(Parse(t0), s) != fallback(s)
    ensures Value(Parse(t1), s) == Value(Parse(t0), s) <==> readable
  {
    hide Name, Parse, Written;
    ParseIsClean(t0);
    InstalledReads(Seen(Some(t0), readable), fallback, t1);
    assert Parse(t1)[Name(s)] == Pick(Seen(Some(t0), readable), s, fallback(s));
  }

  /** `SetEnvVersion` changes the version and nothing else, exactly when the version is one clean line. */
  lemma SetVersionChangesOneKey(t0: string, version: string, t1: string)
    requires Written(Parse(t0)[Name(Version) := version], t1)
    ensures Parse(t1) == Parse(t0)[Name(Version) := version] <==> CleanValue(version)
  {
    hide Name, Parse, Written, CleanKey, CleanValue;
    ParseIsClean(t0);
    NamesAreClean(Version);
    var env := Parse(t0)[Name(Version) := version];
    RoundTrip(env, t1);
    assert env[Name(Version)] == version;
  }

  // ----- Any number of runs -----

  datatype Run = Install(fallback: Setting -> string) | Update(version: string)

  ghost predicate CleanRun(r: Run) {
    match r
    case Install(fallback) => CleanFallback(fallback)
    case Update(version) => CleanValue(version)
  }

  /** A successful run on a readable file turns one text into the other. */
  ghost predicate Turns(t0: string, r: Run, t1: string) {
    match r
    case Install(fallback) => Installed(Parse(t0), fallback, t1)
    case Update(version) => Written(Parse(t0)[Name(Version) := version], t1)
  }

  lemma RunKeeps(t0: string, r: Run, t1: string, s: Setting)
    requires CleanRun(r) && Turns(t0, r, t1)
    requires !s.Version? && Value(Parse(t0), s) != ""
    ensures Value(Parse(t1), s) == Value(Parse(t0), s)
  {
    hide Name, Parse, Written;
    ParseIsClean(t0);
    match r
    case Install(fallback) =>
      InstalledReads(Parse(t0), fallback, t1);
      assert Parse(t1)[Name(s)] == Pick(Parse(t0), s, fallback(s));
    case Update(version) =>
      SetVersionChangesOneKey(t0, version, t1);
      NamesDiffer(s, Version);
  }

  /** Over any sequence of installs and updates, no secret or other setting that has a value ever
      changes, the version alone excepted. */
  lemma {:induction false} SecretsNeverRotate(texts: seq<string>, runs: seq<Run>, s: Setting)
    requires |texts| == |runs| + 1
    requires forall i :: 0 <= i < |runs| ==> CleanRun(runs[i]) && Turns(texts[i], runs[i], texts[i + 1])
    requires !s.Version? && Value(Parse(texts[0]), s) != ""
    ensures Value(Parse(texts[|runs|]), s) == Value(Parse(texts[0]), s)
  {
    hide CleanRun, Turns, Parse, Value;
    if runs != [] {
      var n := |runs| - 1;
      var before, after := texts[..n + 1], runs[..n];
      forall i | 0 <= i < n ensures CleanRun(after[i]) && Turns(before[i], after[i], before[i + 1]) {
        assert after[i] == runs[i] && before[i] == texts[i] && before[i + 1] == texts[i + 1];
      }
      SecretsNeverRotate(before, after, s);
      RunKeeps(texts[n], runs[n], texts[n + 1], s);
    }
  }
}

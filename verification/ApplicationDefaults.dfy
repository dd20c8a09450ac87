/** What `default_application_config` installs on a host, and what its own files mean to the loader. */
module ApplicationDefaults {
  import opened Wrappers
  import opened Decimal
  import opened Toml
  import opened ConfigFile
  import opened ConfigUpgrade
  import opened ConfigLines
  import opened ConfigDocument
  import opened ConfigRoundTrip
  import opened ApplicationConfiguration
  import opened ApplicationUpgrade
  import opened ApplicationOldFile

  datatype Deployment = Production | Development | Test(root: string)

  /** The home and temporary directories, the user's number and the directory of the configuration file. */
  datatype Host = Host(deployment: Deployment, home: string, temporary: string, user: nat, configDirectory: string)

  function Suffix(h: Host): string {
    if h.deployment.Production? then "tiktok-manager" else "tiktok-manager-dev"
  }

  function DataRoot(h: Host): string {
    if h.deployment.Test? then h.deployment.root else h.home + "/.local/share/" + Suffix(h)
  }

  function RuntimeRoot(h: Host): string {
    if h.deployment.Test? then h.deployment.root + "/run" else "/run/user/" + Print(h.user) + "/" + Suffix(h)
  }

  function TemporaryRoot(h: Host): string {
    if h.deployment.Test? then h.deployment.root + "/tmp" else h.temporary + "/" + Suffix(h)
  }

  const IMAGE := "redroid/redroid@sha256:" + "a6c464bbedcf1dcb67dbf91f329fbb19" + "bee5b50631f0ca6bda6ed7c41b0e64e2"

  function NetworkPrefix(d: Deployment): string {
    match d
    case Production => "redroid-device"
    case Development => "redroid-development-device"
    case Test(_) => "redroid-test-device"
  }

  function DefaultConfig(h: Host): ApplicationConfig {
    var isolated := !h.deployment.Production?;
    ApplicationConfig(
      DataRoot(h) + "/tiktok_manager.db",
      h.configDirectory + "/credentials.key",
      "tiktok-manager-longnguyen-host-01", IMAGE,
      if isolated then DataRoot(h) + "/redroid" else h.home + "/redroid-test",
      if isolated then 6554 else 5554, "android-12-redroid", NetworkPrefix(h.deployment),
      if isolated then 9800 else 8800, if isolated then 9899 else 8899, 8888,
      RuntimeRoot(h) + "/network", TemporaryRoot(h) + "/network-locks", "user",
      DataRoot(h) + "/artifacts", 100 * 1024 * 1024, 1024 * 1024 * 1024, 30, 7, 6,
      DataRoot(h) + "/content", 500 * 1024 * 1024, 20 * 1024 * 1024 * 1024, "/usr/bin/ffprobe", "/usr/bin/ffmpeg",
      30, 1024 * 1024, 30, 24, 168, 32768, 100_000_000, 500, TemporaryRoot(h) + "/content-locks",
      500 * 1024 * 1024, "/usr/bin/aapt2", "/usr/bin/apksigner", 30, 1024 * 1024, 256 * 1024, 20_000,
      2 * 1024 * 1024 * 1024, 200,
      TemporaryRoot(h) + "/workflow-locks", "2.0", 100,
      2 * 1024 * 1024, 10_000, 64, 2_048, 4_096,
      false)
  }

  function EnvironmentOf(h: Host, homes: map<string, string>): Environment {
    Environment(h.configDirectory, DataRoot(h), homes)
  }

  // ----- everything installed on a host with plain directories is plain -----

  predicate PlainChar(c: char) {
    !Illegal(c) && !PythonBreak(c)
  }

  predicate PlainChars(s: string) {
    forall i :: 0 <= i < |s| ==> PlainChar(s[i])
  }

  /** An absolute directory without control characters and line breaks. */
  predicate PlainPath(p: string) {
    p != "" && p[0] == '/' && PlainChars(p)
  }

  predicate PlainHost(h: Host) {
    && PlainPath(h.home) && PlainPath(h.temporary) && PlainPath(h.configDirectory)
    && (h.deployment.Test? ==> PlainPath(h.deployment.root))
  }

  predicate PlainValue(v: Setting) {
    match v
    case Text(s) => PlainChars(s)
    case Location(p) => PlainPath(p)
    case Real(l) => RealLiteral(l)
    case _ => true
  }

  predicate AllPlain(values: seq<Setting>) {
    forall i :: 0 <= i < |values| ==> PlainValue(values[i])
  }

  lemma AsciiPlain(s: string)
    requires forall i :: 0 <= i < |s| ==> ' ' <= s[i] <= '~'
    ensures PlainChars(s)
  {
  }

  lemma Under(p: string, s: string)
    requires PlainPath(p) && forall i :: 0 <= i < |s| ==> ' ' <= s[i] <= '~'
    ensures PlainPath(p + s)
  {
    AsciiPlain(s);
    hide PlainChar;
  }

  lemma RootsPlain(h: Host)
    requires PlainHost(h)
    ensures PlainPath(DataRoot(h)) && PlainPath(RuntimeRoot(h)) && PlainPath(TemporaryRoot(h))
  {
    hide PlainPath;
    match h.deployment
    case Test(root) =>
      Under(root, "/run");
      Under(root, "/tmp");
    case _ =>
      SuffixPlain(h);
      Under(h.home, "/.local/share/" + Suffix(h));
      assert h.home + ("/.local/share/" + Suffix(h)) == DataRoot(h);
      Under(h.temporary, "/" + Suffix(h));
      assert h.temporary + ("/" + Suffix(h)) == TemporaryRoot(h);
      RuntimePlain(h);
  }

  lemma SuffixPlain(h: Host)
    ensures forall i :: 0 <= i < |Suffix(h)| ==> ' ' <= Suffix(h)[i] <= '~'
  {
  }

  lemma RuntimePlain(h: Host)
    requires !h.deployment.Test?
    ensures PlainPath(RuntimeRoot(h))
  {
    SuffixPlain(h);
    assert AllDigits(Print(h.user));
    var rest := Print(h.user) + "/" + Suffix(h);
    assert forall i :: 0 <= i < |rest| ==> ' ' <= rest[i] <= '~';
    AsciiPlain("/run/user/");
    hide PlainChar;
    Under("/run/user/", rest);
    assert "/run/user/" + rest == RuntimeRoot(h);
  }

  lemma SystemPathsPlain()
    ensures PlainPath("/usr/bin/ffprobe") && PlainPath("/usr/bin/ffmpeg")
    ensures PlainPath("/usr/bin/aapt2") && PlainPath("/usr/bin/apksigner")
  {
    AsciiPlain("/usr/bin/ffprobe");
    AsciiPlain("/usr/bin/ffmpeg");
    AsciiPlain("/usr/bin/aapt2");
    AsciiPlain("/usr/bin/apksigner");
    hide PlainChars;
  }

  lemma TextsPlain(d: Deployment)
    ensures PlainChars("tiktok-manager-longnguyen-host-01") && PlainChars("android-12-redroid") && PlainChars("user")
    ensures PlainChars(NetworkPrefix(d))
  {
    AsciiPlain("tiktok-manager-longnguyen-host-01");
    AsciiPlain("android-12-redroid");
    AsciiPlain("user");
    AsciiPlain(NetworkPrefix(d));
    hide PlainChars;
  }

  lemma ImagePlain()
    ensures PlainChars(IMAGE)
  {
    AsciiPlain("redroid/redroid@sha256:");
    AsciiPlain("a6c464bbedcf1dcb67dbf91f329fbb19");
    AsciiPlain("bee5b50631f0ca6bda6ed7c41b0e64e2");
    hide PlainChar;
  }

  lemma HomePlain(h: Host)
    requires PlainHost(h)
    ensures AllPlain(DatabaseValues(DefaultConfig(h))) && AllPlain(SecurityValues(DefaultConfig(h)))
  {
    RootsPlain(h);
    hide PlainPath, PlainChars, DataRoot, RuntimeRoot, TemporaryRoot, IMAGE, NetworkPrefix;
    Under(DataRoot(h), "/tiktok_manager.db");
    Under(h.configDirectory, "/credentials.key");
  }

  lemma ProvisioningPlain(h: Host)
    requires PlainHost(h)
    ensures AllPlain(ProvisioningValues(DefaultConfig(h)))
  {
    RootsPlain(h);
    TextsPlain(h.deployment);
    ImagePlain();
    hide PlainPath, PlainChars, DataRoot, RuntimeRoot, TemporaryRoot, IMAGE, NetworkPrefix;
    Under(DataRoot(h), "/redroid");
    Under(h.home, "/redroid-test");
  }

  lemma RootedPlain(h: Host)
    requires PlainHost(h)
    ensures AllPlain(NetworkValues(DefaultConfig(h))) && AllPlain(AutomationValues(DefaultConfig(h)))
  {
    RootsPlain(h);
    TextsPlain(h.deployment);
    hide PlainPath, PlainChars, DataRoot, RuntimeRoot, TemporaryRoot, IMAGE, NetworkPrefix;
    Under(RuntimeRoot(h), "/network");
    Under(TemporaryRoot(h), "/network-locks");
    Under(DataRoot(h), "/artifacts");
  }

  lemma ContentPlain(h: Host)
    requires PlainHost(h)
    ensures AllPlain(ContentValues(DefaultConfig(h)))
  {
    RootsPlain(h);
    SystemPathsPlain();
    hide PlainPath, PlainChars, DataRoot, RuntimeRoot, TemporaryRoot, IMAGE, NetworkPrefix, RealLiteral;
    Under(DataRoot(h), "/content");
    Under(TemporaryRoot(h), "/content-locks");
  }

  lemma WorkflowPlain(h: Host)
    requires PlainHost(h)
    ensures AllPlain(WorkflowValues(DefaultConfig(h)))
  {
    RootsPlain(h);
    DefaultInterval();
    hide PlainPath, PlainChars, DataRoot, RuntimeRoot, TemporaryRoot, IMAGE, NetworkPrefix, RealLiteral;
    Under(TemporaryRoot(h), "/workflow-locks");
  }

  lemma NumbersPlain(h: Host)
    ensures AllPlain(ManagedAppsValues(DefaultConfig(h))) && AllPlain(AndroidUiValues(DefaultConfig(h)))
    ensures AllPlain(RuntimeValues(DefaultConfig(h)))
  {
    SystemPathsPlain();
    hide PlainPath;
  }

  lemma DefaultsPlain(h: Host, g: nat)
    requires PlainHost(h) && g < 10
    ensures g < |Values(DefaultConfig(h))| && AllPlain(Values(DefaultConfig(h))[g])
  {
    hide AllPlain, DatabaseValues, SecurityValues, ProvisioningValues, NetworkValues, AutomationValues, ContentValues,
         ManagedAppsValues, WorkflowValues, AndroidUiValues, RuntimeValues, PlainHost, DefaultConfig;
    HomePlain(h);
    ProvisioningPlain(h);
    RootedPlain(h);
    ContentPlain(h);
    WorkflowPlain(h);
    NumbersPlain(h);
  }

  /** A plain setting is read back, and is printed without a line break of any kind. */
  lemma PlainSetting(v: Setting, b: char)
    requires PlainValue(v) && PythonBreak(b)
    ensures Recoverable(v) && b !in Printed(v)
  {
    hide Quote, PythonBreak, Illegal, PrintWhole, RealLiteral;
    match v
    case Text(s) => QuotedPlain(s, b);
    case Location(p) => QuotedPlain(p, b);
    case Whole(n) => WholePlain(n, b);
    case Real(l) => RealPlain(l, b);
    case Flag(_) => FlagPlain(b);
  }

  lemma QuotedPlain(s: string, b: char)
    requires PlainChars(s) && PythonBreak(b)
    ensures b !in Quote(s)
  {
    EscapeHolds(s, b);
    assert b !in "\"" && b !in s;
    hide EscapeText;
  }

  lemma WholePlain(n: int, b: char)
    requires PythonBreak(b)
    ensures b !in PrintWhole(n)
  {
  }

  lemma RealPlain(l: string, b: char)
    requires RealLiteral(l) && PythonBreak(b)
    ensures b !in l
  {
    RealLiteralChars(l);
    assert !RealChar(b);
    hide RealLiteral, RealChar;
  }

  lemma FlagPlain(b: char)
    requires PythonBreak(b)
    ensures b !in "true" && b !in "false"
  {
  }

  lemma DefaultRows(h: Host, env: Environment, g: nat, i: nat)
    requires PlainHost(h) && g < 10 && i < |RowAt(DefaultConfig(h), env, g)|
    ensures PlainValue(RowAt(DefaultConfig(h), env, g)[i])
  {
    hide Values, DefaultConfig, PlainHost, PlainValue;
    DefaultsPlain(h, g);
  }

  /** On every host with plain directories the installed configuration is recoverable, is printed without
      foreign line breaks, and passes its own checks. */
  lemma InstalledFits(h: Host, env: Environment)
    requires PlainHost(h)
    ensures var c := DefaultConfig(h);
            RealLiteral(c.workflowPollIntervalSeconds) && RecoverableConfig(c) && PrintedPlain(c, env) && Valid(c)
  {
    var c := DefaultConfig(h);
    InstalledValid(h);
    SchemaSize(c, env);
    assert PythonBreak('\n');
    hide DefaultConfig, PlainHost, Values, PlainValue, Recoverable, PythonBreak, Printed, RealLiteral, Valid, RowAt;
    forall g, i | 0 <= g < |Values(c)| && 0 <= i < |Values(c)[g]| ensures Recoverable(Values(c)[g][i]) {
      DefaultsPlain(h, g);
      PlainSetting(Values(c)[g][i], '\n');
    }
    forall g, i | 0 <= g < 10 && 0 <= i < |RowAt(c, env, g)|
      ensures forall b: char :: PythonBreak(b) ==> b !in Printed(RowAt(c, env, g)[i])
    {
      DefaultRows(h, env, g, i);
      forall b: char | PythonBreak(b) ensures b !in Printed(RowAt(c, env, g)[i]) {
        PlainSetting(RowAt(c, env, g)[i], b);
      }
    }
  }

  lemma HostAbsolute(h: Host, homes: map<string, string>)
    requires PlainHost(h)
    ensures Absolute(EnvironmentOf(h, homes))
  {
    RootsPlain(h);
  }

  lemma InstalledValid(h: Host)
    ensures Valid(DefaultConfig(h)) && RealLiteral(DefaultConfig(h).workflowPollIntervalSeconds)
  {
    DefaultInterval();
    hide PositiveLiteral, RealLiteral, DataRoot, TemporaryRoot, RuntimeRoot;
  }

  /** What a production host installs under a key with a fallback is that fallback, in the sections that every
      file has; the five others are in `FallbacksOnly`. */
  lemma ProductionFallbacks(h: Host, homes: map<string, string>, g: nat, i: nat)
    requires h.deployment.Production? && (g < 4 || g == 9) && i < |GroupAt(EnvironmentOf(h, homes), g).fields|
    requires GroupAt(EnvironmentOf(h, homes), g).fields[i].fallback.Some?
    ensures GroupAt(EnvironmentOf(h, homes), g).fields[i].fallback
            == Some(RowAt(DefaultConfig(h), EnvironmentOf(h, homes), g)[i])
  {
    SchemaSize(DefaultConfig(h), EnvironmentOf(h, homes));
    hide DataRoot, RuntimeRoot, TemporaryRoot, IMAGE, AutomationFields, ContentFields, ManagedAppsFields,
         WorkflowFields, AndroidUiFields, AutomationValues, ContentValues, ManagedAppsValues, WorkflowValues,
         AndroidUiValues;
  }

  /** Development and production of one user share no database, data, locks, device names or ports. */
  lemma DeploymentsApart(p: Host, d: Host)
    requires p.deployment.Production? && d == p.(deployment := Development)
    ensures var a, b := DefaultConfig(p), DefaultConfig(d);
            && a.databasePath != b.databasePath && a.dataRoot != b.dataRoot && a.artifactRoot != b.artifactRoot
            && a.contentRoot != b.contentRoot && a.bridgeStateDirectory != b.bridgeStateDirectory
            && a.bridgeLockDirectory != b.bridgeLockDirectory && a.workflowLockDirectory != b.workflowLockDirectory
            && a.contentInspectionLockDirectory != b.contentInspectionLockDirectory
            && a.networkPrefix != b.networkPrefix && a.baseAdbPort != b.baseAdbPort
            && a.bridgePortStart <= a.bridgePortEnd < b.bridgePortStart <= b.bridgePortEnd
  {
    hide DataRoot, RuntimeRoot, TemporaryRoot, IMAGE, NetworkPrefix;
    RootsApart(p, d);
    DataApart(d);
    PrefixesApart();
  }

  lemma DataApart(d: Host)
    requires d.deployment.Development?
    ensures d.home + "/redroid-test" != DataRoot(d) + "/redroid"
  {
    var a, b, n := d.home + "/redroid-test", DataRoot(d) + "/redroid", |d.home|;
    assert a[n + 1] == 'r' && b[n + 1] == '.';
  }

  lemma PrefixesApart()
    ensures NetworkPrefix(Production) != NetworkPrefix(Development)
  {
    assert NetworkPrefix(Production)[11] == 'i' && NetworkPrefix(Development)[11] == 'e';
  }

  lemma RootsApart(p: Host, d: Host)
    requires p.deployment.Production? && d == p.(deployment := Development)
    ensures forall s :: DataRoot(p) + s != DataRoot(d) + s
    ensures forall s :: RuntimeRoot(p) + s != RuntimeRoot(d) + s
    ensures forall s :: TemporaryRoot(p) + s != TemporaryRoot(d) + s
  {
    hide IMAGE;
    assert |DataRoot(d)| == |DataRoot(p)| + 4;
    assert |RuntimeRoot(d)| == |RuntimeRoot(p)| + 4;
    assert |TemporaryRoot(d)| == |TemporaryRoot(p)| + 4;
    hide DataRoot, RuntimeRoot, TemporaryRoot;
  }

  // ----- its own files -----

  /** `bootstrap_application_config` on a new host loads exactly what it has just written. */
  lemma BootstrapLoads(h: Host, homes: map<string, string>)
    requires PlainHost(h)
    ensures var env := EnvironmentOf(h, homes);
            Load(PrintConfig(DefaultConfig(h), env), env) == Success(DefaultConfig(h))
  {
    InstalledFits(h, EnvironmentOf(h, homes));
    hide DefaultConfig, Load, PrintConfig, RealLiteral, RecoverableConfig, PrintedPlain, Valid, PlainHost;
    LoadPrinted(DefaultConfig(h), EnvironmentOf(h, homes));
  }

  /** An installed directory of the inspection locks is never the one the loader falls back on: the temporary
      directory's last part is the application's own, and the fallback has none. */
  lemma OwnLockDirectory(h: Host)
    ensures DefaultConfig(h).contentInspectionLockDirectory != "/tmp/tiktok-manager-content-locks"
  {
    var s, t := TemporaryRoot(h) + "/content-locks", "/tmp/tiktok-manager-content-locks";
    hide TemporaryRoot;
    assert s[|s| - 14] == '/' && t[|t| - 14] == '-';
  }

  /** An installation's record, with the lock directories the loader falls back on. */
  function WithSharedLocks(c: ApplicationConfig): ApplicationConfig {
    c.(contentInspectionLockDirectory := "/tmp/tiktok-manager-content-locks",
       workflowLockDirectory := "/tmp/tiktok-manager-workflow-locks")
  }

  lemma SmallFallbacks(h: Host, env: Environment)
    requires env.dataDirectory == DataRoot(h)
    ensures var c := WithSharedLocks(DefaultConfig(h));
            && Fallbacks(AutomationFields(env)) == AutomationValues(c)
            && Fallbacks(WorkflowFields(env)) == WorkflowValues(c)
            && Fallbacks(AndroidUiFields(env)) == AndroidUiValues(c)
  {
    hide DataRoot, RuntimeRoot, TemporaryRoot, IMAGE, NetworkPrefix, Fallbacks;
    var c := WithSharedLocks(DefaultConfig(h));
    forall i | 0 <= i < 6 ensures Fallbacks(AutomationFields(env))[i] == AutomationValues(c)[i] {}
    forall i | 0 <= i < 3 ensures Fallbacks(WorkflowFields(env))[i] == WorkflowValues(c)[i] {}
    forall i | 0 <= i < 5 ensures Fallbacks(AndroidUiFields(env))[i] == AndroidUiValues(c)[i] {}
  }

  lemma ContentFallbacks(h: Host, env: Environment)
    requires env.dataDirectory == DataRoot(h)
    ensures Fallbacks(ContentFields(env)) == ContentValues(WithSharedLocks(DefaultConfig(h)))
  {
    hide DataRoot, RuntimeRoot, TemporaryRoot, IMAGE, NetworkPrefix, Fallbacks;
    var c := WithSharedLocks(DefaultConfig(h));
    forall i | 0 <= i < 14 ensures Fallbacks(ContentFields(env))[i] == ContentValues(c)[i] {}
  }

  lemma ManagedAppsFallbacks(h: Host, env: Environment)
    ensures Fallbacks(ManagedAppsFields(env)) == ManagedAppsValues(WithSharedLocks(DefaultConfig(h)))
  {
    hide DataRoot, RuntimeRoot, TemporaryRoot, IMAGE, NetworkPrefix, Fallbacks;
    var c := WithSharedLocks(DefaultConfig(h));
    forall i | 0 <= i < 9 ensures Fallbacks(ManagedAppsFields(env))[i] == ManagedAppsValues(c)[i] {}
  }

  /** Everything that is installed in the five sections, but for the two lock directories, is what the loader
      falls back on. */
  lemma FallbacksOnly(past: ApplicationConfig, h: Host, env: Environment)
    requires env.dataDirectory == DataRoot(h)
    ensures FromValues(OldValues(past, env)) == WithSharedLocks(Merged(past, DefaultConfig(h)))
  {
    var m := WithSharedLocks(Merged(past, DefaultConfig(h)));
    FromToValues(m);
    hide DefaultConfig, FromValues, Values, OldValues, Merged, WithSharedLocks;
    FallbackPieces(past, h, env);
    MergedValues(past, DefaultConfig(h));
    SamePieces(OldValues(past, env), Values(m));
  }

  lemma FallbackPieces(past: ApplicationConfig, h: Host, env: Environment)
    requires env.dataDirectory == DataRoot(h)
    ensures var v, d := OldValues(past, env), WithSharedLocks(DefaultConfig(h));
            && |Values(past)| == 10 && v[..4] == Values(past)[..4] && v[9..] == Values(past)[9..]
            && v[4..9] == [AutomationValues(d), ContentValues(d), ManagedAppsValues(d), WorkflowValues(d),
                           AndroidUiValues(d)]
  {
    hide Values, Schema, DefaultConfig, WithSharedLocks, AutomationFields, ContentFields, ManagedAppsFields,
         WorkflowFields, AndroidUiFields, Fallbacks, AutomationValues, ContentValues, ManagedAppsValues, WorkflowValues,
         AndroidUiValues, OldValues;
    SmallFallbacks(h, env);
    ContentFallbacks(h, env);
    ManagedAppsFallbacks(h, env);
    SchemaSize(past, env);
    OldPieces(past, env);
  }

  lemma OldPieces(past: ApplicationConfig, env: Environment)
    ensures var v := OldValues(past, env);
            && |Values(past)| == 10 && v[..4] == Values(past)[..4] && v[9..] == Values(past)[9..]
            && v[4..9] == [Fallbacks(AutomationFields(env)), Fallbacks(ContentFields(env)),
                           Fallbacks(ManagedAppsFields(env)), Fallbacks(WorkflowFields(env)),
                           Fallbacks(AndroidUiFields(env))]
  {
    SchemaSize(past, env);
    hide Values, Schema, AutomationFields, ContentFields, ManagedAppsFields, WorkflowFields, AndroidUiFields, Fallbacks;
  }

  lemma SamePieces(a: seq<seq<Setting>>, b: seq<seq<Setting>>)
    requires |a| == |b| == 10 && a[..4] == b[..4] && a[4..9] == b[4..9] && a[9..] == b[9..]
    ensures a == b
  {
    assert a == a[..4] + a[4..9] + a[9..] && b == b[..4] + b[4..9] + b[9..];
  }

  lemma MergedValues(past: ApplicationConfig, c: ApplicationConfig)
    ensures var m, d := WithSharedLocks(Merged(past, c)), WithSharedLocks(c);
            && |Values(m)| == |Values(past)| == 10
            && Values(past)[..4] == Values(m)[..4] && Values(past)[9..] == Values(m)[9..]
            && Values(m)[4..9] == [AutomationValues(d), ContentValues(d), ManagedAppsValues(d), WorkflowValues(d),
                                   AndroidUiValues(d)]
  {
  }

  /** So on every host, whatever installation the file is from, a file from before the five sections loads
      before its upgrade, and after it loads the same but for the two lock directories. */
  lemma OldInstallationLoads(past: Host, h: Host, homes: map<string, string>)
    requires PlainHost(past) && PlainHost(h)
    ensures var env, text := EnvironmentOf(h, homes), OldText(DefaultConfig(past), EnvironmentOf(h, homes));
            var after := Load(Upgrade(text, Defaults(DefaultConfig(h), env)), env);
            && after.Success? && Load(text, env) == Success(WithSharedLocks(after.value))
            && after.value.contentInspectionLockDirectory == TemporaryRoot(h) + "/content-locks"
            && after.value.workflowLockDirectory == TemporaryRoot(h) + "/workflow-locks"
  {
    var env, c, earlier := EnvironmentOf(h, homes), DefaultConfig(h), DefaultConfig(past);
    assert env.dataDirectory == DataRoot(h);
    HostAbsolute(h, homes);
    InstalledLocks(earlier, h);
    InstalledFits(past, env);
    InstalledFits(h, env);
    hide DefaultConfig, Load, Upgrade, OldText, OldValues, FromValues, Defaults, RealLiteral, RecoverableConfig,
         PrintedPlain, Valid, PlainHost, Merged, WithSharedLocks, TemporaryRoot, Absolute, EnvironmentOf;
    OldLoads(earlier, env);
    UpgradedOldLoads(earlier, c, env);
    FallbacksOnly(earlier, h, env);
  }

  lemma InstalledLocks(past: ApplicationConfig, h: Host)
    ensures Merged(past, DefaultConfig(h)).contentInspectionLockDirectory == TemporaryRoot(h) + "/content-locks"
    ensures Merged(past, DefaultConfig(h)).workflowLockDirectory == TemporaryRoot(h) + "/workflow-locks"
  {
    hide TemporaryRoot, DataRoot, RuntimeRoot, IMAGE, NetworkPrefix;
  }

  lemma LocksDiffer(h: Host)
    ensures TemporaryRoot(h) + "/content-locks" != "/tmp/tiktok-manager-content-locks"
  {
    OwnLockDirectory(h);
    hide TemporaryRoot, DataRoot, RuntimeRoot, IMAGE, NetworkPrefix;
  }

  /** And the directory of the inspection locks always moves. */
  lemma OldInstallationMoves(past: Host, h: Host, homes: map<string, string>)
    requires PlainHost(past) && PlainHost(h)
    ensures var env, text := EnvironmentOf(h, homes), OldText(DefaultConfig(past), EnvironmentOf(h, homes));
            Load(text, env).Success?
            && Load(Upgrade(text, Defaults(DefaultConfig(h), env)), env) != Load(text, env)
  {
    hide Load, Upgrade, OldText, Defaults, PlainHost, TemporaryRoot, EnvironmentOf, DefaultConfig;
    LocksDiffer(h);
    OldInstallationLoads(past, h, homes);
  }

  // ----- a file with a foreign line break in a value -----

  lemma ContentRoot(c: ApplicationConfig, env: Environment)
    ensures |GroupAt(env, 5).fields| == 14 && GroupAt(env, 5).section == "content"
    ensures GroupAt(env, 5).fields[0].key == "root" && GroupAt(env, 5).fields[0].kind == LocationKind
    ensures |GroupAt(env, 4).fields| == 6 && GroupAt(env, 4).section == "automation"
  {
  }

  /** The file of `ExampleText` lacks the automation section. */
  lemma ExampleLacks(c: ApplicationConfig, env: Environment)
    ensures !NothingMissing(TomlLines(ExampleText()), Defaults(c, env))
  {
    ContentRoot(c, env);
    TableAt(c, env, 4);
    DefaultAt(c, env, 0);
    hide Tables, GroupAt, RowAt, TomlLines, ExampleText, HeaderOf, EntriesFrom, Defaults;
    ExampleElsewhere("automation");
    var w := Defaults(c, env)[0];
    NothingThere(w.items);
    assert MissingIn(TomlLines(ExampleText()), w) != [];
  }

  lemma NothingThere(items: seq<(string, string)>)
    requires items != []
    ensures Missing([], items) != []
  {
  }

  lemma RootReads(entries: seq<(string, string)>, f: Field, homes: map<string, string>)
    requires f.key == "root" && f.kind == LocationKind
    ensures Lookup(entries, "root") == Some(OLD_VALUE) ==>
              ReadField(entries, f, homes) == Some(Location("a\U{2028}b"))
    ensures Lookup(entries, "root") == Some(NEW_VALUE) ==> ReadField(entries, f, homes) == None
  {
    ExampleStrings();
    hide ReadBasic, Lookup;
  }

  /** The root of the content store that a load finds. */
  function ContentRootIn(text: string, env: Environment): Option<Setting> {
    ContentWidth(env);
    FieldIn(text, env, 5, 0)
  }

  /** The upgrade of that file with the program's own five tables: its content root is read before and not
      after, so the upgraded file no longer loads. */
  lemma BrokenValueLost(c: ApplicationConfig, env: Environment)
    requires RealLiteral(c.workflowPollIntervalSeconds) && RecoverableConfig(c)
    ensures ContentRootIn(ExampleText(), env) == Some(Location("a\U{2028}b"))
    ensures ContentRootIn(Upgrade(ExampleText(), Defaults(c, env)), env) == None
    ensures Load(Upgrade(ExampleText(), Defaults(c, env)), env).Failure?
  {
    var text, after := ExampleText(), Upgrade(ExampleText(), Defaults(c, env));
    ContentRoot(c, env);
    hide GroupAt, RowAt, Defaults, Upgrade, ExampleText, RealLiteral, RecoverableConfig, EntriesFrom, ReadBasic,
         NothingMissing, GoodTables, Load, Lookup, TomlLines, HeaderOf, ReadField;
    ExampleLacks(c, env);
    DefaultsGood(c, env);
    BrokenValue(Defaults(c, env));
    FirstFound("root", OLD_VALUE);
    RootReads(Entries(text, "content"), GroupAt(env, 5).fields[0], env.homes);
    RootReads(Entries(after, "content"), GroupAt(env, 5).fields[0], env.homes);
    assert FieldIn(after, env, 5, 0) == None;
    if Load(after, env).Success? {
      LoadedFields(after, env, 5, 0);
      assert false;
    }
  }

  lemma FirstFound(key: string, value: string)
    ensures Lookup([(key, value)], key) == Some(value)
  {
  }
}

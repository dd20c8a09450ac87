/** The application's configuration record: printed when it is first written, upgraded in place when it
    exists, and loaded back. */
module ApplicationConfiguration {
  import opened Wrappers
  import opened FileNames
  import opened Toml
  import opened ConfigFile
  import opened ConfigUpgrade
  import opened ConfigDocument
  import opened ConfigRoundTrip

  /** Paths are kept as their text; the float as the literal Python prints for it. */
  datatype ApplicationConfig = ApplicationConfig(
    databasePath: string,
    credentialKeyPath: string,
    installationId: string, image: string, dataRoot: string, baseAdbPort: int, profile: string,
    networkPrefix: string,
    bridgePortStart: int, bridgePortEnd: int, bridgeDevicePort: int, bridgeStateDirectory: string,
    bridgeLockDirectory: string, bridgeSystemdScope: string,
    artifactRoot: string, artifactMaxSizeBytes: int, artifactMaxTotalBytes: int, artifactRetentionDays: int,
    artifactUploadRetentionDays: int, artifactCleanupIntervalHours: int,
    contentRoot: string, contentMaxUploadBytes: int, contentMaxTotalBytes: int, contentFfprobePath: string,
    contentFfmpegPath: string, contentFfprobeTimeoutSeconds: int, contentFfprobeMaxOutputBytes: int,
    contentThumbnailTimeoutSeconds: int, contentCleanupIntervalHours: int, contentOrphanGraceHours: int,
    contentMaxImageDimension: int, contentMaxImagePixels: int, contentMaxImageFrames: int,
    contentInspectionLockDirectory: string,
    managedAppMaxApkBytes: int, managedAppAapt2Path: string, managedAppApksignerPath: string,
    managedAppInspectionTimeoutSeconds: int, managedAppMaxStdoutBytes: int, managedAppMaxStderrBytes: int,
    managedAppZipMaxEntries: int, managedAppZipMaxExpandedBytes: int, managedAppZipMaxCompressionRatio: int,
    workflowLockDirectory: string, workflowPollIntervalSeconds: string, workflowReconcileBatchSize: int,
    uiMaxXmlBytes: int, uiMaxNodes: int, uiMaxDepth: int, uiMaxTextLength: int, uiMaxAttributeLength: int,
    stopManagedDevicesOnShutdown: bool)

  /** What a load takes from its surroundings. */
  datatype Environment = Environment(configDirectory: string, dataDirectory: string, homes: map<string, string>)

  datatype ConfigurationError = ApplicationConfigurationError

  // ----- the schema: section, key, type and fallback, in the order in which they are printed -----

  function DatabaseFields(env: Environment): (r: seq<Field>)
    ensures |r| == 1
  {
    [Field("path", LocationKind, None)]
  }

  function SecurityFields(env: Environment): (r: seq<Field>)
    ensures |r| == 1
  {
    [Field("credential_key_path", LocationKind, Some(Location(env.configDirectory + "/credentials.key")))]
  }

  function ProvisioningFields(env: Environment): (r: seq<Field>)
    ensures |r| == 6
  {
    [Field("installation_id", TextKind, None),
     Field("image", TextKind, None),
     Field("data_root", LocationKind, None),
     Field("base_adb_port", WholeKind, Some(Whole(5554))),
     Field("profile", TextKind, Some(Text("android-12-redroid"))),
     Field("network_prefix", TextKind, Some(Text("redroid-device")))]
  }

  function NetworkFields(env: Environment): (r: seq<Field>)
    ensures |r| == 6
  {
    [Field("bridge_port_start", WholeKind, Some(Whole(8800))),
     Field("bridge_port_end", WholeKind, Some(Whole(8899))),
     Field("bridge_device_port", WholeKind, Some(Whole(8888))),
     Field("bridge_state_directory", LocationKind, None),
     Field("bridge_lock_directory", LocationKind, None),
     Field("bridge_systemd_scope", TextKind, Some(Text("user")))]
  }

  function AutomationFields(env: Environment): (r: seq<Field>)
    ensures |r| == 6
  {
    [Field("artifact_root", LocationKind, Some(Location(env.dataDirectory + "/artifacts"))),
     Field("artifact_max_size_bytes", WholeKind, Some(Whole(100 * 1024 * 1024))),
     Field("artifact_max_total_bytes", WholeKind, Some(Whole(1024 * 1024 * 1024))),
     Field("artifact_retention_days", WholeKind, Some(Whole(30))),
     Field("artifact_upload_retention_days", WholeKind, Some(Whole(7))),
     Field("artifact_cleanup_interval_hours", WholeKind, Some(Whole(6)))]
  }

  function ContentFields(env: Environment): (r: seq<Field>)
    ensures |r| == 14
  {
    [Field("root", LocationKind, Some(Location(env.dataDirectory + "/content"))),
     Field("max_upload_bytes", WholeKind, Some(Whole(500 * 1024 * 1024))),
     Field("max_total_bytes", WholeKind, Some(Whole(20 * 1024 * 1024 * 1024))),
     Field("ffprobe_path", LocationKind, Some(Location("/usr/bin/ffprobe"))),
     Field("ffmpeg_path", LocationKind, Some(Location("/usr/bin/ffmpeg"))),
     Field("ffprobe_timeout_seconds", WholeKind, Some(Whole(30))),
     Field("ffprobe_max_output_bytes", WholeKind, Some(Whole(1024 * 1024))),
     Field("thumbnail_timeout_seconds", WholeKind, Some(Whole(30))),
     Field("cleanup_interval_hours", WholeKind, Some(Whole(24))),
     Field("orphan_grace_hours", WholeKind, Some(Whole(168))),
     Field("max_image_dimension", WholeKind, Some(Whole(32768))),
     Field("max_image_pixels", WholeKind, Some(Whole(100_000_000))),
     Field("max_image_frames", WholeKind, Some(Whole(500))),
     Field("inspection_lock_directory", LocationKind, Some(Location("/tmp/tiktok-manager-content-locks")))]
  }

  function ManagedAppsFields(env: Environment): (r: seq<Field>)
    ensures |r| == 9
  {
    [Field("max_apk_bytes", WholeKind, Some(Whole(500 * 1024 * 1024))),
     Field("aapt2_path", LocationKind, Some(Location("/usr/bin/aapt2"))),
     Field("apksigner_path", LocationKind, Some(Location("/usr/bin/apksigner"))),
     Field("inspection_timeout_seconds", WholeKind, Some(Whole(30))),
     Field("max_stdout_bytes", WholeKind, Some(Whole(1024 * 1024))),
     Field("max_stderr_bytes", WholeKind, Some(Whole(256 * 1024))),
     Field("zip_max_entries", WholeKind, Some(Whole(20_000))),
     Field("zip_max_expanded_bytes", WholeKind, Some(Whole(2 * 1024 * 1024 * 1024))),
     Field("zip_max_compression_ratio", WholeKind, Some(Whole(200)))]
  }

  function WorkflowFields(env: Environment): (r: seq<Field>)
    ensures |r| == 3
  {
    [Field("lock_directory", LocationKind, Some(Location("/tmp/tiktok-manager-workflow-locks"))),
     Field("poll_interval_seconds", RealKind, Some(Real("2.0"))),
     Field("reconcile_batch_size", WholeKind, Some(Whole(100)))]
  }

  function AndroidUiFields(env: Environment): (r: seq<Field>)
    ensures |r| == 5
  {
    [Field("max_xml_bytes", WholeKind, Some(Whole(2 * 1024 * 1024))),
     Field("max_nodes", WholeKind, Some(Whole(10_000))),
     Field("max_depth", WholeKind, Some(Whole(64))),
     Field("max_text_length", WholeKind, Some(Whole(2_048))),
     Field("max_attribute_length", WholeKind, Some(Whole(4_096)))]
  }

  function RuntimeFields(env: Environment): (r: seq<Field>)
    ensures |r| == 1
  {
    [Field("stop_managed_devices_on_shutdown", FlagKind, Some(Flag(false)))]
  }

  function Schema(env: Environment): seq<Group> {
    [Group("database", DatabaseFields(env)),
     Group("security", SecurityFields(env)),
     Group("provisioning", ProvisioningFields(env)),
     Group("network", NetworkFields(env)),
     Group("automation", AutomationFields(env)),
     Group("content", ContentFields(env)),
     Group("managed_apps", ManagedAppsFields(env)),
     Group("workflow", WorkflowFields(env)),
     Group("android_ui", AndroidUiFields(env)),
     Group("runtime", RuntimeFields(env))]
  }

  function DatabaseValues(c: ApplicationConfig): (r: seq<Setting>)
    ensures |r| == 1
  {
    [Location(c.databasePath)]
  }

  function SecurityValues(c: ApplicationConfig): (r: seq<Setting>)
    ensures |r| == 1
  {
    [Location(c.credentialKeyPath)]
  }

  function ProvisioningValues(c: ApplicationConfig): (r: seq<Setting>)
    ensures |r| == 6
  {
    [Text(c.installationId), Text(c.image), Location(c.dataRoot), Whole(c.baseAdbPort), Text(c.profile),
     Text(c.networkPrefix)]
  }

  function NetworkValues(c: ApplicationConfig): (r: seq<Setting>)
    ensures |r| == 6
  {
    [Whole(c.bridgePortStart), Whole(c.bridgePortEnd), Whole(c.bridgeDevicePort),
     Location(c.bridgeStateDirectory), Location(c.bridgeLockDirectory), Text(c.bridgeSystemdScope)]
  }

  function AutomationValues(c: ApplicationConfig): (r: seq<Setting>)
    ensures |r| == 6
  {
    [Location(c.artifactRoot), Whole(c.artifactMaxSizeBytes), Whole(c.artifactMaxTotalBytes),
     Whole(c.artifactRetentionDays), Whole(c.artifactUploadRetentionDays), Whole(c.artifactCleanupIntervalHours)]
  }

  function ContentValues(c: ApplicationConfig): (r: seq<Setting>)
    ensures |r| == 14
  {
    [Location(c.contentRoot), Whole(c.contentMaxUploadBytes), Whole(c.contentMaxTotalBytes),
     Location(c.contentFfprobePath), Location(c.contentFfmpegPath), Whole(c.contentFfprobeTimeoutSeconds),
     Whole(c.contentFfprobeMaxOutputBytes), Whole(c.contentThumbnailTimeoutSeconds),
     Whole(c.contentCleanupIntervalHours), Whole(c.contentOrphanGraceHours), Whole(c.contentMaxImageDimension),
     Whole(c.contentMaxImagePixels), Whole(c.contentMaxImageFrames), Location(c.contentInspectionLockDirectory)]
  }

  function ManagedAppsValues(c: ApplicationConfig): (r: seq<Setting>)
    ensures |r| == 9
  {
    [Whole(c.managedAppMaxApkBytes), Location(c.managedAppAapt2Path), Location(c.managedAppApksignerPath),
     Whole(c.managedAppInspectionTimeoutSeconds), Whole(c.managedAppMaxStdoutBytes),
     Whole(c.managedAppMaxStderrBytes), Whole(c.managedAppZipMaxEntries), Whole(c.managedAppZipMaxExpandedBytes),
     Whole(c.managedAppZipMaxCompressionRatio)]
  }

  function WorkflowValues(c: ApplicationConfig): (r: seq<Setting>)
    ensures |r| == 3
  {
    [Location(c.workflowLockDirectory), Real(c.workflowPollIntervalSeconds),
     Whole(c.workflowReconcileBatchSize)]
  }

  function AndroidUiValues(c: ApplicationConfig): (r: seq<Setting>)
    ensures |r| == 5
  {
    [Whole(c.uiMaxXmlBytes), Whole(c.uiMaxNodes), Whole(c.uiMaxDepth), Whole(c.uiMaxTextLength),
     Whole(c.uiMaxAttributeLength)]
  }

  function RuntimeValues(c: ApplicationConfig): (r: seq<Setting>)
    ensures |r| == 1
  {
    [Flag(c.stopManagedDevicesOnShutdown)]
  }

  function Values(c: ApplicationConfig): seq<seq<Setting>> {
    [DatabaseValues(c), SecurityValues(c), ProvisioningValues(c), NetworkValues(c), AutomationValues(c),
     ContentValues(c), ManagedAppsValues(c), WorkflowValues(c), AndroidUiValues(c), RuntimeValues(c)]
  }

  function PathAt(values: seq<seq<Setting>>, g: nat, i: nat): string {
    if g < |values| && i < |values[g]| && values[g][i].Location? then values[g][i].path else ""
  }

  function TextAt(values: seq<seq<Setting>>, g: nat, i: nat): string {
    if g < |values| && i < |values[g]| && values[g][i].Text? then values[g][i].text else ""
  }

  function NumberAt(values: seq<seq<Setting>>, g: nat, i: nat): int {
    if g < |values| && i < |values[g]| && values[g][i].Whole? then values[g][i].number else 0
  }

  function LiteralAt(values: seq<seq<Setting>>, g: nat, i: nat): string {
    if g < |values| && i < |values[g]| && values[g][i].Real? then values[g][i].literal else ""
  }

  function FlagAt(values: seq<seq<Setting>>, g: nat, i: nat): bool {
    g < |values| && i < |values[g]| && values[g][i].Flag? && values[g][i].on
  }

  function FromValues(v: seq<seq<Setting>>): ApplicationConfig {
    ApplicationConfig(
      PathAt(v, 0, 0),
      PathAt(v, 1, 0),
      TextAt(v, 2, 0), TextAt(v, 2, 1), PathAt(v, 2, 2), NumberAt(v, 2, 3), TextAt(v, 2, 4), TextAt(v, 2, 5),
      NumberAt(v, 3, 0), NumberAt(v, 3, 1), NumberAt(v, 3, 2), PathAt(v, 3, 3), PathAt(v, 3, 4), TextAt(v, 3, 5),
      PathAt(v, 4, 0), NumberAt(v, 4, 1), NumberAt(v, 4, 2), NumberAt(v, 4, 3), NumberAt(v, 4, 4),
      NumberAt(v, 4, 5),
      PathAt(v, 5, 0), NumberAt(v, 5, 1), NumberAt(v, 5, 2), PathAt(v, 5, 3), PathAt(v, 5, 4), NumberAt(v, 5, 5),
      NumberAt(v, 5, 6), NumberAt(v, 5, 7), NumberAt(v, 5, 8), NumberAt(v, 5, 9), NumberAt(v, 5, 10),
      NumberAt(v, 5, 11), NumberAt(v, 5, 12), PathAt(v, 5, 13),
      NumberAt(v, 6, 0), PathAt(v, 6, 1), PathAt(v, 6, 2), NumberAt(v, 6, 3), NumberAt(v, 6, 4),
      NumberAt(v, 6, 5), NumberAt(v, 6, 6), NumberAt(v, 6, 7), NumberAt(v, 6, 8),
      PathAt(v, 7, 0), LiteralAt(v, 7, 1), NumberAt(v, 7, 2),
      NumberAt(v, 8, 0), NumberAt(v, 8, 1), NumberAt(v, 8, 2), NumberAt(v, 8, 3), NumberAt(v, 8, 4),
      FlagAt(v, 9, 0))
  }

  // ----- checking, printing and loading -----

  predicate ArtifactLimits(c: ApplicationConfig) {
    && c.artifactMaxSizeBytes > 0
    && c.artifactMaxTotalBytes >= c.artifactMaxSizeBytes
    && c.artifactRetentionDays > 0 && c.artifactUploadRetentionDays > 0 && c.artifactCleanupIntervalHours > 0
  }

  predicate ContentLimits(c: ApplicationConfig) {
    && c.contentMaxUploadBytes > 0
    && c.contentMaxTotalBytes >= c.contentMaxUploadBytes
    && c.contentFfprobeTimeoutSeconds > 0 && c.contentFfprobeMaxOutputBytes > 0
    && c.contentThumbnailTimeoutSeconds > 0 && c.contentCleanupIntervalHours > 0 && c.contentOrphanGraceHours > 0
    && c.contentMaxImageDimension > 0 && c.contentMaxImagePixels > 0 && c.contentMaxImageFrames > 0
  }

  predicate OrchestrationLimits(c: ApplicationConfig) {
    && PositiveLiteral(c.workflowPollIntervalSeconds) && c.workflowReconcileBatchSize > 0
    && c.uiMaxXmlBytes > 0 && c.uiMaxNodes > 0 && c.uiMaxDepth > 0 && c.uiMaxTextLength > 0
    && c.uiMaxAttributeLength > 0
  }

  predicate ManagedAppLimits(c: ApplicationConfig) {
    && 0 < c.managedAppMaxApkBytes <= c.contentMaxTotalBytes
    && c.managedAppInspectionTimeoutSeconds > 0 && c.managedAppMaxStdoutBytes > 0 && c.managedAppMaxStderrBytes > 0
    && c.managedAppZipMaxEntries > 0 && c.managedAppZipMaxExpandedBytes > 0 && c.managedAppZipMaxCompressionRatio > 0
  }

  /** The checks every configuration record makes on itself. */
  predicate Valid(c: ApplicationConfig) {
    ArtifactLimits(c) && ContentLimits(c) && OrchestrationLimits(c) && ManagedAppLimits(c)
  }

  /** The part of a number before its exponent. */
  function Mantissa(s: string): string {
    if s == [] || s[0] == 'e' || s[0] == 'E' then [] else [s[0]] + Mantissa(s[1..])
  }

  /** A float literal that passes the check: nan does, and so does a positive number, which has a digit other
      than zero ahead of its exponent. */
  predicate PositiveLiteral(l: string) {
    var body := Unsigned(l);
    body == "nan"
    || (l != [] && l[0] != '-'
        && (body == "inf" || exists i :: 0 <= i < |Mantissa(body)| && '1' <= Mantissa(body)[i] <= '9'))
  }

  lemma ValuesShaped(c: ApplicationConfig, env: Environment)
    ensures Shaped(Schema(env), Values(c))
  {
    hide DatabaseFields, SecurityFields, ProvisioningFields, NetworkFields, AutomationFields, ContentFields,
         ManagedAppsFields, WorkflowFields, AndroidUiFields, RuntimeFields;
    hide DatabaseValues, SecurityValues, ProvisioningValues, NetworkValues, AutomationValues, ContentValues,
         ManagedAppsValues, WorkflowValues, AndroidUiValues, RuntimeValues;
  }

  function Tables(c: ApplicationConfig, env: Environment): (r: seq<Table>)
    ensures |r| == 10
  {
    ValuesShaped(c, env);
    PrintTables(Schema(env), Values(c))
  }

  function PrintConfig(c: ApplicationConfig, env: Environment): string {
    Serialize(Tables(c, env))
  }

  function Load(text: string, env: Environment): Result<ApplicationConfig, ConfigurationError> {
    match ReadGroups(TomlLines(text), Schema(env), env.homes)
    case None => Failure(ApplicationConfigurationError)
    case Some(values) =>
      var c := FromValues(values);
      if Valid(c) then Success(c) else Failure(ApplicationConfigurationError)
  }

  predicate BareKeys(fields: seq<Field>) {
    forall i :: 0 <= i < |fields| ==> BareKey(fields[i].key)
  }

  // ----- the schema is well formed -----

  /** Keys are given by their characters, which is cheaper to tell from a text than from its positions. */
  predicate KeyChars(s: string) {
    s != [] && forall c :: c in s ==> IsAsciiAlnum(c) || c == '_' || c == '-'
  }

  lemma FourBare(a: string, b: string, c: string, d: string)
    requires forall k :: k in [a, b, c, d] ==> KeyChars(k)
    ensures BareKey(a) && BareKey(b) && BareKey(c) && BareKey(d)
  {
    var keys := [a, b, c, d];
    assert keys[0] in keys && keys[1] in keys && keys[2] in keys && keys[3] in keys;
  }

  lemma Bare1Keys()
    ensures BareKey("path") && BareKey("credential_key_path") && BareKey("installation_id") && BareKey("image")
  {
    hide BareKey;
    FourBare("path", "credential_key_path", "installation_id", "image");
  }

  lemma Bare2Keys()
    ensures BareKey("data_root") && BareKey("base_adb_port") && BareKey("profile") && BareKey("network_prefix")
  {
    hide BareKey;
    FourBare("data_root", "base_adb_port", "profile", "network_prefix");
  }

  lemma Bare3Keys()
    ensures BareKey("bridge_port_start") && BareKey("bridge_port_end")
            && BareKey("bridge_device_port") && BareKey("bridge_state_directory")
  {
    hide BareKey;
    FourBare("bridge_port_start", "bridge_port_end", "bridge_device_port", "bridge_state_directory");
  }

  lemma Bare4Keys()
    ensures BareKey("bridge_lock_directory") && BareKey("bridge_systemd_scope")
            && BareKey("artifact_root") && BareKey("artifact_max_size_bytes")
  {
    hide BareKey;
    FourBare("bridge_lock_directory", "bridge_systemd_scope", "artifact_root", "artifact_max_size_bytes");
  }

  lemma Bare5Keys()
    ensures BareKey("artifact_max_total_bytes") && BareKey("artifact_retention_days")
            && BareKey("artifact_upload_retention_days") && BareKey("artifact_cleanup_interval_hours")
  {
    hide BareKey;
    FourBare("artifact_max_total_bytes", "artifact_retention_days",
             "artifact_upload_retention_days", "artifact_cleanup_interval_hours");
  }

  lemma Bare6Keys()
    ensures BareKey("root") && BareKey("max_upload_bytes") && BareKey("max_total_bytes") && BareKey("ffprobe_path")
  {
    hide BareKey;
    FourBare("root", "max_upload_bytes", "max_total_bytes", "ffprobe_path");
  }

  lemma Bare7Keys()
    ensures BareKey("ffmpeg_path") && BareKey("ffprobe_timeout_seconds")
            && BareKey("ffprobe_max_output_bytes") && BareKey("thumbnail_timeout_seconds")
  {
    hide BareKey;
    FourBare("ffmpeg_path", "ffprobe_timeout_seconds", "ffprobe_max_output_bytes", "thumbnail_timeout_seconds");
  }

  lemma Bare8Keys()
    ensures BareKey("cleanup_interval_hours") && BareKey("orphan_grace_hours")
            && BareKey("max_image_dimension") && BareKey("max_image_pixels")
  {
    hide BareKey;
    FourBare("cleanup_interval_hours", "orphan_grace_hours", "max_image_dimension", "max_image_pixels");
  }

  lemma Bare9Keys()
    ensures BareKey("max_image_frames") && BareKey("inspection_lock_directory")
            && BareKey("max_apk_bytes") && BareKey("aapt2_path")
  {
    hide BareKey;
    FourBare("max_image_frames", "inspection_lock_directory", "max_apk_bytes", "aapt2_path");
  }

  lemma Bare10Keys()
    ensures BareKey("apksigner_path") && BareKey("inspection_timeout_seconds")
            && BareKey("max_stdout_bytes") && BareKey("max_stderr_bytes")
  {
    hide BareKey;
    FourBare("apksigner_path", "inspection_timeout_seconds", "max_stdout_bytes", "max_stderr_bytes");
  }

  lemma Bare11Keys()
    ensures BareKey("zip_max_entries") && BareKey("zip_max_expanded_bytes")
            && BareKey("zip_max_compression_ratio") && BareKey("lock_directory")
  {
    hide BareKey;
    FourBare("zip_max_entries", "zip_max_expanded_bytes", "zip_max_compression_ratio", "lock_directory");
  }

  lemma Bare12Keys()
    ensures BareKey("poll_interval_seconds") && BareKey("reconcile_batch_size")
            && BareKey("max_xml_bytes") && BareKey("max_nodes")
  {
    hide BareKey;
    FourBare("poll_interval_seconds", "reconcile_batch_size", "max_xml_bytes", "max_nodes");
  }

  lemma Bare13Keys()
    ensures BareKey("max_depth") && BareKey("max_text_length")
            && BareKey("max_attribute_length") && BareKey("stop_managed_devices_on_shutdown")
  {
    hide BareKey;
    FourBare("max_depth", "max_text_length", "max_attribute_length", "stop_managed_devices_on_shutdown");
  }

  lemma SmallGood(env: Environment)
    ensures DistinctFields(DatabaseFields(env)) && BareKeys(DatabaseFields(env)) && BareKey("database")
    ensures DistinctFields(SecurityFields(env)) && BareKeys(SecurityFields(env)) && BareKey("security")
    ensures DistinctFields(RuntimeFields(env)) && BareKeys(RuntimeFields(env)) && BareKey("runtime")
  {
    assert BareKey("database") && BareKey("security") && BareKey("runtime");
    hide BareKey;
    Bare1Keys();
    Bare13Keys();
  }

  lemma ProvisioningGood(env: Environment)
    ensures DistinctFields(ProvisioningFields(env)) && BareKeys(ProvisioningFields(env)) && BareKey("provisioning")
  {
    assert BareKey("provisioning");
    hide BareKey;
    Bare1Keys();
    Bare2Keys();
  }

  lemma NetworkGood(env: Environment)
    ensures DistinctFields(NetworkFields(env)) && BareKeys(NetworkFields(env)) && BareKey("network")
  {
    assert BareKey("network");
    hide BareKey;
    Bare3Keys();
    Bare4Keys();
  }

  lemma AutomationGood(env: Environment)
    ensures DistinctFields(AutomationFields(env)) && BareKeys(AutomationFields(env)) && BareKey("automation")
  {
    assert BareKey("automation");
    hide BareKey;
    Bare4Keys();
    Bare5Keys();
  }

  lemma ContentGood(env: Environment)
    ensures DistinctFields(ContentFields(env)) && BareKeys(ContentFields(env)) && BareKey("content")
  {
    assert BareKey("content");
    hide BareKey;
    Bare6Keys();
    Bare7Keys();
    Bare8Keys();
    Bare9Keys();
  }

  lemma ManagedAppsGood(env: Environment)
    ensures DistinctFields(ManagedAppsFields(env)) && BareKeys(ManagedAppsFields(env)) && BareKey("managed_apps")
  {
    assert BareKey("managed_apps");
    hide BareKey;
    Bare9Keys();
    Bare10Keys();
    Bare11Keys();
  }

  lemma WorkflowGood(env: Environment)
    ensures DistinctFields(WorkflowFields(env)) && BareKeys(WorkflowFields(env)) && BareKey("workflow")
  {
    assert BareKey("workflow");
    hide BareKey;
    Bare11Keys();
    Bare12Keys();
  }

  lemma AndroidUiGood(env: Environment)
    ensures DistinctFields(AndroidUiFields(env)) && BareKeys(AndroidUiFields(env)) && BareKey("android_ui")
  {
    assert BareKey("android_ui");
    hide BareKey;
    Bare12Keys();
    Bare13Keys();
  }

  lemma SchemaGood(env: Environment)
    ensures WellFormed(Schema(env))
  {
    SmallGood(env);
    ProvisioningGood(env);
    NetworkGood(env);
    AutomationGood(env);
    ContentGood(env);
    ManagedAppsGood(env);
    WorkflowGood(env);
    AndroidUiGood(env);
    hide DatabaseFields, SecurityFields, ProvisioningFields, NetworkFields, AutomationFields, ContentFields,
         ManagedAppsFields, WorkflowFields, AndroidUiFields, RuntimeFields, BareKey, DistinctFields;
  }

  // ----- records and rows of values -----

  predicate RowTyped(fields: seq<Field>, row: seq<Setting>) {
    |row| == |fields| && forall i :: 0 <= i < |row| ==> KindOf(row[i]) == fields[i].kind
  }

  ghost predicate AllTyped(groups: seq<Group>, values: seq<seq<Setting>>) {
    |values| == |groups| && forall g {:trigger values[g]} :: 0 <= g < |groups| ==> RowTyped(groups[g].fields, values[g])
  }

  lemma RecordTyped(c: ApplicationConfig, env: Environment)
    ensures AllTyped(Schema(env), Values(c))
  {
    FirstRowsTyped(c, env);
    LastRowsTyped(c, env);
    hide DatabaseFields, SecurityFields, ProvisioningFields, NetworkFields, AutomationFields, ContentFields,
         ManagedAppsFields, WorkflowFields, AndroidUiFields, RuntimeFields, RowTyped, FromValues;
    hide DatabaseValues, SecurityValues, ProvisioningValues, NetworkValues, AutomationValues, ContentValues,
         ManagedAppsValues, WorkflowValues, AndroidUiValues, RuntimeValues;
  }

  lemma FirstRowsTyped(c: ApplicationConfig, env: Environment)
    ensures RowTyped(DatabaseFields(env), DatabaseValues(c)) && RowTyped(SecurityFields(env), SecurityValues(c))
    ensures RowTyped(ProvisioningFields(env), ProvisioningValues(c)) && RowTyped(NetworkFields(env), NetworkValues(c))
    ensures RowTyped(AutomationFields(env), AutomationValues(c)) && RowTyped(ContentFields(env), ContentValues(c))
  {
  }

  lemma LastRowsTyped(c: ApplicationConfig, env: Environment)
    ensures RowTyped(ManagedAppsFields(env), ManagedAppsValues(c)) && RowTyped(WorkflowFields(env), WorkflowValues(c))
    ensures RowTyped(AndroidUiFields(env), AndroidUiValues(c)) && RowTyped(RuntimeFields(env), RuntimeValues(c))
  {
  }

  lemma HostRows(env: Environment, values: seq<seq<Setting>>)
    requires |values| == 10 && RowTyped(DatabaseFields(env), values[0]) && RowTyped(SecurityFields(env), values[1])
    requires RowTyped(ProvisioningFields(env), values[2])
    ensures DatabaseValues(FromValues(values)) == values[0] && SecurityValues(FromValues(values)) == values[1]
    ensures ProvisioningValues(FromValues(values)) == values[2]
  {
  }

  lemma NetworkRows(env: Environment, values: seq<seq<Setting>>)
    requires |values| == 10 && RowTyped(NetworkFields(env), values[3]) && RowTyped(AutomationFields(env), values[4])
    ensures NetworkValues(FromValues(values)) == values[3] && AutomationValues(FromValues(values)) == values[4]
  {
  }

  lemma ContentKinds(env: Environment, row: seq<Setting>)
    requires RowTyped(ContentFields(env), row)
    ensures |row| == 14 && row[0].Location? && row[3].Location? && row[4].Location? && row[13].Location?
    ensures row[1].Whole? && row[2].Whole? && forall i :: 5 <= i < 13 ==> row[i].Whole?
  {
  }

  lemma ContentRow(env: Environment, values: seq<seq<Setting>>)
    requires |values| == 10 && RowTyped(ContentFields(env), values[5])
    ensures ContentValues(FromValues(values)) == values[5]
  {
    ContentKinds(env, values[5]);
    hide RowTyped, ContentFields, KindOf;
  }

  lemma ManagedAppsRow(env: Environment, values: seq<seq<Setting>>)
    requires |values| == 10 && RowTyped(ManagedAppsFields(env), values[6])
    ensures ManagedAppsValues(FromValues(values)) == values[6]
  {
    var row := values[6];
    assert row[0].Whole? && row[1].Location? && row[2].Location? && row[3].Whole? && row[4].Whole?;
    assert row[5].Whole? && row[6].Whole? && row[7].Whole? && row[8].Whole?;
    hide RowTyped, ManagedAppsFields, KindOf;
  }

  lemma RunRows(env: Environment, values: seq<seq<Setting>>)
    requires |values| == 10 && RowTyped(WorkflowFields(env), values[7]) && RowTyped(AndroidUiFields(env), values[8])
    requires RowTyped(RuntimeFields(env), values[9])
    ensures WorkflowValues(FromValues(values)) == values[7] && AndroidUiValues(FromValues(values)) == values[8]
    ensures RuntimeValues(FromValues(values)) == values[9]
  {
  }

  /** A record is determined by its rows of values. */
  lemma RecordRecovered(env: Environment, values: seq<seq<Setting>>)
    requires AllTyped(Schema(env), values)
    ensures Values(FromValues(values)) == values
  {
    hide DatabaseFields, SecurityFields, ProvisioningFields, NetworkFields, AutomationFields, ContentFields,
         ManagedAppsFields, WorkflowFields, AndroidUiFields, RuntimeFields, RowTyped, FromValues;
    hide DatabaseValues, SecurityValues, ProvisioningValues, NetworkValues, AutomationValues, ContentValues,
         ManagedAppsValues, WorkflowValues, AndroidUiValues, RuntimeValues;
    SchemaRows(env, values);
    HostRows(env, values);
    NetworkRows(env, values);
    ContentRow(env, values);
    ManagedAppsRow(env, values);
    RunRows(env, values);
  }

  lemma SchemaRows(env: Environment, values: seq<seq<Setting>>)
    requires AllTyped(Schema(env), values)
    ensures |values| == 10
    ensures RowTyped(DatabaseFields(env), values[0])
    ensures RowTyped(SecurityFields(env), values[1])
    ensures RowTyped(ProvisioningFields(env), values[2])
    ensures RowTyped(NetworkFields(env), values[3])
    ensures RowTyped(AutomationFields(env), values[4])
    ensures RowTyped(ContentFields(env), values[5])
    ensures RowTyped(ManagedAppsFields(env), values[6])
    ensures RowTyped(WorkflowFields(env), values[7])
    ensures RowTyped(AndroidUiFields(env), values[8])
    ensures RowTyped(RuntimeFields(env), values[9])
  {
    hide DatabaseFields, SecurityFields, ProvisioningFields, NetworkFields, AutomationFields, ContentFields,
         ManagedAppsFields, WorkflowFields, AndroidUiFields, RuntimeFields, RowTyped;
    assert RowTyped(Schema(env)[0].fields, values[0])
           && RowTyped(Schema(env)[1].fields, values[1])
           && RowTyped(Schema(env)[2].fields, values[2])
           && RowTyped(Schema(env)[3].fields, values[3])
           && RowTyped(Schema(env)[4].fields, values[4])
           && RowTyped(Schema(env)[5].fields, values[5])
           && RowTyped(Schema(env)[6].fields, values[6])
           && RowTyped(Schema(env)[7].fields, values[7])
           && RowTyped(Schema(env)[8].fields, values[8])
           && RowTyped(Schema(env)[9].fields, values[9]);
  }

  lemma FromToValues(c: ApplicationConfig)
    ensures FromValues(Values(c)) == c
  {
  }

  // ----- what a load returns has the schema's types -----

  predicate FallbacksTyped(fields: seq<Field>) {
    forall i :: 0 <= i < |fields| ==> fields[i].fallback.Some? ==> KindOf(fields[i].fallback.value) == fields[i].kind
  }

  lemma FieldTyped(entries: seq<(string, string)>, f: Field, homes: map<string, string>)
    requires f.fallback.Some? ==> KindOf(f.fallback.value) == f.kind
    ensures ReadField(entries, f, homes).Some? ==> KindOf(ReadField(entries, f, homes).value) == f.kind
  {
    hide Lookup, ReadBasic, ReadWhole, RealLiteral, ExpandUser;
  }

  lemma {:induction false} FieldsTyped(entries: seq<(string, string)>, fields: seq<Field>, homes: map<string, string>)
    requires FallbacksTyped(fields)
    ensures ReadFields(entries, fields, homes).Some? ==> RowTyped(fields, ReadFields(entries, fields, homes).value)
  {
    hide KindOf, ReadField;
    if fields == [] {
    } else {
      FieldTyped(entries, fields[0], homes);
      FieldsTyped(entries, fields[1..], homes);
    }
  }

  lemma {:induction false} GroupsTyped(lines: seq<string>, groups: seq<Group>, homes: map<string, string>)
    requires forall g :: 0 <= g < |groups| ==> FallbacksTyped(groups[g].fields)
    ensures ReadGroups(lines, groups, homes).Some? ==> AllTyped(groups, ReadGroups(lines, groups, homes).value)
  {
    hide FallbacksTyped, RowTyped, EntriesFrom, HeaderOf, ReadFields;
    if groups == [] {
    } else {
      FieldsTyped(EntriesFrom(lines, "", HeaderOf(groups[0].section)), groups[0].fields, homes);
      GroupsTyped(lines, groups[1..], homes);
    }
  }

  lemma SchemaFallbacks(env: Environment)
    ensures forall g :: 0 <= g < |Schema(env)| ==> FallbacksTyped(Schema(env)[g].fields)
  {
    assert FallbacksTyped(DatabaseFields(env)) && FallbacksTyped(SecurityFields(env));
    assert FallbacksTyped(ProvisioningFields(env)) && FallbacksTyped(NetworkFields(env));
    assert FallbacksTyped(AutomationFields(env)) && FallbacksTyped(WorkflowFields(env));
    assert FallbacksTyped(AndroidUiFields(env)) && FallbacksTyped(RuntimeFields(env));
    assert FallbacksTyped(ContentFields(env));
    assert FallbacksTyped(ManagedAppsFields(env));
    hide FallbacksTyped;
  }

  // ----- the round trip -----

  /** Every text is free of control characters other than tab, and no path starts with a tilde. */
  ghost predicate RecoverableConfig(c: ApplicationConfig) {
    forall g, i :: 0 <= g < |Values(c)| && 0 <= i < |Values(c)[g]| ==> Recoverable(Values(c)[g][i])
  }

  lemma ConfigTyped(c: ApplicationConfig, env: Environment)
    requires RealLiteral(c.workflowPollIntervalSeconds)
    ensures Shaped(Schema(env), Values(c)) && Typed(Schema(env), Values(c))
  {
    RecordTyped(c, env);
    ConfigPrintable(c);
    hide Schema, Values, Printable, KindOf;
  }

  lemma ConfigPrintable(c: ApplicationConfig)
    requires RealLiteral(c.workflowPollIntervalSeconds)
    ensures forall g, i :: 0 <= g < |Values(c)| && 0 <= i < |Values(c)[g]| ==> Printable(Values(c)[g][i])
  {
    hide RealLiteral;
  }

  /** Loading a printed configuration gives back exactly that configuration if and only if it passes its
      own checks and all its texts are recoverable; whatever the home directories are. */
  lemma LoadPrinted(c: ApplicationConfig, env: Environment)
    requires RealLiteral(c.workflowPollIntervalSeconds)
    ensures Load(PrintConfig(c, env), env) == Success(c) <==> Valid(c) && RecoverableConfig(c)
  {
    hide Valid, Recoverable, Serialize, Schema, Values, FromValues, PrintTables, TomlLines, AllTyped, WellFormed,
         Typed, Shaped, FallbacksTyped, RealLiteral, ReadGroups;
    var groups, values, lines := Schema(env), Values(c), TomlLines(PrintConfig(c, env));
    SchemaGood(env);
    ConfigTyped(c, env);
    assert lines == TomlLines(Serialize(PrintTables(groups, values)));
    DocumentRoundTrip(groups, values, env.homes);
    SchemaFallbacks(env);
    GroupsTyped(lines, groups, env.homes);
    FromToValues(c);
    var read := ReadGroups(lines, groups, env.homes);
    if read.Some? {
      RecordRecovered(env, read.value);
    }
  }
}

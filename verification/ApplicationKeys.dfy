/** Which key of the file each field of the configuration record is loaded from and printed under. */
module ApplicationKeys {
  import opened Wrappers
  import opened Decimal
  import opened Toml
  import opened ConfigFile
  import opened ConfigUpgrade
  import opened ConfigDocument
  import opened ConfigRoundTrip
  import opened ApplicationConfiguration
  import opened ApplicationUpgrade

  // ----- loading -----

  /** A load finds this value under this key, or falls back on it. */
  ghost predicate Found(text: string, env: Environment, section: string, key: string, v: Setting,
                        fallback: Option<Setting>)
  {
    match Lookup(Entries(text, section), key)
    case Some(raw) =>
      (match v
       case Text(s) => ReadBasic(raw) == Some((s, ""))
       case Location(p) =>
         && ReadBasic(raw).Some? && ReadBasic(raw).value.1 == ""
         && ExpandUser(ReadBasic(raw).value.0, env.homes) == Some(p)
       case Whole(n) => ReadWhole(raw) == Some(n)
       case Real(l) => raw == l && RealLiteral(l)
       case Flag(on) => raw == if on then "true" else "false")
    case None =>
      && fallback.Some?
      && (match v
          case Location(p) => fallback.value.Location? && ExpandUser(fallback.value.path, env.homes) == Some(p)
          case _ => fallback.value == v)
  }

  lemma ReadIsFound(text: string, env: Environment, section: string, f: Field, v: Setting)
    requires ReadField(Entries(text, section), f, env.homes) == Some(v) && KindOf(v) == f.kind
    ensures Found(text, env, section, f.key, v, f.fallback)
  {
    assert "true" != "false" by { assert "true"[0] != "false"[0]; }
    hide Lookup, ReadBasic, ReadWhole, RealLiteral, ExpandUser, TomlLines, EntriesFrom;
  }

  /** All fields of one section of a text that loads. */
  lemma SectionFound(text: string, env: Environment, g: nat)
    requires Load(text, env).Success? && g < 10
    ensures var group, row := GroupAt(env, g), RowAt(Load(text, env).value, env, g);
            forall i :: 0 <= i < |row| ==>
              Found(text, env, group.section, group.fields[i].key, row[i], group.fields[i].fallback)
  {
    var c := Load(text, env).value;
    RowKinds(c, env, g);
    hide GroupAt, RowAt, Load, Found, ReadField, Entries;
    var group, row := GroupAt(env, g), RowAt(c, env, g);
    forall i | 0 <= i < |row|
      ensures Found(text, env, group.section, group.fields[i].key, row[i], group.fields[i].fallback)
    {
      LoadedFields(text, env, g, i);
      assert KindOf(row[i]) == group.fields[i].kind;
      ReadIsFound(text, env, group.section, group.fields[i], row[i]);
    }
  }

  lemma RowKinds(c: ApplicationConfig, env: Environment, g: nat)
    requires g < 10
    ensures forall i {:trigger RowAt(c, env, g)[i]} :: 0 <= i < |RowAt(c, env, g)| ==>
              KindOf(RowAt(c, env, g)[i]) == GroupAt(env, g).fields[i].kind
  {
    RecordTyped(c, env);
    SchemaSize(c, env);
    hide Schema, Values, KindOf;
    assert RowTyped(Schema(env)[g].fields, Values(c)[g]);
  }

  /** The same, section by section. */
  ghost predicate AllFound(text: string, env: Environment, section: string, fields: seq<Field>, row: seq<Setting>) {
    && |fields| == |row|
    && forall i :: 0 <= i < |row| ==> Found(text, env, section, fields[i].key, row[i], fields[i].fallback)
  }

  lemma DatabaseSection(text: string, env: Environment)
    requires Load(text, env).Success?
    ensures AllFound(text, env, "database", DatabaseFields(env), DatabaseValues(Load(text, env).value))
  {
    SectionFound(text, env, 0);
    hide Load, Found, DatabaseFields, DatabaseValues;
    DatabaseAt(Load(text, env).value, env);
    hide GroupAt, RowAt;
  }

  lemma DatabaseFound(text: string, env: Environment)
    requires Load(text, env).Success?
    ensures var c := Load(text, env).value;
            && Found(text, env, "database", "path", Location(c.databasePath), None)
  {
    hide Load, Found;
    DatabaseSection(text, env);
    var f, r := DatabaseFields(env), DatabaseValues(Load(text, env).value);
    assert Found(text, env, "database", f[0].key, r[0], f[0].fallback);
  }

  lemma DatabaseAt(c: ApplicationConfig, env: Environment)
    ensures GroupAt(env, 0) == Group("database", DatabaseFields(env))
    ensures RowAt(c, env, 0) == DatabaseValues(c)
  {
    SchemaSize(c, env);
  }

  lemma SecuritySection(text: string, env: Environment)
    requires Load(text, env).Success?
    ensures AllFound(text, env, "security", SecurityFields(env), SecurityValues(Load(text, env).value))
  {
    SectionFound(text, env, 1);
    hide Load, Found, SecurityFields, SecurityValues;
    SecurityAt(Load(text, env).value, env);
    hide GroupAt, RowAt;
  }

  lemma SecurityFound(text: string, env: Environment)
    requires Load(text, env).Success?
    ensures var c := Load(text, env).value;
            && Found(text, env, "security", "credential_key_path",
                     Location(c.credentialKeyPath), Some(Location(env.configDirectory + "/credentials.key")))
  {
    hide Load, Found;
    SecuritySection(text, env);
    var f, r := SecurityFields(env), SecurityValues(Load(text, env).value);
    assert Found(text, env, "security", f[0].key, r[0], f[0].fallback);
  }

  lemma SecurityAt(c: ApplicationConfig, env: Environment)
    ensures GroupAt(env, 1) == Group("security", SecurityFields(env))
    ensures RowAt(c, env, 1) == SecurityValues(c)
  {
    SchemaSize(c, env);
  }

  lemma ProvisioningSection(text: string, env: Environment)
    requires Load(text, env).Success?
    ensures AllFound(text, env, "provisioning", ProvisioningFields(env), ProvisioningValues(Load(text, env).value))
  {
    SectionFound(text, env, 2);
    hide Load, Found, ProvisioningFields, ProvisioningValues;
    ProvisioningAt(Load(text, env).value, env);
    hide GroupAt, RowAt;
  }

  lemma ProvisioningFound(text: string, env: Environment)
    requires Load(text, env).Success?
    ensures var c := Load(text, env).value;
            && Found(text, env, "provisioning", "installation_id", Text(c.installationId), None)
            && Found(text, env, "provisioning", "image", Text(c.image), None)
            && Found(text, env, "provisioning", "data_root", Location(c.dataRoot), None)
            && Found(text, env, "provisioning", "base_adb_port", Whole(c.baseAdbPort), Some(Whole(5554)))
            && Found(text, env, "provisioning", "profile", Text(c.profile), Some(Text("android-12-redroid")))
            && Found(text, env, "provisioning", "network_prefix", Text(c.networkPrefix), Some(Text("redroid-device")))
  {
    hide Load, Found;
    ProvisioningSection(text, env);
    var f, r := ProvisioningFields(env), ProvisioningValues(Load(text, env).value);
    assert Found(text, env, "provisioning", f[0].key, r[0], f[0].fallback);
    assert Found(text, env, "provisioning", f[1].key, r[1], f[1].fallback);
    assert Found(text, env, "provisioning", f[2].key, r[2], f[2].fallback);
    assert Found(text, env, "provisioning", f[3].key, r[3], f[3].fallback);
    assert Found(text, env, "provisioning", f[4].key, r[4], f[4].fallback);
    assert Found(text, env, "provisioning", f[5].key, r[5], f[5].fallback);
  }

  lemma ProvisioningAt(c: ApplicationConfig, env: Environment)
    ensures GroupAt(env, 2) == Group("provisioning", ProvisioningFields(env))
    ensures RowAt(c, env, 2) == ProvisioningValues(c)
  {
    SchemaSize(c, env);
  }

  lemma NetworkSection(text: string, env: Environment)
    requires Load(text, env).Success?
    ensures AllFound(text, env, "network", NetworkFields(env), NetworkValues(Load(text, env).value))
  {
    SectionFound(text, env, 3);
    hide Load, Found, NetworkFields, NetworkValues;
    NetworkAt(Load(text, env).value, env);
    hide GroupAt, RowAt;
  }

  lemma NetworkFound(text: string, env: Environment)
    requires Load(text, env).Success?
    ensures var c := Load(text, env).value;
            && Found(text, env, "network", "bridge_port_start", Whole(c.bridgePortStart), Some(Whole(8800)))
            && Found(text, env, "network", "bridge_port_end", Whole(c.bridgePortEnd), Some(Whole(8899)))
            && Found(text, env, "network", "bridge_device_port", Whole(c.bridgeDevicePort), Some(Whole(8888)))
            && Found(text, env, "network", "bridge_state_directory", Location(c.bridgeStateDirectory), None)
            && Found(text, env, "network", "bridge_lock_directory", Location(c.bridgeLockDirectory), None)
            && Found(text, env, "network", "bridge_systemd_scope", Text(c.bridgeSystemdScope), Some(Text("user")))
  {
    hide Load, Found;
    NetworkSection(text, env);
    var f, r := NetworkFields(env), NetworkValues(Load(text, env).value);
    assert Found(text, env, "network", f[0].key, r[0], f[0].fallback);
    assert Found(text, env, "network", f[1].key, r[1], f[1].fallback);
    assert Found(text, env, "network", f[2].key, r[2], f[2].fallback);
    assert Found(text, env, "network", f[3].key, r[3], f[3].fallback);
    assert Found(text, env, "network", f[4].key, r[4], f[4].fallback);
    assert Found(text, env, "network", f[5].key, r[5], f[5].fallback);
  }

  lemma NetworkAt(c: ApplicationConfig, env: Environment)
    ensures GroupAt(env, 3) == Group("network", NetworkFields(env))
    ensures RowAt(c, env, 3) == NetworkValues(c)
  {
    SchemaSize(c, env);
  }

  lemma AutomationSection(text: string, env: Environment)
    requires Load(text, env).Success?
    ensures AllFound(text, env, "automation", AutomationFields(env), AutomationValues(Load(text, env).value))
  {
    SectionFound(text, env, 4);
    hide Load, Found, AutomationFields, AutomationValues;
    AutomationAt(Load(text, env).value, env);
    hide GroupAt, RowAt;
  }

  lemma AutomationFound(text: string, env: Environment)
    requires Load(text, env).Success?
    ensures var c := Load(text, env).value;
            && Found(text, env, "automation", "artifact_root",
                     Location(c.artifactRoot), Some(Location(env.dataDirectory + "/artifacts")))
            && Found(text, env, "automation", "artifact_max_size_bytes",
                     Whole(c.artifactMaxSizeBytes), Some(Whole(100 * 1024 * 1024)))
            && Found(text, env, "automation", "artifact_max_total_bytes",
                     Whole(c.artifactMaxTotalBytes), Some(Whole(1024 * 1024 * 1024)))
            && Found(text, env, "automation", "artifact_retention_days",
                     Whole(c.artifactRetentionDays), Some(Whole(30)))
            && Found(text, env, "automation", "artifact_upload_retention_days",
                     Whole(c.artifactUploadRetentionDays), Some(Whole(7)))
            && Found(text, env, "automation", "artifact_cleanup_interval_hours",
                     Whole(c.artifactCleanupIntervalHours), Some(Whole(6)))
  {
    hide Load, Found;
    AutomationSection(text, env);
    var f, r := AutomationFields(env), AutomationValues(Load(text, env).value);
    assert Found(text, env, "automation", f[0].key, r[0], f[0].fallback);
    assert Found(text, env, "automation", f[1].key, r[1], f[1].fallback);
    assert Found(text, env, "automation", f[2].key, r[2], f[2].fallback);
    assert Found(text, env, "automation", f[3].key, r[3], f[3].fallback);
    assert Found(text, env, "automation", f[4].key, r[4], f[4].fallback);
    assert Found(text, env, "automation", f[5].key, r[5], f[5].fallback);
  }

  lemma AutomationAt(c: ApplicationConfig, env: Environment)
    ensures GroupAt(env, 4) == Group("automation", AutomationFields(env))
    ensures RowAt(c, env, 4) == AutomationValues(c)
  {
    SchemaSize(c, env);
  }

  lemma ContentSection(text: string, env: Environment)
    requires Load(text, env).Success?
    ensures AllFound(text, env, "content", ContentFields(env), ContentValues(Load(text, env).value))
  {
    SectionFound(text, env, 5);
    hide Load, Found, ContentFields, ContentValues;
    ContentAt(Load(text, env).value, env);
    hide GroupAt, RowAt;
  }

  lemma ContentFound(text: string, env: Environment)
    requires Load(text, env).Success?
    ensures var c := Load(text, env).value;
            && Found(text, env, "content", "root",
                     Location(c.contentRoot), Some(Location(env.dataDirectory + "/content")))
            && Found(text, env, "content", "max_upload_bytes",
                     Whole(c.contentMaxUploadBytes), Some(Whole(500 * 1024 * 1024)))
            && Found(text, env, "content", "max_total_bytes",
                     Whole(c.contentMaxTotalBytes), Some(Whole(20 * 1024 * 1024 * 1024)))
            && Found(text, env, "content", "ffprobe_path",
                     Location(c.contentFfprobePath), Some(Location("/usr/bin/ffprobe")))
            && Found(text, env, "content", "ffmpeg_path",
                     Location(c.contentFfmpegPath), Some(Location("/usr/bin/ffmpeg")))
            && Found(text, env, "content", "ffprobe_timeout_seconds",
                     Whole(c.contentFfprobeTimeoutSeconds), Some(Whole(30)))
            && Found(text, env, "content", "ffprobe_max_output_bytes",
                     Whole(c.contentFfprobeMaxOutputBytes), Some(Whole(1024 * 1024)))
  {
    hide Load, Found;
    ContentSection(text, env);
    var f, r := ContentFields(env), ContentValues(Load(text, env).value);
    assert Found(text, env, "content", f[0].key, r[0], f[0].fallback);
    assert Found(text, env, "content", f[1].key, r[1], f[1].fallback);
    assert Found(text, env, "content", f[2].key, r[2], f[2].fallback);
    assert Found(text, env, "content", f[3].key, r[3], f[3].fallback);
    assert Found(text, env, "content", f[4].key, r[4], f[4].fallback);
    assert Found(text, env, "content", f[5].key, r[5], f[5].fallback);
    assert Found(text, env, "content", f[6].key, r[6], f[6].fallback);
  }

  lemma ContentMoreFound(text: string, env: Environment)
    requires Load(text, env).Success?
    ensures var c := Load(text, env).value;
            && Found(text, env, "content", "thumbnail_timeout_seconds",
                     Whole(c.contentThumbnailTimeoutSeconds), Some(Whole(30)))
            && Found(text, env, "content", "cleanup_interval_hours",
                     Whole(c.contentCleanupIntervalHours), Some(Whole(24)))
            && Found(text, env, "content", "orphan_grace_hours", Whole(c.contentOrphanGraceHours), Some(Whole(168)))
            && Found(text, env, "content", "max_image_dimension",
                     Whole(c.contentMaxImageDimension), Some(Whole(32768)))
            && Found(text, env, "content", "max_image_pixels",
                     Whole(c.contentMaxImagePixels), Some(Whole(100_000_000)))
            && Found(text, env, "content", "max_image_frames", Whole(c.contentMaxImageFrames), Some(Whole(500)))
            && Found(text, env, "content", "inspection_lock_directory",
                     Location(c.contentInspectionLockDirectory), Some(Location("/tmp/tiktok-manager-content-locks")))
  {
    hide Load, Found;
    ContentSection(text, env);
    var f, r := ContentFields(env), ContentValues(Load(text, env).value);
    assert Found(text, env, "content", f[7].key, r[7], f[7].fallback);
    assert Found(text, env, "content", f[8].key, r[8], f[8].fallback);
    assert Found(text, env, "content", f[9].key, r[9], f[9].fallback);
    assert Found(text, env, "content", f[10].key, r[10], f[10].fallback);
    assert Found(text, env, "content", f[11].key, r[11], f[11].fallback);
    assert Found(text, env, "content", f[12].key, r[12], f[12].fallback);
    assert Found(text, env, "content", f[13].key, r[13], f[13].fallback);
  }

  lemma ContentAt(c: ApplicationConfig, env: Environment)
    ensures GroupAt(env, 5) == Group("content", ContentFields(env))
    ensures RowAt(c, env, 5) == ContentValues(c)
  {
    SchemaSize(c, env);
  }

  lemma ManagedAppsSection(text: string, env: Environment)
    requires Load(text, env).Success?
    ensures AllFound(text, env, "managed_apps", ManagedAppsFields(env), ManagedAppsValues(Load(text, env).value))
  {
    SectionFound(text, env, 6);
    hide Load, Found, ManagedAppsFields, ManagedAppsValues;
    ManagedAppsAt(Load(text, env).value, env);
    hide GroupAt, RowAt;
  }

  lemma ManagedAppsFound(text: string, env: Environment)
    requires Load(text, env).Success?
    ensures var c := Load(text, env).value;
            && Found(text, env, "managed_apps", "max_apk_bytes",
                     Whole(c.managedAppMaxApkBytes), Some(Whole(500 * 1024 * 1024)))
            && Found(text, env, "managed_apps", "aapt2_path",
                     Location(c.managedAppAapt2Path), Some(Location("/usr/bin/aapt2")))
            && Found(text, env, "managed_apps", "apksigner_path",
                     Location(c.managedAppApksignerPath), Some(Location("/usr/bin/apksigner")))
            && Found(text, env, "managed_apps", "inspection_timeout_seconds",
                     Whole(c.managedAppInspectionTimeoutSeconds), Some(Whole(30)))
            && Found(text, env, "managed_apps", "max_stdout_bytes",
                     Whole(c.managedAppMaxStdoutBytes), Some(Whole(1024 * 1024)))
            && Found(text, env, "managed_apps", "max_stderr_bytes",
                     Whole(c.managedAppMaxStderrBytes), Some(Whole(256 * 1024)))
            && Found(text, env, "managed_apps", "zip_max_entries",
                     Whole(c.managedAppZipMaxEntries), Some(Whole(20_000)))
            && Found(text, env, "managed_apps", "zip_max_expanded_bytes",
                     Whole(c.managedAppZipMaxExpandedBytes), Some(Whole(2 * 1024 * 1024 * 1024)))
            && Found(text, env, "managed_apps", "zip_max_compression_ratio",
                     Whole(c.managedAppZipMaxCompressionRatio), Some(Whole(200)))
  {
    hide Load, Found;
    ManagedAppsSection(text, env);
    var f, r := ManagedAppsFields(env), ManagedAppsValues(Load(text, env).value);
    assert Found(text, env, "managed_apps", f[0].key, r[0], f[0].fallback);
    assert Found(text, env, "managed_apps", f[1].key, r[1], f[1].fallback);
    assert Found(text, env, "managed_apps", f[2].key, r[2], f[2].fallback);
    assert Found(text, env, "managed_apps", f[3].key, r[3], f[3].fallback);
    assert Found(text, env, "managed_apps", f[4].key, r[4], f[4].fallback);
    assert Found(text, env, "managed_apps", f[5].key, r[5], f[5].fallback);
    assert Found(text, env, "managed_apps", f[6].key, r[6], f[6].fallback);
    assert Found(text, env, "managed_apps", f[7].key, r[7], f[7].fallback);
    assert Found(text, env, "managed_apps", f[8].key, r[8], f[8].fallback);
  }

  lemma ManagedAppsAt(c: ApplicationConfig, env: Environment)
    ensures GroupAt(env, 6) == Group("managed_apps", ManagedAppsFields(env))
    ensures RowAt(c, env, 6) == ManagedAppsValues(c)
  {
    SchemaSize(c, env);
  }

  lemma WorkflowSection(text: string, env: Environment)
    requires Load(text, env).Success?
    ensures AllFound(text, env, "workflow", WorkflowFields(env), WorkflowValues(Load(text, env).value))
  {
    SectionFound(text, env, 7);
    hide Load, Found, WorkflowFields, WorkflowValues;
    WorkflowAt(Load(text, env).value, env);
    hide GroupAt, RowAt;
  }

  lemma WorkflowFound(text: string, env: Environment)
    requires Load(text, env).Success?
    ensures var c := Load(text, env).value;
            && Found(text, env, "workflow", "lock_directory",
                     Location(c.workflowLockDirectory), Some(Location("/tmp/tiktok-manager-workflow-locks")))
            && Found(text, env, "workflow", "poll_interval_seconds",
                     Real(c.workflowPollIntervalSeconds), Some(Real("2.0")))
            && Found(text, env, "workflow", "reconcile_batch_size",
                     Whole(c.workflowReconcileBatchSize), Some(Whole(100)))
  {
    hide Load, Found;
    WorkflowSection(text, env);
    var f, r := WorkflowFields(env), WorkflowValues(Load(text, env).value);
    assert Found(text, env, "workflow", f[0].key, r[0], f[0].fallback);
    assert Found(text, env, "workflow", f[1].key, r[1], f[1].fallback);
    assert Found(text, env, "workflow", f[2].key, r[2], f[2].fallback);
  }

  lemma WorkflowAt(c: ApplicationConfig, env: Environment)
    ensures GroupAt(env, 7) == Group("workflow", WorkflowFields(env))
    ensures RowAt(c, env, 7) == WorkflowValues(c)
  {
    SchemaSize(c, env);
  }

  lemma AndroidUiSection(text: string, env: Environment)
    requires Load(text, env).Success?
    ensures AllFound(text, env, "android_ui", AndroidUiFields(env), AndroidUiValues(Load(text, env).value))
  {
    SectionFound(text, env, 8);
    hide Load, Found, AndroidUiFields, AndroidUiValues;
    AndroidUiAt(Load(text, env).value, env);
    hide GroupAt, RowAt;
  }

  lemma AndroidUiFound(text: string, env: Environment)
    requires Load(text, env).Success?
    ensures var c := Load(text, env).value;
            && Found(text, env, "android_ui", "max_xml_bytes", Whole(c.uiMaxXmlBytes), Some(Whole(2 * 1024 * 1024)))
            && Found(text, env, "android_ui", "max_nodes", Whole(c.uiMaxNodes), Some(Whole(10_000)))
            && Found(text, env, "android_ui", "max_depth", Whole(c.uiMaxDepth), Some(Whole(64)))
            && Found(text, env, "android_ui", "max_text_length", Whole(c.uiMaxTextLength), Some(Whole(2_048)))
            && Found(text, env, "android_ui", "max_attribute_length",
                     Whole(c.uiMaxAttributeLength), Some(Whole(4_096)))
  {
    hide Load, Found;
    AndroidUiSection(text, env);
    var f, r := AndroidUiFields(env), AndroidUiValues(Load(text, env).value);
    assert Found(text, env, "android_ui", f[0].key, r[0], f[0].fallback);
    assert Found(text, env, "android_ui", f[1].key, r[1], f[1].fallback);
    assert Found(text, env, "android_ui", f[2].key, r[2], f[2].fallback);
    assert Found(text, env, "android_ui", f[3].key, r[3], f[3].fallback);
    assert Found(text, env, "android_ui", f[4].key, r[4], f[4].fallback);
  }

  lemma AndroidUiAt(c: ApplicationConfig, env: Environment)
    ensures GroupAt(env, 8) == Group("android_ui", AndroidUiFields(env))
    ensures RowAt(c, env, 8) == AndroidUiValues(c)
  {
    SchemaSize(c, env);
  }

  lemma RuntimeSection(text: string, env: Environment)
    requires Load(text, env).Success?
    ensures AllFound(text, env, "runtime", RuntimeFields(env), RuntimeValues(Load(text, env).value))
  {
    SectionFound(text, env, 9);
    hide Load, Found, RuntimeFields, RuntimeValues;
    RuntimeAt(Load(text, env).value, env);
    hide GroupAt, RowAt;
  }

  lemma RuntimeFound(text: string, env: Environment)
    requires Load(text, env).Success?
    ensures var c := Load(text, env).value;
            && Found(text, env, "runtime", "stop_managed_devices_on_shutdown",
                     Flag(c.stopManagedDevicesOnShutdown), Some(Flag(false)))
  {
    hide Load, Found;
    RuntimeSection(text, env);
    var f, r := RuntimeFields(env), RuntimeValues(Load(text, env).value);
    assert Found(text, env, "runtime", f[0].key, r[0], f[0].fallback);
  }

  lemma RuntimeAt(c: ApplicationConfig, env: Environment)
    ensures GroupAt(env, 9) == Group("runtime", RuntimeFields(env))
    ensures RowAt(c, env, 9) == RuntimeValues(c)
  {
    SchemaSize(c, env);
  }

  // ----- printing -----

  lemma DatabasePrinted(c: ApplicationConfig, env: Environment)
    ensures Tables(c, env)[0].section == "database" && |Tables(c, env)[0].items| == 1
    ensures var items := Tables(c, env)[0].items;
            && items[0] == ("path", Quote(c.databasePath))
  {
    hide Tables, GroupAt, RowAt, PrintItems, Quote, PrintWhole;
    TableAt(c, env, 0);
    DatabaseAt(c, env);
    var f, r, items := DatabaseFields(env), DatabaseValues(c), Tables(c, env)[0].items;
    assert items[0] == (f[0].key, Printed(r[0]));
  }

  lemma SecurityPrinted(c: ApplicationConfig, env: Environment)
    ensures Tables(c, env)[1].section == "security" && |Tables(c, env)[1].items| == 1
    ensures var items := Tables(c, env)[1].items;
            && items[0] == ("credential_key_path", Quote(c.credentialKeyPath))
  {
    hide Tables, GroupAt, RowAt, PrintItems, Quote, PrintWhole;
    TableAt(c, env, 1);
    SecurityAt(c, env);
    var f, r, items := SecurityFields(env), SecurityValues(c), Tables(c, env)[1].items;
    assert items[0] == (f[0].key, Printed(r[0]));
  }

  lemma ProvisioningPrinted(c: ApplicationConfig, env: Environment)
    ensures Tables(c, env)[2].section == "provisioning" && |Tables(c, env)[2].items| == 6
    ensures var items := Tables(c, env)[2].items;
            && items[0] == ("installation_id", Quote(c.installationId))
            && items[1] == ("image", Quote(c.image))
            && items[2] == ("data_root", Quote(c.dataRoot))
            && items[3] == ("base_adb_port", PrintWhole(c.baseAdbPort))
            && items[4] == ("profile", Quote(c.profile))
            && items[5] == ("network_prefix", Quote(c.networkPrefix))
  {
    hide Tables, GroupAt, RowAt, PrintItems, Quote, PrintWhole;
    TableAt(c, env, 2);
    ProvisioningAt(c, env);
    var f, r, items := ProvisioningFields(env), ProvisioningValues(c), Tables(c, env)[2].items;
    assert items[0] == (f[0].key, Printed(r[0]));
    assert items[1] == (f[1].key, Printed(r[1]));
    assert items[2] == (f[2].key, Printed(r[2]));
    assert items[3] == (f[3].key, Printed(r[3]));
    assert items[4] == (f[4].key, Printed(r[4]));
    assert items[5] == (f[5].key, Printed(r[5]));
  }

  lemma NetworkPrinted(c: ApplicationConfig, env: Environment)
    ensures Tables(c, env)[3].section == "network" && |Tables(c, env)[3].items| == 6
    ensures var items := Tables(c, env)[3].items;
            && items[0] == ("bridge_port_start", PrintWhole(c.bridgePortStart))
            && items[1] == ("bridge_port_end", PrintWhole(c.bridgePortEnd))
            && items[2] == ("bridge_device_port", PrintWhole(c.bridgeDevicePort))
            && items[3] == ("bridge_state_directory", Quote(c.bridgeStateDirectory))
            && items[4] == ("bridge_lock_directory", Quote(c.bridgeLockDirectory))
            && items[5] == ("bridge_systemd_scope", Quote(c.bridgeSystemdScope))
  {
    hide Tables, GroupAt, RowAt, PrintItems, Quote, PrintWhole;
    TableAt(c, env, 3);
    NetworkAt(c, env);
    var f, r, items := NetworkFields(env), NetworkValues(c), Tables(c, env)[3].items;
    assert items[0] == (f[0].key, Printed(r[0]));
    assert items[1] == (f[1].key, Printed(r[1]));
    assert items[2] == (f[2].key, Printed(r[2]));
    assert items[3] == (f[3].key, Printed(r[3]));
    assert items[4] == (f[4].key, Printed(r[4]));
    assert items[5] == (f[5].key, Printed(r[5]));
  }

  lemma AutomationPrinted(c: ApplicationConfig, env: Environment)
    ensures Tables(c, env)[4].section == "automation" && |Tables(c, env)[4].items| == 6
    ensures var items := Tables(c, env)[4].items;
            && items[0] == ("artifact_root", Quote(c.artifactRoot))
            && items[1] == ("artifact_max_size_bytes", PrintWhole(c.artifactMaxSizeBytes))
            && items[2] == ("artifact_max_total_bytes", PrintWhole(c.artifactMaxTotalBytes))
            && items[3] == ("artifact_retention_days", PrintWhole(c.artifactRetentionDays))
            && items[4] == ("artifact_upload_retention_days", PrintWhole(c.artifactUploadRetentionDays))
            && items[5] == ("artifact_cleanup_interval_hours", PrintWhole(c.artifactCleanupIntervalHours))
  {
    hide Tables, GroupAt, RowAt, PrintItems, Quote, PrintWhole;
    TableAt(c, env, 4);
    AutomationAt(c, env);
    var f, r, items := AutomationFields(env), AutomationValues(c), Tables(c, env)[4].items;
    assert items[0] == (f[0].key, Printed(r[0]));
    assert items[1] == (f[1].key, Printed(r[1]));
    assert items[2] == (f[2].key, Printed(r[2]));
    assert items[3] == (f[3].key, Printed(r[3]));
    assert items[4] == (f[4].key, Printed(r[4]));
    assert items[5] == (f[5].key, Printed(r[5]));
  }

  lemma ContentPrinted(c: ApplicationConfig, env: Environment)
    ensures Tables(c, env)[5].section == "content" && |Tables(c, env)[5].items| == 14
    ensures var items := Tables(c, env)[5].items;
            && items[0] == ("root", Quote(c.contentRoot))
            && items[1] == ("max_upload_bytes", PrintWhole(c.contentMaxUploadBytes))
            && items[2] == ("max_total_bytes", PrintWhole(c.contentMaxTotalBytes))
            && items[3] == ("ffprobe_path", Quote(c.contentFfprobePath))
            && items[4] == ("ffmpeg_path", Quote(c.contentFfmpegPath))
  {
    hide Tables, GroupAt, RowAt, PrintItems, Quote, PrintWhole;
    TableAt(c, env, 5);
    ContentAt(c, env);
    var f, r, items := ContentFields(env), ContentValues(c), Tables(c, env)[5].items;
    assert items[0] == (f[0].key, Printed(r[0]));
    assert items[1] == (f[1].key, Printed(r[1]));
    assert items[2] == (f[2].key, Printed(r[2]));
    assert items[3] == (f[3].key, Printed(r[3]));
    assert items[4] == (f[4].key, Printed(r[4]));
  }

  lemma ContentToolsPrinted(c: ApplicationConfig, env: Environment)
    ensures Tables(c, env)[5].section == "content" && |Tables(c, env)[5].items| == 14
    ensures var items := Tables(c, env)[5].items;
            && items[5] == ("ffprobe_timeout_seconds", PrintWhole(c.contentFfprobeTimeoutSeconds))
            && items[6] == ("ffprobe_max_output_bytes", PrintWhole(c.contentFfprobeMaxOutputBytes))
            && items[7] == ("thumbnail_timeout_seconds", PrintWhole(c.contentThumbnailTimeoutSeconds))
            && items[8] == ("cleanup_interval_hours", PrintWhole(c.contentCleanupIntervalHours))
  {
    hide Tables, GroupAt, RowAt, PrintItems, Quote, PrintWhole;
    TableAt(c, env, 5);
    ContentAt(c, env);
    var f, r, items := ContentFields(env), ContentValues(c), Tables(c, env)[5].items;
    assert items[5] == (f[5].key, Printed(r[5]));
    assert items[6] == (f[6].key, Printed(r[6]));
    assert items[7] == (f[7].key, Printed(r[7]));
    assert items[8] == (f[8].key, Printed(r[8]));
  }

  lemma ContentImagesPrinted(c: ApplicationConfig, env: Environment)
    ensures Tables(c, env)[5].section == "content" && |Tables(c, env)[5].items| == 14
    ensures var items := Tables(c, env)[5].items;
            && items[9] == ("orphan_grace_hours", PrintWhole(c.contentOrphanGraceHours))
            && items[10] == ("max_image_dimension", PrintWhole(c.contentMaxImageDimension))
            && items[11] == ("max_image_pixels", PrintWhole(c.contentMaxImagePixels))
            && items[12] == ("max_image_frames", PrintWhole(c.contentMaxImageFrames))
            && items[13] == ("inspection_lock_directory", Quote(c.contentInspectionLockDirectory))
  {
    hide Tables, GroupAt, RowAt, PrintItems, Quote, PrintWhole;
    TableAt(c, env, 5);
    ContentAt(c, env);
    var f, r, items := ContentFields(env), ContentValues(c), Tables(c, env)[5].items;
    assert items[9] == (f[9].key, Printed(r[9]));
    assert items[10] == (f[10].key, Printed(r[10]));
    assert items[11] == (f[11].key, Printed(r[11]));
    assert items[12] == (f[12].key, Printed(r[12]));
    assert items[13] == (f[13].key, Printed(r[13]));
  }

  lemma ManagedAppsPrinted(c: ApplicationConfig, env: Environment)
    ensures Tables(c, env)[6].section == "managed_apps" && |Tables(c, env)[6].items| == 9
    ensures var items := Tables(c, env)[6].items;
            && items[0] == ("max_apk_bytes", PrintWhole(c.managedAppMaxApkBytes))
            && items[1] == ("aapt2_path", Quote(c.managedAppAapt2Path))
            && items[2] == ("apksigner_path", Quote(c.managedAppApksignerPath))
            && items[3] == ("inspection_timeout_seconds", PrintWhole(c.managedAppInspectionTimeoutSeconds))
            && items[4] == ("max_stdout_bytes", PrintWhole(c.managedAppMaxStdoutBytes))
            && items[5] == ("max_stderr_bytes", PrintWhole(c.managedAppMaxStderrBytes))
            && items[6] == ("zip_max_entries", PrintWhole(c.managedAppZipMaxEntries))
            && items[7] == ("zip_max_expanded_bytes", PrintWhole(c.managedAppZipMaxExpandedBytes))
            && items[8] == ("zip_max_compression_ratio", PrintWhole(c.managedAppZipMaxCompressionRatio))
  {
    hide Tables, GroupAt, RowAt, PrintItems, Quote, PrintWhole;
    TableAt(c, env, 6);
    ManagedAppsAt(c, env);
    var f, r, items := ManagedAppsFields(env), ManagedAppsValues(c), Tables(c, env)[6].items;
    assert items[0] == (f[0].key, Printed(r[0]));
    assert items[1] == (f[1].key, Printed(r[1]));
    assert items[2] == (f[2].key, Printed(r[2]));
    assert items[3] == (f[3].key, Printed(r[3]));
    assert items[4] == (f[4].key, Printed(r[4]));
    assert items[5] == (f[5].key, Printed(r[5]));
    assert items[6] == (f[6].key, Printed(r[6]));
    assert items[7] == (f[7].key, Printed(r[7]));
    assert items[8] == (f[8].key, Printed(r[8]));
  }

  lemma WorkflowPrinted(c: ApplicationConfig, env: Environment)
    ensures Tables(c, env)[7].section == "workflow" && |Tables(c, env)[7].items| == 3
    ensures var items := Tables(c, env)[7].items;
            && items[0] == ("lock_directory", Quote(c.workflowLockDirectory))
            && items[1] == ("poll_interval_seconds", c.workflowPollIntervalSeconds)
            && items[2] == ("reconcile_batch_size", PrintWhole(c.workflowReconcileBatchSize))
  {
    hide Tables, GroupAt, RowAt, PrintItems, Quote, PrintWhole;
    TableAt(c, env, 7);
    WorkflowAt(c, env);
    var f, r, items := WorkflowFields(env), WorkflowValues(c), Tables(c, env)[7].items;
    assert items[0] == (f[0].key, Printed(r[0]));
    assert items[1] == (f[1].key, Printed(r[1]));
    assert items[2] == (f[2].key, Printed(r[2]));
  }

  lemma AndroidUiPrinted(c: ApplicationConfig, env: Environment)
    ensures Tables(c, env)[8].section == "android_ui" && |Tables(c, env)[8].items| == 5
    ensures var items := Tables(c, env)[8].items;
            && items[0] == ("max_xml_bytes", PrintWhole(c.uiMaxXmlBytes))
            && items[1] == ("max_nodes", PrintWhole(c.uiMaxNodes))
            && items[2] == ("max_depth", PrintWhole(c.uiMaxDepth))
            && items[3] == ("max_text_length", PrintWhole(c.uiMaxTextLength))
            && items[4] == ("max_attribute_length", PrintWhole(c.uiMaxAttributeLength))
  {
    hide Tables, GroupAt, RowAt, PrintItems, Quote, PrintWhole;
    TableAt(c, env, 8);
    AndroidUiAt(c, env);
    var f, r, items := AndroidUiFields(env), AndroidUiValues(c), Tables(c, env)[8].items;
    assert items[0] == (f[0].key, Printed(r[0]));
    assert items[1] == (f[1].key, Printed(r[1]));
    assert items[2] == (f[2].key, Printed(r[2]));
    assert items[3] == (f[3].key, Printed(r[3]));
    assert items[4] == (f[4].key, Printed(r[4]));
  }

  lemma RuntimePrinted(c: ApplicationConfig, env: Environment)
    ensures Tables(c, env)[9].section == "runtime" && |Tables(c, env)[9].items| == 1
    ensures var items := Tables(c, env)[9].items;
            && items[0] == ("stop_managed_devices_on_shutdown", Printed(Flag(c.stopManagedDevicesOnShutdown)))
  {
    hide Tables, GroupAt, RowAt, PrintItems, Quote, PrintWhole;
    TableAt(c, env, 9);
    RuntimeAt(c, env);
    var f, r, items := RuntimeFields(env), RuntimeValues(c), Tables(c, env)[9].items;
    assert items[0] == (f[0].key, Printed(r[0]));
  }

  /** When no text holds a newline, a reader of the printed file finds these items in each section. */
  lemma PrintedRead(c: ApplicationConfig, env: Environment, g: nat)
    requires g < 10 && RealLiteral(c.workflowPollIntervalSeconds)
    requires forall h :: 0 <= h < |Values(c)| ==> RowClean(Values(c)[h])
    ensures Entries(PrintConfig(c, env), Tables(c, env)[g].section) == Tables(c, env)[g].items
  {
    SchemaGood(env);
    ConfigTyped(c, env);
    hide Schema, Values, PrintTables, WellFormed, Typed, Shaped, RealLiteral, TomlLines, EntriesFrom, HeaderOf,
         Serialize, RowClean, GoodDoc, DistinctTables;
    TablesGood(Schema(env), Values(c), 10);
    SerializedReads(Tables(c, env), g);
  }

  // ----- the checks of a record -----

  predicate PositiveNumbers(row: seq<Setting>) {
    forall i :: 0 <= i < |row| && row[i].Whole? ==> row[i].number > 0
  }

  lemma QuotaChecks(c: ApplicationConfig)
    ensures ArtifactLimits(c) <==>
              PositiveNumbers(AutomationValues(c)) && c.artifactMaxSizeBytes <= c.artifactMaxTotalBytes
    ensures ContentLimits(c) <==>
              PositiveNumbers(ContentValues(c)) && c.contentMaxUploadBytes <= c.contentMaxTotalBytes
  {
    var a, b := AutomationValues(c), ContentValues(c);
    assert PositiveNumbers(a) ==> a[1].number > 0 && a[3].number > 0 && a[4].number > 0 && a[5].number > 0;
    assert PositiveNumbers(b) ==> b[1].number > 0 && b[5].number > 0 && b[6].number > 0 && b[7].number > 0;
    assert PositiveNumbers(b) ==> b[8].number > 0 && b[9].number > 0 && b[10].number > 0 && b[11].number > 0;
    assert PositiveNumbers(b) ==> b[12].number > 0;
  }

  lemma ToolChecks(c: ApplicationConfig)
    ensures ManagedAppLimits(c) <==>
              PositiveNumbers(ManagedAppsValues(c)) && c.managedAppMaxApkBytes <= c.contentMaxTotalBytes
    ensures OrchestrationLimits(c) <==>
              PositiveNumbers(WorkflowValues(c)) && PositiveNumbers(AndroidUiValues(c))
              && PositiveLiteral(c.workflowPollIntervalSeconds)
  {
    var a, w, u := ManagedAppsValues(c), WorkflowValues(c), AndroidUiValues(c);
    assert PositiveNumbers(a) ==> a[0].number > 0 && a[3].number > 0 && a[4].number > 0 && a[5].number > 0;
    assert PositiveNumbers(a) ==> a[6].number > 0 && a[7].number > 0 && a[8].number > 0;
    assert PositiveNumbers(w) ==> w[2].number > 0;
    assert PositiveNumbers(u) ==> u[0].number > 0 && u[1].number > 0 && u[2].number > 0;
    assert PositiveNumbers(u) ==> u[3].number > 0 && u[4].number > 0;
  }

  /** A record passes its checks exactly if every number it holds in the five sections is positive and neither an
      artifact, nor an upload, nor an application may be larger than all of them together. */
  lemma ChecksExact(c: ApplicationConfig)
    ensures Valid(c) <==>
              && (forall g, i :: 4 <= g < 9 && 0 <= i < |Values(c)[g]| && Values(c)[g][i].Whole? ==>
                    Values(c)[g][i].number > 0)
              && PositiveLiteral(c.workflowPollIntervalSeconds)
              && c.artifactMaxSizeBytes <= c.artifactMaxTotalBytes
              && c.contentMaxUploadBytes <= c.contentMaxTotalBytes
              && c.managedAppMaxApkBytes <= c.contentMaxTotalBytes
  {
    QuotaChecks(c);
    ToolChecks(c);
    hide ArtifactLimits, ContentLimits, ManagedAppLimits, OrchestrationLimits, PositiveLiteral;
    hide AutomationValues, ContentValues, ManagedAppsValues, WorkflowValues, AndroidUiValues;
    var v := Values(c);
    assert v[4] == AutomationValues(c) && v[5] == ContentValues(c) && v[6] == ManagedAppsValues(c);
    assert v[7] == WorkflowValues(c) && v[8] == AndroidUiValues(c);
    hide Values;
  }

  lemma {:induction false} MantissaOf(m: string, x: string)
    requires forall i :: 0 <= i < |m| ==> m[i] != 'e' && m[i] != 'E'
    requires x == "" || x[0] == 'e' || x[0] == 'E'
    ensures Mantissa(m + x) == m
  {
    if m == "" {
      assert m + x == x;
    } else {
      assert (m + x)[1..] == m[1..] + x;
      MantissaOf(m[1..], x);
    }
  }

  predicate Counts(s: string) {
    exists i :: 0 <= i < |s| && '1' <= s[i] <= '9'
  }

  lemma {:induction false} ZeroExactly(s: string)
    requires AllDigits(s)
    ensures Value(s) > 0 <==> Counts(s)
  {
    if s != "" {
      var rest := s[..|s| - 1];
      ZeroExactly(rest);
      if i :| 0 <= i < |s| && '1' <= s[i] <= '9' {
        if i < |rest| {
          assert rest[i] == s[i];
        }
      }
    }
  }

  lemma CountsApart(whole: string, fraction: string)
    ensures Counts(whole + "." + fraction) <==> Counts(whole) || Counts(fraction)
  {
    var m := whole + "." + fraction;
    if i :| 0 <= i < |whole| && '1' <= whole[i] <= '9' {
      assert m[i] == whole[i];
    }
    if i :| 0 <= i < |fraction| && '1' <= fraction[i] <= '9' {
      assert m[|whole| + 1 + i] == fraction[i];
    }
  }

  lemma Unsignable(l: string)
    requires l != "" && '0' <= l[0] <= '9'
    ensures PositiveLiteral(l) <==> Counts(Mantissa(l))
    ensures !PositiveLiteral("-" + l)
  {
    assert Unsigned(l) == l && Unsigned("-" + l) == l;
    assert "nan"[0] == 'n' && "inf"[0] == 'i';
    hide Mantissa;
  }

  /** Infinity is positive unless it has a minus, and a comparison with nan is false. */
  lemma PositiveSpecial()
    ensures PositiveLiteral("inf") && PositiveLiteral("+inf") && !PositiveLiteral("-inf")
    ensures PositiveLiteral("nan") && PositiveLiteral("+nan") && PositiveLiteral("-nan")
  {
    assert "inf" != "nan" by { assert "inf"[0] != "nan"[0]; }
    assert Unsigned("inf") == "inf" && Unsigned("+inf") == "inf" && Unsigned("-inf") == "inf";
    assert Unsigned("nan") == "nan" && Unsigned("+nan") == "nan" && Unsigned("-nan") == "nan";
    hide Mantissa;
  }

  /** The sign of a number in a file: without a minus it is positive exactly if one of its digits ahead of the
      exponent counts. */
  lemma PositiveExact(whole: string, fraction: string, exponent: string)
    requires whole != "" && AllDigits(whole) && AllDigits(fraction)
    requires exponent == "" || exponent[0] == 'e' || exponent[0] == 'E'
    ensures var l := whole + "." + fraction + exponent;
            && (PositiveLiteral(l) <==> Value(whole) > 0 || Value(fraction) > 0)
            && !PositiveLiteral("-" + l)
  {
    hide PositiveLiteral, Mantissa, Value, Counts;
    var m := whole + "." + fraction;
    MantissaOf(m, exponent);
    ZeroExactly(whole);
    ZeroExactly(fraction);
    CountsApart(whole, fraction);
    assert (m + exponent)[0] == whole[0];
    Unsignable(m + exponent);
  }
}

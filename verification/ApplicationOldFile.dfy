/** A configuration file from before five of the sections existed, and what its upgrade changes. */
module ApplicationOldFile {
  import opened Wrappers
  import opened FileNames
  import opened Toml
  import opened ConfigFile
  import opened ConfigUpgrade
  import opened ConfigDocument
  import opened ConfigRoundTrip
  import opened ConfigWritten
  import opened ApplicationConfiguration
  import opened ApplicationUpgrade

  // ----- a file from before the five sections existed -----

  /** The place of the k-th section such a file has. */
  function OldPlace(k: nat): (g: nat)
    requires k < 5
    ensures g < 4 || g == 9
  {
    if k < 4 then k else 9
  }

  function OldTables(c: ApplicationConfig, env: Environment): (r: seq<Table>)
    ensures |r| == 5
  {
    Tables(c, env)[..4] + [Tables(c, env)[9]]
  }

  function OldText(c: ApplicationConfig, env: Environment): string {
    Serialize(OldTables(c, env))
  }

  lemma OldTableAt(c: ApplicationConfig, env: Environment, k: nat)
    requires k < 5
    ensures OldTables(c, env)[k]
            == Table(GroupAt(env, OldPlace(k)).section,
                     PrintItems(GroupAt(env, OldPlace(k)).fields, RowAt(c, env, OldPlace(k))))
  {
    TableAt(c, env, OldPlace(k));
    hide Tables, GroupAt, RowAt, PrintItems;
  }

  lemma OldGood(c: ApplicationConfig, env: Environment)
    requires RealLiteral(c.workflowPollIntervalSeconds) && RecoverableConfig(c)
    ensures GoodDoc(OldTables(c, env), 5) && DistinctTables(OldTables(c, env))
  {
    var t := OldTables(c, env);
    hide OldTables, Tables, BareKey, GoodItems, RealLiteral, RecoverableConfig, GroupAt, RowAt, PrintItems, OldPlace;
    forall k | 0 <= k < 5 ensures BareKey(t[k].section) && GoodItems(t[k].items) {
      TableGood(c, env, OldPlace(k));
      TableAt(c, env, OldPlace(k));
      OldTableAt(c, env, k);
    }
    forall j, k | 0 <= j < k < 5 ensures t[j].section != t[k].section {
      OldTableAt(c, env, j);
      OldTableAt(c, env, k);
      OldPlacesDiffer(j, k);
      SectionsDiffer(env, OldPlace(j), OldPlace(k));
    }
  }

  lemma OldPlacesDiffer(j: nat, k: nat)
    requires j < k < 5
    ensures OldPlace(j) != OldPlace(k)
  {
  }

  /** The sections the file has read as they were printed, the five others are absent. */
  lemma OldEntries(c: ApplicationConfig, env: Environment, g: nat)
    requires RealLiteral(c.workflowPollIntervalSeconds) && RecoverableConfig(c) && g < 10
    ensures Entries(OldText(c, env), GroupAt(env, g).section)
            == if 4 <= g < 9 then [] else PrintItems(GroupAt(env, g).fields, RowAt(c, env, g))
  {
    var t := OldTables(c, env);
    OldGood(c, env);
    hide OldTables, Tables, RealLiteral, RecoverableConfig, GroupAt, RowAt, PrintItems, TomlLines, Serialize,
         EntriesFrom, HeaderOf, GoodDoc, DistinctTables;
    if 4 <= g < 9 {
      forall k | 0 <= k < 5 ensures HeaderOf(t[k].section) != HeaderOf(GroupAt(env, g).section) {
        OldTableAt(c, env, k);
        SectionsDiffer(env, OldPlace(k), g);
      }
      SerializedAbsent(t, HeaderOf(GroupAt(env, g).section));
    } else {
      var k := if g < 4 then g else 4;
      assert OldPlace(k) == g;
      OldTableAt(c, env, k);
      SerializedReads(t, k);
    }
  }

  lemma OldField(c: ApplicationConfig, env: Environment, g: nat, i: nat)
    requires RealLiteral(c.workflowPollIntervalSeconds) && RecoverableConfig(c)
    requires g < 10 && i < |GroupAt(env, g).fields|
    ensures Present(OldText(c, env), env, g, i) <==> !(4 <= g < 9)
    ensures FieldIn(OldText(c, env), env, g, i)
            == if 4 <= g < 9 then FallbackOf(env, g, i) else Some(RowAt(c, env, g)[i])
  {
    hide OldText, GroupAt, RowAt, RealLiteral, RecoverableConfig, EntriesFrom, Entries, BareKey, DistinctFields,
         Printable, KindOf, Recoverable, ReadSetting, Printed, PrintItems, Lookup, HasKey;
    OldEntries(c, env, g);
    GroupGood(c, env, g);
    var fields, row := GroupAt(env, g).fields, RowAt(c, env, g);
    if 4 <= g < 9 {
      NoKeys(fields[i].key);
      AbsentFallsBack(OldText(c, env), env, g, i);
    } else {
      var items := PrintItems(fields, row);
      KeysDistinct(fields, row);
      hide DistinctKeys;
      LookupFirst(items, i, []);
      assert items[i] == (fields[i].key, Printed(row[i]));
      SettingRoundTrip(row[i], env.homes);
    }
  }

  lemma NoKeys(key: string)
    ensures !HasKey([], key)
  {
  }

  // ----- and what it loads -----

  function Fallbacks(fields: seq<Field>): (r: seq<Setting>)
    ensures |r| == |fields|
    ensures forall i {:trigger r[i]} :: 0 <= i < |fields| && fields[i].fallback.Some? ==>
              r[i] == fields[i].fallback.value
  {
    if fields == [] then []
    else [if fields[0].fallback.Some? then fields[0].fallback.value else Flag(false)] + Fallbacks(fields[1..])
  }

  function OldValues(c: ApplicationConfig, env: Environment): (r: seq<seq<Setting>>)
    ensures |r| == 10
  {
    SchemaSize(c, env);
    Values(c)[..4]
    + [Fallbacks(AutomationFields(env)), Fallbacks(ContentFields(env)), Fallbacks(ManagedAppsFields(env)),
       Fallbacks(WorkflowFields(env)), Fallbacks(AndroidUiFields(env))]
    + Values(c)[9..]
  }

  /** The surroundings of a real run: absolute directories. */
  predicate Absolute(env: Environment) {
    env.configDirectory != "" && env.configDirectory[0] == '/' && env.dataDirectory != "" && env.dataDirectory[0] == '/'
  }

  lemma FallbacksStay(env: Environment, g: nat, i: nat)
    requires Absolute(env) && 4 <= g < 9 && i < |GroupAt(env, g).fields|
    ensures FallbackOf(env, g, i) == Some(Fallbacks(GroupAt(env, g).fields)[i])
  {
    hide AutomationFields, ContentFields, ManagedAppsFields, WorkflowFields, AndroidUiFields, Expanded, Fallbacks;
    match g
    case 4 => AutomationStays(env);
    case 5 => ContentStays(env);
    case 6 => ManagedAppsStays(env);
    case 7 => WorkflowStays(env);
    case 8 => AndroidUiStays(env);
  }

  predicate Stays(fields: seq<Field>, homes: map<string, string>) {
    forall i :: 0 <= i < |fields| ==>
      fields[i].fallback.Some? && Expanded(fields[i].fallback.value, homes) == fields[i].fallback
  }

  lemma AutomationStays(env: Environment)
    requires Absolute(env)
    ensures Stays(AutomationFields(env), env.homes)
  {
  }

  lemma ContentStays(env: Environment)
    requires Absolute(env)
    ensures Stays(ContentFields(env), env.homes)
  {
  }

  lemma ManagedAppsStays(env: Environment)
    ensures Stays(ManagedAppsFields(env), env.homes)
  {
  }

  lemma WorkflowStays(env: Environment)
    ensures Stays(WorkflowFields(env), env.homes)
  {
  }

  lemma AndroidUiStays(env: Environment)
    ensures Stays(AndroidUiFields(env), env.homes)
  {
  }

  lemma OldRow(c: ApplicationConfig, env: Environment, g: nat)
    requires g < 10
    ensures OldValues(c, env)[g] == if 4 <= g < 9 then Fallbacks(GroupAt(env, g).fields) else RowAt(c, env, g)
  {
    SchemaSize(c, env);
    hide Values, AutomationFields, ContentFields, ManagedAppsFields, WorkflowFields, AndroidUiFields, DatabaseFields,
         SecurityFields, ProvisioningFields, NetworkFields, RuntimeFields;
  }

  lemma OldShaped(c: ApplicationConfig, env: Environment)
    ensures Shaped(Schema(env), OldValues(c, env))
  {
    SchemaSize(c, env);
    var groups, values := Schema(env), OldValues(c, env);
    hide Schema, OldValues, RowAt;
    forall g | 0 <= g < |groups| ensures |groups[g].fields| == |values[g]| {
      OldRow(c, env, g);
      assert groups[g] == GroupAt(env, g);
    }
  }

  lemma OldReads(c: ApplicationConfig, env: Environment)
    requires RealLiteral(c.workflowPollIntervalSeconds) && RecoverableConfig(c) && Absolute(env)
    ensures ReadGroups(TomlLines(OldText(c, env)), Schema(env), env.homes) == Some(OldValues(c, env))
  {
    var groups, values, text := Schema(env), OldValues(c, env), OldText(c, env);
    SchemaSize(c, env);
    OldShaped(c, env);
    hide Schema, OldValues, OldText, RowAt, TomlLines, EntriesFrom, HeaderOf, RealLiteral, RecoverableConfig,
         ReadGroups, ReadField;
    ReadGroupsExact(TomlLines(text), groups, env.homes, values);
    forall g | 0 <= g < |groups| ensures GroupReads(TomlLines(text), groups[g], env.homes, values[g]) {
      OldRow(c, env, g);
      assert groups[g] == GroupAt(env, g);
      forall i | 0 <= i < |values[g]|
        ensures ReadField(EntriesFrom(TomlLines(text), "", HeaderOf(groups[g].section)), groups[g].fields[i], env.homes)
                == Some(values[g][i])
      {
        OldField(c, env, g, i);
        if 4 <= g < 9 {
          FallbacksStay(env, g, i);
        }
        assert FieldIn(text, env, g, i) == Some(values[g][i]);
      }
    }
  }

  lemma OldSections(c: ApplicationConfig, env: Environment)
    ensures var v := OldValues(c, env);
            && v[4] == Fallbacks(AutomationFields(env)) && v[5] == Fallbacks(ContentFields(env))
            && v[6] == Fallbacks(ManagedAppsFields(env)) && v[7] == Fallbacks(WorkflowFields(env))
            && v[8] == Fallbacks(AndroidUiFields(env))
  {
    SchemaSize(c, env);
    hide Values, Fallbacks;
  }

  lemma OldArtifactLimits(v: seq<seq<Setting>>, env: Environment)
    requires |v| == 10 && v[4] == Fallbacks(AutomationFields(env))
    ensures ArtifactLimits(FromValues(v))
  {
    hide Fallbacks, PathAt, TextAt, LiteralAt, FlagAt;
  }

  lemma OldContentLimits(v: seq<seq<Setting>>, env: Environment)
    requires |v| == 10 && v[5] == Fallbacks(ContentFields(env))
    ensures ContentLimits(FromValues(v)) && FromValues(v).contentMaxTotalBytes == 20 * 1024 * 1024 * 1024
  {
    hide Fallbacks, PathAt, TextAt, LiteralAt, FlagAt;
  }

  lemma OldManagedAppLimits(v: seq<seq<Setting>>, env: Environment)
    requires |v| == 10 && v[6] == Fallbacks(ManagedAppsFields(env))
    requires FromValues(v).contentMaxTotalBytes == 20 * 1024 * 1024 * 1024
    ensures ManagedAppLimits(FromValues(v))
  {
    hide Fallbacks, PathAt, TextAt, LiteralAt, FlagAt;
  }

  lemma OldOrchestrationLimits(v: seq<seq<Setting>>, env: Environment)
    requires |v| == 10 && v[7] == Fallbacks(WorkflowFields(env)) && v[8] == Fallbacks(AndroidUiFields(env))
    ensures OrchestrationLimits(FromValues(v))
  {
    DefaultInterval();
    hide Fallbacks, PathAt, TextAt, FlagAt, PositiveLiteral, RealLiteral;
  }

  /** The fallbacks pass the record's own checks. */
  lemma OldValid(c: ApplicationConfig, env: Environment)
    ensures Valid(FromValues(OldValues(c, env)))
  {
    var v := OldValues(c, env);
    OldSections(c, env);
    hide OldValues, AutomationFields, ContentFields, ManagedAppsFields, WorkflowFields, AndroidUiFields, Fallbacks,
         FromValues, ArtifactLimits, ContentLimits, OrchestrationLimits, ManagedAppLimits;
    OldArtifactLimits(v, env);
    OldContentLimits(v, env);
    OldManagedAppLimits(v, env);
    OldOrchestrationLimits(v, env);
  }

  lemma DefaultInterval()
    ensures RealLiteral("2.0") && PositiveLiteral("2.0")
  {
    assert Mantissa("2.0")[0] == '2';
    assert "2.0"[1..] == ".0" && ".0"[1..] == "0" && "0"[1..] == "";
  }

  /** Such a file loads, with the fallbacks in the five sections. */
  lemma OldLoads(c: ApplicationConfig, env: Environment)
    requires RealLiteral(c.workflowPollIntervalSeconds) && RecoverableConfig(c) && Absolute(env)
    ensures Load(OldText(c, env), env) == Success(FromValues(OldValues(c, env)))
  {
    OldReads(c, env);
    OldValid(c, env);
    hide OldText, OldValues, FromValues, Valid, ReadGroups, TomlLines, Schema, RealLiteral, RecoverableConfig;
  }

  // ----- its upgrade -----

  /** No setting is printed with a line break of any kind. */
  ghost predicate PrintedPlain(c: ApplicationConfig, env: Environment) {
    forall g, i :: 0 <= g < 10 && 0 <= i < |RowAt(c, env, g)| ==>
      forall b: char :: PythonBreak(b) ==> b !in Printed(RowAt(c, env, g)[i])
  }

  lemma BareWithout(k: string, b: char)
    requires BareKey(k) && PythonBreak(b)
    ensures b !in k && b !in HeaderOf(k)
  {
    forall i | 0 <= i < |k| ensures k[i] != b {
      assert IsAsciiAlnum(k[i]) || k[i] == '_' || k[i] == '-';
    }
    assert b !in "[" && b !in "]";
    hide BareKey, PythonBreak;
  }

  lemma TableWithout(c: ApplicationConfig, env: Environment, k: nat, b: char)
    requires RealLiteral(c.workflowPollIntervalSeconds) && PrintedPlain(c, env) && k < 5 && PythonBreak(b)
    ensures b !in HeaderOf(OldTables(c, env)[k].section) && Without(RenderAll(OldTables(c, env)[k].items), b)
  {
    var g, table := OldPlace(k), OldTables(c, env)[k];
    hide OldTables, RealLiteral, GroupAt, RowAt, PrintItems, BareKey, DistinctFields, Printable, KindOf, OldPlace,
         Printed, HeaderOf;
    OldTableAt(c, env, k);
    GroupGood(c, env, g);
    BareWithout(GroupAt(env, g).section, b);
    var fields, row, all := GroupAt(env, g).fields, RowAt(c, env, g), RenderAll(table.items);
    assert b !in " = " by { assert b != ' ' && b != '='; }
    hide PythonBreak;
    forall i | 0 <= i < |all| ensures b !in all[i] {
      assert row[i] == RowAt(c, env, g)[i];
      BareWithout(fields[i].key, b);
      assert all[i] == fields[i].key + " = " + Printed(row[i]);
    }
  }

  lemma OldPlain(c: ApplicationConfig, env: Environment, wanted: seq<Table>)
    requires RealLiteral(c.workflowPollIntervalSeconds) && RecoverableConfig(c) && PrintedPlain(c, env)
    ensures PlainText(OldText(c, env), wanted)
  {
    var t := OldTables(c, env);
    OldGood(c, env);
    hide OldTables, RealLiteral, RecoverableConfig, PlainText, GoodDoc, DistinctTables, Serialize, PrintedPlain,
         Without, HeaderOf, RenderAll, PythonBreak;
    forall b: char | PythonBreak(b) ensures TablesWithout(t, b) {
      forall k | 0 <= k < |t| ensures b !in HeaderOf(t[k].section) && Without(RenderAll(t[k].items), b) {
        TableWithout(c, env, k, b);
      }
    }
    SerializedPlain(t, wanted);
  }

  /** The upgrade of such a file keeps what is loaded if and only if everything installed in the five sections
      equals the loader's fallbacks. */
  lemma OldFileExactly(past: ApplicationConfig, c: ApplicationConfig, env: Environment)
    requires RealLiteral(past.workflowPollIntervalSeconds) && RecoverableConfig(past) && PrintedPlain(past, env)
    requires RealLiteral(c.workflowPollIntervalSeconds) && RecoverableConfig(c) && Absolute(env)
    ensures Load(Upgrade(OldText(past, env), Defaults(c, env)), env) == Load(OldText(past, env), env)
            <==> forall g :: 4 <= g < 9 ==> RowAt(c, env, g) == Fallbacks(GroupAt(env, g).fields)
  {
    hide OldText, Defaults, RealLiteral, RecoverableConfig, PrintedPlain, Load, Upgrade, GroupAt, RowAt, Fallbacks,
         FallbackOf, PlainText, Absolute, Place;
    var text := OldText(past, env);
    OldLoads(past, env);
    OldPlain(past, env, Defaults(c, env));
    UpgradeLoadsSame(text, c, env);
    forall g, i | 4 <= g < 9 && 0 <= i < |GroupAt(env, g).fields|
      ensures !Present(text, env, g, i) && FallbackOf(env, g, i) == Some(Fallbacks(GroupAt(env, g).fields)[i])
    {
      OldField(past, env, g, i);
      FallbacksStay(env, g, i);
    }
    RowsAgree(text, c, env);
  }

  lemma RowsAgree(text: string, c: ApplicationConfig, env: Environment)
    requires forall g, i :: 4 <= g < 9 && 0 <= i < |GroupAt(env, g).fields| ==>
               !Present(text, env, g, i) && FallbackOf(env, g, i) == Some(Fallbacks(GroupAt(env, g).fields)[i])
    ensures FallbacksInstalled(text, c, env)
            <==> forall g :: 4 <= g < 9 ==> RowAt(c, env, g) == Fallbacks(GroupAt(env, g).fields)
  {
    hide GroupAt, RowAt, Fallbacks, FallbackOf, Present, Place;
    if FallbacksInstalled(text, c, env) {
      forall g | 4 <= g < 9 ensures RowAt(c, env, g) == Fallbacks(GroupAt(env, g).fields) {
        var w := PlaceOf(g);
        forall i | 0 <= i < |GroupAt(env, g).fields|
            ensures RowAt(c, env, g)[i] == Fallbacks(GroupAt(env, g).fields)[i] {
          assert !Present(text, env, Place(w), i);
        }
      }
    }
  }

  lemma PlaceOf(g: nat) returns (w: nat)
    requires 4 <= g < 9
    ensures w < 5 && Place(w) == g
  {
    w := if g < 6 then g - 4 else if g == 7 then 2 else if g == 6 then 3 else 4;
  }

  /** One record's five sections within the rest of another. */
  function Merged(past: ApplicationConfig, c: ApplicationConfig): ApplicationConfig {
    c.(databasePath := past.databasePath, credentialKeyPath := past.credentialKeyPath,
       installationId := past.installationId, image := past.image, dataRoot := past.dataRoot,
       baseAdbPort := past.baseAdbPort, profile := past.profile, networkPrefix := past.networkPrefix,
       bridgePortStart := past.bridgePortStart, bridgePortEnd := past.bridgePortEnd,
       bridgeDevicePort := past.bridgeDevicePort, bridgeStateDirectory := past.bridgeStateDirectory,
       bridgeLockDirectory := past.bridgeLockDirectory, bridgeSystemdScope := past.bridgeSystemdScope,
       stopManagedDevicesOnShutdown := past.stopManagedDevicesOnShutdown)
  }

  lemma MergedRows(past: ApplicationConfig, c: ApplicationConfig, env: Environment, g: nat)
    requires g < 10
    ensures RowAt(Merged(past, c), env, g) == if 4 <= g < 9 then RowAt(c, env, g) else RowAt(past, env, g)
  {
    hide Schema;
  }

  lemma MergedField(past: ApplicationConfig, c: ApplicationConfig, env: Environment, g: nat, i: nat)
    requires RealLiteral(past.workflowPollIntervalSeconds) && RecoverableConfig(past) && PrintedPlain(past, env)
    requires RealLiteral(c.workflowPollIntervalSeconds) && RecoverableConfig(c)
    requires g < 10 && i < |GroupAt(env, g).fields|
    ensures FieldIn(Upgrade(OldText(past, env), Defaults(c, env)), env, g, i) == Some(RowAt(Merged(past, c), env, g)[i])
  {
    hide OldText, Defaults, RealLiteral, RecoverableConfig, PrintedPlain, Upgrade, GroupAt, RowAt, Merged, PlainText,
         Place, Entries, ReadField, FallbackOf;
    MergedRows(past, c, env, g);
    OldPlain(past, env, Defaults(c, env));
    OldField(past, env, g, i);
    if 4 <= g < 9 {
      var w := PlaceOf(g);
      UpgradedField(OldText(past, env), c, env, w, i);
    } else {
      NotUpgraded(c, env, g);
      DefaultsGood(c, env);
      UpgradeElsewhere(OldText(past, env), Defaults(c, env), GroupAt(env, g).section);
    }
  }

  lemma MergedReads(past: ApplicationConfig, c: ApplicationConfig, env: Environment)
    requires RealLiteral(past.workflowPollIntervalSeconds) && RecoverableConfig(past) && PrintedPlain(past, env)
    requires RealLiteral(c.workflowPollIntervalSeconds) && RecoverableConfig(c)
    ensures ReadGroups(TomlLines(Upgrade(OldText(past, env), Defaults(c, env))), Schema(env), env.homes)
            == Some(Values(Merged(past, c)))
  {
    hide OldText, Upgrade, Defaults, RowAt, TomlLines, EntriesFrom, HeaderOf, RealLiteral, RecoverableConfig,
         ReadGroups, ReadField, Merged, PrintedPlain, GroupAt, Schema, Values;
    var m, text := Merged(past, c), Upgrade(OldText(past, env), Defaults(c, env));
    var groups, values := Schema(env), Values(m);
    ValuesShaped(m, env);
    SchemaSize(m, env);
    ReadGroupsExact(TomlLines(text), groups, env.homes, values);
    forall g | 0 <= g < |groups| ensures GroupReads(TomlLines(text), groups[g], env.homes, values[g]) {
      RowIs(m, env, g);
      forall i | 0 <= i < |values[g]|
        ensures ReadField(EntriesFrom(TomlLines(text), "", HeaderOf(groups[g].section)), groups[g].fields[i], env.homes)
                == Some(values[g][i])
      {
        MergedField(past, c, env, g, i);
        assert FieldIn(text, env, g, i) == Some(values[g][i]);
      }
    }
  }

  /** After its upgrade such a file loads what is installed in the five sections, and elsewhere what it loaded
      before. */
  lemma UpgradedOldLoads(past: ApplicationConfig, c: ApplicationConfig, env: Environment)
    requires RealLiteral(past.workflowPollIntervalSeconds) && RecoverableConfig(past) && PrintedPlain(past, env)
    requires RealLiteral(c.workflowPollIntervalSeconds) && RecoverableConfig(c) && Valid(c)
    ensures Load(Upgrade(OldText(past, env), Defaults(c, env)), env) == Success(Merged(past, c))
  {
    MergedValid(past, c);
    FromToValues(Merged(past, c));
    hide OldText, Upgrade, Defaults, TomlLines, RealLiteral, RecoverableConfig, ReadGroups, Merged, PrintedPlain,
         Schema, Values, FromValues, Valid;
    MergedReads(past, c, env);
  }

  lemma MergedValid(past: ApplicationConfig, c: ApplicationConfig)
    requires Valid(c)
    ensures Valid(Merged(past, c))
  {
    hide PositiveLiteral;
  }

  lemma RowIs(c: ApplicationConfig, env: Environment, g: nat)
    requires g < 10
    ensures |Values(c)| == 10 && RowAt(c, env, g) == Values(c)[g]
    ensures |Schema(env)| == 10 && GroupAt(env, g) == Schema(env)[g]
  {
    SchemaSize(c, env);
    hide Schema, Values;
  }

  lemma ContentWidth(env: Environment)
    ensures |GroupAt(env, 5).fields| == 14
  {
  }

  /** The directory of the inspection locks that a load finds. */
  function LockDirectoryIn(text: string, env: Environment): Option<Setting> {
    ContentWidth(env);
    FieldIn(text, env, 5, 13)
  }

  /** In particular for the directory of the inspection locks, which the loader takes from /tmp and an
      installation does not: the file loads one directory before the upgrade and another after it. */
  lemma LockDirectoryMoves(past: ApplicationConfig, c: ApplicationConfig, env: Environment)
    requires RealLiteral(past.workflowPollIntervalSeconds) && RecoverableConfig(past) && PrintedPlain(past, env)
    requires RealLiteral(c.workflowPollIntervalSeconds) && RecoverableConfig(c) && Absolute(env)
    ensures LockDirectoryIn(OldText(past, env), env) == Some(Location("/tmp/tiktok-manager-content-locks"))
    ensures LockDirectoryIn(Upgrade(OldText(past, env), Defaults(c, env)), env)
            == Some(Location(c.contentInspectionLockDirectory))
    ensures c.contentInspectionLockDirectory != "/tmp/tiktok-manager-content-locks" ==>
              Load(Upgrade(OldText(past, env), Defaults(c, env)), env) != Load(OldText(past, env), env)
  {
    LockDirectory(c, env);
    hide OldText, Defaults, RealLiteral, RecoverableConfig, PrintedPlain, Load, Upgrade, GroupAt, RowAt, Fallbacks,
         FallbackOf, PlainText, Absolute, Place, FieldIn;
    OldPlain(past, env, Defaults(c, env));
    OldField(past, env, 5, 13);
    FallbacksStay(env, 5, 13);
    var w := PlaceOf(5);
    UpgradedField(OldText(past, env), c, env, w, 13);
    OldFileExactly(past, c, env);
  }

  lemma LockDirectory(c: ApplicationConfig, env: Environment)
    ensures |GroupAt(env, 5).fields| == 14
    ensures Fallbacks(GroupAt(env, 5).fields)[13] == Location("/tmp/tiktok-manager-content-locks")
    ensures RowAt(c, env, 5)[13] == Location(c.contentInspectionLockDirectory)
  {
    hide Fallbacks;
  }
}

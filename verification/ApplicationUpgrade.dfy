/** What the upgrade of an existing configuration file means for the configuration that is loaded from it. */
module ApplicationUpgrade {
  import opened Wrappers
  import opened FileNames
  import opened Toml
  import opened ConfigFile
  import opened ConfigUpgrade
  import opened ConfigDocument
  import opened ConfigRoundTrip
  import opened ConfigWritten
  import opened ApplicationConfiguration

  // ----- upgrading an existing file -----

  /** The place in the schema of the five sections the upgrade completes, in the order in which it does so. */
  function Place(w: nat): (g: nat)
    requires w < 5
    ensures 4 <= g < 9
  {
    if w < 2 then w + 4 else if w == 2 then 7 else if w == 3 then 6 else 8
  }

  function GroupAt(env: Environment, g: nat): Group
    requires g < 10
  {
    Schema(env)[g]
  }

  function RowAt(c: ApplicationConfig, env: Environment, g: nat): (row: seq<Setting>)
    requires g < 10
    ensures |row| == |GroupAt(env, g).fields|
  {
    ValuesShaped(c, env);
    Values(c)[g]
  }

  /** The tables as a new file would hold them. */
  function Defaults(c: ApplicationConfig, env: Environment): (r: seq<Table>)
    ensures |r| == 5
  {
    var t := Tables(c, env);
    [t[4], t[5], t[7], t[6], t[8]]
  }

  lemma DefaultAt(c: ApplicationConfig, env: Environment, w: nat)
    requires w < 5
    ensures var t := Tables(c, env); Defaults(c, env)[w] == t[Place(w)]
  {
    hide Tables;
  }

  lemma TableAt(c: ApplicationConfig, env: Environment, g: nat)
    requires g < 10
    ensures Tables(c, env)[g] == Table(GroupAt(env, g).section, PrintItems(GroupAt(env, g).fields, RowAt(c, env, g)))
  {
    ValuesShaped(c, env);
    SchemaSize(c, env);
    hide Schema, Values, PrintItems, PrintTables;
  }

  lemma SchemaSize(c: ApplicationConfig, env: Environment)
    ensures |Values(c)| == |Schema(env)| == 10
  {
  }

  /** What the schema promises of one group and its row. */
  lemma GroupGood(c: ApplicationConfig, env: Environment, g: nat)
    requires g < 10 && RealLiteral(c.workflowPollIntervalSeconds)
    ensures var group := GroupAt(env, g);
            BareKey(group.section) && DistinctFields(group.fields)
            && forall i {:trigger RowAt(c, env, g)[i]} :: 0 <= i < |group.fields| ==>
                 BareKey(group.fields[i].key) && Printable(RowAt(c, env, g)[i])
                 && KindOf(RowAt(c, env, g)[i]) == group.fields[i].kind
                 && (RecoverableConfig(c) ==> Recoverable(RowAt(c, env, g)[i]))
  {
    SchemaGood(env);
    SchemaSize(c, env);
    ConfigTyped(c, env);
    hide Schema, Values, BareKey, DistinctFields, Printable, KindOf, Recoverable, RealLiteral;
  }

  lemma SectionsDiffer(env: Environment, g: nat, h: nat)
    requires g < 10 && h < 10 && g != h
    ensures GroupAt(env, g).section != GroupAt(env, h).section
    ensures HeaderOf(GroupAt(env, g).section) != HeaderOf(GroupAt(env, h).section)
  {
    HeaderInjective(GroupAt(env, g).section, GroupAt(env, h).section);
    hide HeaderOf;
    SchemaGood(env);
    hide BareKey, DistinctFields, Schema;
  }

  lemma DefaultsDistinct(c: ApplicationConfig, env: Environment)
    ensures DistinctSections(Defaults(c, env))
  {
    var d := Defaults(c, env);
    hide Defaults, HeaderOf, GroupAt, RowAt, Tables;
    forall v, w | 0 <= v < w < |d| ensures HeaderOf(d[v].section) != HeaderOf(d[w].section) {
      DefaultAt(c, env, v);
      DefaultAt(c, env, w);
      TableAt(c, env, Place(v));
      TableAt(c, env, Place(w));
      SectionsDiffer(env, Place(v), Place(w));
    }
  }

  lemma RecoverableClean(v: Setting)
    requires Recoverable(v)
    ensures !Newline(v)
  {
    assert Illegal('\n');
    hide Illegal;
  }

  lemma TableGood(c: ApplicationConfig, env: Environment, g: nat)
    requires g < 10 && RealLiteral(c.workflowPollIntervalSeconds) && RecoverableConfig(c)
    ensures BareKey(Tables(c, env)[g].section) && GoodItems(Tables(c, env)[g].items)
  {
    hide RealLiteral, RecoverableConfig, GroupAt, RowAt, Tables, BareKey, DistinctFields, GoodItems, Recoverable,
         Newline, Printable, KindOf, PrintItems;
    GroupGood(c, env, g);
    TableAt(c, env, g);
    var row, items := RowAt(c, env, g), Tables(c, env)[g].items;
    forall i | 0 <= i < |row| ensures !Newline(row[i]) { RecoverableClean(row[i]); }
    assert row[..|row|] == row && items[..|row|] == items;
    forall i | 0 <= i < |row| ensures BareKey(GroupAt(env, g).fields[i].key) && Printable(row[i]) {
      assert row[i] == RowAt(c, env, g)[i];
    }
    RowGood(GroupAt(env, g), row, |row|);
  }

  lemma DefaultsGood(c: ApplicationConfig, env: Environment)
    requires RealLiteral(c.workflowPollIntervalSeconds) && RecoverableConfig(c)
    ensures GoodTables(Defaults(c, env))
  {
    var d := Defaults(c, env);
    hide Defaults, Tables, BareKey, GoodItems, RealLiteral, RecoverableConfig;
    forall w | 0 <= w < |d| ensures BareKey(d[w].section) && GoodItems(d[w].items) {
      DefaultAt(c, env, w);
      TableGood(c, env, Place(w));
    }
  }

  /** What a load finds for one field of the schema. */
  function FieldIn(text: string, env: Environment, g: nat, i: nat): Option<Setting>
    requires g < 10 && i < |GroupAt(env, g).fields|
  {
    ReadField(Entries(text, GroupAt(env, g).section), GroupAt(env, g).fields[i], env.homes)
  }

  predicate Present(text: string, env: Environment, g: nat, i: nat)
    requires g < 10 && i < |GroupAt(env, g).fields|
  {
    HasKey(Entries(text, GroupAt(env, g).section), GroupAt(env, g).fields[i].key)
  }

  /** Field by field: what was in the file is loaded as before; what was missing in one of the five
      sections is now loaded as the installed default. */
  lemma UpgradedField(text: string, c: ApplicationConfig, env: Environment, w: nat, i: nat)
    requires RealLiteral(c.workflowPollIntervalSeconds) && RecoverableConfig(c)
    requires PlainText(text, Defaults(c, env)) && w < 5 && i < |GroupAt(env, Place(w)).fields|
    ensures FieldIn(Upgrade(text, Defaults(c, env)), env, Place(w), i)
            == if Present(text, env, Place(w), i) then FieldIn(text, env, Place(w), i)
               else Some(RowAt(c, env, Place(w))[i])
  {
    hide GroupAt, RowAt, Tables, PrintItems, Defaults, BareKey, Recoverable, Printable, KindOf, PlainText, Printed,
         Place, GoodTables, DistinctSections, Upgrade, ReadSetting, Lookup, EntriesFrom, HeaderOf, TomlLines,
         RealLiteral, DistinctFields, DistinctKeys;
    var d, g := Defaults(c, env), Place(w);
    DefaultAt(c, env, w);
    TableAt(c, env, g);
    GroupGood(c, env, g);
    DefaultsGood(c, env);
    DefaultsDistinct(c, env);
    var fields, row := GroupAt(env, g).fields, RowAt(c, env, g);
    KeysDistinct(fields, row);
    LookupFirst(d[w].items, i, []);
    UpgradeValue(text, d, w, fields[i].key);
    SettingRoundTrip(row[i], env.homes);
  }

  lemma {:induction false} SameFields(a: seq<(string, string)>, b: seq<(string, string)>, fields: seq<Field>,
                                      homes: map<string, string>)
    requires forall i :: 0 <= i < |fields| ==> ReadField(a, fields[i], homes) == ReadField(b, fields[i], homes)
    ensures ReadFields(a, fields, homes) == ReadFields(b, fields, homes)
  {
    hide ReadField;
    if fields == [] {
    } else {
      SameFields(a, b, fields[1..], homes);
    }
  }

  lemma {:induction false} SameGroups(a: seq<string>, b: seq<string>, groups: seq<Group>, homes: map<string, string>)
    requires forall g :: 0 <= g < |groups| ==>
               ReadFields(EntriesFrom(a, "", HeaderOf(groups[g].section)), groups[g].fields, homes)
               == ReadFields(EntriesFrom(b, "", HeaderOf(groups[g].section)), groups[g].fields, homes)
    ensures ReadGroups(a, groups, homes) == ReadGroups(b, groups, homes)
  {
    hide ReadFields, EntriesFrom, HeaderOf;
    if groups == [] {
    } else {
      SameGroups(a, b, groups[1..], homes);
    }
  }

  /** What a load makes of an absent key. */
  function FallbackOf(env: Environment, g: nat, i: nat): Option<Setting>
    requires g < 10 && i < |GroupAt(env, g).fields|
  {
    match GroupAt(env, g).fields[i].fallback
    case None => None
    case Some(v) => Expanded(v, env.homes)
  }

  lemma AbsentFallsBack(text: string, env: Environment, g: nat, i: nat)
    requires g < 10 && i < |GroupAt(env, g).fields| && !Present(text, env, g, i)
    ensures FieldIn(text, env, g, i) == FallbackOf(env, g, i)
  {
    hide GroupAt, Entries, HasKey, Expanded;
  }

  /** Every key that the upgrade would add has the installed value as its expanded fallback. */
  ghost predicate FallbacksInstalled(text: string, c: ApplicationConfig, env: Environment) {
    forall w, i :: 0 <= w < 5 && 0 <= i < |GroupAt(env, Place(w)).fields| && !Present(text, env, Place(w), i) ==>
      FallbackOf(env, Place(w), i) == Some(RowAt(c, env, Place(w))[i])
  }

  lemma GroupKept(text: string, c: ApplicationConfig, env: Environment, g: nat)
    requires RealLiteral(c.workflowPollIntervalSeconds) && RecoverableConfig(c) && g < 10
    requires PlainText(text, Defaults(c, env)) && FallbacksInstalled(text, c, env)
    ensures var after, group := Upgrade(text, Defaults(c, env)), GroupAt(env, g);
            ReadFields(Entries(after, group.section), group.fields, env.homes)
            == ReadFields(Entries(text, group.section), group.fields, env.homes)
  {
    hide GroupAt, RowAt, Tables, Defaults, Upgrade, Entries, PlainText, RealLiteral, RecoverableConfig, ReadField,
         ReadFields, HasKey, GoodTables;
    var after, group := Upgrade(text, Defaults(c, env)), GroupAt(env, g);
    if 4 <= g < 9 {
      var w := if g < 6 then g - 4 else if g == 7 then 2 else if g == 6 then 3 else 4;
      assert Place(w) == g;
      hide Place;
      forall i | 0 <= i < |group.fields|
        ensures ReadField(Entries(after, group.section), group.fields[i], env.homes)
                == ReadField(Entries(text, group.section), group.fields[i], env.homes) {
        UpgradedField(text, c, env, w, i);
        if !Present(text, env, g, i) {
          AbsentFallsBack(text, env, g, i);
        }
        assert FieldIn(after, env, g, i) == FieldIn(text, env, g, i);
      }
      SameFields(Entries(after, group.section), Entries(text, group.section), group.fields, env.homes);
    } else {
      NotUpgraded(c, env, g);
      DefaultsGood(c, env);
      UpgradeElsewhere(text, Defaults(c, env), group.section);
    }
  }

  lemma NotUpgraded(c: ApplicationConfig, env: Environment, g: nat)
    requires g < 4 || g == 9
    ensures forall w :: 0 <= w < 5 ==> Defaults(c, env)[w].section != GroupAt(env, g).section
  {
    hide Defaults, Tables, GroupAt, RowAt;
    forall w | 0 <= w < 5 ensures Defaults(c, env)[w].section != GroupAt(env, g).section {
      DefaultAt(c, env, w);
      TableAt(c, env, Place(w));
      SectionsDiffer(env, Place(w), g);
    }
  }

  /** Upgrading does not change what the application loads when each missing key falls back on what is
      installed. */
  lemma UpgradeKeepsLoad(text: string, c: ApplicationConfig, env: Environment)
    requires RealLiteral(c.workflowPollIntervalSeconds) && RecoverableConfig(c)
    requires PlainText(text, Defaults(c, env)) && FallbacksInstalled(text, c, env)
    ensures Load(Upgrade(text, Defaults(c, env)), env) == Load(text, env)
  {
    hide Tables, Defaults, Upgrade, PlainText, RealLiteral, RecoverableConfig, ReadFields, ReadGroups,
         FallbacksInstalled, Valid, FromValues, TomlLines, EntriesFrom, HeaderOf;
    SchemaSize(c, env);
    hide Schema;
    var after, groups := TomlLines(Upgrade(text, Defaults(c, env))), Schema(env);
    forall g | 0 <= g < |groups|
      ensures ReadFields(EntriesFrom(after, "", HeaderOf(groups[g].section)), groups[g].fields, env.homes)
              == ReadFields(EntriesFrom(TomlLines(text), "", HeaderOf(groups[g].section)), groups[g].fields, env.homes)
    {
      GroupKept(text, c, env, g);
      assert groups[g] == GroupAt(env, g);
    }
    SameGroups(after, TomlLines(text), groups, env.homes);
  }

  /** What was loaded is what each field reads. */
  lemma LoadedFields(text: string, env: Environment, g: nat, i: nat)
    requires Load(text, env).Success? && g < 10 && i < |GroupAt(env, g).fields|
    ensures FieldIn(text, env, g, i) == Some(RowAt(Load(text, env).value, env, g)[i])
  {
    hide Schema, Values, FromValues, Valid, TomlLines, ReadGroups, EntriesFrom, HeaderOf, ReadField, RowTyped,
         FallbacksTyped;
    var groups, lines := Schema(env), TomlLines(text);
    var read := ReadGroups(lines, groups, env.homes);
    SchemaFallbacks(env);
    GroupsTyped(lines, groups, env.homes);
    RecordRecovered(env, read.value);
    TypedShaped(groups, read.value);
    ReadGroupsExact(lines, groups, env.homes, read.value);
    SchemaSize(Load(text, env).value, env);
    assert GroupReads(lines, groups[g], env.homes, read.value[g]);
  }

  lemma TypedShaped(groups: seq<Group>, values: seq<seq<Setting>>)
    requires AllTyped(groups, values)
    ensures Shaped(groups, values)
  {
    forall g | 0 <= g < |groups| ensures |groups[g].fields| == |values[g]| {
      assert RowTyped(groups[g].fields, values[g]);
    }
  }

  /** A file that loads keeps its meaning under the upgrade if and only if each key it lacks falls back, in
      the loader, on the value that is installed. */
  lemma UpgradeLoadsSame(text: string, c: ApplicationConfig, env: Environment)
    requires RealLiteral(c.workflowPollIntervalSeconds) && RecoverableConfig(c)
    requires PlainText(text, Defaults(c, env)) && Load(text, env).Success?
    ensures Load(Upgrade(text, Defaults(c, env)), env) == Load(text, env) <==> FallbacksInstalled(text, c, env)
  {
    hide GroupAt, RowAt, Tables, Defaults, Upgrade, Load, PlainText, RealLiteral, RecoverableConfig, FieldIn,
         FallbackOf, Place;
    var after := Upgrade(text, Defaults(c, env));
    if FallbacksInstalled(text, c, env) {
      UpgradeKeepsLoad(text, c, env);
    }
    if Load(after, env) == Load(text, env) {
      forall w, i | 0 <= w < 5 && 0 <= i < |GroupAt(env, Place(w)).fields| && !Present(text, env, Place(w), i)
        ensures FallbackOf(env, Place(w), i) == Some(RowAt(c, env, Place(w))[i])
      {
        LoadedFields(text, env, Place(w), i);
        LoadedFields(after, env, Place(w), i);
        UpgradedField(text, c, env, w, i);
        AbsentFallsBack(text, env, Place(w), i);
      }
    }
  }

  /** An upgraded file has nothing left to upgrade. */
  lemma UpgradeOnce(text: string, c: ApplicationConfig, env: Environment)
    requires RealLiteral(c.workflowPollIntervalSeconds) && RecoverableConfig(c)
    requires PlainText(text, Defaults(c, env))
    ensures var d := Defaults(c, env); Upgrade(Upgrade(text, d), d) == Upgrade(text, d)
  {
    hide Tables, Defaults, Upgrade, PlainText, RealLiteral, RecoverableConfig, GoodTables, DistinctSections,
         NothingMissing;
    DefaultsGood(c, env);
    DefaultsDistinct(c, env);
    UpgradeTwice(text, Defaults(c, env));
  }
}

/** Exactly which settings survive being printed as a document and read back. */
module ConfigRoundTrip {
  import opened Wrappers
  import opened FileNames
  import opened Decimal
  import opened Toml
  import opened ConfigFile
  import opened ConfigUpgrade
  import opened ConfigDocument

  // ----- the schema -----

  predicate DistinctKeys(items: seq<(string, string)>) {
    forall i, j :: 0 <= i < j < |items| ==> items[i].0 != items[j].0
  }

  predicate DistinctFields(fields: seq<Field>) {
    forall i, j :: 0 <= i < j < |fields| ==> fields[i].key != fields[j].key
  }

  predicate WellFormed(groups: seq<Group>) {
    (forall g :: 0 <= g < |groups| ==>
       BareKey(groups[g].section) && DistinctFields(groups[g].fields)
       && forall i :: 0 <= i < |groups[g].fields| ==> BareKey(groups[g].fields[i].key))
    && (forall g, h :: 0 <= g < h < |groups| ==> groups[g].section != groups[h].section)
  }

  /** Values of the types the schema names. */
  ghost predicate Typed(groups: seq<Group>, values: seq<seq<Setting>>)
    requires Shaped(groups, values)
  {
    forall g, i :: 0 <= g < |groups| && 0 <= i < |values[g]| ==>
      Printable(values[g][i]) && KindOf(values[g][i]) == groups[g].fields[i].kind
  }

  // ----- looking up a printed key -----

  lemma {:induction false} LookupFirst(items: seq<(string, string)>, n: nat, rest: seq<(string, string)>)
    requires n < |items| && DistinctKeys(items)
    ensures Lookup(items[..n], items[n].0) == None
    ensures Lookup(items[..n] + [items[n]] + rest, items[n].0) == Some(items[n].1)
    ensures Lookup(items, items[n].0) == Some(items[n].1)
  {
    hide HasKey, DistinctKeys;
    NotBefore(items, n);
    LookupAppend(items[..n], [items[n]] + rest, items[n].0);
    assert items[..n] + ([items[n]] + rest) == items[..n] + [items[n]] + rest;
    LookupAppend(items[..n], [items[n]] + items[n + 1..], items[n].0);
    assert items[..n] + ([items[n]] + items[n + 1..]) == items;
  }

  lemma NotBefore(items: seq<(string, string)>, n: nat)
    requires n < |items| && DistinctKeys(items)
    ensures !HasKey(items[..n], items[n].0) && Lookup(items[..n], items[n].0) == None
  {
    hide Lookup;
    forall i | 0 <= i < n ensures items[..n][i].0 != items[n].0 {
      assert items[..n][i] == items[i];
    }
  }

  // ----- what a reader finds in the printed lines -----

  ghost predicate GoodDoc(tables: seq<Table>, n: nat)
    requires n <= |tables|
  {
    forall t :: 0 <= t < n ==> BareKey(tables[t].section) && GoodItems(tables[t].items)
  }

  ghost predicate DistinctTables(tables: seq<Table>) {
    forall s, t :: 0 <= s < t < |tables| ==> tables[s].section != tables[t].section
  }

  lemma {:induction false} DocReads(tables: seq<Table>, n: nat, t: nat)
    requires n <= |tables| && t < |tables| && GoodDoc(tables, n) && DistinctTables(tables)
    ensures EntriesFrom(DocLines(tables, n), "", HeaderOf(tables[t].section)) == if t < n then tables[t].items else []
  {
    hide GoodItems, BareKey, EntriesFrom, RenderAll;
    if n == 0 {
      NoLines(HeaderOf(tables[t].section));
    } else {
      var before, last := DocLines(tables, n - 1), tables[n - 1];
      var own, header := HeaderOf(last.section), HeaderOf(tables[t].section);
      DocReads(tables, n - 1, t);
      HeaderInjective(last.section, tables[t].section);
      assert IsHeader(own);
      OpensSection(before, own, last.items, header);
      BlankAdds(before + ([own] + RenderAll(last.items)), header);
    }
  }

  lemma NoLines(header: string)
    ensures EntriesFrom([], "", header) == []
  {
  }

  lemma BlankAdds(lines: seq<string>, header: string)
    ensures EntriesFrom(lines + [""], "", header) == EntriesFrom(lines, "", header)
  {
    EntriesAppend(lines, [""], "", header);
    GapReads([""], SectionAfter(lines, ""), header);
    hide EntriesFrom, SectionAfter;
  }

  lemma {:induction false} DocOneLine(tables: seq<Table>, n: nat)
    requires n <= |tables| && GoodDoc(tables, n)
    ensures AllOneLine(DocLines(tables, n))
    ensures n > 0 ==> DocLines(tables, n) != [] && DocLines(tables, n)[|DocLines(tables, n)| - 1] == ""
  {
    hide OneLine, GoodItems, BareKey, RenderAll, HeaderOf;
    if n == 0 {
    } else {
      DocOneLine(tables, n - 1);
      BlockOneLine(tables[n - 1].section, tables[n - 1].items);
    }
  }

  lemma BlockOneLine(section: string, items: seq<(string, string)>)
    requires BareKey(section) && GoodItems(items)
    ensures AllOneLine([HeaderOf(section)] + RenderAll(items)) && OneLine("")
  {
    HeaderTidy(section);
    hide OneLine, IsHeader, BareKey, PrintedValue, Render, HeaderOf;
    var all := RenderAll(items);
    forall i | 0 <= i < |items| ensures OneLine(all[i]) {
      RenderOneLine(items[i]);
    }
  }

  /** When every printed value stays on one line, a reader finds exactly the printed items. */
  lemma SerializedReads(tables: seq<Table>, t: nat)
    requires t < |tables| && GoodDoc(tables, |tables|) && DistinctTables(tables)
    ensures EntriesFrom(TomlLines(Serialize(tables)), "", HeaderOf(tables[t].section)) == tables[t].items
  {
    var n := |tables|;
    var lines := DocLines(tables, n);
    DocOneLine(tables, n);
    DocReads(tables, n, t);
    var body := lines[..|lines| - 1];
    assert lines == body + [""];
    hide DocLines, EntriesFrom, OneLine, GoodDoc, DistinctTables;
    JoinPrefix(body, [""]);
    BlankAdds(body, HeaderOf(tables[t].section));
    hide TomlLines;
    NoText();
    assert body + [] == body;
  }

  lemma NoText()
    ensures TomlLines(Join([""])) == []
  {
  }

  // ----- a value with a newline in it -----

  /** Text cut off before its closing quote is not a basic string. */
  lemma {:induction false} UnclosedFails(s: string, m: nat)
    requires m <= |EscapeText(s)|
    ensures ReadBody(EscapeText(s)[..m]) == None
  {
    if m > 0 && s != [] {
      EscapeStep(s);
      var width, rest := |EscapeOf(s[0])|, EscapeText(s[1..]);
      hide EscapeText, ReadBody;
      if m < width {
        assert EscapeText(s)[..m] == "\\";
        LoneBackslash();
      } else {
        assert EscapeText(s)[..m] == EscapeOf(s[0]) + rest[..m - width];
        UnclosedFails(s[1..], m - width);
        ReadOne(s[0], rest[..m - width]);
      }
    }
  }

  lemma LoneBackslash()
    ensures ReadBody("\\") == None
  {
    assert "\\"[1..] == [];
  }

  /** Where the first line of a text with a newline in it ends. */
  lemma {:induction false} FirstPart(l: string, rest: string)
    requires '\n' in l
    ensures var m := TomlSpan(l + rest); m < |l| && '\n' !in l[..m] && (l[m] == '\n' || l[m] == '\r')
  {
    if l[0] != '\n' {
      var m := TomlSpan(l + rest);
      assert (l + rest)[1..] == l[1..] + rest;
      FirstPart(l[1..], rest);
      if m > 0 {
        assert l[..m] == [l[0]] + l[1..][..m - 1];
      }
    }
  }

  /** A quoted text cut off somewhere, without its trailing blanks. */
  lemma CutQuote(s: string, n: nat)
    requires 1 <= n < |Quote(s)|
    ensures var raw := StripRight(Quote(s)[..n], IsSpace);
            raw != [] && !IsSpace(raw[0]) && AllSpace(Quote(s)[..n][|raw|..]) && ReadBasic(raw) == None
  {
    var cut := Quote(s)[..n];
    var raw := StripRight(cut, IsSpace);
    assert cut[0] == '"' && !IsSpace('"');
    hide IsSpace, EscapeText, ReadBody;
    assert Quote(s)[1..] == EscapeText(s) + "\"" && raw == Quote(s)[..|raw|];
    assert raw[1..] == EscapeText(s)[..|raw| - 1];
    UnclosedFails(s, |raw| - 1);
  }

  /** The first line of an entry whose text holds a newline: the same key, and a value that no reader
      accepts. */
  lemma BrokenEntry(key: string, s: string, m: nat) returns (raw: string)
    requires BareKey(key)
    requires var l := Render((key, Quote(s))); |key| + 4 <= m < |l| && '\n' !in l[..m]
    ensures var l := Render((key, Quote(s)));
            EntryOf(l[..m]) == Some((key, raw)) && !IsHeader(l[..m]) && ReadBasic(raw) == None
  {
    hide Quote, ReadBasic, IsSpace, EntryOf, BareKey, AllSpace, IsHeader, StripRight;
    var l := Render((key, Quote(s)));
    var cut := Quote(s)[..m - |key| - 3];
    CutQuote(s, m - |key| - 3);
    raw := StripRight(cut, IsSpace);
    var kept := Render((key, raw));
    assert l[..m] == kept + cut[|raw|..];
    assert '\n' !in raw by { assert forall i :: 0 <= i < |raw| ==> raw[i] == l[..m][|key| + 3 + i]; }
    hide Render;
    RenderReads((key, raw));
    assert !IsHeader(kept + cut[|raw|..]) by {
      assert (kept + cut[|raw|..])[0] == kept[0];
      HeaderFirst(kept, kept + cut[|raw|..]);
    }
    StrippedSame(kept, cut[|raw|..]);
  }

  lemma HeaderFirst(a: string, b: string)
    requires a != [] && b != [] && a[0] == b[0]
    ensures IsHeader(a) == IsHeader(b)
  {
  }

  lemma {:induction false} RenderAppend(a: seq<(string, string)>, b: seq<(string, string)>)
    ensures RenderAll(a + b) == RenderAll(a) + RenderAll(b)
  {
    hide Render;
    if a == [] {
      assert a + b == b;
    } else {
      assert (a + b)[0] == a[0] && (a + b)[1..] == a[1..] + b;
      RenderAppend(a[1..], b);
    }
  }

  lemma ItemsSplit(items: seq<(string, string)>, i: nat)
    requires i < |items|
    ensures RenderAll(items) == RenderAll(items[..i]) + ([Render(items[i])] + RenderAll(items[i + 1..]))
  {
    hide Render, RenderAll;
    RenderAppend(items[..i], items[i..]);
    RenderCons(items, i);
    assert items == items[..i] + items[i..];
  }

  lemma RenderCons(items: seq<(string, string)>, i: nat)
    requires i < |items|
    ensures RenderAll(items[i..]) == [Render(items[i])] + RenderAll(items[i + 1..])
  {
    hide Render;
    assert items[i..][0] == items[i] && items[i..][1..] == items[i + 1..];
  }

  /** The lines before one item of the document. */
  function LinesBefore(tables: seq<Table>, t: nat, i: nat): seq<string>
    requires t < |tables| && i < |tables[t].items|
  {
    DocLines(tables, t) + ([HeaderOf(tables[t].section)] + RenderAll(tables[t].items[..i]))
  }

  lemma {:induction false} DocSplits(tables: seq<Table>, n: nat, t: nat, i: nat) returns (rest: seq<string>)
    requires t < n <= |tables| && i < |tables[t].items|
    ensures DocLines(tables, n) == LinesBefore(tables, t, i) + ([Render(tables[t].items[i])] + rest)
  {
    hide Render, HeaderOf;
    var block := [HeaderOf(tables[n - 1].section)] + RenderAll(tables[n - 1].items);
    if n == t + 1 {
      ItemsSplit(tables[t].items, i);
      rest := RenderAll(tables[t].items[i + 1..]) + [""];
      hide RenderAll;
    } else {
      rest := DocSplits(tables, n - 1, t, i);
      hide RenderAll, LinesBefore;
      rest := rest + block + [""];
    }
  }

  lemma BeforeReads(tables: seq<Table>, t: nat, i: nat)
    requires t < |tables| && i < |tables[t].items| && GoodDoc(tables, t) && DistinctTables(tables)
    requires BareKey(tables[t].section) && GoodItems(tables[t].items[..i])
    ensures EntriesFrom(LinesBefore(tables, t, i), "", HeaderOf(tables[t].section)) == tables[t].items[..i]
    ensures SectionAfter(LinesBefore(tables, t, i), "") == HeaderOf(tables[t].section)
    ensures AllOneLine(LinesBefore(tables, t, i))
  {
    var before, own, items := DocLines(tables, t), HeaderOf(tables[t].section), tables[t].items[..i];
    assert IsHeader(own);
    hide GoodItems, BareKey, EntriesFrom, RenderAll, OneLine;
    DocReads(tables, t, t);
    OpensSection(before, own, items, own);
    DocOneLine(tables, t);
    BlockOneLine(tables[t].section, items);
    hide DocLines, GoodDoc, DistinctTables;
    LastSection(before, own, items);
    assert [] + items == items;
  }

  lemma LastSection(before: seq<string>, own: string, items: seq<(string, string)>)
    requires IsHeader(own) && GoodItems(items)
    ensures SectionAfter(before + ([own] + RenderAll(items)), "") == own
  {
    SectionAppend(before, [own] + RenderAll(items), "");
    assert ([own] + RenderAll(items))[1..] == RenderAll(items);
    hide GoodItems, RenderAll, EntriesFrom;
    RenderedEntries(items, own, own);
  }

  lemma BrokenLine(key: string, s: string, rest: seq<string>) returns (l: string, raw: string, more: seq<string>)
    requires BareKey(key) && '\n' in Quote(s)
    ensures TomlLines(Join([Render((key, Quote(s)))] + rest)) == [l] + more
    ensures EntryOf(l) == Some((key, raw)) && !IsHeader(l) && ReadBasic(raw) == None
  {
    var line := Render((key, Quote(s)));
    var tail := if rest == [] then "" else "\n" + Join(rest);
    hide Quote, EntryOf, IsHeader, ReadBasic, TomlSpan, TomlLines, Render, BareKey;
    JoinFirst(line, rest);
    CutPoint(key, s, tail);
    hide Join;
    var m := TomlSpan(line + tail);
    raw := BrokenEntry(key, s, m);
    l := line[..m];
    more := LineAt(line + tail);
  }

  lemma JoinFirst(line: string, rest: seq<string>)
    ensures Join([line] + rest) == line + if rest == [] then "" else "\n" + Join(rest)
  {
    assert ([line] + rest)[1..] == rest;
  }

  lemma CutPoint(key: string, s: string, tail: string)
    requires BareKey(key) && '\n' in Quote(s)
    ensures var line := Render((key, Quote(s)));
            var m := TomlSpan(line + tail);
            |key| + 4 <= m < |line| && '\n' !in line[..m] && (line + tail)[..m] == line[..m]
  {
    var line := Render((key, Quote(s)));
    QuoteOpens(s);
    hide Quote, TomlSpan, Render, BareKey;
    Later(key, Quote(s));
    FirstPart(line, tail);
  }

  lemma LineAt(t: string) returns (more: seq<string>)
    requires TomlSpan(t) < |t|
    ensures TomlLines(t) == [t[..TomlSpan(t)]] + more
  {
    hide TomlSpan;
    more := TomlLines(t[EndOfLine(t, TomlSpan(t))..]);
  }

  lemma QuoteOpens(s: string)
    ensures Quote(s) != [] && Quote(s)[0] == '"'
  {
  }

  /** Nothing before the value ends a line. */
  lemma Later(key: string, value: string)
    requires BareKey(key) && '\n' in value && value[0] == '"'
    ensures var l := Render((key, value));
            '\n' in l && forall k :: 0 <= k < |key| + 4 ==> k < |l| && l[k] != '\n' && l[k] != '\r'
  {
    BareKeyEnds(key);
    hide BareKey, IsSpace;
    var l := Render((key, value));
    var k :| 0 <= k < |value| && value[k] == '\n';
    assert l[|key| + 3 + k] == '\n';
    assert l[|key|..|key| + 3] == " = ";
    forall k | |key| <= k < |key| + 3 ensures l[k] != '\n' && l[k] != '\r' {
      assert l[k] == " = "[k - |key|];
    }
  }

  /** The first quoted value with a newline in it makes its key unreadable. */
  lemma SerializedBreaks(tables: seq<Table>, t: nat, i: nat, key: string, s: string) returns (raw: string)
    requires t < |tables| && i < |tables[t].items| && GoodDoc(tables, t) && DistinctTables(tables)
    requires BareKey(tables[t].section) && GoodItems(tables[t].items[..i]) && DistinctKeys(tables[t].items)
    requires tables[t].items[i] == (key, Quote(s)) && BareKey(key) && '\n' in Quote(s)
    ensures Lookup(EntriesFrom(TomlLines(Serialize(tables)), "", HeaderOf(tables[t].section)), key) == Some(raw)
    ensures ReadBasic(raw) == None
  {
    var before, own, items := LinesBefore(tables, t, i), HeaderOf(tables[t].section), tables[t].items;
    hide GoodItems, BareKey, EntriesFrom, Join, TomlLines, OneLine, EntryOf, IsHeader, ReadBasic, Quote, Render,
         HeaderOf;
    BeforeReads(tables, t, i);
    hide GoodDoc, LinesBefore, DistinctTables;
    var rest := DocSplits(tables, |tables|, t, i);
    hide DocLines;
    JoinPrefix(before, [Render(items[i])] + rest);
    var l, more;
    l, raw, more := BrokenLine(key, s, rest);
    hide RenderAll;
    EntriesAppend(before, [l] + more, "", own);
    FirstEntry(l, more, own, (key, raw));
    hide SectionAfter;
    NotBefore(items, i);
    hide DistinctKeys, HasKey;
    LookupAppend(items[..i], [(key, raw)] + EntriesFrom(more, own, own), key);
  }

  lemma FirstEntry(l: string, more: seq<string>, own: string, entry: (string, string))
    requires EntryOf(l) == Some(entry) && !IsHeader(l)
    ensures EntriesFrom([l] + more, own, own) == [entry] + EntriesFrom(more, own, own)
  {
    hide EntryOf, IsHeader;
    assert ([l] + more)[1..] == more;
  }

  // ----- the law -----

  /** The quoted text of a setting, if it has one. */
  predicate Newline(v: Setting) {
    (v.Text? && '\n' in v.text) || (v.Location? && '\n' in v.path)
  }

  lemma {:induction false} EscapeHolds(s: string, c: char)
    requires c != '\\' && c != '"'
    ensures c in EscapeText(s) <==> c in s
  {
    if s == [] {
    } else {
      EscapeStep(s);
      EscapeHolds(s[1..], c);
      hide EscapeText;
      assert s == [s[0]] + s[1..];
    }
  }

  lemma PrintedOneLine(v: Setting)
    requires Printable(v)
    ensures PrintedValue(Printed(v)) <==> !Newline(v)
    ensures Newline(v) ==> '\n' in Printed(v) && !Recoverable(v)
  {
    hide RealLiteral, PrintedValue, Quote, PrintWhole, Illegal;
    match v
    case Text(s) => QuotedOneLine(s);
    case Location(p) => QuotedOneLine(p);
    case Whole(n) => WholeOneLine(n);
    case Real(l) => RealOneLine(l);
    case Flag(_) => FlagOneLine();
  }

  lemma RealOneLine(l: string)
    requires RealLiteral(l)
    ensures PrintedValue(l)
  {
    RealLiteralChars(l);
    hide RealLiteral;
  }

  lemma FlagOneLine()
    ensures PrintedValue("true") && PrintedValue("false")
  {
  }

  lemma QuotedOneLine(s: string)
    ensures PrintedValue(Quote(s)) <==> '\n' !in s
    ensures '\n' in Quote(s) <==> '\n' in s
    ensures '\n' in s ==> exists i :: 0 <= i < |s| && Illegal(s[i])
  {
    EscapeHolds(s, '\n');
    hide EscapeText;
    assert '\n' !in "\"" && !IsSpace('"') && Illegal('\n');
    hide IsSpace, Illegal;
  }

  lemma WholeOneLine(n: int)
    ensures PrintedValue(PrintWhole(n))
  {
  }

  ghost predicate RowClean(row: seq<Setting>) {
    forall i :: 0 <= i < |row| ==> !Newline(row[i])
  }

  /** The first setting with a newline, in the order in which they are printed. */
  lemma FirstNewline(values: seq<seq<Setting>>) returns (t: nat, i: nat)
    requires exists g :: 0 <= g < |values| && !RowClean(values[g])
    ensures t < |values| && i < |values[t]| && Newline(values[t][i])
    ensures forall g :: 0 <= g < t ==> RowClean(values[g])
    ensures RowClean(values[t][..i])
  {
    hide Newline;
    t := 0;
    while RowClean(values[t])
      invariant exists g :: t <= g < |values| && !RowClean(values[g])
      invariant forall g :: 0 <= g < t ==> RowClean(values[g])
      decreases |values| - t
    {
      t := t + 1;
    }
    i := 0;
    while !Newline(values[t][i])
      invariant i <= |values[t]| && RowClean(values[t][..i])
      invariant exists j :: i <= j < |values[t]| && Newline(values[t][j])
      decreases |values[t]| - i
    {
      i := i + 1;
    }
  }

  lemma RowGood(group: Group, row: seq<Setting>, n: nat)
    requires n <= |row| == |group.fields| && RowClean(row[..n])
    requires forall i :: 0 <= i < n ==> BareKey(group.fields[i].key) && Printable(row[i])
    ensures GoodItems(PrintItems(group.fields, row)[..n])
  {
    hide BareKey, Printable, Newline, PrintItems, Printed, PrintedValue;
    var items := PrintItems(group.fields, row);
    forall i | 0 <= i < n ensures BareKey(items[..n][i].0) && PrintedValue(items[..n][i].1) {
      assert !Newline(row[..n][i]);
      PrintedOneLine(row[i]);
    }
  }

  lemma TablesGood(groups: seq<Group>, values: seq<seq<Setting>>, n: nat)
    requires WellFormed(groups) && Shaped(groups, values) && Typed(groups, values) && n <= |groups|
    requires forall g :: 0 <= g < n ==> RowClean(values[g])
    ensures GoodDoc(PrintTables(groups, values), n) && DistinctTables(PrintTables(groups, values))
  {
    var tables := PrintTables(groups, values);
    hide BareKey, GoodItems, PrintItems, PrintTables, Printable, Newline, DistinctFields;
    forall g | 0 <= g < n ensures GoodItems(tables[g].items) {
      assert values[g][..|values[g]|] == values[g] && tables[g].items[..|values[g]|] == tables[g].items;
      RowGood(groups[g], values[g], |values[g]|);
    }
  }

  lemma KeysDistinct(fields: seq<Field>, row: seq<Setting>)
    requires |fields| == |row| && DistinctFields(fields)
    ensures DistinctKeys(PrintItems(fields, row))
  {
    hide PrintItems, Printed;
  }

  /** Without newlines each field reads back exactly when its setting is recoverable. */
  lemma CleanReads(groups: seq<Group>, values: seq<seq<Setting>>, homes: map<string, string>, g: nat, i: nat)
    requires WellFormed(groups) && Shaped(groups, values) && Typed(groups, values)
    requires forall h :: 0 <= h < |groups| ==> RowClean(values[h])
    requires g < |groups| && i < |values[g]|
    ensures var e := EntriesFrom(TomlLines(Serialize(PrintTables(groups, values))), "", HeaderOf(groups[g].section));
            ReadField(e, groups[g].fields[i], homes) == Some(values[g][i]) <==> Recoverable(values[g][i])
  {
    var tables := PrintTables(groups, values);
    assert tables[g] == Table(groups[g].section, PrintItems(groups[g].fields, values[g]));
    assert DistinctFields(groups[g].fields) && KindOf(values[g][i]) == groups[g].fields[i].kind
        && Printable(values[g][i]);
    TablesGood(groups, values, |groups|);
    hide WellFormed, Typed, Shaped, RowClean, PrintTables, EntriesFrom, GoodDoc, DistinctTables, TomlLines, Serialize,
         PrintItems, Recoverable, Printable, Printed, ReadSetting, KindOf, HeaderOf, DistinctFields;
    SerializedReads(tables, g);
    KeysDistinct(groups[g].fields, values[g]);
    LookupFirst(tables[g].items, i, []);
    hide DistinctKeys, Lookup;
    SettingRoundTrip(values[g][i], homes);
  }

  /** The first newline makes the document unreadable. */
  lemma BrokenReadsNot(groups: seq<Group>, values: seq<seq<Setting>>, homes: map<string, string>, t: nat, i: nat)
    requires WellFormed(groups) && Shaped(groups, values) && Typed(groups, values)
    requires t < |groups| && i < |values[t]| && Newline(values[t][i])
    requires (forall g :: 0 <= g < t ==> RowClean(values[g])) && RowClean(values[t][..i])
    ensures var e := EntriesFrom(TomlLines(Serialize(PrintTables(groups, values))), "", HeaderOf(groups[t].section));
            ReadField(e, groups[t].fields[i], homes) == None
  {
    var tables, fields, v := PrintTables(groups, values), groups[t].fields, values[t][i];
    assert tables[t] == Table(groups[t].section, PrintItems(fields, values[t]));
    assert DistinctFields(fields) && KindOf(v) == fields[i].kind && Printable(v);
    assert BareKey(groups[t].section) && BareKey(fields[i].key);
    TablesGood(groups, values, t);
    RowGood(groups[t], values[t], i);
    KeysDistinct(fields, values[t]);
    PrintedOneLine(v);
    var s := if v.Text? then v.text else v.path;
    assert Printed(v) == Quote(s) && (fields[i].kind.TextKind? || fields[i].kind.LocationKind?);
    hide WellFormed, Typed, Shaped, RowClean, PrintTables, EntriesFrom, GoodDoc, DistinctTables, TomlLines, Serialize,
         PrintItems, Recoverable, Printable, Printed, KindOf, HeaderOf, DistinctFields, GoodItems, BareKey, Newline,
         Quote, DistinctKeys, Lookup, ReadBasic, Expanded;
    var raw := SerializedBreaks(tables, t, i, fields[i].key, s);
  }

  /** Printed tables are read back as exactly the settings that were printed if and only if each of them
      is recoverable. */
  lemma DocumentRoundTrip(groups: seq<Group>, values: seq<seq<Setting>>, homes: map<string, string>)
    requires WellFormed(groups) && Shaped(groups, values) && Typed(groups, values)
    ensures ReadGroups(TomlLines(Serialize(PrintTables(groups, values))), groups, homes) == Some(values)
            <==> forall g, i :: 0 <= g < |values| && 0 <= i < |values[g]| ==> Recoverable(values[g][i])
  {
    var lines := TomlLines(Serialize(PrintTables(groups, values)));
    ReadGroupsExact(lines, groups, homes, values);
    hide ReadGroups, Recoverable, ReadField, EntriesFrom, HeaderOf, Newline, Printable, KindOf;
    if forall g :: 0 <= g < |groups| ==> RowClean(values[g]) {
      forall g, i | 0 <= g < |groups| && 0 <= i < |values[g]|
        ensures ReadField(EntriesFrom(lines, "", HeaderOf(groups[g].section)), groups[g].fields[i], homes)
                  == Some(values[g][i])
                <==> Recoverable(values[g][i]) {
        CleanReads(groups, values, homes, g, i);
      }
    } else {
      var t, i := FirstNewline(values);
      BrokenReadsNot(groups, values, homes, t, i);
      PrintedOneLine(values[t][i]);
    }
  }
}

/** Files that were printed by the program itself meet the conditions of the upgrade. */
module ConfigWritten {
  import opened Wrappers
  import opened FileNames
  import opened Toml
  import opened ConfigFile
  import opened ConfigUpgrade
  import opened ConfigDocument
  import opened ConfigRoundTrip

  // ----- sections that were not printed -----

  lemma {:induction false} DocAbsent(tables: seq<Table>, n: nat, header: string)
    requires n <= |tables| && GoodDoc(tables, n)
    requires forall t :: 0 <= t < n ==> HeaderOf(tables[t].section) != header
    ensures EntriesFrom(DocLines(tables, n), "", header) == []
  {
    hide GoodItems, BareKey, EntriesFrom, RenderAll;
    if n == 0 {
      NoLines(header);
    } else {
      var before, last := DocLines(tables, n - 1), tables[n - 1];
      DocAbsent(tables, n - 1, header);
      OpensSection(before, HeaderOf(last.section), last.items, header);
      BlankAdds(before + ([HeaderOf(last.section)] + RenderAll(last.items)), header);
    }
  }

  /** The lines of a printed document, without the empty text behind the last newline. */
  lemma SerializedLines(tables: seq<Table>)
    requires GoodDoc(tables, |tables|) && tables != []
    ensures var lines := DocLines(tables, |tables|);
            lines != [] && TomlLines(Serialize(tables)) == lines[..|lines| - 1] && lines == lines[..|lines| - 1] + [""]
  {
    var lines := DocLines(tables, |tables|);
    DocOneLine(tables, |tables|);
    var body := lines[..|lines| - 1];
    assert lines == body + [""];
    hide DocLines, OneLine, GoodDoc;
    JoinPrefix(body, [""]);
    hide TomlLines;
    NoText();
    assert body + [] == body;
  }

  lemma SerializedAbsent(tables: seq<Table>, header: string)
    requires GoodDoc(tables, |tables|) && tables != []
    requires forall t :: 0 <= t < |tables| ==> HeaderOf(tables[t].section) != header
    ensures EntriesFrom(TomlLines(Serialize(tables)), "", header) == []
  {
    SerializedLines(tables);
    DocAbsent(tables, |tables|, header);
    var lines := DocLines(tables, |tables|);
    hide DocLines, GoodDoc, EntriesFrom, TomlLines, Serialize;
    BlankAdds(lines[..|lines| - 1], header);
  }

  // ----- printed documents are plain -----

  lemma {:induction false} DocTidy(tables: seq<Table>, n: nat)
    requires n <= |tables| && GoodDoc(tables, n)
    ensures AllTidy(DocLines(tables, n))
  {
    hide Tidy, GoodItems, BareKey, RenderAll, HeaderOf, IsHeader;
    if n == 0 {
    } else {
      DocTidy(tables, n - 1);
      BlockTidy(tables[n - 1].section, tables[n - 1].items);
    }
  }

  lemma BlockTidy(section: string, items: seq<(string, string)>)
    requires BareKey(section) && GoodItems(items)
    ensures AllTidy([HeaderOf(section)] + RenderAll(items)) && Tidy("")
  {
    HeaderTidy(section);
    RenderedTidy(items, HeaderOf(section));
    hide Tidy, RenderAll, BareKey, GoodItems, HeaderOf, IsHeader;
  }

  lemma {:induction false} DocWithout(tables: seq<Table>, n: nat, c: char)
    requires n <= |tables| && TablesWithout(tables, c)
    ensures Without(DocLines(tables, n), c)
  {
    hide RenderAll, HeaderOf;
    if n == 0 {
    } else {
      DocWithout(tables, n - 1, c);
    }
  }

  function HeaderCount(tables: seq<Table>, n: nat, h: string): nat
    requires n <= |tables|
  {
    if n == 0 then 0 else HeaderCount(tables, n - 1, h) + if HeaderOf(tables[n - 1].section) == h then 1 else 0
  }

  /** A header line occurs once for each table of its name. */
  lemma {:induction false} DocCount(tables: seq<Table>, n: nat, h: string)
    requires n <= |tables| && GoodDoc(tables, n) && IsHeader(h)
    ensures multiset(DocLines(tables, n))[h] == HeaderCount(tables, n, h)
  {
    hide GoodItems, BareKey, HeaderOf, IsHeader;
    if n == 0 {
      assert DocLines(tables, 0) == [];
    } else {
      hide DocLines;
      DocCount(tables, n - 1, h);
      StepCount(tables, n, h);
    }
  }

  lemma StepCount(tables: seq<Table>, n: nat, h: string)
    requires 0 < n <= |tables| && BareKey(tables[n - 1].section) && GoodItems(tables[n - 1].items) && IsHeader(h)
    ensures multiset(DocLines(tables, n))[h]
            == multiset(DocLines(tables, n - 1))[h] + if HeaderOf(tables[n - 1].section) == h then 1 else 0
  {
    assert h != "";
    hide GoodItems, BareKey, RenderAll, HeaderOf, IsHeader;
    var before, block := DocLines(tables, n - 1), [HeaderOf(tables[n - 1].section)] + RenderAll(tables[n - 1].items);
    assert DocLines(tables, n) == before + block + [""];
    hide DocLines;
    BlockCount(tables[n - 1].section, tables[n - 1].items, h);
    CountParts(before, block, h);
  }

  lemma CountParts(a: seq<string>, b: seq<string>, h: string)
    requires h != ""
    ensures multiset(a + b + [""])[h] == multiset(a)[h] + multiset(b)[h]
  {
    assert multiset(a + b + [""]) == multiset(a + b) + multiset([""]);
    assert multiset(a + b) == multiset(a) + multiset(b);
  }

  lemma {:induction false} CountAtMostOne(tables: seq<Table>, n: nat, h: string)
    requires n <= |tables| && DistinctTables(tables)
    ensures HeaderCount(tables, n, h) <= 1
    ensures HeaderCount(tables, n, h) > 0 ==> exists t :: 0 <= t < n && HeaderOf(tables[t].section) == h
  {
    hide HeaderOf;
    if n == 0 {
    } else {
      CountAtMostOne(tables, n - 1, h);
      if HeaderOf(tables[n - 1].section) == h && HeaderCount(tables, n - 1, h) > 0 {
        var t :| 0 <= t < n - 1 && HeaderOf(tables[t].section) == h;
        HeaderInjective(tables[t].section, tables[n - 1].section);
        assert false;
      }
    }
  }

  lemma BlockCount(section: string, items: seq<(string, string)>, h: string)
    requires BareKey(section) && GoodItems(items) && IsHeader(h)
    ensures multiset([HeaderOf(section)] + RenderAll(items))[h] == if HeaderOf(section) == h then 1 else 0
  {
    RenderedTidy(items, h);
    hide AllTidy, RenderAll, BareKey, GoodItems, HeaderOf;
    assert multiset(RenderAll(items))[h] == 0;
  }

  /** No printed section, key or value holds a line break of any kind. */
  ghost predicate Breakless(tables: seq<Table>) {
    forall c: char :: PythonBreak(c) ==> TablesWithout(tables, c)
  }

  /** A printed document without line breaks in its values can be upgraded safely. */
  lemma SerializedPlain(tables: seq<Table>, wanted: seq<Table>)
    requires GoodDoc(tables, |tables|) && DistinctTables(tables) && tables != [] && Breakless(tables)
    ensures PlainText(Serialize(tables), wanted)
  {
    hide DocLines, TomlLines, Serialize, Breakless, GoodDoc, PythonBreak, HeaderOf, IsHeader, OnceAtMost,
         DistinctTables, ForeignBreakAt, IsSpace;
    SerializedNoBreak(tables);
    SerializedTidy(tables);
    forall w | 0 <= w < |wanted| ensures OnceAtMost(TomlLines(Serialize(tables)), HeaderOf(wanted[w].section)) {
      SerializedOnce(tables, wanted[w].section);
    }
  }

  lemma SerializedOnce(tables: seq<Table>, section: string)
    requires GoodDoc(tables, |tables|) && DistinctTables(tables) && tables != []
    ensures OnceAtMost(TomlLines(Serialize(tables)), HeaderOf(section))
  {
    var h, lines := HeaderOf(section), DocLines(tables, |tables|);
    assert IsHeader(h);
    hide DocLines, TomlLines, Serialize, GoodDoc, HeaderOf, DistinctTables;
    SerializedLines(tables);
    DocCount(tables, |tables|, h);
    CountAtMostOne(tables, |tables|, h);
    var body := lines[..|lines| - 1];
    assert multiset(lines)[h] == multiset(body)[h] + multiset([""])[h];
  }

  lemma SerializedTidy(tables: seq<Table>)
    requires GoodDoc(tables, |tables|) && tables != []
    ensures forall l :: l in TomlLines(Serialize(tables)) && IsHeader(l) ==> !IsSpace(l[|l| - 1])
  {
    SerializedLines(tables);
    DocTidy(tables, |tables|);
    var lines := DocLines(tables, |tables|);
    hide DocLines, TomlLines, Serialize, GoodDoc, IsSpace, OneLine;
    forall l | l in lines[..|lines| - 1] ensures Tidy(l) {
      var i :| 0 <= i < |lines| - 1 && lines[i] == l;
    }
  }

  lemma SerializedNoBreak(tables: seq<Table>)
    requires Breakless(tables)
    ensures var t := Serialize(tables); forall i :: 0 <= i < |t| ==> !ForeignBreakAt(t, i)
  {
    var t := Serialize(tables);
    forall i | 0 <= i < |t| ensures !ForeignBreakAt(t, i) {
      var c := t[i];
      if PythonBreak(c) && c != '\n' {
        hide PythonBreak;
        DocWithout(tables, |tables|, c);
        JoinWithout(DocLines(tables, |tables|), c);
        assert false;
      }
    }
  }
}

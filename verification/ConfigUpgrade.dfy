/** The whole upgrade of a configuration text, and what it preserves. */
module ConfigUpgrade {
  import opened Wrappers
  import opened FileNames
  import opened Toml
  import opened ConfigFile

  /** One section with the items it should have. */
  datatype Table = Table(section: string, items: seq<(string, string)>)

  // ----- the upgrade -----

  function Missing(entries: seq<(string, string)>, items: seq<(string, string)>): (r: seq<(string, string)>)
    ensures GoodItems(items) ==> GoodItems(r)
  {
    if items == [] then []
    else (if HasKey(entries, items[0].0) then [] else [items[0]]) + Missing(entries, items[1..])
  }

  /** The items of one section that a reader of the original lines does not find. */
  function MissingIn(lines: seq<string>, w: Table): seq<(string, string)> {
    Missing(EntriesFrom(lines, "", HeaderOf(w.section)), w.items)
  }

  predicate NothingMissing(lines: seq<string>, wanted: seq<Table>) {
    forall i :: 0 <= i < |wanted| ==> MissingIn(lines, wanted[i]) == []
  }

  /** The first n insertions, one section after the other. */
  function Edit(lines: seq<string>, original: seq<string>, wanted: seq<Table>, n: nat): seq<string>
    requires n <= |wanted|
  {
    if n == 0 then lines
    else Inserted(Edit(lines, original, wanted, n - 1), wanted[n - 1].section, MissingIn(original, wanted[n - 1]))
  }

  function Join(lines: seq<string>): string {
    if lines == [] then ""
    else if |lines| == 1 then lines[0]
    else lines[0] + "\n" + Join(lines[1..])
  }

  function Upgrade(text: string, wanted: seq<Table>): string {
    if NothingMissing(TomlLines(text), wanted) then text
    else StripRight(Join(Edit(PythonLines(text), TomlLines(text), wanted, |wanted|)), IsSpace) + "\n"
  }

  /** The upgrade as the program performs it: find what is missing, edit the lines, print them. */
  method UpgradeInPlace(text: string, wanted: seq<Table>) returns (r: string)
    ensures r == Upgrade(text, wanted)
  {
    hide Inserted, MissingIn, TomlLines, PythonLines, NothingMissing;
    var original := TomlLines(text);
    if NothingMissing(original, wanted) {
      return text;
    }
    var editor := new LineEditor(PythonLines(text));
    var i := 0;
    while i < |wanted|
      invariant 0 <= i <= |wanted|
      invariant editor.lines == Edit(PythonLines(text), original, wanted, i)
    {
      editor.InsertMissingSection(wanted[i].section, MissingIn(original, wanted[i]));
      i := i + 1;
    }
    return StripRight(Join(editor.lines), IsSpace) + "\n";
  }

  // ----- joining and splitting -----

  /** One line of text; a header line carries nothing behind its closing bracket. */
  predicate Tidy(l: string) {
    OneLine(l) && (IsHeader(l) ==> !IsSpace(l[|l| - 1]))
  }

  ghost predicate AllTidy(lines: seq<string>) {
    forall i :: 0 <= i < |lines| ==> Tidy(lines[i])
  }

  ghost predicate AllOneLine(lines: seq<string>) {
    forall i :: 0 <= i < |lines| ==> OneLine(lines[i])
  }

  lemma {:induction false} SpanOfLine(l: string, rest: string)
    requires OneLine(l)
    ensures TomlSpan(l + "\n" + rest) == |l|
  {
    var t := l + "\n" + rest;
    if l == [] {
    } else {
      assert t[1..] == l[1..] + "\n" + rest;
      SpanOfLine(l[1..], rest);
    }
  }

  lemma FirstLine(l: string, rest: string)
    requires OneLine(l)
    ensures TomlLines(l + "\n" + rest) == [l] + TomlLines(rest)
  {
    var t := l + "\n" + rest;
    SpanOfLine(l, rest);
    hide TomlSpan, OneLine;
    assert t[..|l|] == l && t[|l| + 1..] == rest && t[|l|] == '\n';
  }

  /** Joined lines split again where they were joined. */
  lemma {:induction false} JoinPrefix(p: seq<string>, q: seq<string>)
    requires q != [] && forall i :: 0 <= i < |p| ==> OneLine(p[i])
    ensures TomlLines(Join(p + q)) == p + TomlLines(Join(q))
  {
    hide OneLine, TomlLines;
    if p == [] {
      assert p + q == q;
    } else {
      assert (p + q)[1..] == p[1..] + q;
      JoinPrefix(p[1..], q);
      FirstLine(p[0], Join(p[1..] + q));
      hide Join;
      assert p == [p[0]] + p[1..];
    }
  }

  lemma JoinSplits(lines: seq<string>)
    requires forall i :: 0 <= i < |lines| ==> OneLine(lines[i])
    ensures TomlLines(Join(lines) + "\n") == if lines == [] then [""] else lines
  {
    if lines == [] {
      FirstLine("", "");
      assert "" + "\n" + "" == Join([]) + "\n";
    } else {
      JoinSnoc(lines, "");
      JoinPrefix(lines, [""]);
      hide Join, OneLine;
      assert Join([""]) == "";
      assert Join(lines + [""]) == Join(lines) + "\n";
    }
  }

  lemma {:induction false} JoinSnoc(lines: seq<string>, l: string)
    ensures Join(lines + [l]) == if lines == [] then l else Join(lines) + "\n" + l
  {
    if |lines| == 0 {
    } else {
      assert (lines + [l])[1..] == lines[1..] + [l];
      JoinSnoc(lines[1..], l);
      if |lines| > 1 {
        assert lines[0] + "\n" + (Join(lines[1..]) + "\n" + l) == lines[0] + "\n" + Join(lines[1..]) + "\n" + l;
      } else {
        assert lines[1..] == [];
      }
    }
  }

  // ----- trailing blanks -----

  predicate AllSpace(s: string) {
    forall i :: 0 <= i < |s| ==> IsSpace(s[i])
  }

  lemma {:induction false} StripRightDrops(a: string, b: string)
    requires AllSpace(b)
    ensures StripRight(a + b, IsSpace) == StripRight(a, IsSpace)
  {
    if b == [] {
      assert a + b == a;
    } else {
      var n := |b| - 1;
      assert (a + b)[..|a + b| - 1] == a + b[..n];
      StripRightDrops(a, b[..n]);
      hide IsSpace;
    }
  }

  lemma {:induction false} StripRightKeeps(a: string, b: string)
    requires !AllSpace(b)
    ensures StripRight(a + b, IsSpace) == a + StripRight(b, IsSpace)
  {
    hide IsSpace;
    var n := |b| - 1;
    if IsSpace(b[n]) {
      assert (a + b)[..|a + b| - 1] == a + b[..n];
      assert !AllSpace(b[..n]) by {
        var i :| 0 <= i < |b| && !IsSpace(b[i]);
        assert b[..n][i] == b[i];
      }
      StripRightKeeps(a, b[..n]);
    }
  }

  /** Lines as the final strip leaves them: blank ones at the end go, the last one loses its blanks. */
  function TrimLines(lines: seq<string>): seq<string> {
    if lines == [] then []
    else
      var n := |lines| - 1;
      if AllSpace(lines[n]) then TrimLines(lines[..n]) else lines[..n] + [StripRight(lines[n], IsSpace)]
  }

  lemma {:induction false} StripJoin(lines: seq<string>)
    ensures StripRight(Join(lines), IsSpace) == Join(TrimLines(lines))
  {
    if lines == [] {
    } else {
      var n := |lines| - 1;
      var a, l := lines[..n], lines[n];
      assert lines == a + [l];
      hide IsSpace, Join, StripRight;
      if AllSpace(l) {
        StripJoin(a);
        StripBlankLine(a, l);
      } else {
        StripTextLine(a, l);
      }
    }
  }

  lemma StripBlankLine(a: seq<string>, l: string)
    requires AllSpace(l)
    ensures StripRight(Join(a + [l]), IsSpace) == StripRight(Join(a), IsSpace)
  {
    JoinSnoc(a, l);
    assert IsSpace('\n') && Join([]) == "";
    hide IsSpace, Join, StripRight;
    if a == [] {
      StripRightDrops("", l);
      assert "" + l == l;
    } else {
      assert Join(a) + "\n" + l == Join(a) + ("\n" + l);
      StripRightDrops(Join(a), "\n" + l);
    }
  }

  lemma StripTextLine(a: seq<string>, l: string)
    requires !AllSpace(l)
    ensures StripRight(Join(a + [l]), IsSpace) == Join(a + [StripRight(l, IsSpace)])
  {
    hide IsSpace, Join, StripRight;
    JoinSnoc(a, l);
    JoinSnoc(a, StripRight(l, IsSpace));
    if a != [] {
      StripRightKeeps(Join(a) + "\n", l);
    }
  }

  // ----- trailing blanks do not matter to a reader -----

  lemma {:induction false} StripLeftFirst(s: string, more: string)
    requires StripLeft(s, IsSpace) != []
    ensures StripLeft(s + more, IsSpace) == StripLeft(s, IsSpace) + more
  {
    hide IsSpace;
    assert (s + more)[0] == s[0];
    if IsSpace(s[0]) {
      assert (s + more)[1..] == s[1..] + more;
      StripLeftFirst(s[1..], more);
    }
  }

  lemma AllSpaceStrips(s: string)
    requires AllSpace(s)
    ensures StripLeft(s, IsSpace) == [] && StripRight(s, IsSpace) == [] && Trim(s) == []
  {
    hide IsSpace;
  }

  /** Blanks at the end do not change what trimming leaves. */
  lemma TrimIgnoresEnd(s: string, more: string)
    requires AllSpace(more)
    ensures Trim(s + more) == Trim(s)
  {
    var l := StripLeft(s, IsSpace);
    hide IsSpace;
    if l == [] {
      assert AllSpace(s);
      assert AllSpace(s + more);
      AllSpaceStrips(s + more);
      AllSpaceStrips(s);
    } else {
      StripLeftFirst(s, more);
      StripRightDrops(l, more);
    }
  }

  lemma {:induction false} EqualsBefore(s: string, more: string)
    requires forall i :: 0 <= i < |more| ==> more[i] != '='
    ensures EqualsAt(s + more) == if EqualsAt(s) < |s| then EqualsAt(s) else |s + more|
  {
    if s == [] {
      assert s + more == more;
      var n := EqualsAt(more);
      assert n < |more| ==> more[n] == '=';
    } else {
      assert (s + more)[1..] == s[1..] + more;
      EqualsBefore(s[1..], more);
    }
  }

  /** A line and the same line without its trailing blanks are the same entry. */
  lemma StrippedEntry(l: string)
    requires !AllSpace(l) && Tidy(l)
    ensures EntryOf(StripRight(l, IsSpace)) == EntryOf(l)
    ensures IsHeader(StripRight(l, IsSpace)) == IsHeader(l) && (IsHeader(l) ==> StripRight(l, IsSpace) == l)
  {
    var s := StripRight(l, IsSpace);
    var more := l[|s|..];
    assert l == s + more && AllSpace(more);
    if !IsHeader(l) {
      StrippedSame(s, more);
    }
  }

  lemma StrippedSame(s: string, more: string)
    requires s != [] && AllSpace(more) && !IsHeader(s + more)
    ensures EntryOf(s) == EntryOf(s + more) && !IsHeader(s)
  {
    hide EntryOf, Trim;
    assert !IsSpace('=');
    assert (s + more)[0] == s[0];
    hide IsHeader;
    TrimIgnoresEnd(s, more);
    EqualsBefore(s, more);
    hide IsSpace, EqualsAt;
    if EqualsAt(s) < |s| {
      SameParts(s, more, EqualsAt(s));
    }
    hide AllSpace;
    SameEntry(s, s + more);
  }

  lemma SameEntry(a: string, b: string)
    requires !IsHeader(a) && !IsHeader(b) && Trim(a) == Trim(b)
    requires EqualsAt(a) < |a| <==> EqualsAt(b) < |b|
    requires EqualsAt(a) < |a| ==> EqualsAt(b) == EqualsAt(a) && a[..EqualsAt(a)] == b[..EqualsAt(a)]
                                   && Trim(a[EqualsAt(a) + 1..]) == Trim(b[EqualsAt(a) + 1..])
    ensures EntryOf(a) == EntryOf(b)
  {
    hide IsHeader, Trim, EqualsAt;
  }

  lemma SameParts(s: string, more: string, n: nat)
    requires n < |s| && AllSpace(more)
    ensures (s + more)[..n] == s[..n] && Trim((s + more)[n + 1..]) == Trim(s[n + 1..])
  {
    assert (s + more)[n + 1..] == s[n + 1..] + more;
    TrimIgnoresEnd(s[n + 1..], more);
    hide Trim, AllSpace;
  }

  lemma BlankReads(l: string)
    requires AllSpace(l)
    ensures EntryOf(l).None? && !IsHeader(l)
  {
    AllSpaceStrips(l);
    assert !IsSpace('[');
    hide IsSpace, Trim;
  }

  lemma {:induction false} TrimLinesReads(lines: seq<string>, header: string)
    requires AllTidy(lines)
    ensures EntriesFrom(TrimLines(lines), "", header) == EntriesFrom(lines, "", header)
  {
    if lines == [] {
    } else {
      var n := |lines| - 1;
      var a, l := lines[..n], lines[n];
      assert lines == a + [l];
      hide EntryOf, IsSpace, IsHeader, StripRight, Tidy;
      EntriesAppend(a, [l], "", header);
      if AllSpace(l) {
        BlankReads(l);
        TrimLinesReads(a, header);
        LastReads(l, SectionAfter(a, ""), header);
      } else {
        StrippedEntry(l);
        EntriesAppend(a, [StripRight(l, IsSpace)], "", header);
        LastReads(l, SectionAfter(a, ""), header);
        LastReads(StripRight(l, IsSpace), SectionAfter(a, ""), header);
      }
    }
  }

  lemma LastReads(l: string, current: string, header: string)
    ensures EntriesFrom([l], current, header) == if IsHeader(l) then [] else EntryUnder(l, current, header)
  {
    assert [l][1..] == [];
  }

  // ----- many insertions -----

  predicate GoodTables(wanted: seq<Table>) {
    forall i :: 0 <= i < |wanted| ==> BareKey(wanted[i].section) && GoodItems(wanted[i].items)
  }

  /** What the first n insertions add under a header. */
  function Added(original: seq<string>, wanted: seq<Table>, n: nat, header: string): seq<(string, string)>
    requires n <= |wanted|
  {
    if n == 0 then []
    else Added(original, wanted, n - 1, header)
         + if HeaderOf(wanted[n - 1].section) == header then MissingIn(original, wanted[n - 1]) else []
  }

  /** What an editing step keeps about its lines: one table of each wanted name, and tidy lines. */
  ghost predicate Editable(lines: seq<string>, wanted: seq<Table>) {
    AllTidy(lines) && forall i :: 0 <= i < |wanted| ==> OnceAtMost(lines, HeaderOf(wanted[i].section))
  }

  lemma RenderTidy(item: (string, string))
    requires BareKey(item.0) && PrintedValue(item.1)
    ensures Tidy(Render(item)) && !IsHeader(Render(item))
  {
    RenderReads(item);
    RenderOneLine(item);
    hide OneLine, BareKey, PrintedValue, Render, EntryOf;
  }

  lemma HeaderTidy(section: string)
    requires BareKey(section)
    ensures Tidy(HeaderOf(section)) && IsHeader(HeaderOf(section)) && Tidy("")
  {
    BareKeyEnds(section);
    assert !IsSpace(']');
    hide IsSpace, BareKey;
    assert '\n' !in "[" && '\n' !in section && '\n' !in "]";
  }

  lemma RenderedTidy(items: seq<(string, string)>, header: string)
    requires GoodItems(items) && IsHeader(header)
    ensures AllTidy(RenderAll(items)) && header !in RenderAll(items)
  {
    hide Tidy, Render, IsHeader, BareKey, PrintedValue;
    var all := RenderAll(items);
    forall i | 0 <= i < |items| ensures Tidy(all[i]) && all[i] != header {
      RenderTidy(items[i]);
    }
  }

  /** One insertion keeps the lines editable. */
  lemma InsertedEditable(lines: seq<string>, section: string, missing: seq<(string, string)>, wanted: seq<Table>)
    requires Editable(lines, wanted) && GoodTables(wanted) && BareKey(section) && GoodItems(missing)
    ensures Editable(Inserted(lines, section, missing), wanted)
  {
    var after := Inserted(lines, section, missing);
    InsertedTidy(lines, section, missing);
    hide Inserted, AllTidy, BareKey, GoodItems;
    forall i | 0 <= i < |wanted| ensures OnceAtMost(after, HeaderOf(wanted[i].section)) {
      InsertedOnce(lines, section, missing, HeaderOf(wanted[i].section));
    }
  }

  lemma InsertedTidy(lines: seq<string>, section: string, missing: seq<(string, string)>)
    requires AllTidy(lines) && BareKey(section) && GoodItems(missing)
    ensures AllTidy(Inserted(lines, section, missing))
  {
    HeaderTidy(section);
    RenderedTidy(missing, HeaderOf(section));
    hide Tidy, RenderAll, BareKey, GoodItems;
  }

  lemma InsertedOnce(lines: seq<string>, section: string, missing: seq<(string, string)>, h: string)
    requires OnceAtMost(lines, h) && IsHeader(h) && BareKey(section) && GoodItems(missing)
    ensures OnceAtMost(Inserted(lines, section, missing), h)
  {
    RenderedTidy(missing, h);
    hide AllTidy, RenderAll, BareKey, GoodItems, IsHeader;
    var own, items := HeaderOf(section), RenderAll(missing);
    assert h !in multiset(items) && h != "";
    if missing != [] {
      match IndexOf(lines, own)
      case None => OnceAtEnd(lines, own, items, h);
      case Some(start) => OnceInside(lines, SectionEnd(lines, start + 1), items, h);
    }
  }

  lemma OnceAtEnd(lines: seq<string>, own: string, items: seq<string>, h: string)
    requires OnceAtMost(lines, h) && own !in lines && h !in items && h != ""
    ensures OnceAtMost(lines + (if lines != [] && lines[|lines| - 1] != "" then [""] else []) + [own] + items, h)
  {
    assert multiset(items)[h] == 0;
    assert h == own ==> h !in multiset(lines);
  }

  lemma OnceInside(lines: seq<string>, end: nat, items: seq<string>, h: string)
    requires OnceAtMost(lines, h) && end <= |lines| && h !in items
    ensures OnceAtMost(lines[..end] + items + lines[end..], h)
  {
    assert multiset(items)[h] == 0;
    assert lines == lines[..end] + lines[end..];
  }

  // ----- the upgrade as a reader sees it -----

  /** The condition under which the editor and a reader see the same lines and tables: no line break that
      only Python knows, header lines without trailing blanks, and each wanted table at most once. */
  ghost predicate PlainText(text: string, wanted: seq<Table>) {
    (forall i :: 0 <= i < |text| ==> !ForeignBreakAt(text, i))
    && (forall l :: l in TomlLines(text) && IsHeader(l) ==> !IsSpace(l[|l| - 1]))
    && (forall i :: 0 <= i < |wanted| ==> OnceAtMost(TomlLines(text), HeaderOf(wanted[i].section)))
  }

  lemma PlainEditable(text: string, wanted: seq<Table>)
    requires PlainText(text, wanted)
    ensures PythonLines(text) == TomlLines(text) && Editable(PythonLines(text), wanted)
  {
    LinesAgree(text);
    PythonLinesClean(text);
    hide PythonBreak, PythonLines, TomlLines, IsSpace, OnceAtMost;
  }

  lemma MissingGood(lines: seq<string>, w: Table)
    requires GoodItems(w.items)
    ensures GoodItems(MissingIn(lines, w))
  {
  }

  /** The edited lines read like the lines edited, followed by what the original lines lack. */
  lemma {:induction false} EditReads(lines: seq<string>, original: seq<string>, wanted: seq<Table>, n: nat,
                                     header: string)
    requires n <= |wanted| && GoodTables(wanted) && Editable(lines, wanted) && header != ""
    ensures Editable(Edit(lines, original, wanted, n), wanted)
    ensures EntriesFrom(Edit(lines, original, wanted, n), "", header)
            == EntriesFrom(lines, "", header) + Added(original, wanted, n, header)
  {
    hide GoodItems, BareKey, OnceAtMost, AllTidy, EntriesFrom, Inserted, MissingIn;
    if n == 0 {
    } else {
      var before, w := Edit(lines, original, wanted, n - 1), wanted[n - 1];
      EditReads(lines, original, wanted, n - 1, header);
      MissingGood(original, w);
      assert OnceAtMost(before, HeaderOf(w.section));
      assert Edit(lines, original, wanted, n) == Inserted(before, w.section, MissingIn(original, w));
      hide Edit, HeaderOf;
      InsertedEditable(before, w.section, MissingIn(original, w), wanted);
      hide Editable;
      InsertedReads(before, w.section, MissingIn(original, w), header);
    }
  }

  lemma PartsOneLine(section: string, missing: seq<(string, string)>)
    requires BareKey(section) && GoodItems(missing)
    ensures OneLine(HeaderOf(section)) && OneLine("") && AllOneLine(RenderAll(missing))
  {
    HeaderTidy(section);
    RenderedTidy(missing, HeaderOf(section));
    hide IsHeader, IsSpace, RenderAll, BareKey, GoodItems, HeaderOf, OneLine;
  }

  lemma InsertedOneLine(lines: seq<string>, section: string, missing: seq<(string, string)>)
    requires AllOneLine(lines) && BareKey(section) && GoodItems(missing)
    ensures AllOneLine(Inserted(lines, section, missing))
  {
    PartsOneLine(section, missing);
    hide OneLine, BareKey, GoodItems, RenderAll, HeaderOf, SectionEnd, IndexOf;
  }

  lemma {:induction false} EditOneLine(lines: seq<string>, original: seq<string>, wanted: seq<Table>, n: nat)
    requires n <= |wanted| && GoodTables(wanted) && AllOneLine(lines)
    ensures AllOneLine(Edit(lines, original, wanted, n))
  {
    hide AllOneLine, BareKey, GoodItems, Inserted, MissingIn;
    if n == 0 {
    } else {
      EditOneLine(lines, original, wanted, n - 1);
      MissingGood(original, wanted[n - 1]);
      InsertedOneLine(Edit(lines, original, wanted, n - 1), wanted[n - 1].section, MissingIn(original, wanted[n - 1]));
    }
  }

  lemma {:induction false} TrimOneLine(lines: seq<string>)
    requires AllOneLine(lines)
    ensures AllOneLine(TrimLines(lines))
  {
    assert IsSpace('\r');
    hide IsSpace, StripRight;
    if lines == [] {
    } else {
      var n := |lines| - 1;
      if AllSpace(lines[n]) {
        TrimOneLine(lines[..n]);
      } else {
        assert OneLine(lines[n]);
        assert OneLine(StripRight(lines[n], IsSpace));
        hide OneLine;
      }
    }
  }

  lemma CleanOneLine(text: string)
    ensures AllOneLine(PythonLines(text))
  {
    PythonLinesClean(text);
    hide PythonLines;
    assert PythonBreak('\n') && PythonBreak('\r');
    hide PythonBreak;
  }

  /** What a reader finds in the edited text: the lines as the final strip leaves them. */
  lemma UpgradeLines(text: string, wanted: seq<Table>)
    requires GoodTables(wanted) && !NothingMissing(TomlLines(text), wanted)
    ensures var kept := TrimLines(Edit(PythonLines(text), TomlLines(text), wanted, |wanted|));
            TomlLines(Upgrade(text, wanted)) == if kept == [] then [""] else kept
  {
    hide OneLine, TomlLines, PythonLines, GoodTables, NothingMissing, AllOneLine;
    var edited := Edit(PythonLines(text), TomlLines(text), wanted, |wanted|);
    CleanOneLine(text);
    EditOneLine(PythonLines(text), TomlLines(text), wanted, |wanted|);
    hide Edit;
    StripJoin(edited);
    TrimOneLine(edited);
    SplitsBack(TrimLines(edited));
  }

  lemma SplitsBack(lines: seq<string>)
    requires AllOneLine(lines)
    ensures TomlLines(Join(lines) + "\n") == if lines == [] then [""] else lines
  {
    hide OneLine;
    JoinSplits(lines);
  }

  lemma {:induction false} TrimTidy(lines: seq<string>)
    requires AllTidy(lines)
    ensures AllTidy(TrimLines(lines))
  {
    hide Tidy, IsSpace, StripRight;
    if lines == [] {
    } else {
      var n := |lines| - 1;
      if AllSpace(lines[n]) {
        TrimTidy(lines[..n]);
      } else {
        StripTidy(lines[n]);
      }
    }
  }

  lemma StripTidy(l: string)
    requires Tidy(l) && !AllSpace(l)
    ensures Tidy(StripRight(l, IsSpace))
  {
    StrippedEntry(l);
    assert IsSpace('\r');
    hide EntryOf, IsHeader, IsSpace, StripRight, AllSpace;
    var s := StripRight(l, IsSpace);
    assert s == l[..|s|];
  }

  lemma UpgradeLinesTidy(text: string, wanted: seq<Table>)
    requires Editable(PythonLines(text), wanted) && GoodTables(wanted) && !NothingMissing(TomlLines(text), wanted)
    ensures var kept := TrimLines(Edit(PythonLines(text), TomlLines(text), wanted, |wanted|));
            AllTidy(kept) && TomlLines(Upgrade(text, wanted)) == if kept == [] then [""] else kept
  {
    EditReads(PythonLines(text), TomlLines(text), wanted, |wanted|, "[");
    UpgradeLines(text, wanted);
    hide EntriesFrom, Edit, NothingMissing, TomlLines, PythonLines, AllTidy, OnceAtMost, GoodTables, Upgrade;
    TrimTidy(Edit(PythonLines(text), TomlLines(text), wanted, |wanted|));
  }

  /** After an upgrade that inserts anything, a reader finds in every section what the lines seen by the
      editor hold, followed by exactly the wanted items that were missing there. */
  lemma UpgradeReadsLines(text: string, wanted: seq<Table>, section: string)
    requires Editable(PythonLines(text), wanted) && GoodTables(wanted) && !NothingMissing(TomlLines(text), wanted)
    ensures Entries(Upgrade(text, wanted), section)
            == EntriesFrom(PythonLines(text), "", HeaderOf(section))
               + Added(TomlLines(text), wanted, |wanted|, HeaderOf(section))
  {
    var header := HeaderOf(section);
    assert IsHeader(header) && header != "";
    hide GoodTables, HeaderOf, IsHeader, Editable;
    UpgradeLinesTidy(text, wanted);
    EditReads(PythonLines(text), TomlLines(text), wanted, |wanted|, header);
    var edited := Edit(PythonLines(text), TomlLines(text), wanted, |wanted|);
    hide Edit, NothingMissing, TomlLines, PythonLines, Upgrade, Added;
    TrimLinesReads(edited, header);
    hide TrimLines, AllTidy;
    GapReads([""], "", header);
  }

  /** After the upgrade a reader finds in every section what it found before, in the same order and with
      the same values, followed by exactly the wanted items that were missing there. */
  lemma UpgradeReads(text: string, wanted: seq<Table>, section: string)
    requires PlainText(text, wanted) && GoodTables(wanted)
    ensures Entries(Upgrade(text, wanted), section)
            == Entries(text, section) + Added(TomlLines(text), wanted, |wanted|, HeaderOf(section))
  {
    PlainEditable(text, wanted);
    hide PlainText, GoodTables, HeaderOf, Editable, TomlLines, PythonLines, EntriesFrom;
    if NothingMissing(TomlLines(text), wanted) {
      NothingAdded(TomlLines(text), wanted, |wanted|, HeaderOf(section));
    } else {
      UpgradeReadsLines(text, wanted, section);
    }
  }

  lemma {:induction false} NothingAdded(lines: seq<string>, wanted: seq<Table>, n: nat, header: string)
    requires n <= |wanted| && NothingMissing(lines, wanted)
    ensures Added(lines, wanted, n, header) == []
  {
    hide MissingIn;
    if n == 0 {
    } else {
      NothingAdded(lines, wanted, n - 1, header);
    }
  }

  function Lookup(entries: seq<(string, string)>, key: string): (r: Option<string>)
    ensures r.Some? <==> HasKey(entries, key)
  {
    if entries == [] then None
    else if entries[0].0 == key then (assert HasKey(entries, key); Some(entries[0].1))
    else
      assert HasKey(entries[1..], key) <==> HasKey(entries, key) by { HasKeyTail(entries, key); }
      Lookup(entries[1..], key)
  }

  lemma HasKeyTail(entries: seq<(string, string)>, key: string)
    requires entries != [] && entries[0].0 != key
    ensures HasKey(entries[1..], key) <==> HasKey(entries, key)
  {
    if HasKey(entries, key) {
      var i :| 0 <= i < |entries| && entries[i].0 == key;
      assert entries[1..][i - 1].0 == key;
    }
    if HasKey(entries[1..], key) {
      var i :| 0 <= i < |entries[1..]| && entries[1..][i].0 == key;
      assert entries[i + 1].0 == key;
    }
  }

  lemma {:induction false} LookupAppend(a: seq<(string, string)>, b: seq<(string, string)>, key: string)
    ensures Lookup(a + b, key) == if Lookup(a, key).Some? then Lookup(a, key) else Lookup(b, key)
  {
    hide HasKey;
    if a == [] {
      assert a + b == b;
    } else {
      assert (a + b)[1..] == a[1..] + b;
      LookupAppend(a[1..], b, key);
    }
  }

  /** Of the wanted items, those that are missing: a key is looked up there exactly when it is not found
      among the entries. */
  lemma {:induction false} MissingExact(entries: seq<(string, string)>, items: seq<(string, string)>, key: string)
    ensures Lookup(Missing(entries, items), key) == if HasKey(entries, key) then None else Lookup(items, key)
  {
    hide HasKey;
    if items == [] {
    } else {
      var rest := Missing(entries, items[1..]);
      MissingExact(entries, items[1..], key);
      if HasKey(entries, items[0].0) {
        assert [] + rest == rest;
      } else {
        assert ([items[0]] + rest)[1..] == rest;
      }
    }
  }

  ghost predicate DistinctSections(wanted: seq<Table>) {
    forall i, j :: 0 <= i < j < |wanted| ==> HeaderOf(wanted[i].section) != HeaderOf(wanted[j].section)
  }

  lemma AddedStep(lines: seq<string>, wanted: seq<Table>, n: nat, header: string)
    requires 0 < n <= |wanted|
    ensures Added(lines, wanted, n, header)
            == Added(lines, wanted, n - 1, header)
               + if HeaderOf(wanted[n - 1].section) == header then MissingIn(lines, wanted[n - 1]) else []
  {
    hide MissingIn, HeaderOf;
  }

  lemma {:induction false} AddedExact(lines: seq<string>, wanted: seq<Table>, n: nat, w: nat)
    requires n <= |wanted| && w < |wanted| && DistinctSections(wanted)
    ensures Added(lines, wanted, n, HeaderOf(wanted[w].section)) == if w < n then MissingIn(lines, wanted[w]) else []
  {
    hide MissingIn, HeaderOf;
    if n == 0 {
    } else {
      assert w != n - 1 ==> HeaderOf(wanted[w].section) != HeaderOf(wanted[n - 1].section);
      hide DistinctSections;
      AddedExact(lines, wanted, n - 1, w);
      hide Added;
      AddedStep(lines, wanted, n, HeaderOf(wanted[w].section));
    }
  }

  lemma {:induction false} AddedElsewhere(lines: seq<string>, wanted: seq<Table>, n: nat, header: string)
    requires n <= |wanted| && forall i :: 0 <= i < n ==> HeaderOf(wanted[i].section) != header
    ensures Added(lines, wanted, n, header) == []
  {
    hide MissingIn, HeaderOf;
    if n == 0 {
    } else {
      AddedElsewhere(lines, wanted, n - 1, header);
    }
  }

  /** A value that was there stays; a wanted key that was missing gets its default; every other key of
      a wanted section stays absent. */
  lemma UpgradeValue(text: string, wanted: seq<Table>, w: nat, key: string)
    requires PlainText(text, wanted) && GoodTables(wanted) && DistinctSections(wanted) && w < |wanted|
    ensures var section := wanted[w].section;
            Lookup(Entries(Upgrade(text, wanted), section), key)
            == if HasKey(Entries(text, section), key) then Lookup(Entries(text, section), key)
               else Lookup(wanted[w].items, key)
  {
    var lines, header := TomlLines(text), HeaderOf(wanted[w].section);
    AddedExact(lines, wanted, |wanted|, w);
    UpgradeReads(text, wanted, wanted[w].section);
    hide PlainText, GoodTables, DistinctSections, Added, Upgrade, TomlLines, EntriesFrom, HasKey, HeaderOf;
    LookupAppend(EntriesFrom(lines, "", header), MissingIn(lines, wanted[w]), key);
    MissingExact(EntriesFrom(lines, "", header), wanted[w].items, key);
  }

  /** Sections that are not wanted read the same before and after. */
  lemma UpgradeElsewhere(text: string, wanted: seq<Table>, section: string)
    requires PlainText(text, wanted) && GoodTables(wanted)
    requires forall i :: 0 <= i < |wanted| ==> wanted[i].section != section
    ensures Entries(Upgrade(text, wanted), section) == Entries(text, section)
  {
    var lines := TomlLines(text);
    forall i | 0 <= i < |wanted| ensures HeaderOf(wanted[i].section) != HeaderOf(section) {
      HeaderInjective(wanted[i].section, section);
    }
    AddedElsewhere(lines, wanted, |wanted|, HeaderOf(section));
    UpgradeReads(text, wanted, section);
    hide PlainText, GoodTables, Added, Upgrade, TomlLines;
  }

  lemma HeaderInjective(a: string, b: string)
    ensures HeaderOf(a) == HeaderOf(b) ==> a == b
  {
    assert HeaderOf(a)[1..|a| + 1] == a && HeaderOf(b)[1..|b| + 1] == b;
  }

  // ----- a second upgrade -----

  lemma {:induction false} MissingNone(entries: seq<(string, string)>, items: seq<(string, string)>)
    requires forall i :: 0 <= i < |items| ==> HasKey(entries, items[i].0)
    ensures Missing(entries, items) == []
  {
    hide HasKey;
    if items == [] {
    } else {
      assert HasKey(entries, items[0].0);
      forall i | 0 <= i < |items[1..]| ensures HasKey(entries, items[1..][i].0) {
        assert items[1..][i] == items[i + 1];
      }
      MissingNone(entries, items[1..]);
    }
  }

  lemma NowPresent(text: string, wanted: seq<Table>, w: nat)
    requires PlainText(text, wanted) && GoodTables(wanted) && DistinctSections(wanted) && w < |wanted|
    ensures MissingIn(TomlLines(Upgrade(text, wanted)), wanted[w]) == []
  {
    var items := wanted[w].items;
    var entries := Entries(Upgrade(text, wanted), wanted[w].section);
    hide PlainText, GoodTables, DistinctSections, Upgrade, TomlLines, EntriesFrom;
    forall i | 0 <= i < |items| ensures HasKey(entries, items[i].0) {
      UpgradeValue(text, wanted, w, items[i].0);
      assert HasKey(items, items[i].0);
    }
    hide HasKey;
    MissingNone(entries, items);
  }

  /** Afterwards nothing is missing, so a second upgrade changes nothing. */
  lemma UpgradeTwice(text: string, wanted: seq<Table>)
    requires PlainText(text, wanted) && GoodTables(wanted) && DistinctSections(wanted)
    ensures NothingMissing(TomlLines(Upgrade(text, wanted)), wanted)
    ensures Upgrade(Upgrade(text, wanted), wanted) == Upgrade(text, wanted)
  {
    var after := Upgrade(text, wanted);
    forall w | 0 <= w < |wanted| ensures MissingIn(TomlLines(after), wanted[w]) == [] {
      NowPresent(text, wanted, w);
    }
  }

  // ----- the lines themselves -----

  /** A strictly increasing placement of the lines of one text among the lines of another. */
  ghost predicate Embeds(a: seq<string>, b: seq<string>, f: seq<nat>) {
    |f| == |a| && (forall i :: 0 <= i < |a| ==> f[i] < |b| && b[f[i]] == a[i])
    && forall i, j :: 0 <= i < j < |a| ==> f[i] < f[j]
  }

  lemma GapEmbeds(a: seq<string>, middle: seq<string>, b: seq<string>) returns (f: seq<nat>)
    ensures Embeds(a + b, a + middle + b, f)
  {
    f := seq(|a| + |b|, i requires 0 <= i => if i < |a| then i else i + |middle|);
  }

  lemma InsertedEmbeds(lines: seq<string>, section: string, missing: seq<(string, string)>) returns (f: seq<nat>)
    ensures Embeds(lines, Inserted(lines, section, missing), f)
  {
    var middle, end := [], |lines|;
    hide Embeds, HeaderOf, RenderAll, SectionEnd, IndexOf;
    if missing != [] {
      InsertedAs(lines, section, missing);
      match IndexOf(lines, HeaderOf(section))
      case None =>
        middle := (if lines != [] && lines[|lines| - 1] != "" then [""] else [])
                  + [HeaderOf(section)] + RenderAll(missing);
      case Some(start) =>
        middle, end := RenderAll(missing), SectionEnd(lines, start + 1);
    }
    assert Inserted(lines, section, missing) == lines[..end] + middle + lines[end..];
    assert lines == lines[..end] + lines[end..];
    f := GapEmbeds(lines[..end], middle, lines[end..]);
  }

  lemma EmbedsTwice(a: seq<string>, b: seq<string>, c: seq<string>, f: seq<nat>, g: seq<nat>) returns (h: seq<nat>)
    requires Embeds(a, b, f) && Embeds(b, c, g)
    ensures Embeds(a, c, h)
  {
    h := seq(|a|, i requires 0 <= i < |a| => g[f[i]]);
  }

  lemma EmbedsOnward(a: seq<string>, b: seq<string>, section: string, missing: seq<(string, string)>, f: seq<nat>)
    returns (h: seq<nat>)
    requires Embeds(a, b, f)
    ensures Embeds(a, Inserted(b, section, missing), h)
  {
    hide Embeds, Inserted;
    var g := InsertedEmbeds(b, section, missing);
    h := EmbedsTwice(a, b, Inserted(b, section, missing), f, g);
  }

  lemma {:induction false} EditEmbeds(lines: seq<string>, original: seq<string>, wanted: seq<Table>, n: nat)
    returns (f: seq<nat>)
    requires n <= |wanted|
    ensures Embeds(lines, Edit(lines, original, wanted, n), f)
  {
    if n == 0 {
      f := seq(|lines|, i requires 0 <= i => i);
    } else {
      hide Embeds, Inserted, MissingIn;
      f := EditEmbeds(lines, original, wanted, n - 1);
      f := EmbedsOnward(lines, Edit(lines, original, wanted, n - 1), wanted[n - 1].section,
                        MissingIn(original, wanted[n - 1]), f);
    }
  }

  lemma {:induction false} TrimLinesKeeps(lines: seq<string>, i: nat)
    requires i < |lines| && !AllSpace(lines[i])
    ensures var r := TrimLines(lines);
            i < |r| && (r[i] == lines[i] || (i == |r| - 1 && r[i] == StripRight(lines[i], IsSpace)))
  {
    hide AllSpace;
    var n := |lines| - 1;
    if AllSpace(lines[n]) { TrimLinesKeeps(lines[..n], i); }
  }

  /** Every line that is not blank is still there, in the same order; only the very last line of the new
      text can have lost trailing blanks. */
  lemma LinesKept(text: string, wanted: seq<Table>) returns (f: seq<nat>)
    requires PlainText(text, wanted) && GoodTables(wanted)
    ensures var before, after := TomlLines(text), TomlLines(Upgrade(text, wanted));
            |f| == |before| && (forall i, j :: 0 <= i < j < |f| ==> f[i] < f[j])
            && forall i :: 0 <= i < |f| && !AllSpace(before[i]) ==>
                 f[i] < |after|
                 && (after[f[i]] == before[i] || (f[i] == |after| - 1 && after[f[i]] == StripRight(before[i], IsSpace)))
  {
    var lines := TomlLines(text);
    if NothingMissing(lines, wanted) {
      f := seq(|lines|, i requires 0 <= i => i);
    } else {
      PlainEditable(text, wanted);
      UpgradeLinesTidy(text, wanted);
      hide PlainText, GoodTables, TomlLines, PythonLines, Upgrade, NothingMissing, AllSpace, StripRight, TrimLines,
           Editable;
      var edited := Edit(lines, lines, wanted, |wanted|);
      f := EditEmbeds(lines, lines, wanted, |wanted|);
      hide Edit;
      forall i | 0 <= i < |f| && !AllSpace(lines[i])
        ensures f[i] < |TrimLines(edited)|
                && (TrimLines(edited)[f[i]] == lines[i]
                    || (f[i] == |TrimLines(edited)| - 1 && TrimLines(edited)[f[i]] == StripRight(lines[i], IsSpace))) {
        TrimLinesKeeps(edited, f[i]);
      }
    }
  }

  // ----- texts outside that condition -----

  /** No line and no printed item holds the character. */
  ghost predicate Without(lines: seq<string>, c: char) {
    forall i :: 0 <= i < |lines| ==> c !in lines[i]
  }

  ghost predicate TablesWithout(tables: seq<Table>, c: char) {
    forall i :: 0 <= i < |tables| ==> c !in HeaderOf(tables[i].section) && Without(RenderAll(tables[i].items), c)
  }

  lemma {:induction false} MissingWithout(entries: seq<(string, string)>, items: seq<(string, string)>, c: char)
    requires Without(RenderAll(items), c)
    ensures Without(RenderAll(Missing(entries, items)), c)
  {
    hide HasKey, Render;
    if items == [] {
    } else {
      var all, rest := RenderAll(items), RenderAll(items[1..]);
      forall i | 0 <= i < |rest| ensures c !in rest[i] { assert all[i + 1] == rest[i]; }
      MissingWithout(entries, items[1..], c);
      assert c !in all[0];
      var kept := Missing(entries, items[1..]);
      assert [items[0]] + kept == [items[0]] + kept && ([items[0]] + kept)[1..] == kept && [] + kept == kept;
    }
  }

  lemma InsertedWithout(lines: seq<string>, section: string, missing: seq<(string, string)>, c: char)
    requires Without(lines, c) && c !in HeaderOf(section) && Without(RenderAll(missing), c)
    ensures Without(Inserted(lines, section, missing), c)
  {
    hide RenderAll, HeaderOf, SectionEnd, IndexOf;
  }

  lemma {:induction false} EditWithout(lines: seq<string>, original: seq<string>, wanted: seq<Table>, n: nat, c: char)
    requires n <= |wanted| && Without(lines, c) && TablesWithout(wanted, c)
    ensures Without(Edit(lines, original, wanted, n), c)
  {
    hide Inserted, HeaderOf, RenderAll, Missing, EntriesFrom;
    if n == 0 {
    } else {
      var w := wanted[n - 1];
      EditWithout(lines, original, wanted, n - 1, c);
      MissingWithout(EntriesFrom(original, "", HeaderOf(w.section)), w.items, c);
      InsertedWithout(Edit(lines, original, wanted, n - 1), w.section, MissingIn(original, w), c);
    }
  }

  lemma {:induction false} JoinWithout(lines: seq<string>, c: char)
    requires Without(lines, c) && c != '\n'
    ensures c !in Join(lines)
  {
    if lines == [] {
    } else {
      JoinWithout(lines[1..], c);
    }
  }

  lemma LinesWithout(text: string, c: char)
    requires PythonBreak(c)
    ensures Without(PythonLines(text), c)
  {
    PythonLinesClean(text);
    hide PythonBreak, PythonLines;
  }

  /** An upgrade that inserts anything turns every line break into a newline. A value that holds another
      one, such as U+2028 inside a string, is broken over two lines and lost. */
  lemma ForeignBreakLost(text: string, wanted: seq<Table>, c: char)
    requires !NothingMissing(TomlLines(text), wanted) && TablesWithout(wanted, c)
    requires PythonBreak(c) && c != '\n'
    ensures c !in Upgrade(text, wanted)
  {
    hide PythonLines, NothingMissing, TomlLines, Without, TablesWithout, Edit, Join, PythonBreak, IsSpace;
    LinesWithout(text, c);
    EditWithout(PythonLines(text), TomlLines(text), wanted, |wanted|, c);
    JoinWithout(Edit(PythonLines(text), TomlLines(text), wanted, |wanted|), c);
  }
}

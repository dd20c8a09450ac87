/** What the upgrade does to the lines of a file that holds line breaks only Python knows. */
module ConfigLines {
  import opened Wrappers
  import opened FileNames
  import opened Toml
  import opened ConfigFile
  import opened ConfigUpgrade

  predicate NoBreak(s: string) {
    forall k :: 0 <= k < |s| ==> !PythonBreak(s[k])
  }

  function Stripped(l: string): string {
    StripRight(l, IsSpace)
  }

  ghost predicate Increasing(f: seq<nat>) {
    forall i, j :: 0 <= i < j < |f| ==> f[i] < f[j]
  }

  /** Every line that is not blank is there, in the same order, up to blanks at its end. */
  ghost predicate KeptBy(before: seq<string>, after: seq<string>, f: seq<nat>) {
    && |f| == |before| && Increasing(f)
    && forall i :: 0 <= i < |f| && Stripped(before[i]) != [] ==>
        f[i] < |after| && Stripped(after[f[i]]) == Stripped(before[i])
  }

  ghost predicate LinesSurvive(text: string, wanted: seq<Table>) {
    exists f :: KeptBy(TomlLines(text), TomlLines(Upgrade(text, wanted)), f)
  }

  /** No line holds a foreign break before its trailing blanks. */
  ghost predicate BreaksAtEnds(lines: seq<string>) {
    forall i :: 0 <= i < |lines| ==> NoBreak(Stripped(lines[i]))
  }

  // ----- stripping -----

  lemma StrippedBlank(l: string)
    ensures Stripped(l) == [] <==> AllSpace(l)
  {
    hide IsSpace;
    if AllSpace(l) {
      AllSpaceStrips(l);
    }
  }

  lemma StripTwice(l: string)
    ensures Stripped(Stripped(l)) == Stripped(l)
  {
    hide IsSpace;
  }

  /** A line cut at a break behind its text has the same text. */
  lemma CutStrip(l: string, n: nat)
    requires n < |l| && PythonBreak(l[n]) && NoBreak(Stripped(l))
    ensures Stripped(l[..n]) == Stripped(l) && AllSpace(l[n..])
  {
    var s := Stripped(l);
    assert forall k :: 0 <= k < |s| ==> s[k] == l[k] && !PythonBreak(l[k]);
    assert AllSpace(l[n..]);
    assert l == l[..n] + l[n..];
    hide IsSpace, PythonBreak, NoBreak;
    StripRightDrops(l[..n], l[n..]);
  }

  // ----- Python's lines against TOML's -----

  lemma {:induction false} SpanAtMost(t: string)
    ensures PythonSpan(t) <= TomlSpan(t)
  {
    if t != [] && !PythonBreak(t[0]) {
      SpanAtMost(t[1..]);
    }
  }

  lemma {:induction false} InsideLine(t: string, i: nat)
    requires i < TomlSpan(t)
    ensures EndOfLine(t, i) == i + 1
  {
    if i == 0 {
    } else {
      InsideLine(t[1..], i - 1);
    }
  }

  lemma {:induction false} SpanLater(t: string, n: nat)
    requires n <= TomlSpan(t)
    ensures TomlSpan(t[n..]) == TomlSpan(t) - n
  {
    if n > 0 {
      SpanLater(t[1..], n - 1);
      assert t[1..][n - 1..] == t[n..];
    } else {
      assert t[0..] == t;
    }
  }

  /** Dropping the front of the first line drops it from the first line only. */
  lemma LinesLater(t: string, n: nat)
    requires t != [] && n <= TomlSpan(t) && n < |t|
    ensures TomlLines(t) != [] && n <= |TomlLines(t)[0]|
    ensures TomlLines(t[n..]) == [TomlLines(t)[0][n..]] + TomlLines(t)[1..]
  {
    hide TomlSpan, TomlLines;
    SpanLater(t, n);
    var m, rest := TomlSpan(t), t[n..];
    FirstAt(t);
    FirstAt(rest);
    if m == |t| {
      assert t[..m] == t && rest[..m - n] == t[..m][n..];
    } else {
      assert t[..m][n..] == rest[..m - n] && t[EndOfLine(t, m)..] == rest[EndOfLine(rest, m - n)..];
    }
  }

  lemma FirstAt(t: string)
    requires t != []
    ensures var m := TomlSpan(t);
            TomlLines(t) == [t[..m]] + if m == |t| then [] else TomlLines(t[EndOfLine(t, m)..])
  {
    hide TomlSpan;
    if TomlSpan(t) == |t| {
      assert t[..|t|] == t;
    }
  }

  function Shifted(f: seq<nat>, n: nat): (r: seq<nat>)
    ensures |r| == |f| && forall i :: 0 <= i < |f| ==> r[i] == f[i] + n
  {
    if f == [] then [] else [f[0] + n] + Shifted(f[1..], n)
  }

  /** Where all foreign breaks stand in trailing blanks, each of TOML's lines is the start of one of
      Python's, up to blanks. */
  ghost predicate Alike(toml: seq<string>, python: seq<string>, f: seq<nat>) {
    && |f| == |toml| && Increasing(f)
    && forall i :: 0 <= i < |f| ==> f[i] < |python| && Stripped(python[f[i]]) == Stripped(toml[i])
  }

  lemma ShiftedIncreases(f: seq<nat>)
    requires Increasing(f)
    ensures Increasing([0] + Shifted(f, 1))
  {
    var g := [0] + Shifted(f, 1);
    forall i, j | 0 <= i < j < |g| ensures g[i] < g[j] {
      assert g[j] == f[j - 1] + 1;
      if i > 0 {
        assert g[i] == f[i - 1] + 1;
      }
    }
  }

  lemma AlikeCons(l: string, p: string, toml: seq<string>, python: seq<string>, f: seq<nat>) returns (g: seq<nat>)
    requires Alike(toml, python, f) && Stripped(p) == Stripped(l)
    ensures Alike([l] + toml, [p] + python, g)
  {
    hide Stripped;
    g := [0] + Shifted(f, 1);
    ShiftedIncreases(f);
    forall i | 0 <= i < |g| ensures g[i] < |[p] + python|
        && Stripped(([p] + python)[g[i]]) == Stripped(([l] + toml)[i]) {
      if i > 0 {
        assert g[i] == f[i - 1] + 1;
      }
    }
    hide Shifted;
  }

  /** The first line of the rest was only blanks: forget where it went. */
  lemma AlikeReplace(l: string, p: string, blank: string, toml: seq<string>, python: seq<string>, f: seq<nat>)
    returns (g: seq<nat>)
    requires Alike([blank] + toml, python, f) && Stripped(p) == Stripped(l)
    ensures Alike([l] + toml, [p] + python, g)
  {
    hide Stripped;
    var h := f[1..];
    forall i | 0 <= i < |h| ensures h[i] == f[i + 1] && ([blank] + toml)[i + 1] == toml[i] {}
    assert Alike(toml, python, h);
    g := AlikeCons(l, p, toml, python, h);
  }

  lemma {:induction false} SplitAlike(t: string) returns (f: seq<nat>)
    requires BreaksAtEnds(TomlLines(t))
    ensures Alike(TomlLines(t), PythonLines(t), f)
    decreases |t|
  {
    hide Stripped, NoBreak, PythonBreak;
    if t == [] {
      f := [];
    } else {
      var n, m := PythonSpan(t), TomlSpan(t);
      SpanAtMost(t);
      LinesLater(t, 0);
      if n == m {
        f := SplitSame(t);
      } else {
        f := SplitEarlier(t);
      }
    }
  }

  lemma {:induction false} SplitSame(t: string) returns (f: seq<nat>)
    requires t != [] && BreaksAtEnds(TomlLines(t)) && PythonSpan(t) == TomlSpan(t)
    ensures Alike(TomlLines(t), PythonLines(t), f)
    decreases |t|, 0
  {
    hide Stripped, NoBreak, PythonBreak, PythonSpan, TomlSpan;
    var n := PythonSpan(t);
    if n == |t| {
      f := [0];
    } else {
      var rest := t[EndOfLine(t, n)..];
      assert TomlLines(t) == [t[..n]] + TomlLines(rest) && PythonLines(t) == [t[..n]] + PythonLines(rest);
      assert TomlLines(t)[1..] == TomlLines(rest);
      f := SplitAlike(rest);
      hide TomlLines, PythonLines;
      f := AlikeCons(t[..n], t[..n], TomlLines(rest), PythonLines(rest), f);
    }
  }

  lemma {:induction false} SplitEarlier(t: string) returns (f: seq<nat>)
    requires t != [] && BreaksAtEnds(TomlLines(t)) && PythonSpan(t) < TomlSpan(t)
    ensures Alike(TomlLines(t), PythonLines(t), f)
    decreases |t|, 0
  {
    var n, m, lines := PythonSpan(t), TomlSpan(t), TomlLines(t);
    LinesLater(t, 0);
    hide Stripped, NoBreak, PythonSpan, TomlSpan;
    var l, p, rest := lines[0], t[..n], t[n + 1..];
    assert l == t[..m] && n < |l| && l[n] == t[n] && l[..n] == p;
    InsideLine(t, n);
    assert PythonLines(t) == [p] + PythonLines(rest);
    hide PythonBreak;
    CutStrip(l, n);
    if rest == [] {
      assert lines == [l];
      f := [0];
      hide TomlLines;
    } else {
      LinesLater(t, n + 1);
      var blank := l[n + 1..];
      assert TomlLines(rest) == [blank] + lines[1..];
      hide TomlLines, PythonLines;
      assert AllSpace(blank) by { assert blank == l[n..][1..]; }
      BlankStarts(blank, lines);
      f := SplitAlike(rest);
      f := AlikeReplace(l, p, blank, lines[1..], PythonLines(rest), f);
      assert lines == [l] + lines[1..];
    }
  }

  lemma BlankStarts(blank: string, lines: seq<string>)
    requires AllSpace(blank) && lines != [] && BreaksAtEnds(lines)
    ensures BreaksAtEnds([blank] + lines[1..])
  {
    StrippedBlank(blank);
    assert NoBreak("");
    hide AllSpace, Stripped, NoBreak;
  }

  // ----- the upgrade -----

  /** Every line of Python's that is not blank survives the upgrade, whatever the text. */
  lemma PythonKept(text: string, wanted: seq<Table>) returns (f: seq<nat>)
    requires GoodTables(wanted) && !NothingMissing(TomlLines(text), wanted)
    ensures KeptBy(PythonLines(text), TomlLines(Upgrade(text, wanted)), f)
  {
    hide GoodTables, NothingMissing, TomlLines, PythonLines, Upgrade;
    var lines := PythonLines(text);
    var edited := Edit(lines, TomlLines(text), wanted, |wanted|);
    UpgradeLines(text, wanted);
    f := EditEmbeds(lines, TomlLines(text), wanted, |wanted|);
    hide Edit, TrimLines, AllSpace;
    forall i | 0 <= i < |f| && Stripped(lines[i]) != []
      ensures f[i] < |TrimLines(edited)| && Stripped(TrimLines(edited)[f[i]]) == Stripped(lines[i])
    {
      StrippedBlank(lines[i]);
      TrimLinesKeeps(edited, f[i]);
      StripTwice(lines[i]);
    }
  }

  lemma AlikeThenKept(toml: seq<string>, python: seq<string>, after: seq<string>, f: seq<nat>, g: seq<nat>)
    returns (h: seq<nat>)
    requires Alike(toml, python, f) && KeptBy(python, after, g)
    ensures KeptBy(toml, after, h)
  {
    hide Stripped;
    h := seq(|toml|, i requires 0 <= i < |toml| => g[f[i]]);
  }

  lemma {:induction false} LineChars(t: string, l: string, c: char)
    requires l in TomlLines(t) && c in l
    ensures c in t && c != '\n'
    decreases |t|
  {
    var n := TomlSpan(t);
    LineHasNoNewline(t);
    if n < |t| && l != t[..n] {
      var rest := t[EndOfLine(t, n)..];
      assert TomlLines(t) == [t[..n]] + TomlLines(rest);
      LineChars(rest, l, c);
    }
  }

  lemma {:induction false} LineHasNoNewline(t: string)
    ensures '\n' !in t[..TomlSpan(t)]
  {
    var n := TomlSpan(t);
    if n == 0 {
    } else {
      LineHasNoNewline(t[1..]);
      assert t[..n] == [t[0]] + t[1..][..n - 1];
    }
  }

  /** Sections, keys and defaults without line breaks. */
  ghost predicate TablesPlain(tables: seq<Table>) {
    forall c: char :: PythonBreak(c) && c != '\n' ==> TablesWithout(tables, c)
  }

  /** When the upgrade inserts anything, every line a reader saw that is not blank survives if and only if
      no line holds a foreign break before its trailing blanks. */
  lemma LinesSurviveExactly(text: string, wanted: seq<Table>)
    requires GoodTables(wanted) && TablesPlain(wanted) && !NothingMissing(TomlLines(text), wanted)
    ensures LinesSurvive(text, wanted) <==> BreaksAtEnds(TomlLines(text))
  {
    hide GoodTables, NothingMissing, TomlLines, PythonLines, Upgrade, Stripped, NoBreak;
    var before, after := TomlLines(text), TomlLines(Upgrade(text, wanted));
    if BreaksAtEnds(before) {
      var f := SplitAlike(text);
      var g := PythonKept(text, wanted);
      var h := AlikeThenKept(before, PythonLines(text), after, f, g);
      assert KeptBy(before, after, h);
    }
    if LinesSurvive(text, wanted) {
      var f :| KeptBy(before, after, f);
      forall i | 0 <= i < |before| ensures NoBreak(Stripped(before[i])) {
        if Stripped(before[i]) == [] {
          NothingBreaks();
        } else {
          LineClean(text, wanted, before[i], after[f[i]]);
        }
      }
    }
  }

  lemma NothingBreaks()
    ensures NoBreak("")
  {
  }

  lemma LineClean(text: string, wanted: seq<Table>, l: string, kept: string)
    requires TablesPlain(wanted) && !NothingMissing(TomlLines(text), wanted)
    requires l in TomlLines(text) && kept in TomlLines(Upgrade(text, wanted)) && Stripped(kept) == Stripped(l)
    ensures NoBreak(Stripped(l))
  {
    hide NothingMissing, TomlLines, Upgrade, TablesWithout, IsSpace;
    var s := Stripped(l);
    forall k | 0 <= k < |s| ensures !PythonBreak(s[k]) {
      var c := s[k];
      assert c == kept[k] && c == l[k];
      LineChars(Upgrade(text, wanted), kept, c);
      if PythonBreak(c) {
        hide PythonBreak;
        ForeignBreakLost(text, wanted, c);
        assert false;
      }
    }
  }

  // ----- a file whose value is broken -----

  const OLD_VALUE := "\"a\U{2028}b\""
  const NEW_VALUE := "\"a"

  lemma {:induction false} PythonSpanOf(l: string, c: char, rest: string)
    requires NoBreak(l) && PythonBreak(c)
    ensures PythonSpan(l + [c] + rest) == |l|
  {
    hide PythonBreak;
    var t := l + [c] + rest;
    if l == [] {
      assert t[0] == c;
    } else {
      assert t[0] == l[0] && t[1..] == l[1..] + [c] + rest;
      PythonSpanOf(l[1..], c, rest);
    }
  }

  lemma PythonFirst(l: string, c: char, rest: string)
    requires NoBreak(l) && PythonBreak(c) && c != '\r'
    ensures PythonLines(l + [c] + rest) == [l] + PythonLines(rest)
  {
    PythonSpanOf(l, c, rest);
    hide PythonSpan, PythonBreak, NoBreak;
    var t := l + [c] + rest;
    assert t[..|l|] == l && t[|l| + 1..] == rest && t[|l|] == c;
  }

  lemma ExampleKeys()
    ensures BareKey("root") && BareKey("content") && PrintedValue(OLD_VALUE) && PrintedValue(NEW_VALUE)
  {
    assert BareKey("root") && BareKey("content");
  }

  /** The table header [content] and one entry, root = "a<U+2028>b". */
  function ExampleText(): string {
    HeaderOf("content") + "\n" + (Render(("root", OLD_VALUE)) + "\n" + "")
  }

  lemma ExampleParts()
    ensures NoBreak(HeaderOf("content")) && NoBreak("b\"")
  {
  }

  lemma ExampleEntry()
    ensures NoBreak(Render(("root", NEW_VALUE)))
  {
    assert NoBreak("root") && NoBreak(" = ") && NoBreak(NEW_VALUE);
    hide PythonBreak;
  }

  lemma ExampleToml()
    ensures TomlLines(ExampleText()) == [HeaderOf("content"), Render(("root", OLD_VALUE))]
  {
    ExampleKeys();
    RenderOneLine(("root", OLD_VALUE));
    HeaderTidy("content");
    hide HeaderOf, Render, OneLine, TomlLines, BareKey, PrintedValue;
    FirstLine(Render(("root", OLD_VALUE)), "");
    FirstLine(HeaderOf("content"), Render(("root", OLD_VALUE)) + "\n" + "");
    NoLinesAtEnd();
  }

  lemma ExamplePython()
    ensures PythonLines(ExampleText()) == [HeaderOf("content"), Render(("root", NEW_VALUE)), "b\""]
  {
    ExampleParts();
    ExampleEntry();
    ExampleSplit();
    assert PythonBreak('\n') && PythonBreak('\U{2028}');
    hide HeaderOf, Render, NoBreak, PythonBreak, PythonLines;
    var last, middle := "b\"" + ['\n'] + "", Render(("root", NEW_VALUE));
    PythonFirst("b\"", '\n', "");
    PythonFirst(middle, '\U{2028}', last);
    PythonFirst(HeaderOf("content"), '\n', middle + ['\U{2028}'] + last);
    NoLinesAtEnd();
  }

  lemma ExampleSplit()
    ensures ExampleText()
            == HeaderOf("content") + ['\n'] + (Render(("root", NEW_VALUE)) + ['\U{2028}'] + ("b\"" + ['\n'] + ""))
  {
    hide HeaderOf;
    assert OLD_VALUE == NEW_VALUE + ['\U{2028}'] + "b\"";
  }

  lemma NoLinesAtEnd()
    ensures TomlLines("") == [] && PythonLines("") == []
  {
  }

  lemma ExampleReads()
    ensures EntryOf(Render(("root", OLD_VALUE))) == Some(("root", OLD_VALUE)) && !IsHeader(Render(("root", OLD_VALUE)))
    ensures EntryOf(Render(("root", NEW_VALUE))) == Some(("root", NEW_VALUE)) && !IsHeader(Render(("root", NEW_VALUE)))
    ensures EntryOf("b\"") == None && !IsHeader("b\"") && IsHeader(HeaderOf("content"))
  {
    ExampleKeys();
    assert EqualsAt("b\"") == 2 by { assert "b\""[1..] == "\"" && "\""[1..] == ""; }
    hide BareKey, PrintedValue, EqualsAt, Render;
    RenderReads(("root", OLD_VALUE));
    RenderReads(("root", NEW_VALUE));
  }

  lemma ExampleEntries()
    ensures var h := HeaderOf("content");
            && EntriesFrom([h, Render(("root", OLD_VALUE))], "", h) == [("root", OLD_VALUE)]
            && EntriesFrom([h, Render(("root", NEW_VALUE)), "b\""], "", h) == [("root", NEW_VALUE)]
  {
    var h, was, a, b := HeaderOf("content"), Render(("root", OLD_VALUE)), Render(("root", NEW_VALUE)), "b\"";
    ExampleReads();
    hide EntryOf, Render, HeaderOf, IsHeader;
    assert [h, was][1..] == [was] && [h, a, b][1..] == [a, b] && [a, b][1..] == [b];
    LastReads(was, h, h);
    LastReads(b, h, h);
    assert EntriesFrom([a, b], h, h) == [("root", NEW_VALUE)] + EntriesFrom([b], h, h);
  }

  /** The text has no other section. */
  lemma ExampleElsewhere(section: string)
    requires section != "content"
    ensures Entries(ExampleText(), section) == []
  {
    var h, own, l := HeaderOf(section), HeaderOf("content"), Render(("root", OLD_VALUE));
    assert IsHeader(h) && h != "";
    hide TomlLines, ExampleText, Render, HeaderOf, EntryOf, IsHeader;
    HeaderInjective(section, "content");
    ExampleToml();
    ExampleReads();
    hide OLD_VALUE;
    assert h != own && h != l;
    assert h !in [own, l];
    NoEntries([own, l], "", h);
  }

  lemma OneHeader(h: string, a: string, b: string, section: string)
    requires !IsHeader(a) && !IsHeader(b)
    ensures OnceAtMost([h, a, b], HeaderOf(section))
  {
    var w := HeaderOf(section);
    assert IsHeader(w);
    hide HeaderOf, IsHeader;
    assert multiset([h, a, b]) == multiset{h, a, b};
  }

  lemma ExampleTidy()
    ensures AllTidy([HeaderOf("content"), Render(("root", NEW_VALUE)), "b\""])
  {
    ExampleKeys();
    RenderTidy(("root", NEW_VALUE));
    HeaderTidy("content");
    assert Tidy("b\"");
    hide Tidy, Render, HeaderOf;
  }

  lemma ExampleEditable(wanted: seq<Table>)
    ensures Editable(PythonLines(ExampleText()), wanted)
  {
    ExamplePython();
    ExampleTidy();
    ExampleReads();
    hide PythonLines, ExampleText, Render, AllTidy, IsHeader, HeaderOf, OnceAtMost, EntryOf;
    forall i | 0 <= i < |wanted| ensures OnceAtMost(PythonLines(ExampleText()), HeaderOf(wanted[i].section)) {
      OneHeader(HeaderOf("content"), Render(("root", NEW_VALUE)), "b\"", wanted[i].section);
    }
  }

  /** With U+2028 inside a string, which TOML allows, any upgrade that inserts anything changes the value a
      reader finds: the entry becomes an unclosed string. */
  lemma BrokenValue(wanted: seq<Table>)
    requires GoodTables(wanted) && !NothingMissing(TomlLines(ExampleText()), wanted)
    ensures Entries(ExampleText(), "content") == [("root", OLD_VALUE)]
            && ReadBasic(OLD_VALUE) == Some(("a\U{2028}b", ""))
    ensures Lookup(Entries(Upgrade(ExampleText(), wanted), "content"), "root") == Some(NEW_VALUE)
            && ReadBasic(NEW_VALUE) == None
  {
    ExampleEditable(wanted);
    ExampleToml();
    ExamplePython();
    ExampleEntries();
    ExampleStrings();
    hide TomlLines, PythonLines, Upgrade, EntriesFrom, Render, HeaderOf, ExampleText, Editable, GoodTables,
         NothingMissing, ReadBasic;
    UpgradeReadsLines(ExampleText(), wanted, "content");
    var added := Added(TomlLines(ExampleText()), wanted, |wanted|, HeaderOf("content"));
    hide Added;
    assert ([("root", NEW_VALUE)] + added)[0] == ("root", NEW_VALUE);
  }

  lemma ExampleStrings()
    ensures ReadBasic(OLD_VALUE) == Some(("a\U{2028}b", "")) && ReadBasic(NEW_VALUE) == None
  {
    assert OLD_VALUE[1..] == ['a'] + (['\U{2028}'] + (['b'] + ("\"" + ""))) && NEW_VALUE[1..] == ['a'] + "";
    assert ReadBody("") == None;
    assert !Illegal('a') && !Illegal('b') && !Illegal('\U{2028}');
    hide ReadBody, Illegal;
    ReadOne('a', "");
    ReadsEnd("");
    ReadOne('b', "\"" + "");
    ReadOne('\U{2028}', ['b'] + ("\"" + ""));
    ReadOne('a', ['\U{2028}'] + (['b'] + ("\"" + "")));
    assert ['a'] + (['\U{2028}'] + (['b'] + "")) == "a\U{2028}b";
  }
}

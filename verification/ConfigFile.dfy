/** The in-place upgrade of a configuration file: missing keys are inserted as lines, and what a reader
    of the file sees must otherwise stay the same. */
module ConfigFile {
  import opened Wrappers
  import opened FileNames
  import opened Toml

  // ----- how a reader sees the lines -----

  predicate IsHeader(l: string) {
    l != [] && l[0] == '['
  }

  function HeaderOf(section: string): string {
    "[" + section + "]"
  }

  function Trim(s: string): string {
    Strip(s, IsSpace)
  }

  function EqualsAt(l: string): (n: nat)
    ensures n <= |l| && forall i :: 0 <= i < n ==> l[i] != '='
    ensures n < |l| ==> l[n] == '='
  {
    if l == [] || l[0] == '=' then 0 else 1 + EqualsAt(l[1..])
  }

  /** The key and the text of the value of an entry line; None for blank lines, comments and headers. */
  function EntryOf(l: string): Option<(string, string)> {
    var n := EqualsAt(l);
    if IsHeader(l) || Trim(l) == [] || Trim(l)[0] == '#' || n == |l| then None
    else Some((Trim(l[..n]), Trim(l[n + 1..])))
  }

  /** The header in force after some lines. */
  function SectionAfter(lines: seq<string>, current: string): string {
    if lines == [] then current
    else SectionAfter(lines[1..], if IsHeader(lines[0]) then lines[0] else current)
  }

  function EntryUnder(l: string, current: string, header: string): seq<(string, string)> {
    if current == header && EntryOf(l).Some? then [EntryOf(l).value] else []
  }

  /** The entries under one header, in order, when reading starts under `current`. */
  function EntriesFrom(lines: seq<string>, current: string, header: string): seq<(string, string)> {
    if lines == [] then []
    else if IsHeader(lines[0]) then EntriesFrom(lines[1..], lines[0], header)
    else EntryUnder(lines[0], current, header) + EntriesFrom(lines[1..], current, header)
  }

  function Entries(text: string, section: string): seq<(string, string)> {
    EntriesFrom(TomlLines(text), "", HeaderOf(section))
  }

  predicate HasKey(entries: seq<(string, string)>, key: string) {
    exists i :: 0 <= i < |entries| && entries[i].0 == key
  }

  lemma {:induction false} SectionAppend(a: seq<string>, b: seq<string>, current: string)
    ensures SectionAfter(a + b, current) == SectionAfter(b, SectionAfter(a, current))
  {
    hide IsHeader;
    if a == [] {
      assert a + b == b;
    } else {
      assert (a + b)[1..] == a[1..] + b;
      SectionAppend(a[1..], b, if IsHeader(a[0]) then a[0] else current);
    }
  }

  lemma {:induction false} EntriesAppend(a: seq<string>, b: seq<string>, current: string, header: string)
    ensures EntriesFrom(a + b, current, header)
            == EntriesFrom(a, current, header) + EntriesFrom(b, SectionAfter(a, current), header)
  {
    hide EntryUnder, IsHeader;
    if a == [] {
      assert a + b == b;
    } else {
      assert (a + b)[1..] == a[1..] + b;
      EntriesAppend(a[1..], b, if IsHeader(a[0]) then a[0] else current, header);
    }
  }

  // ----- the edit -----

  function Render(item: (string, string)): string {
    item.0 + " = " + item.1
  }

  function RenderAll(items: seq<(string, string)>): (r: seq<string>)
    ensures |r| == |items|
    ensures forall i {:trigger r[i]} :: 0 <= i < |items| ==> r[i] == Render(items[i])
  {
    if items == [] then [] else [Render(items[0])] + RenderAll(items[1..])
  }

  function IndexOf(lines: seq<string>, l: string): (r: Option<nat>)
    ensures r.Some? ==> r.value < |lines| && lines[r.value] == l
    ensures r.None? <==> l !in lines
  {
    if lines == [] then None
    else if lines[0] == l then Some(0)
    else
      match IndexOf(lines[1..], l)
      case None => None
      case Some(i) => Some(i + 1)
  }

  /** The first header line from position n on, or the end. */
  function SectionEnd(lines: seq<string>, n: nat): (end: nat)
    requires n <= |lines|
    ensures n <= end <= |lines| && (end < |lines| ==> IsHeader(lines[end]))
    ensures forall i :: n <= i < end ==> !IsHeader(lines[i])
    decreases |lines| - n
  {
    if n == |lines| || IsHeader(lines[n]) then n else SectionEnd(lines, n + 1)
  }

  function Inserted(lines: seq<string>, section: string, missing: seq<(string, string)>): seq<string> {
    var header := HeaderOf(section);
    if missing == [] then lines
    else
      match IndexOf(lines, header)
      case None =>
        lines + (if lines != [] && lines[|lines| - 1] != "" then [""] else []) + [header] + RenderAll(missing)
      case Some(start) =>
        var end := SectionEnd(lines, start + 1);
        lines[..end] + RenderAll(missing) + lines[end..]
  }

  lemma InsertedNothing(lines: seq<string>, section: string)
    ensures Inserted(lines, section, []) == lines
  {
  }

  lemma InsertedAs(lines: seq<string>, section: string, missing: seq<(string, string)>)
    requires missing != []
    ensures var header := HeaderOf(section);
            Inserted(lines, section, missing)
            == match IndexOf(lines, header)
               case None =>
                 (if lines != [] && lines[|lines| - 1] != "" then lines + [""] else lines)
                 + [header] + RenderAll(missing)
               case Some(start) =>
                 lines[..SectionEnd(lines, start + 1)] + RenderAll(missing) + lines[SectionEnd(lines, start + 1)..]
  {
    hide HeaderOf, RenderAll, IndexOf, SectionEnd;
  }

  class LineEditor {
    var lines: seq<string>

    constructor (lines: seq<string>)
      ensures this.lines == lines
    {
      this.lines := lines;
    }

    method InsertMissingSection(section: string, missing: seq<(string, string)>)
      modifies this
      ensures lines == Inserted(old(lines), section, missing)
    {
      hide HeaderOf, RenderAll, IndexOf, IsHeader, Inserted;
      if missing == [] {
        assert Inserted(lines, section, missing) == lines by { InsertedNothing(lines, section); }
        return;
      }
      var header := HeaderOf(section);
      var found := IndexOf(lines, header);
      if found.None? {
        if lines != [] && lines[|lines| - 1] != "" {
          lines := lines + [""];
        }
        lines := lines + [header];
        lines := lines + RenderAll(missing);
        InsertedAs(old(lines), section, missing);
        return;
      }
      var sectionEnd := |lines|;
      var index := found.value + 1;
      while index < |lines|
        invariant found.value + 1 <= index <= |lines|
        invariant sectionEnd == |lines|
        invariant SectionEnd(lines, found.value + 1) == SectionEnd(lines, index)
      {
        if IsHeader(lines[index]) {
          sectionEnd := index;
          break;
        }
        index := index + 1;
      }
      lines := lines[..sectionEnd] + RenderAll(missing) + lines[sectionEnd..];
      InsertedAs(old(lines), section, missing);
    }
  }

  // ----- what one insertion does -----

  predicate BareKey(s: string) {
    s != [] && forall i :: 0 <= i < |s| ==> IsAsciiAlnum(s[i]) || s[i] == '_' || s[i] == '-'
  }

  /** Text that a reader finds on one line when a newline follows it. */
  predicate OneLine(l: string) {
    '\n' !in l && (l == [] || l[|l| - 1] != '\r')
  }

  /** A printed value: one line of text without surrounding blanks. */
  predicate PrintedValue(v: string) {
    v != [] && !IsSpace(v[0]) && !IsSpace(v[|v| - 1]) && '\n' !in v
  }

  predicate GoodItems(items: seq<(string, string)>) {
    forall i :: 0 <= i < |items| ==> BareKey(items[i].0) && PrintedValue(items[i].1)
  }

  lemma {:induction false} EqualsAfter(k: string, rest: string)
    requires forall i :: 0 <= i < |k| ==> k[i] != '='
    ensures EqualsAt(k + "=" + rest) == |k|
  {
    var l := k + "=" + rest;
    if k == [] {
    } else {
      assert l[1..] == k[1..] + "=" + rest;
      EqualsAfter(k[1..], rest);
    }
  }

  lemma TrimBlankEnd(s: string)
    requires s != [] && !IsSpace(s[0]) && !IsSpace(s[|s| - 1])
    ensures Trim(s) == s && Trim(s + " ") == s && Trim(" " + s) == s
  {
    StripIdentity(s, IsSpace);
    assert (s + " ")[..|s|] == s && StripLeft(s + " ", IsSpace) == s + " ";
    assert StripRight(s, IsSpace) == s;
    assert (" " + s)[1..] == s && StripLeft(s, IsSpace) == s;
  }

  lemma BareKeyEnds(k: string)
    requires BareKey(k)
    ensures !IsSpace(k[0]) && !IsSpace(k[|k| - 1]) && k[0] != '[' && k[0] != '#'
    ensures forall i :: 0 <= i < |k| ==> k[i] != '=' && k[i] != '\n' && k[i] != '\r'
  {
    forall i | 0 <= i < |k| ensures k[i] != '=' && k[i] != '\n' && k[i] != '\r' && !IsSpace(k[i]) && k[i] != '['
        && k[i] != '#' {
      assert IsAsciiAlnum(k[i]) || k[i] == '_' || k[i] == '-';
    }
  }

  lemma KeySide(key: string)
    requires BareKey(key)
    ensures var left := key + " ";
            Trim(left) == key && !IsSpace(left[0]) && left[0] != '[' && left[0] != '#'
            && forall i :: 0 <= i < |left| ==> left[i] != '='
  {
    BareKeyEnds(key);
    hide BareKey, IsSpace;
    TrimBlankEnd(key);
    hide Trim;
  }

  lemma ValueSide(value: string)
    requires PrintedValue(value)
    ensures var right := " " + value;
            Trim(right) == value && !IsSpace(right[|right| - 1])
  {
    TrimBlankEnd(value);
    hide Trim, IsSpace;
  }

  /** A rendered item reads back as itself. */
  lemma RenderReads(item: (string, string))
    requires BareKey(item.0) && PrintedValue(item.1)
    ensures EntryOf(Render(item)) == Some(item) && !IsHeader(Render(item))
  {
    hide BareKey, PrintedValue, IsSpace, Trim, EntryOf, Render, IsHeader;
    KeySide(item.0);
    ValueSide(item.1);
    RenderSplits(item.0, item.1);
    SplitReads(item.0 + " ", " " + item.1);
  }

  lemma RenderSplits(key: string, value: string)
    ensures Render((key, value)) == (key + " ") + "=" + (" " + value)
  {
    assert " = " == " " + "=" + " ";
  }

  lemma StripsNothing(l: string)
    requires l != [] && !IsSpace(l[0]) && !IsSpace(l[|l| - 1])
    ensures Trim(l) == l
  {
    hide IsSpace;
    StripIdentity(l, IsSpace);
    hide Strip;
  }

  lemma SplitReads(left: string, right: string)
    requires left != [] && !IsSpace(left[0]) && left[0] != '[' && left[0] != '#'
    requires right != [] && !IsSpace(right[|right| - 1])
    requires forall i :: 0 <= i < |left| ==> left[i] != '='
    ensures EntryOf(left + "=" + right) == Some((Trim(left), Trim(right))) && !IsHeader(left + "=" + right)
  {
    var l := left + "=" + right;
    assert !IsHeader(l) && l[0] != '#';
    hide EqualsAt, Strip, IsSpace, IsHeader;
    EqualsAfter(left, right);
    StripsNothing(l);
    hide Trim;
    assert l[..|left|] == left && l[|left| + 1..] == right;
  }

  lemma RenderOneLine(item: (string, string))
    requires BareKey(item.0) && PrintedValue(item.1)
    ensures OneLine(Render(item))
  {
    BareKeyEnds(item.0);
    assert !IsSpace(item.1[|item.1| - 1]) ==> item.1[|item.1| - 1] != '\r';
    hide BareKey, IsSpace;
    assert '\n' !in item.0 && '\n' !in " = " && '\n' !in item.1;
  }

  lemma {:induction false} RenderedEntries(items: seq<(string, string)>, current: string, header: string)
    requires GoodItems(items)
    ensures EntriesFrom(RenderAll(items), current, header) == if current == header then items else []
    ensures SectionAfter(RenderAll(items), current) == current
  {
    hide EntryOf, Render, BareKey, PrintedValue, IsHeader;
    if items == [] {
    } else {
      RenderReads(items[0]);
      RenderedEntries(items[1..], current, header);
      assert RenderAll(items) == [Render(items[0])] + RenderAll(items[1..]);
      assert RenderAll(items)[1..] == RenderAll(items[1..]);
      assert items == [items[0]] + items[1..];
    }
  }

  /** TOML forbids a second table of the same name. */
  ghost predicate OnceAtMost(lines: seq<string>, l: string) {
    multiset(lines)[l] <= 1
  }

  lemma {:induction false} NoEntries(lines: seq<string>, current: string, header: string)
    requires header !in lines && (current == header ==> lines == [] || IsHeader(lines[0]))
    ensures EntriesFrom(lines, current, header) == []
  {
    if lines == [] {
    } else {
      NoEntries(lines[1..], if IsHeader(lines[0]) then lines[0] else current, header);
    }
  }

  lemma {:induction false} SectionAfterHeader(lines: seq<string>, start: nat, current: string)
    requires start < |lines| && IsHeader(lines[start])
    requires forall i :: start < i < |lines| ==> !IsHeader(lines[i])
    ensures SectionAfter(lines, current) == lines[start]
  {
    if start == 0 {
      KeepsSection(lines[1..], lines[0]);
    } else {
      SectionAfterHeader(lines[1..], start - 1, if IsHeader(lines[0]) then lines[0] else current);
    }
  }

  lemma {:induction false} KeepsSection(lines: seq<string>, current: string)
    requires forall i :: 0 <= i < |lines| ==> !IsHeader(lines[i])
    ensures SectionAfter(lines, current) == current
  {
    if lines == [] {
    } else {
      KeepsSection(lines[1..], current);
    }
  }

  /** One insertion appends the missing items to its own section and leaves every other section, and
      every entry of its own, as a reader saw them. */
  lemma InsertedReads(lines: seq<string>, section: string, missing: seq<(string, string)>, header: string)
    requires GoodItems(missing) && OnceAtMost(lines, HeaderOf(section)) && header != ""
    ensures EntriesFrom(Inserted(lines, section, missing), "", header)
            == EntriesFrom(lines, "", header) + if header == HeaderOf(section) then missing else []
  {
    var own := HeaderOf(section);
    if missing != [] {
      match IndexOf(lines, own)
      case None =>
        InsertedAtEnd(lines, own, missing, header);
      case Some(start) =>
        InsertedInside(lines, start, SectionEnd(lines, start + 1), missing, header);
    }
  }

  lemma InsertedAtEnd(lines: seq<string>, own: string, missing: seq<(string, string)>, header: string)
    requires GoodItems(missing) && IsHeader(own)
    ensures EntriesFrom(lines + (if lines != [] && lines[|lines| - 1] != "" then [""] else [])
                        + [own] + RenderAll(missing),
                        "", header)
            == EntriesFrom(lines, "", header) + if header == own then missing else []
  {
    var gap := if lines != [] && lines[|lines| - 1] != "" then [""] else [];
    hide GoodItems, EntriesFrom, RenderAll, SectionAfter;
    EntriesAppend(lines, gap, "", header);
    assert EntriesFrom(lines + gap, "", header) == EntriesFrom(lines, "", header) by {
      GapReads(gap, SectionAfter(lines, ""), header);
    }
    OpensSection(lines + gap, own, missing, header);
    assert lines + gap + [own] + RenderAll(missing) == lines + gap + ([own] + RenderAll(missing));
  }

  lemma InsertedInside(lines: seq<string>, start: nat, end: nat, missing: seq<(string, string)>, header: string)
    requires GoodItems(missing) && start < end <= |lines| && IsHeader(lines[start]) && OnceAtMost(lines, lines[start])
    requires forall i :: start < i < end ==> !IsHeader(lines[i])
    requires end < |lines| ==> IsHeader(lines[end])
    ensures EntriesFrom(lines[..end] + RenderAll(missing) + lines[end..], "", header)
            == EntriesFrom(lines, "", header) + if header == lines[start] then missing else []
  {
    hide GoodItems, EntriesFrom, RenderAll, SectionAfter, EntryOf;
    var own, items := lines[start], RenderAll(missing);
    var a, b := lines[..end], lines[end..];
    SectionAfterHeader(a, start, "");
    assert lines == a + b;
    if header == own {
      OnlyOnce(a, b, start);
      NoEntries(b, own, own);
    }
    hide OnceAtMost, IsHeader;
    EntriesAppend(a, b, "", header);
    EntriesAppend(a, items, "", header);
    SectionAppend(a, items, "");
    EntriesAppend(a + items, b, "", header);
    RenderedEntries(missing, own, header);
  }

  lemma OnlyOnce(a: seq<string>, b: seq<string>, start: nat)
    requires start < |a| && OnceAtMost(a + b, a[start])
    ensures a[start] !in b
  {
    var h := a[start];
    assert h in multiset(a);
    assert multiset(a + b)[h] == multiset(a)[h] + multiset(b)[h];
    assert h !in multiset(b);
  }

  lemma GapReads(gap: seq<string>, current: string, header: string)
    requires gap == [] || gap == [""]
    ensures EntriesFrom(gap, current, header) == [] && SectionAfter(gap, current) == current
  {
    if gap == [""] {
      assert gap[1..] == [];
      assert EqualsAt("") == 0;
      hide Strip;
    }
  }

  /** A new section at the end. */
  lemma OpensSection(lines: seq<string>, own: string, missing: seq<(string, string)>, header: string)
    requires GoodItems(missing) && IsHeader(own)
    ensures EntriesFrom(lines + ([own] + RenderAll(missing)), "", header)
            == EntriesFrom(lines, "", header) + if header == own then missing else []
  {
    var items := RenderAll(missing);
    EntriesAppend(lines, [own] + items, "", header);
    assert ([own] + items)[1..] == items;
    RenderedEntries(missing, own, header);
  }
}

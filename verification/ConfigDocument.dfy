/** Printing tables of typed values as a configuration document, and reading them back. */
module ConfigDocument {
  import opened Wrappers
  import opened FileNames
  import opened Decimal
  import opened Toml
  import opened ConfigFile
  import opened ConfigUpgrade

  /** A setting. A float is kept as the literal Python prints for it. */
  datatype Setting =
    | Text(text: string)
    | Location(path: string)
    | Whole(number: int)
    | Real(literal: string)
    | Flag(on: bool)

  datatype Kind = TextKind | LocationKind | WholeKind | RealKind | FlagKind

  /** One key of a section; a key without a fallback is required. */
  datatype Field = Field(key: string, kind: Kind, fallback: Option<Setting>)

  datatype Group = Group(section: string, fields: seq<Field>)

  function KindOf(v: Setting): Kind {
    match v
    case Text(_) => TextKind
    case Location(_) => LocationKind
    case Whole(_) => WholeKind
    case Real(_) => RealKind
    case Flag(_) => FlagKind
  }

  // ----- printing -----

  function PrintWhole(n: int): string {
    if n < 0 then "-" + Print(-n) else Print(n)
  }

  function Printed(v: Setting): string {
    match v
    case Text(s) => Quote(s)
    case Location(p) => Quote(p)
    case Whole(n) => PrintWhole(n)
    case Real(l) => l
    case Flag(on) => if on then "true" else "false"
  }

  function PrintItems(fields: seq<Field>, values: seq<Setting>): (r: seq<(string, string)>)
    requires |fields| == |values|
    ensures |r| == |fields|
    ensures forall i {:trigger r[i]} :: 0 <= i < |fields| ==> r[i] == (fields[i].key, Printed(values[i]))
  {
    if fields == [] then [] else [(fields[0].key, Printed(values[0]))] + PrintItems(fields[1..], values[1..])
  }

  predicate Shaped(groups: seq<Group>, values: seq<seq<Setting>>) {
    |groups| == |values| && forall g :: 0 <= g < |groups| ==> |groups[g].fields| == |values[g]|
  }

  function PrintTables(groups: seq<Group>, values: seq<seq<Setting>>): (r: seq<Table>)
    requires Shaped(groups, values)
    ensures |r| == |groups|
    ensures forall g {:trigger r[g]} :: 0 <= g < |groups| ==>
              r[g] == Table(groups[g].section, PrintItems(groups[g].fields, values[g]))
  {
    if groups == [] then []
    else [Table(groups[0].section, PrintItems(groups[0].fields, values[0]))] + PrintTables(groups[1..], values[1..])
  }

  /** The header, the items and a blank line of each of the first n tables. */
  function DocLines(tables: seq<Table>, n: nat): seq<string>
    requires n <= |tables|
  {
    if n == 0 then []
    else DocLines(tables, n - 1) + ([HeaderOf(tables[n - 1].section)] + RenderAll(tables[n - 1].items)) + [""]
  }

  function Serialize(tables: seq<Table>): string {
    Join(DocLines(tables, |tables|))
  }

  // ----- reading -----

  function Unsigned(s: string): string {
    if s != [] && (s[0] == '-' || s[0] == '+') then s[1..] else s
  }

  function ReadWhole(s: string): Option<int> {
    var digits := Unsigned(s);
    if digits == [] || !AllDigits(digits) || (digits[0] == '0' && |digits| > 1) then None
    else
      var n: int := Value(digits);
      Some(if s[0] == '-' then -n else n)
  }

  /** How many digits a text starts with. */
  function DigitSpan(s: string): (n: nat)
    ensures n <= |s| && AllDigits(s[..n])
  {
    if s == [] || !IsDigit(s[0]) then 0 else 1 + DigitSpan(s[1..])
  }

  predicate Exponent(s: string) {
    s == [] || ((s[0] == 'e' || s[0] == 'E') && Unsigned(s[1..]) != [] && AllDigits(Unsigned(s[1..])))
  }

  predicate Fraction(s: string) {
    if s != [] && s[0] == '.' then
      var n := DigitSpan(s[1..]);
      n > 0 && Exponent(s[1..][n..])
    else Exponent(s)
  }

  predicate Numeral(body: string) {
    var n := DigitSpan(body);
    n > 0 && (body[0] != '0' || n == 1) && Fraction(body[n..])
  }

  /** The numbers a float setting takes: an optional sign, then inf, nan, or an integer part without leading
      zeros, an optional fraction and an optional exponent. */
  predicate RealLiteral(s: string) {
    Unsigned(s) == "inf" || Unsigned(s) == "nan" || Numeral(Unsigned(s))
  }

  predicate RealChar(c: char) {
    IsDigit(c) || c in ".+-eEinfa"
  }

  predicate RealChars(s: string) {
    forall i :: 0 <= i < |s| ==> RealChar(s[i])
  }

  lemma DigitsAreReal(s: string)
    requires AllDigits(s)
    ensures RealChars(s)
  {
  }

  lemma UnsignedReal(s: string)
    requires RealChars(Unsigned(s))
    ensures RealChars(s)
  {
    if Unsigned(s) != s {
      assert RealChar(s[0]) && forall i :: 1 <= i < |s| ==> s[i] == Unsigned(s)[i - 1];
    }
  }

  lemma ExponentReal(s: string)
    requires Exponent(s)
    ensures RealChars(s)
  {
    if s != [] {
      DigitsAreReal(Unsigned(s[1..]));
      UnsignedReal(s[1..]);
      assert RealChar(s[0]) && forall i :: 1 <= i < |s| ==> s[i] == s[1..][i - 1];
    }
  }

  lemma RealJoin(a: string, b: string)
    requires RealChars(a) && RealChars(b)
    ensures RealChars(a + b)
  {
  }

  lemma FractionReal(s: string)
    requires Fraction(s)
    ensures RealChars(s)
  {
    if s != [] && s[0] == '.' {
      var t, n := s[1..], DigitSpan(s[1..]);
      DigitsAreReal(t[..n]);
      ExponentReal(t[n..]);
      hide RealChars, Exponent;
      RealJoin(t[..n], t[n..]);
      assert s == "." + (t[..n] + t[n..]);
      assert RealChars(".") by { assert RealChar('.'); }
      RealJoin(".", t[..n] + t[n..]);
    } else {
      ExponentReal(s);
    }
  }

  lemma NumberReal(s: string, n: nat)
    requires n <= |s| && AllDigits(s[..n]) && Fraction(s[n..])
    ensures RealChars(s)
  {
    DigitsAreReal(s[..n]);
    FractionReal(s[n..]);
    hide RealChars, Fraction;
    RealJoin(s[..n], s[n..]);
    assert s == s[..n] + s[n..];
  }

  /** A float literal is not empty and holds neither quotes nor line breaks. */
  lemma RealLiteralChars(s: string)
    requires RealLiteral(s)
    ensures s != [] && RealChars(s)
  {
    hide Fraction;
    var body := Unsigned(s);
    if body == "inf" || body == "nan" {
      assert RealChar('i') && RealChar('n') && RealChar('f') && RealChar('a');
    } else {
      NumberReal(body, DigitSpan(body));
    }
    UnsignedReal(s);
    hide RealChars;
  }

  function SegmentEnd(p: string): (n: nat)
    ensures n <= |p|
  {
    if p == [] || p[0] == '/' then 0 else 1 + SegmentEnd(p[1..])
  }

  /** expanduser: a first segment that starts with a tilde is replaced by a home directory; without one
      there is an error. */
  function ExpandUser(p: string, homes: map<string, string>): Option<string> {
    if p == [] || p[0] != '~' then Some(p)
    else
      var n := SegmentEnd(p);
      if p[..n] !in homes || homes[p[..n]] == [] || homes[p[..n]][0] == '~' then None
      else Some(homes[p[..n]] + p[n..])
  }

  function Expanded(v: Setting, homes: map<string, string>): Option<Setting> {
    if v.Location? then
      (match ExpandUser(v.path, homes) case None => None case Some(p) => Some(Location(p)))
    else Some(v)
  }

  function ReadSetting(raw: string, kind: Kind, homes: map<string, string>): Option<Setting> {
    match kind
    case TextKind =>
      (match ReadBasic(raw)
       case Some((s, rest)) => if rest == [] then Some(Text(s)) else None
       case None => None)
    case LocationKind =>
      (match ReadBasic(raw)
       case Some((s, rest)) => if rest == [] then Expanded(Location(s), homes) else None
       case None => None)
    case WholeKind => (match ReadWhole(raw) case Some(n) => Some(Whole(n)) case None => None)
    case RealKind => if RealLiteral(raw) then Some(Real(raw)) else None
    case FlagKind => if raw == "true" then Some(Flag(true)) else if raw == "false" then Some(Flag(false)) else None
  }

  function ReadField(entries: seq<(string, string)>, f: Field, homes: map<string, string>): Option<Setting> {
    match Lookup(entries, f.key)
    case Some(raw) => ReadSetting(raw, f.kind, homes)
    case None => (match f.fallback case None => None case Some(v) => Expanded(v, homes))
  }

  function ReadFields(entries: seq<(string, string)>, fields: seq<Field>, homes: map<string, string>)
    : Option<seq<Setting>>
  {
    if fields == [] then Some([])
    else
      match (ReadField(entries, fields[0], homes), ReadFields(entries, fields[1..], homes))
      case (Some(v), Some(rest)) => Some([v] + rest)
      case _ => None
  }

  function ReadGroups(lines: seq<string>, groups: seq<Group>, homes: map<string, string>): Option<seq<seq<Setting>>>
  {
    if groups == [] then Some([])
    else
      match (ReadFields(EntriesFrom(lines, "", HeaderOf(groups[0].section)), groups[0].fields, homes),
             ReadGroups(lines, groups[1..], homes))
      case (Some(v), Some(rest)) => Some([v] + rest)
      case _ => None
  }

  lemma {:induction false} ReadFieldsExact(entries: seq<(string, string)>, fields: seq<Field>,
                                           homes: map<string, string>, values: seq<Setting>)
    requires |values| == |fields|
    ensures ReadFields(entries, fields, homes) == Some(values)
            <==> forall i {:trigger values[i]} :: 0 <= i < |fields| ==>
                ReadField(entries, fields[i], homes) == Some(values[i])
  {
    hide ReadField;
    if fields == [] {
    } else {
      ReadFieldsExact(entries, fields[1..], homes, values[1..]);
      assert values == [values[0]] + values[1..];
      assert forall i {:trigger values[i]} :: 1 <= i < |fields| ==>
          fields[1..][i - 1] == fields[i] && values[1..][i - 1] == values[i];
    }
  }

  ghost predicate GroupReads(lines: seq<string>, group: Group, homes: map<string, string>, values: seq<Setting>)
    requires |values| == |group.fields|
  {
    forall i {:trigger values[i]} :: 0 <= i < |values| ==>
      ReadField(EntriesFrom(lines, "", HeaderOf(group.section)), group.fields[i], homes) == Some(values[i])
  }

  lemma {:induction false} ReadGroupsExact(lines: seq<string>, groups: seq<Group>, homes: map<string, string>,
                                           values: seq<seq<Setting>>)
    requires Shaped(groups, values)
    ensures ReadGroups(lines, groups, homes) == Some(values)
            <==> forall g :: 0 <= g < |groups| ==> GroupReads(lines, groups[g], homes, values[g])
  {
    hide ReadField, EntriesFrom, HeaderOf;
    if groups == [] {
    } else {
      ReadFieldsExact(EntriesFrom(lines, "", HeaderOf(groups[0].section)), groups[0].fields, homes, values[0]);
      ReadGroupsExact(lines, groups[1..], homes, values[1..]);
      assert values == [values[0]] + values[1..];
      hide ReadFields;
      assert forall g {:trigger values[g]} :: 1 <= g < |groups| ==>
          groups[1..][g - 1] == groups[g] && values[1..][g - 1] == values[g];
      hide GroupReads;
    }
  }

  // ----- what a reader accepts -----

  lemma NumeralRead(n: nat)
    ensures ReadWhole(Print(n)) == Some(n) && ReadWhole("+" + Print(n)) == Some(n)
    ensures ReadWhole("-" + Print(n)) == Some(0 - n)
    ensures PrintWhole(n) == Print(n) && (n > 0 ==> PrintWhole(0 - n) == "-" + Print(n))
  {
    var d := Print(n);
    PrintValue(n);
    hide Print, Value;
    assert IsDigit(d[0]);
    assert Unsigned(d) == d && Unsigned("+" + d) == d && Unsigned("-" + d) == d;
  }

  lemma NumeralOnly(s: string)
    requires ReadWhole(s).Some?
    ensures var n := ReadWhole(s).value;
            || (n >= 0 && (s == Print(n) || s == "+" + Print(n)))
            || (n <= 0 && s == "-" + Print(-n))
  {
    ValuePrint(Unsigned(s));
    hide Print, Value;
    assert s == Unsigned(s) || s == [s[0]] + Unsigned(s);
  }

  /** The whole numbers of a file: a numeral without leading zeros, with or without a sign. */
  lemma WholeExact(s: string, n: int)
    ensures ReadWhole(s) == Some(n)
            <==> || (n >= 0 && (s == Print(n) || s == "+" + Print(n)))
                 || (n <= 0 && s == "-" + Print(-n))
  {
    hide ReadWhole, Print;
    NumeralRead(if n >= 0 then n else -n);
    if ReadWhole(s).Some? {
      NumeralOnly(s);
    }
  }

  /** Digits behind an optional sign. */
  predicate SignedDigits(s: string) {
    s != "" && AllDigits(s[1..]) && (IsDigit(s[0]) || (|s| > 1 && (s[0] == '-' || s[0] == '+')))
  }

  lemma SignedExact(s: string)
    ensures Unsigned(s) != [] && AllDigits(Unsigned(s)) <==> SignedDigits(s)
  {
    if s != [] {
      assert AllDigits(s) <==> IsDigit(s[0]) && AllDigits(s[1..]) by {
        if AllDigits(s) {
          assert forall i :: 0 <= i < |s[1..]| ==> s[1..][i] == s[i + 1];
        }
        if IsDigit(s[0]) && AllDigits(s[1..]) {
          assert forall i :: 1 <= i < |s| ==> s[i] == s[1..][i - 1];
        }
      }
    }
  }

  /** A fraction and an exponent, either of them empty. */
  ghost predicate Tail(t: string, fraction: string, exponent: string) {
    && t == fraction + exponent
    && (fraction == "" || (|fraction| > 1 && fraction[0] == '.' && AllDigits(fraction[1..])))
    && (exponent == "" || (exponent[0] in "eE" && SignedDigits(exponent[1..])))
  }

  /** The parts of a number: digits without leading zeros, and what follows them. */
  ghost predicate Parts(s: string, whole: string, fraction: string, exponent: string) {
    && whole != "" && AllDigits(whole) && (whole[0] == '0' ==> |whole| == 1)
    && s == whole + (fraction + exponent) && Tail(fraction + exponent, fraction, exponent)
  }

  lemma ExponentExact(x: string)
    ensures Exponent(x) <==> x == "" || (x[0] in "eE" && SignedDigits(x[1..]))
  {
    if x != "" {
      SignedExact(x[1..]);
    }
  }

  lemma {:induction false} DigitSpanExact(d: string, rest: string)
    requires AllDigits(d) && (rest == "" || !IsDigit(rest[0]))
    ensures DigitSpan(d + rest) == |d|
  {
    if d == "" {
      assert d + rest == rest;
    } else {
      assert (d + rest)[1..] == d[1..] + rest;
      DigitSpanExact(d[1..], rest);
    }
  }

  lemma FractionTail(t: string)
    requires Fraction(t)
    ensures exists f, x :: Tail(t, f, x)
  {
    if t != "" && t[0] == '.' {
      var n := DigitSpan(t[1..]);
      var f, x := t[..n + 1], t[n + 1..];
      assert f[1..] == t[1..][..n] && x == t[1..][n..];
      ExponentExact(x);
      assert Tail(t, f, x);
    } else {
      ExponentExact(t);
      assert Tail(t, "", t);
    }
  }

  lemma TailFraction(t: string, fraction: string, exponent: string)
    requires Tail(t, fraction, exponent)
    ensures Fraction(t)
    ensures t == "" || !IsDigit(t[0])
  {
    ExponentExact(exponent);
    if fraction == "" {
      assert t == exponent;
    } else {
      assert t[1..] == fraction[1..] + exponent;
      DigitSpanExact(fraction[1..], exponent);
      assert t[1..][|fraction| - 1..] == exponent;
    }
  }

  lemma JoinedNumeral(w: string, t: string)
    requires w != "" && AllDigits(w) && (w[0] == '0' ==> |w| == 1)
    requires Fraction(t) && (t == "" || !IsDigit(t[0]))
    ensures Numeral(w + t)
  {
    hide Fraction;
    DigitSpanExact(w, t);
    hide DigitSpan;
    assert (w + t)[0] == w[0] && (w + t)[|w|..] == t;
  }

  lemma PartsNumeral(body: string, w: string, f: string, x: string)
    requires Parts(body, w, f, x)
    ensures Numeral(body)
  {
    TailFraction(f + x, f, x);
    hide Fraction, Tail, Numeral;
    JoinedNumeral(w, f + x);
  }

  lemma NumeralParts(body: string)
    requires Numeral(body)
    ensures exists w, f, x :: Parts(body, w, f, x)
  {
    var n := DigitSpan(body);
    var w, t := body[..n], body[n..];
    assert body == w + t;
    FractionTail(t);
    hide Fraction, DigitSpan, AllDigits;
    var f, x :| Tail(t, f, x);
    assert t == f + x;
    hide Tail;
    assert Parts(body, w, f, x);
  }

  /** Exactly these are the numbers a float setting takes. */
  lemma RealExact(s: string)
    ensures RealLiteral(s) <==>
              || Unsigned(s) == "inf" || Unsigned(s) == "nan"
              || exists w, f, x :: Parts(Unsigned(s), w, f, x)
  {
    var body := Unsigned(s);
    hide Parts, Numeral, Unsigned;
    if w, f, x :| Parts(body, w, f, x) {
      PartsNumeral(body, w, f, x);
    }
    if Numeral(body) {
      NumeralParts(body);
    }
  }

  /** A path that starts with a tilde: its first segment is replaced by that user's home directory. */
  lemma TildeExact(name: string, rest: string, homes: map<string, string>)
    requires forall i :: 0 <= i < |name| ==> name[i] != '/'
    requires rest == "" || rest[0] == '/'
    ensures ExpandUser("~" + name + rest, homes)
            == (if "~" + name in homes && homes["~" + name] != "" && homes["~" + name][0] != '~'
                then Some(homes["~" + name] + rest) else None)
  {
    SegmentOf("~" + name, rest);
    var p := "~" + name + rest;
    assert p[..|name| + 1] == "~" + name && p[|name| + 1..] == rest;
  }

  lemma {:induction false} SegmentOf(s: string, rest: string)
    requires forall i :: 0 <= i < |s| ==> s[i] != '/'
    requires rest == "" || rest[0] == '/'
    ensures SegmentEnd(s + rest) == |s|
  {
    if s == "" {
      assert s + rest == rest;
    } else {
      assert (s + rest)[1..] == s[1..] + rest;
      SegmentOf(s[1..], rest);
    }
  }

  // ----- one value -----

  /** Settings a reader can recover: text without control characters other than tab, and a path that
      in addition does not start with a tilde. */
  predicate Recoverable(v: Setting) {
    match v
    case Text(s) => forall i :: 0 <= i < |s| ==> !Illegal(s[i])
    case Location(p) => (forall i :: 0 <= i < |p| ==> !Illegal(p[i])) && (p == [] || p[0] != '~')
    case _ => true
  }

  predicate Printable(v: Setting) {
    v.Real? ==> RealLiteral(v.literal)
  }

  lemma WholeRoundTrip(n: int)
    ensures ReadWhole(PrintWhole(n)) == Some(n)
  {
    hide Print, Value;
    if n < 0 {
      PrintValue(-n);
      assert Unsigned(PrintWhole(n)) == Print(-n);
    } else {
      PrintValue(n);
      assert IsDigit(Print(n)[0]);
      assert Unsigned(PrintWhole(n)) == Print(n);
    }
  }

  lemma ExpandKeeps(p: string, homes: map<string, string>)
    ensures ExpandUser(p, homes) == Some(p) <==> p == [] || p[0] != '~'
  {
    hide SegmentEnd;
  }

  /** A printed setting reads back as itself exactly when it is recoverable. */
  lemma SettingRoundTrip(v: Setting, homes: map<string, string>)
    requires Printable(v)
    ensures ReadSetting(Printed(v), KindOf(v), homes) == Some(v) <==> Recoverable(v)
  {
    hide Quote, ReadBasic, ExpandUser, Illegal, RealLiteral, PrintWhole, ReadWhole;
    match v
    case Text(s) => QuoteReads(s);
    case Location(p) =>
      QuoteReads(p);
      ExpandKeeps(p, homes);
    case Whole(n) => WholeRoundTrip(n);
    case _ =>
  }

  lemma QuoteReads(s: string)
    ensures ReadBasic(Quote(s)) == if forall i :: 0 <= i < |s| ==> !Illegal(s[i]) then Some((s, "")) else None
  {
    QuoteRoundTrip(s);
    hide Quote, ReadBasic, Illegal;
  }
}

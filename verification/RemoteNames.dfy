/** The name a delivery gets on the device, from which its id can be read back. */
module RemoteNames {
  import opened Wrappers
  import opened FileNames
  import opened Decimal

  const REMOTE_ROOT := "/sdcard/Download/TikTokManager"
  const MAX_STEM := 180

  /** str.isalnum for one character: ASCII letters and digits, and whatever Unicode adds beyond ASCII. */
  predicate IsAlnum(c: char, beyond: set<char>) {
    IsAsciiAlnum(c) || (c >= '\U{80}' && c in beyond)
  }

  /** Position of the last occurrence of c, or the length. */
  function LastIndex(s: string, c: char): (n: nat)
    ensures n <= |s| && (n < |s| ==> s[n] == c)
    ensures forall i :: 0 <= i < |s| && (n == |s| || n < i) ==> s[i] != c
  {
    if s == [] then 0
    else
      var last := |s| - 1;
      if s[last] == c then last
      else
        var n := LastIndex(s[..last], c);
        if n == last then |s| else n
  }

  /** The stem of a path's last component. */
  function Stem(name: string): string {
    var n := LastIndex(name, '.');
    if 0 < n && n + 1 < |name| then name[..n] else name
  }

  function DefaultName(id: nat, extension: string): string {
    "content-" + Print(id) + "." + extension
  }

  /** None stands for CONTENT_REMOTE_FILENAME_INVALID. */
  function RemoteFilename(id: nat, requested: Option<string>, extension: string, beyond: set<char>): Option<string> {
    var canonical := StripLeft(extension, IsDot);
    if canonical == [] || exists i :: 0 <= i < |canonical| && !IsAlnum(canonical[i], beyond) then None
    else
      match NormalizeFilename(if requested.Some?
          && requested.value != "" then requested.value else DefaultName(id, canonical))
      case None => None
      case Some(safe) =>
        var cut := Take(Stem(safe), MAX_STEM);
        var stem := if cut == [] then "content" else cut;
        Some(stem + "-d" + Print(id) + "." + canonical)
  }

  function RemotePath(name: string): string {
    REMOTE_ROOT + "/" + name
  }

  lemma PathExact(name: string)
    ensures RemotePath(name) == "/sdcard/Download/TikTokManager/" + name
  {
    assert REMOTE_ROOT + "/" == "/sdcard/Download/TikTokManager/";
  }

  // ----- reading the id back -----

  /** Length of the digits at the end. */
  function DigitsAtEnd(s: string): (n: nat)
    ensures n <= |s| && forall i :: |s| - n <= i < |s| ==> IsDigit(s[i])
    ensures n < |s| ==> !IsDigit(s[|s| - n - 1])
  {
    if s == [] || !IsDigit(s[|s| - 1]) then 0 else 1 + DigitsAtEnd(s[..|s| - 1])
  }

  /** What an operator can do with a name alone: the number before the last dot. */
  function ReadId(name: string): nat {
    var base := name[..LastIndex(name, '.')];
    Value(base[|base| - DigitsAtEnd(base)..])
  }

  lemma {:induction false} LastIndexOf(a: string, c: char, b: string)
    requires c !in b
    ensures LastIndex(a + [c] + b, c) == |a|
  {
    var s := a + [c] + b;
    assert s[|a|] == c;
    assert forall i :: |a| < i < |s| ==> s[i] == b[i - |a| - 1];
  }

  lemma {:induction false} DigitsAtEndOf(a: string, digits: string)
    requires a != [] && !IsDigit(a[|a| - 1]) && AllDigits(digits)
    ensures DigitsAtEnd(a + digits) == |digits|
  {
    var s := a + digits;
    if digits == [] {
      assert s == a;
    } else {
      var d := digits[..|digits| - 1];
      assert s[..|s| - 1] == a + d;
      DigitsAtEndOf(a, d);
    }
  }

  /** The shape of every remote name: something, the id, the extension. */
  lemma RemoteShape(id: nat, requested: Option<string>, extension: string, beyond: set<char>) returns (stem: string)
    requires RemoteFilename(id, requested, extension, beyond).Some?
    ensures var canonical := StripLeft(extension, IsDot);
            && RemoteFilename(id, requested, extension, beyond).value == stem + "-d" + Print(id) + "." + canonical
            && canonical != [] && (forall i :: 0 <= i < |canonical| ==> IsAlnum(canonical[i], beyond))
    ensures 0 < |stem| <= MAX_STEM && AllSafe(stem) && stem[0] != '.'
  {
    hide StripLeft, NormalizeFilename, Print, IsAlnum;
    var canonical := StripLeft(extension, IsDot);
    var name := if requested.Some? && requested.value != "" then requested.value else DefaultName(id, canonical);
    NormalizedShape(name);
    var safe := NormalizeFilename(name).value;
    StemShape(safe);
    stem := Take(Stem(safe), MAX_STEM);
  }

  /** The stem ends before the last dot, unless that dot is the first or the last character. */
  lemma StemExact(name: string)
    ensures Stem(name) <= name
    ensures var rest := name[|Stem(name)|..];
            if rest != "" then Stem(name) != "" && |rest| > 1 && rest[0] == '.' && '.' !in rest[1..]
            else forall i :: 0 < i < |name| - 1 && name[i] == '.' ==> name[|name| - 1] == '.'
  {
  }

  /** Where the name comes from: the requested one, or else a default, normalized; of its stem the first 180
      characters, then the id and the extension. It is refused exactly if the extension is not alphanumeric or
      the name cannot be normalized. */
  lemma RemoteExact(id: nat, requested: Option<string>, extension: string, beyond: set<char>)
    ensures var canonical, name := StripLeft(extension, IsDot), RemoteFilename(id, requested, extension, beyond);
            var wanted := match requested
                          case None => "content-" + Print(id) + "." + canonical
                          case Some(text) => if text == "" then "content-" + Print(id) + "." + canonical else text;
            var safe := NormalizeFilename(wanted);
            && (name.Some? <==>
                  && canonical != "" && safe.Some?
                  && forall i :: 0 <= i < |canonical| ==>
                       || 'a' <= canonical[i] <= 'z' || 'A' <= canonical[i] <= 'Z' || '0' <= canonical[i] <= '9'
                       || (canonical[i] >= '\U{80}' && canonical[i] in beyond))
            && (name.Some? ==>
                  var stem := Stem(safe.value);
                  name.value == (if |stem| <= 180 then stem else stem[..180]) + "-d" + Print(id) + "." + canonical)
  {
    hide StripLeft, NormalizeFilename, Print, Stem;
    var canonical := StripLeft(extension, IsDot);
    var name := if requested.Some? && requested.value != "" then requested.value else DefaultName(id, canonical);
    if NormalizeFilename(name).Some? {
      NormalizedShape(name);
      StemShape(NormalizeFilename(name).value);
    }
  }

  /** The stem of a normalized name is never empty, so the fallback "content" is never used. */
  lemma StemShape(safe: string)
    requires safe != [] && AllSafe(safe) && safe[0] != '.'
    ensures Stem(safe) != [] && AllSafe(Stem(safe)) && Stem(safe)[0] == safe[0]
  {
    hide IsSafe;
  }

  /** The id can be read back from the name, whatever name was requested. */
  lemma IdRecoverable(id: nat, requested: Option<string>, extension: string, beyond: set<char>)
    ensures var name := RemoteFilename(id, requested, extension, beyond);
            name.Some? ==> ReadId(name.value) == id
  {
    hide RemoteFilename, StripLeft, ReadId, IsAlnum, Print, AllSafe;
    if RemoteFilename(id, requested, extension, beyond).Some? {
      var canonical := StripLeft(extension, IsDot);
      var stem := RemoteShape(id, requested, extension, beyond);
      NoDot(canonical, beyond);
      ReadBack(stem, Print(id), canonical);
      PrintValue(id);
    }
  }

  lemma NoDot(s: string, beyond: set<char>)
    requires forall i :: 0 <= i < |s| ==> IsAlnum(s[i], beyond)
    ensures '.' !in s
  {
    assert !IsAlnum('.', beyond);
    hide IsAlnum;
  }

  lemma ReadBack(stem: string, digits: string, canonical: string)
    requires AllDigits(digits) && '.' !in canonical
    ensures ReadId(stem + "-d" + digits + "." + canonical) == Value(digits)
  {
    var front := stem + "-d";
    var base := front + digits;
    var name := base + ['.'] + canonical;
    hide LastIndex, DigitsAtEnd, Value;
    LastIndexOf(base, '.', canonical);
    assert name[..|base|] == base;
    DigitsAtEndOf(front, digits);
    assert base[|front|..] == digits;
    assert name == stem + "-d" + digits + "." + canonical;
  }

  /** Two deliveries never share a path on the device. */
  lemma PathsDiffer(a: nat, b: nat, ra: Option<string>, rb: Option<string>, ea: string, eb: string, beyond: set<char>)
    ensures var x, y := RemoteFilename(a, ra, ea, beyond), RemoteFilename(b, rb, eb, beyond);
            x.Some? && y.Some? && a != b ==> RemotePath(x.value) != RemotePath(y.value)
  {
    hide RemoteFilename, ReadId;
    IdRecoverable(a, ra, ea, beyond);
    IdRecoverable(b, rb, eb, beyond);
    var x, y := RemoteFilename(a, ra, ea, beyond), RemoteFilename(b, rb, eb, beyond);
    if x.Some? && y.Some? {
      assert RemotePath(x.value)[|REMOTE_ROOT| + 1..] == x.value && RemotePath(y.value)[|REMOTE_ROOT| + 1..] == y.value;
    }
  }

  // ----- the pushed path is the recorded one -----

  /** Delivering normalizes the recorded name once more. That changes nothing exactly when the name is
      at most 255 characters long and its extension is ASCII. */
  lemma PushedExact(id: nat, requested: Option<string>, extension: string, beyond: set<char>)
    ensures var name := RemoteFilename(id, requested, extension, beyond);
            name.Some? ==>
              (NormalizeFilename(name.value) == name
               <==> |name.value| <= MAX_LENGTH && AllSafe(StripLeft(extension, IsDot)))
  {
    hide RemoteFilename, StripLeft, NormalizeFilename, Print, IsAlnum, AllSafe;
    if RemoteFilename(id, requested, extension, beyond).Some? {
      var name := RemoteFilename(id, requested, extension, beyond).value;
      var canonical := StripLeft(extension, IsDot);
      var stem := RemoteShape(id, requested, extension, beyond);
      SafeParts(stem, Print(id), canonical);
      NoDot(canonical, beyond);
      assert name[0] == stem[0] && name[|name| - 1] == canonical[|canonical| - 1];
      NormalizedShape(name);
      if |name| <= MAX_LENGTH && AllSafe(canonical) {
        NormalizeIdentity(name);
      }
    }
  }

  lemma SafeParts(stem: string, digits: string, canonical: string)
    requires AllSafe(stem) && AllDigits(digits)
    ensures AllSafe(stem + "-d" + digits + "." + canonical) <==> AllSafe(canonical)
  {
    var name := stem + "-d" + digits + "." + canonical;
    var n := |stem| + 2 + |digits| + 1;
    assert name[n..] == canonical;
    assert AllSafe("-d") && AllSafe(".") && AllSafe(digits);
    assert AllSafe(name[..n]) by {
      assert name[..n] == stem + "-d" + digits + ".";
    }
    forall i | 0 <= i < |canonical| ensures name[n + i] == canonical[i] {}
    if AllSafe(canonical) {
      forall i | 0 <= i < |name| ensures IsSafe(name[i]) {
        if i < n { assert name[i] == name[..n][i]; } else { assert name[i] == canonical[i - n]; }
      }
    }
    if AllSafe(name) {
      forall i | 0 <= i < |canonical| ensures IsSafe(canonical[i]) {
        assert IsSafe(name[n + i]);
      }
    }
  }

  /** Extensions of at most nine characters, as the database stores them, leave room for any id of up to
      63 digits. */
  lemma ShortEnough(id: nat, requested: Option<string>, extension: string, beyond: set<char>)
    requires |StripLeft(extension, IsDot)| <= 9 && |Print(id)| <= 63 && AllSafe(StripLeft(extension, IsDot))
    ensures var name := RemoteFilename(id, requested, extension, beyond);
            name.Some? ==> NormalizeFilename(name.value) == name
  {
    hide RemoteFilename, StripLeft, NormalizeFilename, Print, IsAlnum, AllSafe;
    PushedExact(id, requested, extension, beyond);
    if RemoteFilename(id, requested, extension, beyond).Some? {
      var stem := RemoteShape(id, requested, extension, beyond);
    }
  }
}

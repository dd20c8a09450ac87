/** Safe display filenames, as device automation and content delivery both use them.
    Input strings are taken after NFKC normalization, which is the identity on ASCII. */
module FileNames {
  import opened Wrappers

  const MAX_LENGTH := 255

  /** Python's whitespace: what str.strip removes. */
  predicate IsSpace(c: char) {
    || '\t' <= c <= '\r' || '\U{1c}' <= c <= ' ' || c == '\U{85}' || c == '\U{a0}' || c == '\U{1680}'
    || '\U{2000}' <= c <= '\U{200a}' || c == '\U{2028}' || c == '\U{2029}' || c == '\U{202f}'
    || c == '\U{205f}' || c == '\U{3000}'
  }

  predicate IsControl(c: char) {
    c < ' ' || c == '\U{7f}'
  }

  predicate IsAsciiAlnum(c: char) {
    'A' <= c <= 'Z' || 'a' <= c <= 'z' || '0' <= c <= '9'
  }

  predicate IsSafe(c: char) {
    IsAsciiAlnum(c) || c == '.' || c == '_' || c == '-'
  }

  predicate IsDot(c: char) {
    c == '.'
  }

  predicate AllSafe(s: string) {
    forall i :: 0 <= i < |s| ==> IsSafe(s[i])
  }

  function StripLeft(s: string, drop: char -> bool): (r: string)
    ensures |r| <= |s| && r == s[|s| - |r|..]
    ensures r != [] ==> !drop(r[0])
    ensures forall i :: 0 <= i < |s| - |r| ==> drop(s[i])
  {
    if s != [] && drop(s[0]) then StripLeft(s[1..], drop) else s
  }

  function StripRight(s: string, drop: char -> bool): (r: string)
    ensures |r| <= |s| && r == s[..|r|]
    ensures r != [] ==> !drop(r[|r| - 1])
    ensures forall i :: |r| <= i < |s| ==> drop(s[i])
  {
    if s != [] && drop(s[|s| - 1]) then StripRight(s[..|s| - 1], drop) else s
  }

  function Strip(s: string, drop: char -> bool): (r: string)
    ensures |r| <= |s|
    ensures r != [] ==> !drop(r[0]) && !drop(r[|r| - 1])
  {
    StripRight(StripLeft(s, drop), drop)
  }

  /** Every character outside [A-Za-z0-9._-] becomes an underscore. */
  function Substitute(s: string): (r: string)
    ensures |r| == |s|
    ensures forall i :: 0 <= i < |s| ==> r[i] == if IsSafe(s[i]) then s[i] else '_'
  {
    if s == [] then [] else [if IsSafe(s[0]) then s[0] else '_'] + Substitute(s[1..])
  }

  function Take(s: string, n: nat): string {
    if |s| <= n then s else s[..n]
  }

  predicate Rejected(s: string) {
    s == [] || s == "." || s == ".." || '/' in s || '\\' in s || exists i :: 0 <= i < |s| && IsControl(s[i])
  }

  function NormalizeFilename(filename: string): Option<string> {
    var normalized := Strip(filename, IsSpace);
    if Rejected(normalized) then None
    else
      var safe := Strip(Substitute(normalized), IsDot);
      if safe == [] then None else Some(Take(safe, MAX_LENGTH))
  }

  /** Stripping keeps the part between the first and the last character that stays. */
  lemma StripParts(s: string, drop: char -> bool) returns (skip: nat, kept: nat)
    ensures skip <= kept <= |s| && Strip(s, drop) == s[skip..kept]
    ensures (forall i :: 0 <= i < skip ==> drop(s[i])) && forall i :: kept <= i < |s| ==> drop(s[i])
    ensures skip < kept ==> !drop(s[skip]) && !drop(s[kept - 1])
  {
    var left := StripLeft(s, drop);
    skip := |s| - |left|;
    kept := skip + |StripRight(left, drop)|;
    assert forall i :: skip <= i < |s| ==> s[i] == left[i - skip];
  }

  predicate Harmless(s: string) {
    s != "" && forall i :: 0 <= i < |s| ==> s[i] != '/' && s[i] != '\\' && s[i] >= ' ' && s[i] != '\U{7f}'
  }

  lemma RejectedExact(s: string)
    requires exists i :: 0 <= i < |s| && s[i] != '.'
    ensures Rejected(s) <==> !Harmless(s)
  {
  }

  function SafeChar(c: char): char {
    if 'a' <= c <= 'z' || 'A' <= c <= 'Z' || '0' <= c <= '9' || c == '.' || c == '_' || c == '-' then c else '_'
  }

  /** What a name becomes. With the blanks around it gone, it must be harmless (not empty, without slashes,
      backslashes and control characters) and not made of dots alone; then every character but ASCII letters,
      digits, dot, underscore and hyphen turns into an underscore, the dots at both ends go, and the rest is cut
      to 255 characters. */
  lemma NormalizeExact(filename: string) returns (skip: nat, kept: nat)
    ensures var s, r := Strip(filename, IsSpace), NormalizeFilename(filename);
            && skip <= kept <= |s|
            && (forall i :: 0 <= i < skip ==> s[i] == '.') && (forall i :: kept <= i < |s| ==> s[i] == '.')
            && (skip < kept ==> s[skip] != '.' && s[kept - 1] != '.')
            && (r.Some? <==> Harmless(s) && skip < kept)
            && (r.Some? ==>
                  && |r.value| == (if kept - skip <= 255 then kept - skip else 255)
                  && forall i :: 0 <= i < |r.value| ==> r.value[i] == SafeChar(s[skip + i]))
  {
    hide Strip, Substitute, SafeChar, IsSpace, IsSafe, Rejected, Harmless, NormalizeFilename, Take;
    var s := Strip(filename, IsSpace);
    SubstituteExact(s);
    skip, kept := StripParts(Substitute(s), IsDot);
    if skip < kept {
      RejectedExact(s);
    }
    NormalizeCases(filename, skip, kept);
    CutExact(Substitute(s)[skip..kept]);
  }

  lemma SubstituteExact(s: string)
    ensures forall i :: 0 <= i < |s| ==>
              Substitute(s)[i] == SafeChar(s[i]) && (IsDot(Substitute(s)[i]) <==> s[i] == '.')
  {
  }

  lemma NormalizeCases(filename: string, skip: nat, kept: nat)
    requires var s := Strip(filename, IsSpace);
             skip <= kept <= |s| && Strip(Substitute(s), IsDot) == Substitute(s)[skip..kept]
    ensures var s := Strip(filename, IsSpace);
            NormalizeFilename(filename)
            == if Rejected(s) || skip == kept then None else Some(Take(Substitute(s)[skip..kept], MAX_LENGTH))
  {
    hide Strip, Substitute, Rejected, IsSpace, Take;
  }

  lemma CutExact(s: string)
    ensures |Take(s, MAX_LENGTH)| == (if |s| <= 255 then |s| else 255) && Take(s, MAX_LENGTH) <= s
  {
  }

  /** Whatever comes out is a short ASCII name without path syntax, whatever went in. */
  lemma NormalizedShape(filename: string)
    ensures NormalizeFilename(filename).Some? ==>
              var name := NormalizeFilename(filename).value;
              0 < |name| <= MAX_LENGTH && AllSafe(name) && name[0] != '.'
  {
    hide Strip, Substitute, Rejected, NormalizeFilename;
    NormalizeIs(filename);
    var safe := Strip(Substitute(Strip(filename, IsSpace)), IsDot);
    StripKeepsSafe(Substitute(Strip(filename, IsSpace)), IsDot);
    assert AllSafe(Take(safe, MAX_LENGTH));
  }

  lemma StripKeepsSafe(s: string, drop: char -> bool)
    requires AllSafe(s)
    ensures AllSafe(Strip(s, drop))
  {
  }

  lemma StripIdentity(s: string, drop: char -> bool)
    requires s != [] && !drop(s[0]) && !drop(s[|s| - 1])
    ensures Strip(s, drop) == s
  {
  }

  lemma SubstituteIdentity(s: string)
    requires AllSafe(s)
    ensures Substitute(s) == s
  {
  }

  /** A safe name that neither starts nor ends with a dot and needs no cut is its own normal form. */
  lemma NormalizeIdentity(s: string)
    requires 0 < |s| <= MAX_LENGTH && AllSafe(s) && s[0] != '.' && s[|s| - 1] != '.'
    ensures NormalizeFilename(s) == Some(s)
  {
    assert IsSafe(s[0]) && IsSafe(s[|s| - 1]);
    StripIdentity(s, IsSpace);
    assert '/' !in s && '\\' !in s by {
      forall i | 0 <= i < |s| ensures s[i] != '/' && s[i] != '\\' { assert IsSafe(s[i]); }
    }
    forall i | 0 <= i < |s| ensures !IsControl(s[i]) { assert IsSafe(s[i]); }
    assert !Rejected(s);
    SubstituteIdentity(s);
    StripIdentity(s, IsDot);
  }

  /** Normalizing twice changes a normalized name exactly when the cut at 255 characters left a
      trailing dot. */
  lemma NormalizeTwice(filename: string)
    ensures NormalizeFilename(filename).Some? ==>
              var once := NormalizeFilename(filename).value;
              once != [] && (NormalizeFilename(once) == Some(once) <==> once[|once| - 1] != '.')
  {
    hide Strip, Substitute, Rejected, IsSpace, NormalizeFilename;
    NormalizedShape(filename);
    if NormalizeFilename(filename).Some? {
      var once := NormalizeFilename(filename).value;
      if once[|once| - 1] != '.' {
        NormalizeIdentity(once);
      } else {
        DotGoes(once);
      }
    }
  }

  lemma DotGoes(s: string)
    requires s != [] && s[|s| - 1] == '.'
    ensures NormalizeFilename(s) != Some(s)
  {
    hide Substitute, Rejected, IsSpace, Strip, NormalizeFilename;
    var safe := Strip(Substitute(Strip(s, IsSpace)), IsDot);
    assert safe != [] ==> !IsDot(safe[|safe| - 1]);
    assert Take(safe, MAX_LENGTH) != s;
    NormalizeIs(s);
  }

  lemma NormalizeIs(s: string)
    ensures NormalizeFilename(s).Some? ==>
              Strip(Substitute(Strip(s, IsSpace)), IsDot) != []
              && NormalizeFilename(s) == Some(Take(Strip(Substitute(Strip(s, IsSpace)), IsDot), MAX_LENGTH))
  {
    hide Substitute, Rejected, IsSpace, Strip, IsDot, Take;
  }
}

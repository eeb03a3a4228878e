/** `sanitize_model_name`: normalise a user-supplied model name into
    lowercase letters, digits, `-` and `_`. */
module SanitizeModelName {
  import opened Common

  /** The argument: a string, or any other Python object. */
  datatype NameInput = Name(s: string) | NotAString

  /** Every failure inside the function is re-raised as `ValidationError`. */
  datatype ValidationError = ValidationError

  predicate IsAsciiUpper(c: char) { 'A' <= c <= 'Z' }

  predicate IsSep(c: char) { c == '-' || c == '_' }

  /** The characters `[a-zA-Z0-9-_]` the final filter keeps. */
  predicate Allowed(c: char) {
    'a' <= c <= 'z' || IsAsciiUpper(c) || '0' <= c <= '9' || IsSep(c)
  }

  /** What a successful result is made of. */
  predicate SanitizedChar(c: char) {
    'a' <= c <= 'z' || '0' <= c <= '9' || IsSep(c)
  }

  /** `str.lower()` on one character. ASCII capitals map to ASCII lowercase;
      the two non-ASCII characters whose lowercase form holds an ASCII letter
      (KELVIN SIGN, and LATIN CAPITAL LETTER I WITH DOT ABOVE, which becomes
      `i` plus a combining dot) are written out. Every other character is
      kept: its lowercase form is non-ASCII as well, so the later filter
      drops it either way. */
  function LowerChar(c: char): (r: string)
    ensures 1 <= |r| <= 2
    ensures NoUpper(r)
    ensures r != [c] ==> forall k :: 0 <= k < |r| ==> r[k] != ' ' && !IsSep(r[k])
  {
    if IsAsciiUpper(c) then [(c as int + 32) as char]
    else if c == '\U{212A}' then "k"
    else if c == '\U{0130}' then "i\U{0307}"
    else [c]
  }

  predicate NoUpper(s: string) {
    forall k :: 0 <= k < |s| ==> !IsAsciiUpper(s[k])
  }

  /** `s.lower()` */
  function Lower(s: string): (r: string)
    ensures NoUpper(r)
  {
    if s == [] then [] else LowerChar(s[0]) + Lower(s[1..])
  }

  /** `s.replace(a, b)` for single characters, and `re.sub(a, b, s)` for a
      one-character pattern. */
  function ReplaceChar(s: string, a: char, b: char): (r: string)
    ensures |r| == |s|
    ensures forall k :: 0 <= k < |r| ==> r[k] == if s[k] == a then b else s[k]
  {
    if s == [] then [] else [if s[0] == a then b else s[0]] + ReplaceChar(s[1..], a, b)
  }

  /** No two neighbouring hyphens. */
  predicate NoDoubleHyphen(s: string) {
    forall k :: 0 <= k < |s| - 1 ==> !(s[k] == '-' && s[k + 1] == '-')
  }

  /** `re.sub(r"-+", "-", s)`: every run of hyphens becomes one hyphen. */
  function CollapseHyphens(s: string): (r: string)
    ensures |r| <= |s|
    ensures |s| > 0 ==> |r| > 0 && r[0] == s[0]
    ensures NoDoubleHyphen(r)
  {
    if |s| <= 1 then s
    else if s[0] == '-' && s[1] == '-' then CollapseHyphens(s[1..])
    else [s[0]] + CollapseHyphens(s[1..])
  }

  /** `re.sub(r"[^a-zA-Z0-9-_]", "", s)`: keep only the allowed characters,
      in order. */
  function KeepAllowed(s: string): (r: string)
    ensures |r| <= |s|
    ensures forall k :: 0 <= k < |r| ==> Allowed(r[k])
  {
    if s == [] then []
    else if Allowed(s[0]) then [s[0]] + KeepAllowed(s[1..])
    else KeepAllowed(s[1..])
  }

  /** Lowering neither creates nor removes spaces, hyphens or underscores. */
  lemma {:induction false} LowerKeeps(s: string, c: char)
    requires c == ' ' || IsSep(c)
    ensures c in Lower(s) <==> c in s
  {
    if s != [] {
      LowerKeeps(s[1..], c);
      assert Lower(s) == LowerChar(s[0]) + Lower(s[1..]);
      assert c in LowerChar(s[0]) <==> c == s[0];
    }
  }

  /** Collapsing keeps exactly the characters it was given. */
  lemma {:induction false} CollapseKeeps(s: string, c: char)
    ensures c in CollapseHyphens(s) <==> c in s
  {
    if |s| > 1 {
      CollapseKeeps(s[1..], c);
      if s[0] == '-' && s[1] == '-' {
        assert s == [s[0]] + s[1..];
      } else {
        assert CollapseHyphens(s) == [s[0]] + CollapseHyphens(s[1..]);
      }
    }
  }

  /** Filtering only drops characters. */
  lemma {:induction false} KeepAllowedSubset(s: string, c: char)
    ensures c in KeepAllowed(s) ==> c in s
  {
    if s != [] {
      KeepAllowedSubset(s[1..], c);
      if Allowed(s[0]) {
        assert KeepAllowed(s) == [s[0]] + KeepAllowed(s[1..]);
      }
    }
  }

  /** Filtering keeps an allowed character. */
  lemma {:induction false} KeepAllowedKeeps(s: string, c: char)
    requires Allowed(c) && c in s
    ensures c in KeepAllowed(s)
  {
    if s[0] != c {
      KeepAllowedKeeps(s[1..], c);
      if Allowed(s[0]) {
        assert KeepAllowed(s) == [s[0]] + KeepAllowed(s[1..]);
      }
    } else {
      assert KeepAllowed(s) == [s[0]] + KeepAllowed(s[1..]);
    }
  }

  /** Collapsing hyphens introduces no capital letter. */
  lemma CollapseNoUpper(s: string)
    requires NoUpper(s)
    ensures NoUpper(CollapseHyphens(s))
  {
    var r := CollapseHyphens(s);
    forall k | 0 <= k < |r| ensures !IsAsciiUpper(r[k]) {
      CollapseKeeps(s, r[k]);
    }
  }

  /** The name after every rewriting step and the filter, before the ends
      are trimmed: lower-case; spaces become hyphens; if a hyphen is present,
      runs of hyphens collapse and then, if an underscore is present too,
      underscores become hyphens; finally the character filter. */
  function Filtered(s: string): string {
    var lowered := Lower(s);
    var spaced := ReplaceChar(lowered, ' ', '-');
    var joined :=
      if '-' in spaced then
        var collapsed := CollapseHyphens(spaced);
        if '_' in collapsed then ReplaceChar(collapsed, '_', '-') else collapsed
      else spaced;
    KeepAllowed(joined)
  }

  /** The rewriting steps of `sanitize_model_name`, rebinding the name one
      step at a time as the source does. */
  method Rewrite(s: string) returns (name: string)
    ensures name == Filtered(s)
  {
    name := Lower(s);
    name := ReplaceChar(name, ' ', '-');
    if '-' in name {
      name := CollapseHyphens(name);
      if '_' in name {
        name := ReplaceChar(name, '_', '-');
      }
    }
    name := KeepAllowed(name);
  }

  /** Removal of separators at the ends: the trailing character of a `-` or
      `_` first, then the leading one, each at most once. Indexing an empty
      name fails. */
  predicate TrimFails(n: string) {
    |n| == 0 || (|n| == 1 && IsSep(n[0]))
  }

  function Trimmed(n: string): string
    requires !TrimFails(n)
  {
    var dropLast := if IsSep(n[|n| - 1]) then 1 else 0;
    var dropFirst := if IsSep(n[0]) then 1 else 0;
    n[dropFirst..|n| - dropLast]
  }

  /** The last two statements of `sanitize_model_name`. */
  method TrimEnds(n: string) returns (r: Result<string, ValidationError>)
    ensures r.Err? <==> TrimFails(n)
    ensures r.Ok? ==> r.value == Trimmed(n)
  {
    var name := n;
    if |name| == 0 {
      return Err(ValidationError);
    }
    if IsSep(name[|name| - 1]) {
      name := name[..|name| - 1];
    }
    if |name| == 0 {
      return Err(ValidationError);
    }
    if IsSep(name[0]) {
      name := name[1..];
    }
    return Ok(name);
  }

  /** `sanitize_model_name(model_name)`: rewrite, then drop at most one
      trailing and then at most one leading `-` or `_`. A non-string argument
      and an empty name at either trimming step raise `ValidationError`. */
  method Sanitize(input: NameInput) returns (r: Result<string, ValidationError>)
    ensures input.NotAString? ==> r.Err?
    ensures input.Name? ==> (r.Err? <==> TrimFails(Filtered(input.s)))
    ensures input.Name? && r.Ok? ==> r.value == Trimmed(Filtered(input.s))
    ensures r.Ok? ==> forall k :: 0 <= k < |r.value| ==> SanitizedChar(r.value[k])
  {
    if input.NotAString? {
      return Err(ValidationError);
    }
    var name := Rewrite(input.s);
    r := TrimEnds(name);
    if r.Ok? {
      AllowedAfterLower(input.s);
      TrimmedIsSlice(name);
    }
  }

  /** Trimming keeps a contiguous part of the name. */
  lemma TrimmedIsSlice(n: string)
    requires !TrimFails(n)
    ensures forall k :: 0 <= k < |Trimmed(n)| ==> Trimmed(n)[k] in n
  {
  }

  /** The filtered name holds no capital letter: every character of it is one
      a successful result may contain. */
  lemma AllowedAfterLower(s: string)
    ensures forall k :: 0 <= k < |Filtered(s)| ==> SanitizedChar(Filtered(s)[k])
  {
    var lowered := Lower(s);
    var spaced := ReplaceChar(lowered, ' ', '-');
    assert NoUpper(spaced);
    var joined := spaced;
    if '-' in spaced {
      var collapsed := CollapseHyphens(spaced);
      CollapseNoUpper(spaced);
      joined := if '_' in collapsed then ReplaceChar(collapsed, '_', '-') else collapsed;
    }
    assert NoUpper(joined);
    var r := KeepAllowed(joined);
    assert r == Filtered(s);
    forall k | 0 <= k < |r| ensures SanitizedChar(r[k]) {
      KeepAllowedSubset(joined, r[k]);
    }
  }

  /** Once a space or a hyphen is present, no underscore survives: either
      there was none, or all of them were turned into hyphens. */
  lemma {:induction false} NoUnderscoreNextToHyphen(s: string)
    requires ' ' in s || '-' in s
    ensures '_' !in Filtered(s)
  {
    var lowered := Lower(s);
    var spaced := ReplaceChar(lowered, ' ', '-');
    if ' ' in s {
      LowerKeeps(s, ' ');
      var k :| 0 <= k < |lowered| && lowered[k] == ' ';
      assert spaced[k] == '-';
    } else {
      LowerKeeps(s, '-');
      var k :| 0 <= k < |lowered| && lowered[k] == '-';
      assert spaced[k] == '-';
    }
    var collapsed := CollapseHyphens(spaced);
    var joined := if '_' in collapsed then ReplaceChar(collapsed, '_', '-') else collapsed;
    assert '_' !in joined;
    assert Filtered(s) == KeepAllowed(joined);
    KeepAllowedSubset(joined, '_');
  }

  /** Without a space or a hyphen, the name is only lowered and filtered, and
      the result has no hyphen. */
  lemma {:induction false} NoHyphenOnlyFilters(s: string)
    requires ' ' !in s && '-' !in s
    ensures Filtered(s) == KeepAllowed(Lower(s))
    ensures '-' !in Filtered(s)
  {
    var lowered := Lower(s);
    LowerKeeps(s, ' ');
    LowerKeeps(s, '-');
    var spaced := ReplaceChar(lowered, ' ', '-');
    assert spaced == lowered;
    KeepAllowedSubset(lowered, '-');
  }

  /** Trimming yields the empty name exactly when the filtered name is two
      separators. */
  lemma TrimmedEmpty(n: string)
    requires !TrimFails(n)
    ensures Trimmed(n) == [] <==> (|n| == 2 && IsSep(n[0]) && IsSep(n[1]))
  {
  }

  /** A name that neither starts nor ends with a separator is not trimmed. */
  lemma TrimmedKeeps(n: string)
    requires |n| > 0 && !IsSep(n[0]) && !IsSep(n[|n| - 1])
    ensures !TrimFails(n) && Trimmed(n) == n
  {
  }

  /** A character `str.lower()` leaves as it is. */
  predicate LowerFixed(c: char) {
    !IsAsciiUpper(c) && c != '\U{212A}' && c != '\U{0130}'
  }

  /** Text of such characters is unchanged by lowering. */
  lemma {:induction false} LowerIdentity(s: string)
    requires forall k :: 0 <= k < |s| ==> LowerFixed(s[k])
    ensures Lower(s) == s
  {
    if s != [] {
      LowerIdentity(s[1..]);
      assert LowerChar(s[0]) == [s[0]];
    }
  }

  /** Text without a run of hyphens is unchanged by collapsing. */
  lemma {:induction false} CollapseIdentity(s: string)
    requires NoDoubleHyphen(s)
    ensures CollapseHyphens(s) == s
  {
    if |s| > 1 {
      CollapseIdentity(s[1..]);
    }
  }

  /** Replacing a character that does not occur changes nothing. */
  lemma ReplaceAbsent(s: string, a: char, b: char)
    requires a !in s
    ensures ReplaceChar(s, a, b) == s
  {
    var r := ReplaceChar(s, a, b);
    assert forall k :: 0 <= k < |s| ==> r[k] == s[k] by {
      forall k | 0 <= k < |s| ensures r[k] == s[k] {
        assert s[k] in s;
      }
    }
  }

  /** Text made of allowed characters passes the filter unchanged. */
  lemma {:induction false} KeepAllowedIdentity(s: string)
    requires forall k :: 0 <= k < |s| ==> Allowed(s[k])
    ensures KeepAllowed(s) == s
  {
    if s != [] {
      KeepAllowedIdentity(s[1..]);
    }
  }

  /** A lowercase letter or a digit. */
  predicate IsWordChar(c: char) {
    'a' <= c <= 'z' || '0' <= c <= '9'
  }

  /** A name that is already lower-case, allowed and free of spaces, and
      that has no run of hyphens and no underscore once it has a hyphen,
      passes the rewriting steps unchanged. */
  lemma FilteredUnchanged(s: string)
    requires Lower(s) == s && ' ' !in s
    requires '-' in s ==> NoDoubleHyphen(s) && '_' !in s
    requires forall k :: 0 <= k < |s| ==> Allowed(s[k])
    ensures Filtered(s) == s
  {
    ReplaceAbsent(s, ' ', '-');
    if '-' in s {
      CollapseIdentity(s);
    }
    KeepAllowedIdentity(s);
  }

  /** When replacing the spaces yields such a name, that is the result. */
  lemma FilteredSpaced(s: string, spaced: string)
    requires Lower(s) == s && ReplaceChar(s, ' ', '-') == spaced && '-' in spaced
    requires NoDoubleHyphen(spaced) && '_' !in spaced
    requires forall k :: 0 <= k < |spaced| ==> Allowed(spaced[k])
    ensures Filtered(s) == spaced
  {
    CollapseIdentity(spaced);
    KeepAllowedIdentity(spaced);
  }

  /** Lowering leaves two word characters and a space as they are, and
      the space then becomes a hyphen. */
  lemma SpaceBetweenWords(x: char, y: char)
    requires IsWordChar(x) && IsWordChar(y)
    ensures Lower([x, ' ', y]) == [x, ' ', y]
    ensures ReplaceChar([x, ' ', y], ' ', '-') == [x, '-', y]
  {
    LowerIdentity([x, ' ', y]);
  }

  /** A space between two word characters becomes a hyphen. */
  lemma ExampleSpaces(x: char, y: char)
    requires IsWordChar(x) && IsWordChar(y)
    ensures Filtered([x, ' ', y]) == [x, '-', y]
    ensures Trimmed([x, '-', y]) == [x, '-', y]
  {
    var spaced := [x, '-', y];
    TrimmedKeeps(spaced);
    SpaceBetweenWords(x, y);
    assert spaced[1] == '-';
    FilteredSpaced([x, ' ', y], spaced);
  }

  /** Only one leading underscore is removed. */
  lemma ExampleOneUnderscoreTrimmed(x: char)
    requires IsWordChar(x)
    ensures Filtered(['_', '_', x]) == ['_', '_', x]
    ensures Trimmed(['_', '_', x]) == ['_', x]
  {
    var s := ['_', '_', x];
    LowerIdentity(s);
    FilteredUnchanged(s);
  }

  /** Runs of hyphens collapse before the ends are trimmed, so `"--a"`
      loses both leading hyphens. */
  lemma ExampleHyphenRunTrimmed(x: char)
    requires IsWordChar(x)
    ensures Filtered(['-', '-', x]) == ['-', x]
    ensures Trimmed(['-', x]) == [x]
  {
    var s := ['-', '-', x];
    LowerIdentity(s);
    ReplaceAbsent(s, ' ', '-');
    assert s[0] == '-';
    assert CollapseHyphens(s) == ['-', x] by {
      assert s[1..] == ['-', x];
      assert ['-', x][1..] == [x];
    }
    assert '_' !in ['-', x];
    KeepAllowedIdentity(['-', x]);
  }

  /** A name of two characters, one of them a space or a hyphen and one an
      underscore, is rewritten to `"--"`. */
  lemma TwoSeparatorsFilter(a: char, b: char)
    requires (a == '_' && b == '-') || (a == ' ' && b == '_')
    ensures Filtered([a, b]) == ['-', '-']
  {
    var s := [a, b];
    LowerIdentity(s[1..]);
    assert Lower(s) == s by {
      assert LowerChar(a) == [a];
    }
    var spaced := ReplaceChar(s, ' ', '-');
    assert spaced == (if a == ' ' then ['-', '_'] else ['_', '-']);
    assert '-' in spaced;
    assert CollapseHyphens(spaced) == spaced by {
      assert spaced[1..] == [spaced[1]];
    }
    assert '_' in spaced;
    assert ReplaceChar(spaced, '_', '-') == ['-', '-'];
    KeepAllowedIdentity(['-', '-']);
  }

  /** The empty name, a lone hyphen and a name with no allowed character are
      rejected. */
  lemma ExampleRejected()
    ensures TrimFails(Filtered("-")) && TrimFails(Filtered("")) && TrimFails(Filtered("!"))
  {
    assert Lower("-") == "-";
    assert ReplaceChar("-", ' ', '-') == "-";
    assert Lower("!") == "!";
    assert ReplaceChar("!", ' ', '-') == "!";
  }

  /** As written, `"_-"` (or `" _"`) is accepted and sanitised to the empty
      name: the underscore becomes a hyphen, and trimming one character at
      each end of `"--"` leaves nothing. */
  lemma EmptyNameAccepted()
    ensures !TrimFails(Filtered("_-")) && Trimmed(Filtered("_-")) == ""
    ensures !TrimFails(Filtered(" _")) && Trimmed(Filtered(" _")) == ""
  {
    TwoSeparatorsFilter('_', '-');
    TwoSeparatorsFilter(' ', '_');
  }

  /** `sanitize_model_name` as evidently intended: an empty sanitised name
      is rejected like every other unusable name. */
  method SanitizeNonEmpty(input: NameInput) returns (r: Result<string, ValidationError>)
    ensures input.NotAString? ==> r.Err?
    ensures input.Name? ==>
      (r.Err? <==> TrimFails(Filtered(input.s)) || Trimmed(Filtered(input.s)) == [])
    ensures input.Name? && r.Ok? ==> r.value == Trimmed(Filtered(input.s))
    ensures r.Ok? ==> |r.value| > 0
    ensures r.Ok? ==> forall k :: 0 <= k < |r.value| ==> SanitizedChar(r.value[k])
  {
    r := Sanitize(input);
    if r.Ok? && r.value == [] {
      r := Err(ValidationError);
    }
  }
}

/** `strip_brackets`: `re.sub(r"\[([^\]]+)]", r"\1", ddl)`, which turns every
    `[name]` in a DDL script into `name`.

    The regular expression is read as the scan it performs: at a `[` it
    matches when the first `]` after it closes a non-empty stretch (the
    stretch may itself hold `[`); the match is replaced by the stretch and
    scanning resumes after the `]`. Anywhere else the character is copied. */
module StripBrackets {
  import opened Common

  /** `strip_brackets(ddl)` */
  function Strip(s: string): (r: string)
    ensures |r| <= |s| && (|s| - |r|) % 2 == 0
    decreases |s|
  {
    if s == [] then []
    else if s[0] == '[' then
      match FirstIndex(s[1..], ']')
      case Some(j) =>
        if j >= 1 then s[1..1 + j] + Strip(s[j + 2..])
        else [s[0]] + Strip(s[1..])
      case None => [s[0]] + Strip(s[1..])
    else [s[0]] + Strip(s[1..])
  }

  /** The number of occurrences of `c` in `s`. */
  function Count(s: string, c: char): nat {
    if s == [] then 0 else (if s[0] == c then 1 else 0) + Count(s[1..], c)
  }

  lemma {:induction false} CountAppend(a: string, b: string, c: char)
    ensures Count(a + b, c) == Count(a, c) + Count(b, c)
  {
    if a == [] {
      assert a + b == b;
    } else {
      assert (a + b)[1..] == a[1..] + b;
      CountAppend(a[1..], b, c);
    }
  }

  /** `s` with every square bracket deleted. */
  function Unbracketed(s: string): string {
    if s == [] then []
    else if s[0] == '[' || s[0] == ']' then Unbracketed(s[1..])
    else [s[0]] + Unbracketed(s[1..])
  }

  lemma {:induction false} UnbracketedAppend(a: string, b: string)
    ensures Unbracketed(a + b) == Unbracketed(a) + Unbracketed(b)
  {
    if a == [] {
      assert a + b == b;
    } else {
      assert (a + b)[1..] == a[1..] + b;
      UnbracketedAppend(a[1..], b);
    }
  }

  /** Text with no `[` is returned unchanged. */
  lemma {:induction false} NoOpenUnchanged(s: string)
    requires forall k :: 0 <= k < |s| ==> s[k] != '['
    ensures Strip(s) == s
  {
    if s != [] {
      NoOpenUnchanged(s[1..]);
    }
  }

  /** The shape of a match: `[`, the name, `]`, then the rest. */
  lemma MatchShape(s: string, j: nat)
    requires |s| > 0 && s[0] == '[' && FirstIndex(s[1..], ']') == Some(j)
    ensures s == "[" + s[1..1 + j] + "]" + s[j + 2..]
    ensures s[1 + j] == ']'
    ensures forall k :: 1 <= k < 1 + j ==> s[k] != ']'
  {
  }

  /** At a match, the name is kept and scanning resumes after the `]`. */
  lemma StripOfMatch(s: string, j: nat)
    requires |s| > 0 && s[0] == '[' && FirstIndex(s[1..], ']') == Some(j) && j >= 1
    ensures Strip(s) == s[1..1 + j] + Strip(s[j + 2..])
  {
  }

  /** Anywhere else the first character is copied. */
  lemma StripOfCopy(s: string)
    requires s != []
    requires !(s[0] == '[' && FirstIndex(s[1..], ']').Some? && FirstIndex(s[1..], ']').value >= 1)
    ensures Strip(s) == [s[0]] + Strip(s[1..])
  {
  }

  /** Splitting a match for counting and for bracket removal. */
  lemma MatchParts(x: string, rest: string, c: char)
    ensures Count("[" + x + "]" + rest, c) == Count("[", c) + Count(x, c) + Count("]", c) + Count(rest, c)
    ensures Unbracketed("[" + x + "]" + rest) == Unbracketed(x) + Unbracketed(rest)
  {
    var o, cl := "[", "]";
    assert o + x + cl + rest == o + (x + (cl + rest));
    CountAppend(o, x + (cl + rest), c);
    CountAppend(x, cl + rest, c);
    CountAppend(cl, rest, c);
    UnbracketedAppend(o, x + (cl + rest));
    UnbracketedAppend(x, cl + rest);
    UnbracketedAppend(cl, rest);
    assert Unbracketed(o) == [] && Unbracketed(cl) == [];
  }

  /** Only brackets are removed: everything else stays, in order. */
  lemma {:induction false} OnlyBracketsRemoved(s: string)
    ensures Unbracketed(Strip(s)) == Unbracketed(s)
    decreases |s|
  {
    if s != [] {
      if s[0] == '[' && FirstIndex(s[1..], ']').Some? && FirstIndex(s[1..], ']').value >= 1 {
        var j := FirstIndex(s[1..], ']').value;
        OnlyBracketsRemoved(s[j + 2..]);
        StripOfMatch(s, j);
        UnbracketedAppend(s[1..1 + j], Strip(s[j + 2..]));
        MatchShape(s, j);
        MatchParts(s[1..1 + j], s[j + 2..], '[');
      } else {
        OnlyBracketsRemoved(s[1..]);
        StripOfCopy(s);
        UnbracketedAppend([s[0]], Strip(s[1..]));
        UnbracketedAppend([s[0]], s[1..]);
        assert s == [s[0]] + s[1..];
      }
    }
  }

  /** Per bracket kind: the bracket occurrences `out` lost against `s` are
      half of the characters it lost. */
  predicate PairsLost(s: string, out: string) {
    && Count(s, '[') - Count(out, '[') == (|s| - |out|) / 2
    && Count(s, ']') - Count(out, ']') == (|s| - |out|) / 2
  }

  /** Replacing a match loses one `[` and one `]` more than the rest does. */
  lemma MatchLosesPair(x: string, rest: string, stripped: string)
    requires forall k :: 0 <= k < |x| ==> x[k] != ']'
    requires PairsLost(rest, stripped) && |stripped| <= |rest|
    ensures PairsLost("[" + x + "]" + rest, x + stripped)
  {
    NoCloseCount(x);
    MatchParts(x, rest, '[');
    MatchParts(x, rest, ']');
    CountAppend(x, stripped, '[');
    CountAppend(x, stripped, ']');
  }

  /** Copying a character loses nothing more than the rest does. */
  lemma CopyLosesNothing(ch: char, rest: string, stripped: string)
    requires PairsLost(rest, stripped) && |stripped| <= |rest|
    ensures PairsLost([ch] + rest, [ch] + stripped)
  {
    CountAppend([ch], stripped, '[');
    CountAppend([ch], stripped, ']');
    CountAppend([ch], rest, '[');
    CountAppend([ch], rest, ']');
  }

  /** Each replacement deletes exactly one `[` and one `]`: the string
      shrinks by two per replacement. */
  lemma {:induction false} PairsRemoved(s: string)
    ensures PairsLost(s, Strip(s))
    decreases |s|
  {
    if s != [] {
      if s[0] == '[' && FirstIndex(s[1..], ']').Some? && FirstIndex(s[1..], ']').value >= 1 {
        var j := FirstIndex(s[1..], ']').value;
        var x, rest := s[1..1 + j], s[j + 2..];
        PairsRemoved(rest);
        MatchShape(s, j);
        StripOfMatch(s, j);
        MatchLosesPair(x, rest, Strip(rest));
      } else {
        PairsRemoved(s[1..]);
        StripOfCopy(s);
        assert s == [s[0]] + s[1..];
        CopyLosesNothing(s[0], s[1..], Strip(s[1..]));
      }
    }
  }

  lemma {:induction false} NoCloseCount(x: string)
    requires forall k :: 0 <= k < |x| ==> x[k] != ']'
    ensures Count(x, ']') == 0
  {
    if x != [] {
      NoCloseCount(x[1..]);
    }
  }

  /** `[x]` becomes `x` when `x` is non-empty and holds no `]`, and
      scanning resumes right after it. */
  lemma BracketedName(x: string, rest: string)
    requires |x| >= 1
    requires forall k :: 0 <= k < |x| ==> x[k] != ']'
    ensures Strip("[" + x + "]" + rest) == x + Strip(rest)
  {
    var s := "[" + x + "]" + rest;
    FirstIndexAfter(x, ']', rest);
    assert s[1..] == x + [']'] + rest;
    StripOfMatch(s, |x|);
    assert s[1..1 + |x|] == x;
    assert s[|x| + 2..] == rest;
  }

  /** `"[]"` does not match (the name would be empty) and stays as it is. */
  lemma EmptyBracketsKept()
    ensures Strip("[]") == "[]"
  {
    assert FirstIndex("]", ']') == Some(0);
    assert Strip("]") == "]";
  }
}

/** `sanitizeClassName` (utils/createOwlClasses.js): turns a free-text name into a
    PascalCase identifier fragment that is safe to append to an IRI. */
module Sanitize {
  import opened JsValues
  import opened JsText

  /** The string pipeline behind `sanitizeClassName` (and its copy `toSafeIRI`): trim,
      delete special characters, split on white space, capitalise each piece, concatenate. */
  function PascalCase(s: string): string {
    Join(CapitalizeEach(SplitOnSpace(RemoveSpecial(Trim(s)))))
  }

  /** `sanitizeClassName(name)`: null for a non-string or the empty string (both falsy),
      otherwise the PascalCase form of the name. */
  function SanitizeClassName(name: JsValue): (r: Option<string>)
    ensures r.None? <==> name.NonString? || name.s == ""
    ensures r.Some? ==> r.value == WordCase(name.s, true)
    ensures r.Some? ==> |r.value| <= |name.s|
    ensures r.Some? ==> forall i :: 0 <= i < |r.value| ==> IsAsciiAlnum(r.value[i])
  {
    match name
    case NonString => None
    case Str(s) =>
      if s == "" then None
      else
        PascalCaseIsWordCase(s);
        Some(PascalCase(s))
  }

  /** A reference definition of the same result in one left-to-right pass: white space
      starts a new word and is dropped, a special character is dropped without starting a
      word, and a letter or digit is upper-cased at the start of a word and lower-cased
      inside one. */
  function WordCase(s: string, atWordStart: bool): (r: string)
    ensures |r| <= |s|
    ensures forall i :: 0 <= i < |r| ==> IsAsciiAlnum(r[i])
  {
    if |s| == 0 then ""
    else if IsSpace(s[0]) then WordCase(s[1..], true)
    else if IsAsciiAlnum(s[0]) then
      [if atWordStart then AsciiUpper(s[0]) else AsciiLower(s[0])] + WordCase(s[1..], false)
    else WordCase(s[1..], atWordStart)
  }

  lemma {:induction false} WordCaseTrimStart(s: string)
    ensures WordCase(TrimStart(s), true) == WordCase(s, true)
  {
    if |s| > 0 && IsSpace(s[0]) {
      WordCaseTrimStart(s[1..]);
    }
  }

  lemma {:induction false} WordCaseAppendSpace(t: string, c: char, atWordStart: bool)
    requires IsSpace(c)
    ensures WordCase(t + [c], atWordStart) == WordCase(t, atWordStart)
  {
    if |t| > 0 {
      assert (t + [c])[1..] == t[1..] + [c];
      WordCaseAppendSpace(t[1..], c, true);
      WordCaseAppendSpace(t[1..], c, false);
      WordCaseAppendSpace(t[1..], c, atWordStart);
    }
  }

  lemma {:induction false} WordCaseTrimEnd(s: string, atWordStart: bool)
    ensures WordCase(TrimEnd(s), atWordStart) == WordCase(s, atWordStart)
    decreases |s|
  {
    if |s| > 0 && IsSpace(s[|s| - 1]) {
      var t := s[..|s| - 1];
      assert s == t + [s[|s| - 1]];
      WordCaseAppendSpace(t, s[|s| - 1], atWordStart);
      WordCaseTrimEnd(t, atWordStart);
    }
  }

  lemma {:induction false} WordCaseRemoveSpecial(s: string, atWordStart: bool)
    ensures WordCase(RemoveSpecial(s), atWordStart) == WordCase(s, atWordStart)
  {
    if |s| > 0 {
      WordCaseRemoveSpecial(s[1..], true);
      WordCaseRemoveSpecial(s[1..], false);
      if IsKept(s[0]) {
        assert ([s[0]] + RemoveSpecial(s[1..]))[1..] == RemoveSpecial(s[1..]);
      }
    }
  }

  /** Capitalising a word one character longer extends the capitalised word by that
      character, upper-cased if it is the first one and lower-cased otherwise. */
  lemma CapitalizeSnoc(w: string, c: char)
    ensures Capitalize(w + [c]) == Capitalize(w) + [if |w| == 0 then AsciiUpper(c) else AsciiLower(c)]
  {
    var l, r := Capitalize(w + [c]), Capitalize(w) + [if |w| == 0 then AsciiUpper(c) else AsciiLower(c)];
    assert |l| == |r|;
    forall i | 0 <= i < |l|
      ensures l[i] == r[i]
    {
      if i < |w| {
        assert (w + [c])[i] == w[i];
      }
    }
  }

  /** Splitting, capitalising and joining a string of letters, digits and white space is
      the one-pass `WordCase`, once the piece already read is accounted for. */
  lemma {:induction false} SplitCapitalizeJoin(f: string, word: string)
    requires forall i :: 0 <= i < |f| ==> IsKept(f[i])
    requires NoSpace(word)
    ensures Join(CapitalizeEach(SplitFrom(f, word))) == Capitalize(word) + WordCase(f, |word| == 0)
    decreases |f|
  {
    if |f| == 0 {
    } else if IsSpace(f[0]) {
      KeptSuffixes(f, |f| - |TrimStart(f)|);
      SplitCapitalizeJoin(TrimStart(f), "");
      SplitAtSpace(f, word);
    } else {
      KeptSuffixes(f, 1);
      SplitAtLetter(f, word);
      SplitCapitalizeJoin(f[1..], word + [f[0]]);
    }
  }

  /** Every suffix of a string of kept characters is one; a string that does not start
      with white space starts with a letter or digit. */
  lemma KeptSuffixes(f: string, k: nat)
    requires forall i :: 0 <= i < |f| ==> IsKept(f[i])
    requires 0 < k <= |f|
    ensures forall i :: 0 <= i < |f[k..]| ==> IsKept(f[k..][i])
    ensures !IsSpace(f[0]) ==> IsAsciiAlnum(f[0])
    ensures IsSpace(f[0]) ==> k == |f| - |TrimStart(f)| ==> TrimStart(f) == f[k..]
  {
    assert IsKept(f[0]);
  }

  /** The letter-or-digit step of `SplitCapitalizeJoin`: the character joins the current
      piece, on both sides of the equation. */
  lemma SplitAtLetter(f: string, word: string)
    requires |f| > 0 && IsAsciiAlnum(f[0]) && NoSpace(word)
    ensures NoSpace(word + [f[0]])
    ensures SplitFrom(f, word) == SplitFrom(f[1..], word + [f[0]])
    ensures Capitalize(word) + WordCase(f, |word| == 0) == Capitalize(word + [f[0]]) + WordCase(f[1..], false)
  {
    AlnumIsNotSpace(f[0]);
    NoSpaceSnoc(word, f[0]);
    WordCaseAtLetter(f, |word| == 0);
    CapitalizeSnoc(word, f[0]);
    SnocAssoc(Capitalize(word), if |word| == 0 then AsciiUpper(f[0]) else AsciiLower(f[0]), WordCase(f[1..], false));
  }

  /** A single word of letters and digits is capitalised if it starts a word and
      lower-cased otherwise, as the word-by-word pipeline does with it, and leaves the
      scanner inside a word. */
  lemma {:induction false} AlnumWord(w: string)
    requires forall i :: 0 <= i < |w| ==> IsAsciiAlnum(w[i])
    ensures WordCase(w, true) == Capitalize(w)
    ensures WordCase(w, false) == LowerAll(w)
    ensures |w| > 0 ==> !AtWordStartAfter(w, true) && !AtWordStartAfter(w, false)
    decreases |w|
  {
    if |w| > 0 {
      AlnumWord(w[1..]);
      WordCaseAtLetter(w, true);
      WordCaseAtLetter(w, false);
      LowerAllCons(w);
    }
  }

  /** A name with no ASCII letter or digit gives the empty identifier. */
  lemma {:induction false} NoAlnumGivesEmpty(s: string, atWordStart: bool)
    requires forall i :: 0 <= i < |s| ==> !IsAsciiAlnum(s[i])
    ensures WordCase(s, atWordStart) == ""
    decreases |s|
  {
    if |s| > 0 {
      NoAlnumGivesEmpty(s[1..], true);
      NoAlnumGivesEmpty(s[1..], atWordStart);
    }
  }

  /** A non-empty name without ASCII letters or digits is sanitised to the empty
      identifier, which is not null. */
  lemma SanitizeNoAlnum(s: string)
    requires s != "" && forall i :: 0 <= i < |s| ==> !IsAsciiAlnum(s[i])
    ensures SanitizeClassName(Str(s)) == Some("")
  {
    NoAlnumGivesEmpty(s, true);
  }

  lemma LowerAllCons(w: string)
    requires |w| > 0
    ensures LowerAll(w) == [AsciiLower(w[0])] + LowerAll(w[1..])
  {
  }

  lemma AlnumIsNotSpace(c: char)
    requires IsAsciiAlnum(c)
    ensures !IsSpace(c)
  {
  }

  lemma WordCaseAtLetter(f: string, atWordStart: bool)
    requires |f| > 0 && IsAsciiAlnum(f[0])
    ensures WordCase(f, atWordStart) == [if atWordStart then AsciiUpper(f[0]) else AsciiLower(f[0])] + WordCase(f[1..], false)
  {
    AlnumIsNotSpace(f[0]);
  }

  /** The white-space step of `SplitCapitalizeJoin`: a run of white space closes the
      current piece and the rest is split afresh. */
  lemma SplitAtSpace(f: string, word: string)
    requires |f| > 0 && IsSpace(f[0]) && NoSpace(word)
    requires Join(CapitalizeEach(SplitFrom(TrimStart(f), ""))) == WordCase(TrimStart(f), true)
    ensures Join(CapitalizeEach(SplitFrom(f, word))) == Capitalize(word) + WordCase(f, |word| == 0)
  {
    var ws := SplitFrom(TrimStart(f), "");
    assert SplitFrom(f, word) == [word] + ws;
    assert CapitalizeEach([word] + ws) == [Capitalize(word)] + CapitalizeEach(ws);
    assert TrimStart(f) == TrimStart(f[1..]);
    WordCaseTrimStart(f[1..]);
  }

  /** The word-by-word pipeline and the one-pass reference agree on every string. */
  lemma PascalCaseIsWordCase(s: string)
    ensures PascalCase(s) == WordCase(s, true)
  {
    var t := Trim(s);
    WordCaseTrimStart(s);
    WordCaseTrimEnd(TrimStart(s), true);
    WordCaseRemoveSpecial(t, true);
    SplitCapitalizeJoin(RemoveSpecial(t), "");
  }

  /** The two names differ at most in the case of ASCII letters. */
  predicate SameUpToAsciiCase(a: string, b: string) {
    |a| == |b| && forall i :: 0 <= i < |a| ==> AsciiLower(a[i]) == AsciiLower(b[i])
  }

  /** Characters with the same lower-case form are treated alike by the sanitiser. */
  lemma SameLowerTreatedAlike(x: char, y: char)
    requires AsciiLower(x) == AsciiLower(y)
    ensures IsSpace(x) <==> IsSpace(y)
    ensures IsAsciiAlnum(x) <==> IsAsciiAlnum(y)
    ensures AsciiUpper(x) == AsciiUpper(y)
  {
  }

  lemma {:induction false} WordCaseIgnoresCase(a: string, b: string, atWordStart: bool)
    requires SameUpToAsciiCase(a, b)
    ensures WordCase(a, atWordStart) == WordCase(b, atWordStart)
  {
    if |a| > 0 {
      SameLowerTreatedAlike(a[0], b[0]);
      assert SameUpToAsciiCase(a[1..], b[1..]) by {
        forall i | 0 <= i < |a| - 1
          ensures AsciiLower(a[1..][i]) == AsciiLower(b[1..][i])
        {
          assert a[1..][i] == a[i + 1] && b[1..][i] == b[i + 1];
        }
      }
      WordCaseIgnoresCase(a[1..], b[1..], true);
      WordCaseIgnoresCase(a[1..], b[1..], false);
      WordCaseIgnoresCase(a[1..], b[1..], atWordStart);
    }
  }

  /** Sanitisation is case-insensitive: names that differ only in the case of ASCII letters
      sanitise to the same identifier. */
  lemma SanitizeIgnoresCase(a: string, b: string)
    requires SameUpToAsciiCase(a, b)
    ensures SanitizeClassName(Str(a)) == SanitizeClassName(Str(b))
  {
    WordCaseIgnoresCase(a, b, true);
  }

  /** Leading and trailing white space never changes a non-blank name's identifier. */
  lemma SanitizeIgnoresSurroundingSpace(s: string)
    requires Trim(s) != ""
    ensures SanitizeClassName(Str(Trim(s))) == SanitizeClassName(Str(s))
  {
    WordCaseTrimStart(s);
    WordCaseTrimEnd(TrimStart(s), true);
  }

  /** Whether `WordCase` is at the start of a word after reading `s` from state `atWordStart`. */
  function AtWordStartAfter(s: string, atWordStart: bool): bool {
    if |s| == 0 then atWordStart
    else if IsSpace(s[0]) then AtWordStartAfter(s[1..], true)
    else if IsAsciiAlnum(s[0]) then AtWordStartAfter(s[1..], false)
    else AtWordStartAfter(s[1..], atWordStart)
  }

  /** `WordCase` reads a string piece by piece: the identifier of `a + b` is that of `a`
      followed by that of `b`, read in the state `a` left behind. */
  lemma {:induction false} WordCaseConcat(a: string, b: string, atWordStart: bool)
    ensures WordCase(a + b, atWordStart) == WordCase(a, atWordStart) + WordCase(b, AtWordStartAfter(a, atWordStart))
  {
    if |a| > 0 {
      assert (a + b)[1..] == a[1..] + b;
      WordCaseConcat(a[1..], b, true);
      WordCaseConcat(a[1..], b, false);
      WordCaseConcat(a[1..], b, atWordStart);
    } else {
      assert a + b == b;
    }
  }

  /** The state after `a + b` is the state after `b`, read in the state `a` left behind. */
  lemma {:induction false} AtWordStartAfterConcat(a: string, b: string, atWordStart: bool)
    ensures AtWordStartAfter(a + b, atWordStart) == AtWordStartAfter(b, AtWordStartAfter(a, atWordStart))
  {
    if |a| > 0 {
      assert (a + b)[1..] == a[1..] + b;
      AtWordStartAfterConcat(a[1..], b, true);
      AtWordStartAfterConcat(a[1..], b, false);
      AtWordStartAfterConcat(a[1..], b, atWordStart);
    } else {
      assert a + b == b;
    }
  }
}

/** The JavaScript string operations the name sanitiser chains together, modelled on
    `string` (a sequence of Unicode scalar values). */
module JsText {

  /** White space as JavaScript sees it: the WhiteSpace and LineTerminator characters of
      ECMAScript. `String.prototype.trim` strips exactly these, and the regular-expression
      class `\s` matches exactly these, so both use this one predicate. */
  predicate IsSpace(c: char) {
    || c == ' '
    || ('\t' <= c <= '\r')   // tab, line feed, vertical tab, form feed, carriage return
    || c == '\U{00A0}' || c == '\U{1680}'
    || ('\U{2000}' <= c <= '\U{200A}')
    || c == '\U{2028}' || c == '\U{2029}'
    || c == '\U{202F}' || c == '\U{205F}' || c == '\U{3000}' || c == '\U{FEFF}'
  }

  predicate IsAsciiLetter(c: char) {
    ('a' <= c <= 'z') || ('A' <= c <= 'Z')
  }

  predicate IsAsciiDigit(c: char) {
    '0' <= c <= '9'
  }

  /** The characters the class `[a-zA-Z0-9]` matches. */
  predicate IsAsciiAlnum(c: char) {
    IsAsciiLetter(c) || IsAsciiDigit(c)
  }

  /** `toUpperCase` on one character. Only ASCII characters ever reach it, so only the
      ASCII case mapping is modelled. */
  function AsciiUpper(c: char): char {
    if 'a' <= c <= 'z' then (c as int - 32) as char else c
  }

  /** `toLowerCase` on one character, on ASCII as for `AsciiUpper`. */
  function AsciiLower(c: char): char {
    if 'A' <= c <= 'Z' then (c as int + 32) as char else c
  }

  /** Drops the leading white space (the first half of `String.prototype.trim`). */
  function TrimStart(s: string): (r: string)
    ensures |r| <= |s| && r == s[|s| - |r|..]
    ensures forall i :: 0 <= i < |s| - |r| ==> IsSpace(s[i])
    ensures |r| > 0 ==> !IsSpace(r[0])
  {
    if |s| > 0 && IsSpace(s[0]) then TrimStart(s[1..]) else s
  }

  /** Drops the trailing white space (the second half of `String.prototype.trim`). */
  function TrimEnd(s: string): (r: string)
    ensures |r| <= |s| && r == s[..|r|]
    ensures forall i :: |r| <= i < |s| ==> IsSpace(s[i])
    ensures |r| > 0 ==> !IsSpace(r[|r| - 1])
  {
    if |s| > 0 && IsSpace(s[|s| - 1]) then TrimEnd(s[..|s| - 1]) else s
  }

  /** `String.prototype.trim`. */
  function Trim(s: string): (r: string)
    ensures |r| <= |s|
    ensures |r| == 0 <==> forall i :: 0 <= i < |s| ==> IsSpace(s[i])
    ensures |r| > 0 ==> !IsSpace(r[0]) && !IsSpace(r[|r| - 1])
  {
    TrimEnd(TrimStart(s))
  }

  /** `trim` removes the leading and the trailing white space and nothing else: the
      result is the slice of `s` between them. */
  lemma TrimKeepsMiddle(s: string)
    ensures PaddedBy(s, |s| - |TrimStart(s)|, Trim(s))
  {
    var u := TrimStart(s);
    TrimStartSplits(s);
    TrimEndSplits(u);
    SplitPadding(s, s[..|s| - |u|], TrimEnd(u), u[|TrimEnd(u)|..]);
  }

  /** `s` is `a` characters of white space, then `r`, then white space only. */
  predicate PaddedBy(s: string, a: nat, r: string) {
    a + |r| <= |s| && s == s[..a] + r + s[a + |r|..] && AllSpace(s[..a]) && AllSpace(s[a + |r|..])
  }

  /** Every character of `t` is white space. */
  predicate AllSpace(t: string) {
    forall i :: 0 <= i < |t| ==> IsSpace(t[i])
  }

  /** What `TrimStart` drops is white space, and it keeps the rest. */
  lemma TrimStartSplits(s: string)
    ensures |TrimStart(s)| <= |s|
    ensures s == s[..|s| - |TrimStart(s)|] + TrimStart(s)
    ensures AllSpace(s[..|s| - |TrimStart(s)|])
  {
    var u := TrimStart(s);
    var lead := s[..|s| - |u|];
    assert AllSpace(lead) by {
      forall i | 0 <= i < |lead| ensures IsSpace(lead[i]) { assert lead[i] == s[i]; }
    }
  }

  /** What `TrimEnd` drops is white space, and it keeps the rest. */
  lemma TrimEndSplits(u: string)
    ensures |TrimEnd(u)| <= |u|
    ensures u == TrimEnd(u) + u[|TrimEnd(u)|..]
    ensures AllSpace(u[|TrimEnd(u)|..])
  {
    var r := TrimEnd(u);
    var trail := u[|r|..];
    assert AllSpace(trail) by {
      forall i | 0 <= i < |trail| ensures IsSpace(trail[i]) { assert trail[i] == u[|r| + i]; }
    }
  }

  /** Padding, then `r`, then padding, is `r` padded. */
  lemma SplitPadding(s: string, lead: string, r: string, trail: string)
    requires s == lead + (r + trail) && AllSpace(lead) && AllSpace(trail)
    ensures PaddedBy(s, |lead|, r)
  {
    assert s[..|lead|] == lead;
    assert s[|lead| + |r|..] == trail;
  }

  /** The characters `s.replace(/[^a-zA-Z0-9\s]/g, '')` keeps. */
  predicate IsKept(c: char) {
    IsAsciiAlnum(c) || IsSpace(c)
  }

  /** `s.replace(/[^a-zA-Z0-9\s]/g, '')`: deletes every character that is neither an
      ASCII letter or digit nor white space, keeping the rest in order. */
  function RemoveSpecial(s: string): (r: string)
    ensures |r| <= |s|
    ensures forall i :: 0 <= i < |r| ==> IsKept(r[i])
    ensures forall c :: c in r <==> c in s && IsKept(c)
  {
    if |s| == 0 then ""
    else if IsKept(s[0]) then [s[0]] + RemoveSpecial(s[1..])
    else RemoveSpecial(s[1..])
  }

  /** The deletion works character by character: the result for `a + b` is the result for
      `a` followed by the result for `b`. With `RemoveSpecialChar` this fixes the result
      completely, order and repeats included. */
  lemma {:induction false} RemoveSpecialConcat(a: string, b: string)
    ensures RemoveSpecial(a + b) == RemoveSpecial(a) + RemoveSpecial(b)
    decreases |a|
  {
    if |a| == 0 {
      assert a + b == b;
    } else {
      assert (a + b)[0] == a[0] && (a + b)[1..] == a[1..] + b;
      RemoveSpecialConcat(a[1..], b);
    }
  }

  /** One character is kept as it is or deleted. */
  lemma RemoveSpecialChar(c: char)
    ensures RemoveSpecial([c]) == if IsKept(c) then [c] else []
  {
  }

  /** The characters of `s` that are not white space, in order. */
  function NonSpace(s: string): string {
    if |s| == 0 then ""
    else if IsSpace(s[0]) then NonSpace(s[1..])
    else [s[0]] + NonSpace(s[1..])
  }

  /** `arr.join('')`. */
  function Join(ws: seq<string>): string {
    if |ws| == 0 then "" else ws[0] + Join(ws[1..])
  }

  predicate NoSpace(w: string) {
    forall i :: 0 <= i < |w| ==> !IsSpace(w[i])
  }

  /** `s.split(/\s+/)`: the pieces between maximal runs of white space. A leading or a
      trailing run gives an empty first or last piece, and "" gives [""]. */
  function SplitOnSpace(s: string): (ws: seq<string>)
    ensures |ws| > 0
    ensures forall i :: 0 <= i < |ws| ==> NoSpace(ws[i])
    ensures Join(ws) == NonSpace(s)
  {
    SplitFromPieces(s, "");
    assert "" + NonSpace(s) == NonSpace(s);
    SplitFrom(s, "")
  }

  /** The pieces break exactly at the maximal runs of white space: joined with one space
      between neighbours they give `s` with each such run squeezed to a single space. */
  lemma SplitOnSpaceJoinsSpaced(s: string)
    ensures JoinSpaced(SplitOnSpace(s)) == Squeeze(s)
  {
    SplitFromSqueeze(s, "");
    assert "" + Squeeze(s) == Squeeze(s);
  }

  /** `s` with every maximal run of white space replaced by a single space. */
  function Squeeze(s: string): string
    decreases |s|
  {
    if |s| == 0 then ""
    else if IsSpace(s[0]) then
      SkipSpaceRun(s);
      " " + Squeeze(TrimStart(s))
    else [s[0]] + Squeeze(s[1..])
  }

  /** `arr.join(' ')`. */
  function JoinSpaced(ws: seq<string>): string {
    if |ws| == 0 then ""
    else if |ws| == 1 then ws[0]
    else ws[0] + " " + JoinSpaced(ws[1..])
  }

  /** The pieces joined by single spaces give the input with its white-space runs
      squeezed, after the part of the first piece already read. */
  lemma {:induction false} SplitFromSqueeze(s: string, word: string)
    ensures JoinSpaced(SplitFrom(s, word)) == word + Squeeze(s)
    decreases |s|
  {
    if |s| == 0 {
      assert JoinSpaced([word]) == word;
    } else if IsSpace(s[0]) {
      SkipSpaceRun(s);
      var rest := SplitFrom(TrimStart(s), "");
      SplitFromPieces(TrimStart(s), "");
      SplitFromSqueeze(TrimStart(s), "");
      assert ([word] + rest)[0] == word && ([word] + rest)[1..] == rest;
      assert JoinSpaced(rest) == Squeeze(TrimStart(s));
    } else {
      SplitFromSqueeze(s[1..], word + [s[0]]);
      SnocAssoc(word, s[0], Squeeze(s[1..]));
    }
  }

  /** In pieces without white space joined by single spaces, the first space sits right
      after the first piece. */
  lemma FirstPieceEnds(ws: seq<string>)
    requires |ws| >= 2 && NoSpace(ws[0])
    ensures var t, m := JoinSpaced(ws), |ws[0]|;
      && m < |t| && t[m] == ' '
      && (forall i :: 0 <= i < m ==> !IsSpace(t[i]))
      && t[..m] == ws[0] && t[m + 1..] == JoinSpaced(ws[1..])
  {
    var t, m := JoinSpaced(ws), |ws[0]|;
    assert t == ws[0] + " " + JoinSpaced(ws[1..]);
    assert forall i :: 0 <= i < m ==> t[i] == ws[0][i];
  }

  /** Joined pieces contain no white space exactly when there is only one piece. */
  lemma NoSpaceIffSingle(ws: seq<string>)
    requires |ws| > 0 && forall i :: 0 <= i < |ws| ==> NoSpace(ws[i])
    ensures NoSpace(JoinSpaced(ws)) <==> |ws| == 1
  {
    if |ws| >= 2 {
      FirstPieceEnds(ws);
    }
  }

  /** Two positions that both hold the first white space of `t` are the same. */
  lemma FirstSpaceUnique(t: string, m: nat, n: nat)
    requires m < |t| && n < |t| && IsSpace(t[m]) && IsSpace(t[n])
    requires forall i :: 0 <= i < m ==> !IsSpace(t[i])
    requires forall i :: 0 <= i < n ==> !IsSpace(t[i])
    ensures m == n
  {
  }

  /** Non-empty lists of pieces without white space that join to the same text are equal:
      `SplitOnSpace` and `SplitOnSpaceJoinsSpaced` leave no freedom in where the pieces
      break. */
  lemma {:induction false} JoinSpacedDetermines(ws: seq<string>, vs: seq<string>)
    requires |ws| > 0 && forall i :: 0 <= i < |ws| ==> NoSpace(ws[i])
    requires |vs| > 0 && forall i :: 0 <= i < |vs| ==> NoSpace(vs[i])
    requires JoinSpaced(ws) == JoinSpaced(vs)
    ensures ws == vs
    decreases |ws|
  {
    NoSpaceIffSingle(ws);
    NoSpaceIffSingle(vs);
    if |ws| == 1 {
      assert ws == [JoinSpaced(ws)] && vs == [JoinSpaced(vs)];
    } else {
      var t := JoinSpaced(ws);
      FirstPieceEnds(ws);
      FirstPieceEnds(vs);
      FirstSpaceUnique(t, |ws[0]|, |vs[0]|);
      JoinSpacedDetermines(ws[1..], vs[1..]);
      assert ws == [ws[0]] + ws[1..] && vs == [vs[0]] + vs[1..];
    }
  }

  /** A non-empty list of pieces without white space whose single-space join is the
      squeezed text is the split itself. */
  lemma SplitOnSpaceIsUnique(s: string, ws: seq<string>)
    requires |ws| > 0 && forall i :: 0 <= i < |ws| ==> NoSpace(ws[i])
    requires JoinSpaced(ws) == Squeeze(s)
    ensures SplitOnSpace(s) == ws
  {
    SplitOnSpaceJoinsSpaced(s);
    JoinSpacedDetermines(SplitOnSpace(s), ws);
  }

  /** Two characters around one space are split into two one-character pieces. */
  lemma SplitTwoChars(a: char, b: char)
    requires !IsSpace(a) && !IsSpace(b)
    ensures SplitOnSpace([a, ' ', b]) == [[a], [b]]
  {
    SqueezeOneSpace(a, b);
    JoinTwoChars(a, b);
    TwoPieces(a, b);
    SplitOnSpaceIsUnique([a, ' ', b], [[a], [b]]);
  }

  lemma SqueezeOneSpace(a: char, b: char)
    requires !IsSpace(a) && !IsSpace(b)
    ensures Squeeze([a, ' ', b]) == [a, ' ', b]
  {
    var s := [a, ' ', b];
    assert s[1..] == [' ', b] && s[1..][1..] == [b];
    assert TrimStart([b]) == [b];
    assert TrimStart([' ', b]) == [b];
    assert Squeeze([b]) == [b] by {
      assert [b][1..] == [];
    }
    assert Squeeze([' ', b]) == [' ', b];
  }

  lemma TwoPieces(a: char, b: char)
    requires !IsSpace(a) && !IsSpace(b)
    ensures var ws := [[a], [b]]; |ws| > 0 && forall i :: 0 <= i < |ws| ==> NoSpace(ws[i])
  {
  }

  lemma JoinTwoChars(a: char, b: char)
    ensures JoinSpaced([[a], [b]]) == [a, ' ', b]
  {
    assert [[a], [b]][1..] == [[b]];
  }

  /** Splits `s`, given that `word` is the part of the current piece already read. */
  function SplitFrom(s: string, word: string): seq<string>
    decreases |s|
  {
    if |s| == 0 then [word]
    else if IsSpace(s[0]) then
      SkipSpaceRun(s);
      [word] + SplitFrom(TrimStart(s), "")
    else
      SplitFrom(s[1..], word + [s[0]])
  }

  /** `ws` is a non-empty list of pieces without white space that together spell `text`. */
  predicate Pieces(ws: seq<string>, text: string) {
    && |ws| > 0
    && (forall i :: 0 <= i < |ws| ==> NoSpace(ws[i]))
    && Join(ws) == text
  }

  /** The pieces together hold exactly the non-space characters, after the part of the
      first piece already read. */
  lemma {:induction false} SplitFromPieces(s: string, word: string)
    requires NoSpace(word)
    ensures Pieces(SplitFrom(s, word), word + NonSpace(s))
    decreases |s|
  {
    if |s| == 0 {
      OnePiece(word);
    } else if IsSpace(s[0]) {
      SkipSpaceRun(s);
      SplitFromPieces(TrimStart(s), "");
      assert "" + NonSpace(TrimStart(s)) == NonSpace(s);
      ClosePiece(word, SplitFrom(TrimStart(s), ""), NonSpace(s));
    } else {
      NonSpaceExtendsPiece(s, word);
      SplitFromPieces(s[1..], word + [s[0]]);
    }
  }

  lemma OnePiece(word: string)
    requires NoSpace(word)
    ensures Pieces([word], word + NonSpace(""))
  {
    assert Join([word]) == word + Join([]);
  }

  /** Leading white space contributes nothing to `NonSpace`. */
  lemma NonSpaceSkipsLeadingSpace(s: string)
    ensures NonSpace(TrimStart(s)) == NonSpace(s)
  {
  }

  /** A run of white space at the front is skipped as a whole: what follows is shorter and
      has the same non-space characters. */
  lemma SkipSpaceRun(s: string)
    requires |s| > 0 && IsSpace(s[0])
    ensures |TrimStart(s)| < |s| && NonSpace(TrimStart(s)) == NonSpace(s)
  {
    assert TrimStart(s) == TrimStart(s[1..]);
    NonSpaceSkipsLeadingSpace(s);
  }

  /** A finished piece in front of the pieces that follow it. */
  lemma ClosePiece(word: string, ws: seq<string>, text: string)
    requires NoSpace(word) && Pieces(ws, text)
    ensures Pieces([word] + ws, word + text)
  {
    assert ([word] + ws)[1..] == ws;
  }

  /** A character that is not white space moves from the input to the current piece. */
  lemma NonSpaceExtendsPiece(s: string, word: string)
    requires |s| > 0 && !IsSpace(s[0]) && NoSpace(word)
    ensures NoSpace(word + [s[0]])
    ensures (word + [s[0]]) + NonSpace(s[1..]) == word + NonSpace(s)
  {
    NoSpaceSnoc(word, s[0]);
    NonSpaceAtLetter(s);
    SnocAssoc(word, s[0], NonSpace(s[1..]));
  }

  lemma NonSpaceAtLetter(s: string)
    requires |s| > 0 && !IsSpace(s[0])
    ensures NonSpace(s) == [s[0]] + NonSpace(s[1..])
  {
  }

  lemma NoSpaceSnoc(w: string, c: char)
    requires NoSpace(w) && !IsSpace(c)
    ensures NoSpace(w + [c])
  {
    assert forall i :: 0 <= i < |w| ==> (w + [c])[i] == w[i];
  }

  lemma SnocAssoc(a: string, c: char, b: string)
    ensures (a + [c]) + b == a + ([c] + b)
  {
  }

  /** `w.charAt(0).toUpperCase() + w.slice(1).toLowerCase()`; "" stays "". */
  function Capitalize(w: string): (r: string)
    ensures |r| == |w|
    ensures |w| > 0 ==> r[0] == AsciiUpper(w[0])
    ensures forall i :: 0 < i < |w| ==> r[i] == AsciiLower(w[i])
  {
    if |w| == 0 then "" else [AsciiUpper(w[0])] + LowerAll(w[1..])
  }

  /** `toLowerCase` on a whole string. */
  function LowerAll(s: string): (r: string)
    ensures |r| == |s| && forall i :: 0 <= i < |s| ==> r[i] == AsciiLower(s[i])
  {
    seq(|s|, i requires 0 <= i < |s| => AsciiLower(s[i]))
  }

  /** `arr.map(Capitalize)`. */
  function CapitalizeEach(ws: seq<string>): (r: seq<string>)
    ensures |r| == |ws| && forall i :: 0 <= i < |ws| ==> r[i] == Capitalize(ws[i])
  {
    if |ws| == 0 then [] else [Capitalize(ws[0])] + CapitalizeEach(ws[1..])
  }
}

/** Worked values of `sanitizeClassName`, among them sample names of the source's own
    driver. Each value comes from a general lemma about words, instantiated with the
    literal words, and a separate lemma for the literal spelling, so that the solver never
    has to evaluate the sanitiser on a literal character by character. */
module SanitizeExamples {
  import opened JsValues
  import opened JsText
  import opened Sanitize

  /** A capitalised word: an upper-case ASCII letter followed by lower-case ones. */
  predicate IsCapitalized(w: string) {
    |w| > 0 && 'A' <= w[0] <= 'Z' && forall i :: 0 < i < |w| ==> 'a' <= w[i] <= 'z'
  }

  /** A capitalised word survives as it is at the start of a word, and is lower-cased
      inside one. */
  lemma CapitalizedWord(w: string)
    requires IsCapitalized(w)
    ensures WordCase(w, true) == w && !AtWordStartAfter(w, true)
    ensures WordCase(w, false) == LowerAll(w)
  {
    AlnumWord(w);
    assert Capitalize(w) == w;
  }

  /** Two capitalised words separated by a space are joined as they are. */
  lemma SpacedWords(a: string, b: string)
    requires IsCapitalized(a) && IsCapitalized(b)
    ensures WordCase(a + [' '] + b, true) == a + b
  {
    CapitalizedWord(a);
    CapitalizedWord(b);
    WordCaseConcat(a, [' '] + b, true);
    WordCaseConcat([' '], b, false);
    assert a + [' '] + b == a + ([' '] + b);
  }

  /** Two capitalised words written together are one word: the second one's capital is
      lower-cased. */
  lemma JoinedWords(a: string, b: string)
    requires IsCapitalized(a) && IsCapitalized(b)
    ensures WordCase(a + b, true) == a + LowerAll(b)
  {
    CapitalizedWord(a);
    CapitalizedWord(b);
    WordCaseConcat(a, b, true);
  }

  /** A hyphen inside a word is deleted and leaves the scanner inside the word. */
  lemma HyphenInsideWord(b: string)
    ensures WordCase(['-'] + b, false) == WordCase(b, false)
  {
    WordCaseConcat(['-'], b, false);
    assert WordCase(['-'], false) == "" && !AtWordStartAfter(['-'], false);
  }

  /** A hyphen between two capitalised words is deleted without separating them. */
  lemma HyphenatedWords(a: string, b: string)
    requires IsCapitalized(a) && IsCapitalized(b)
    ensures WordCase(a + ['-'] + b, true) == a + LowerAll(b)
  {
    CapitalizedWord(a);
    CapitalizedWord(b);
    HyphenInsideWord(b);
    WordCaseConcat(a, ['-'] + b, true);
    assert a + ['-'] + b == a + (['-'] + b);
  }

  lemma QualityControlText()
    ensures "Quality" + [' '] + "Control" == "Quality Control"
    ensures "Quality" + "Control" == "QualityControl"
    ensures LowerAll("Control") == "control"
    ensures "Quality" + "control" == "Qualitycontrol"
    ensures "QualityControl" != "Qualitycontrol"
  {
    assert "QualityControl"[7] != "Qualitycontrol"[7];
  }

  lemma CostAnalysisText()
    ensures "Cost" + [' '] + "Analysis" == "Cost Analysis"
    ensures "Cost" + ['-'] + "Analysis" == "Cost-Analysis"
    ensures "Cost" + "Analysis" == "CostAnalysis"
    ensures LowerAll("Analysis") == "analysis"
  {
  }

  lemma QualityControlWords()
    ensures WordCase("Quality Control", true) == "QualityControl"
  {
    SpacedWords("Quality", "Control");
    QualityControlText();
  }

  lemma CostAnalysisWords()
    ensures WordCase("Cost Analysis", true) == "CostAnalysis"
  {
    SpacedWords("Cost", "Analysis");
    CostAnalysisText();
  }

  lemma QualityControl()
    ensures SanitizeClassName(Str("Quality Control")) == Some("QualityControl")
  {
    QualityControlWords();
  }

  lemma QualityControlAgain()
    ensures SanitizeClassName(Str("QualityControl")) == Some("Qualitycontrol")
  {
    JoinedWords("Quality", "Control");
    QualityControlText();
  }

  lemma PunctuationOnly()
    ensures SanitizeClassName(Str(" - ")) == Some("")
  {
    SanitizeNoAlnum(" - ");
  }

  lemma CostAnalysis()
    ensures SanitizeClassName(Str("Cost Analysis")) == Some("CostAnalysis")
  {
    CostAnalysisWords();
  }

  lemma CostHyphenAnalysis()
    ensures SanitizeClassName(Str("Cost-Analysis")) == Some("Costanalysis")
  {
    HyphenatedWords("Cost", "Analysis");
    CostAnalysisText();
    assert "Cost" + "analysis" == "Costanalysis";
  }

  /** Sample names: the separators go and each word is capitalised; the empty string and
      non-strings give null, and a name of punctuation alone gives the empty identifier. */
  lemma SanitizeSamples()
    ensures SanitizeClassName(Str("Quality Control")) == Some("QualityControl")
    ensures SanitizeClassName(Str("")) == None && SanitizeClassName(NonString) == None
    ensures SanitizeClassName(Str(" - ")) == Some("")
  {
    QualityControl();
    PunctuationOnly();
  }

  /** A hyphen is deleted without separating words, so "Cost-Analysis" and "Cost Analysis"
      give different identifiers. */
  lemma HyphenJoinsWords()
    ensures SanitizeClassName(Str("Cost Analysis")) == Some("CostAnalysis")
    ensures SanitizeClassName(Str("Cost-Analysis")) == Some("Costanalysis")
  {
    CostAnalysis();
    CostHyphenAnalysis();
  }

  /** Sanitisation is not idempotent: an identifier with an inner capital is read as one
      word, so sanitising it again lower-cases that capital. */
  lemma SanitizeIsNotIdempotent()
    ensures SanitizeClassName(Str("Quality Control")) == Some("QualityControl")
    ensures SanitizeClassName(Str("QualityControl")) == Some("Qualitycontrol")
    ensures "QualityControl" != "Qualitycontrol"
  {
    QualityControl();
    QualityControlAgain();
    QualityControlText();
  }
}

/** The page's placeholder text "I want a phone under $500 for gaming", lower-cased
    and cut into words, in halves small enough for the verifier to evaluate. */
module PlaceholderText {
  import opened JsText

  const PLACEHOLDER: string := "I want a phone under $500 for gaming"

  const PLACEHOLDER_WORDS: seq<string> := ["i", "want", "a", "phone", "under", "$500", "for", "gaming"]

  /** The words of three or more characters. */
  const PLACEHOLDER_TOKENS: seq<string> := ["want", "phone", "under", "$500", "for", "gaming"]

  lemma PlaceholderHalves()
    ensures PLACEHOLDER == "I want a phone " + "under $500 for gaming"
  {
  }

  lemma FrontLower()
    ensures Lower("I want a phone ") == "i want a phone "
  {
  }

  lemma BackLower()
    ensures Lower("under $500 for gaming") == "under $500 for gaming"
  {
  }

  lemma LoweredHalves()
    ensures "i want a phone " + "under $500 for gaming" == "i want a phone under $500 for gaming"
  {
  }

  lemma PlaceholderLowered()
    ensures Lower(PLACEHOLDER) == "i want a phone under $500 for gaming"
  {
    PlaceholderHalves();
    LowerAppend("I want a phone ", "under $500 for gaming");
    FrontLower();
    BackLower();
    LoweredHalves();
  }

  lemma PlaceholderWordHalves()
    ensures PLACEHOLDER_WORDS == ["i", "want", "a", "phone"] + ["under", "$500", "for", "gaming"]
  {
  }

  lemma PlaceholderTokenHalves()
    ensures PLACEHOLDER_TOKENS == ["want", "phone"] + ["under", "$500", "for", "gaming"]
  {
  }

  lemma FrontJoined()
    ensures "i" + " " + "want" + " " + "a" + " " + "phone" == "i want a phone"
  {
  }

  lemma BackJoined()
    ensures "under" + " " + "$500" + " " + "for" + " " + "gaming" == "under $500 for gaming"
  {
  }

  lemma JoinedHalves()
    ensures "i want a phone" + " " + "under $500 for gaming" == "i want a phone under $500 for gaming"
  {
  }

  lemma PlaceholderJoined()
    ensures Join(PLACEHOLDER_WORDS, " ") == "i want a phone under $500 for gaming"
  {
    PlaceholderWordHalves();
    JoinAppend(["i", "want", "a", "phone"], ["under", "$500", "for", "gaming"], " ");
    JoinFour("i", "want", "a", "phone", " ");
    JoinFour("under", "$500", "for", "gaming", " ");
    FrontJoined();
    BackJoined();
    JoinedHalves();
  }

  lemma PlaceholderWordsClean()
    ensures forall k :: 0 <= k < |PLACEHOLDER_WORDS| ==>
              PLACEHOLDER_WORDS[k] != [] && NoWhitespace(PLACEHOLDER_WORDS[k])
  {
  }
}

/**
 * The shipped catalog's strings cut into pieces and lower-cased piece by piece,
 * each piece small enough for the verifier to evaluate on its own; `Scenarios`
 * builds its statements about the catalog from them.
 */
module CatalogText {
  import opened JsText
  import opened Catalog

  lemma EverydayLaptopDescriptionText()
    ensures PRODUCTS[4].description == "Affordable laptop for students and office work."
  {
  }

  lemma EverydayLaptopDescriptionPieces()
    ensures "Affordable laptop for students and office work." == "Affordable laptop for" + " students and office work."
  {
  }

  lemma EverydayLaptopDescription()
    ensures PRODUCTS[4].description == "Affordable laptop for" + " students and office work."
  {
    EverydayLaptopDescriptionText();
    EverydayLaptopDescriptionPieces();
  }

  lemma EverydayLaptopFrontLower()
    ensures Lower("Affordable laptop for") == "affordable laptop for"
  {
  }

  lemma GamingLaptopNameLower()
    ensures Lower("Gaming Laptop G15") == "gaming laptop g15"
  {
  }

  lemma ProPhoneNameLower()
    ensures Lower("Pro Phone Z5") == "pro phone z5"
  {
  }

  lemma BudgetPhoneNameLower()
    ensures Lower("Budget Phone X1") == "budget phone x1"
  {
  }

  lemma SmartwatchNameLower()
    ensures Lower("Smartwatch Lite") == "smartwatch lite"
  {
  }

  lemma SmartwatchFrontLower()
    ensures Lower("Lightweight smartwatch with") == "lightweight smartwatch with"
  {
  }

  lemma SmartwatchBackLower()
    ensures Lower("fitness tracking features.") == "fitness tracking features."
  {
  }

  lemma SmartwatchCategoryLower()
    ensures Lower("Watch") == "watch"
  {
  }

  lemma EarbudsNameLower()
    ensures Lower("Wireless Earbuds") == "wireless earbuds"
  {
  }

  lemma EarbudsFrontLower()
    ensures Lower("Noise-cancelling wireless earbuds") == "noise-cancelling wireless earbuds"
  {
  }

  lemma EarbudsBackLower()
    ensures Lower("with long battery life.") == "with long battery life."
  {
  }

  lemma EarbudsCategoryLower()
    ensures Lower("Audio") == "audio"
  {
  }

  lemma SmartwatchDescriptionText()
    ensures PRODUCTS[2].description == "Lightweight smartwatch with fitness tracking features."
  {
  }

  lemma SmartwatchDescriptionPieces()
    ensures "Lightweight smartwatch with fitness tracking features." == "Lightweight smartwatch with" + " " + "fitness tracking features."
  {
  }

  lemma SmartwatchDescription()
    ensures PRODUCTS[2].description == "Lightweight smartwatch with" + " " + "fitness tracking features."
  {
    SmartwatchDescriptionText();
    SmartwatchDescriptionPieces();
  }

  lemma EarbudsDescriptionText()
    ensures PRODUCTS[5].description == "Noise-cancelling wireless earbuds with long battery life."
  {
  }

  lemma EarbudsDescriptionPieces()
    ensures "Noise-cancelling wireless earbuds with long battery life." == "Noise-cancelling wireless earbuds" + " " + "with long battery life."
  {
  }

  lemma EarbudsDescription()
    ensures PRODUCTS[5].description == "Noise-cancelling wireless earbuds" + " " + "with long battery life."
  {
    EarbudsDescriptionText();
    EarbudsDescriptionPieces();
  }
}

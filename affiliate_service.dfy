/** Search links for a car's parts (frontend/src/services/affiliateService.js):
    an eBay and an Amazon search URL sharing the query
    `{year}+{make}+{model}+parts`, or the placeholder `#` for both when the
    car or one of its fields is missing or falsy. */
module AffiliateService {
  import opened Wrappers
  import opened Text

  /** A car as the frontend holds it: any field may be missing. */
  datatype ListingCar = ListingCar(make: Option<string>, model: Option<string>, year: Option<int>)

  datatype Links = Links(ebay: string, amazon: string)

  const Placeholder: string := "#"
  const EbayPrefix: string := "https://www.ebay.com/sch/i.html?_nkw="
  const EbaySuffix: string := "&_sacat=0"
  const AmazonPrefix: string := "https://www.amazon.com/s?k="
  const AmazonSuffix: string := "&tag=carfilthscore-20"

  /** JavaScript truthiness of a string field: present and non-empty. */
  predicate TruthyText(s: Option<string>) {
    s.Some? && s.value != ""
  }

  /** JavaScript truthiness of a numeric field: present and non-zero. */
  predicate TruthyNumber(n: Option<int>) {
    n.Some? && n.value != 0
  }

  /** A car the links can be built for: present, with a non-empty make and
      model and a non-zero year. */
  predicate Linkable(car: Option<ListingCar>) {
    car.Some? && TruthyText(car.value.make) && TruthyText(car.value.model) && TruthyNumber(car.value.year)
  }

  function SearchQuery(year: int, make: string, model: string): string {
    IntToString(year) + "+" + make + "+" + model + "+parts"
  }

  /** The query a linkable car searches for. */
  function QueryOf(car: Option<ListingCar>): string
    requires Linkable(car)
  {
    SearchQuery(car.value.year.value, car.value.make.value, car.value.model.value)
  }

  function GenerateAffiliateLink(car: Option<ListingCar>): (links: Links)
    ensures !Linkable(car) <==> links.ebay == Placeholder
    ensures !Linkable(car) <==> links.amazon == Placeholder
    ensures !Linkable(car) ==> links == Links(Placeholder, Placeholder)
    ensures Linkable(car) ==> links.ebay == EbayPrefix + QueryOf(car) + EbaySuffix
    ensures Linkable(car) ==> links.amazon == AmazonPrefix + QueryOf(car) + AmazonSuffix
  {
    if !Linkable(car) then
      Links(Placeholder, Placeholder)
    else
      var searchQuery := QueryOf(car);
      Links(EbayPrefix + searchQuery + EbaySuffix, AmazonPrefix + searchQuery + AmazonSuffix)
  }

  /** Reads the search query back out of a link with the given prefix and
      suffix, or None when the link does not have that shape. */
  function QueryInLink(link: string, prefix: string, suffix: string): (q: Option<string>)
    ensures q.Some? ==> link == prefix + q.value + suffix
  {
    if |prefix| + |suffix| <= |link| && link[..|prefix|] == prefix && link[|link| - |suffix|..] == suffix then
      var q := link[|prefix|..|link| - |suffix|];
      assert link == link[..|prefix|] + q + link[|link| - |suffix|..];
      Some(q)
    else
      None
  }

  lemma QueryInLinkRoundTrip(prefix: string, q: string, suffix: string)
    ensures QueryInLink(prefix + q + suffix, prefix, suffix) == Some(q)
  {
    var link := prefix + q + suffix;
    assert link[..|prefix|] == prefix;
    assert link[|link| - |suffix|..] == suffix;
    assert link[|prefix|..|link| - |suffix|] == q;
  }

  /** Never mixed: both links are real URLs that carry the same query, or
      both are the placeholder. */
  lemma LinksAgree(car: Option<ListingCar>)
    ensures var links := GenerateAffiliateLink(car);
      && (links.ebay == Placeholder <==> links.amazon == Placeholder)
      && (Linkable(car) ==>
            && QueryInLink(links.ebay, EbayPrefix, EbaySuffix) == Some(QueryOf(car))
            && QueryInLink(links.amazon, AmazonPrefix, AmazonSuffix) == Some(QueryOf(car)))
      && (!Linkable(car) ==>
            && QueryInLink(links.ebay, EbayPrefix, EbaySuffix).None?
            && QueryInLink(links.amazon, AmazonPrefix, AmazonSuffix).None?)
  {
    if Linkable(car) {
      QueryInLinkRoundTrip(EbayPrefix, QueryOf(car), EbaySuffix);
      QueryInLinkRoundTrip(AmazonPrefix, QueryOf(car), AmazonSuffix);
    }
  }

  /** Where the shop names and the affiliate tag stand in the fixed parts. */
  lemma EbayPrefixNamesShop()
    ensures OccursAt(EbayPrefix, "ebay.com", 12)
  {
    assert EbayPrefix == "https://www." + "ebay.com" + "/sch/i.html?_nkw=";
    OccursBetween("https://www.", "ebay.com", "/sch/i.html?_nkw=");
  }

  lemma AmazonPrefixNamesShop()
    ensures OccursAt(AmazonPrefix, "amazon.com", 12)
  {
    assert AmazonPrefix == "https://www." + "amazon.com" + "/s?k=";
    OccursBetween("https://www.", "amazon.com", "/s?k=");
  }

  lemma AmazonSuffixHoldsTag()
    ensures OccursAt(AmazonSuffix, "tag=carfilthscore-20", 1)
  {
    assert AmazonSuffix == "&" + "tag=carfilthscore-20" + "";
    OccursBetween("&", "tag=carfilthscore-20", "");
  }

  /** Both links hold the query, point at their shop, and the Amazon link
      holds the affiliate tag. */
  lemma LinksHoldQuery(car: Option<ListingCar>)
    requires Linkable(car)
    ensures var links := GenerateAffiliateLink(car);
      && Contains(links.ebay, QueryOf(car))
      && Contains(links.amazon, QueryOf(car))
      && Contains(links.ebay, "ebay.com")
      && Contains(links.amazon, "amazon.com")
      && Contains(links.amazon, "tag=carfilthscore-20")
  {
    var q := QueryOf(car);
    EbayPrefixNamesShop();
    AmazonPrefixNamesShop();
    AmazonSuffixHoldsTag();
    OccursBetween(EbayPrefix, q, EbaySuffix);
    OccursBetween(AmazonPrefix, q, AmazonSuffix);
    OccursKept(EbayPrefix, q, "ebay.com", 12);
    OccursKept(EbayPrefix + q, EbaySuffix, "ebay.com", 12);
    OccursKept(AmazonPrefix, q, "amazon.com", 12);
    OccursKept(AmazonPrefix + q, AmazonSuffix, "amazon.com", 12);
    OccursAfter(AmazonPrefix + q, AmazonSuffix, "tag=carfilthscore-20", 1);
  }

  /** The example of a complete car: the query is `1998+Toyota+Corolla+parts`. */
  lemma CompleteCarExample()
    ensures QueryOf(Some(ListingCar(Some("Toyota"), Some("Corolla"), Some(1998)))) == "1998+Toyota+Corolla+parts"
  {
    assert NatToString(1998) == "1998" by {
      assert NatToString(1) == "1";
      assert NatToString(19) == "19";
      assert NatToString(199) == "199";
    }
  }

  /** A null car and a car with only a make both get placeholders. */
  lemma PartialCarExamples()
    ensures GenerateAffiliateLink(None) == Links("#", "#")
    ensures GenerateAffiliateLink(Some(ListingCar(Some("Toyota"), None, None))) == Links("#", "#")
  {
  }
}

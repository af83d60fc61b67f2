/**
 * The pure logic inside the list view model: turning one raw page entry into
 * a displayed entry (number taken from the resource URL, sprite URL, name
 * capitalised) and the search filter.
 */
module PokemonEntries {
  import opened Strings
  import opened Repository

  /** One entry of the displayed list: display name, sprite URL and catalog number. */
  datatype PokedexListEntry = PokedexListEntry(pokemonName: string, imageUrl: string, number: int)

  const SpritePrefix := "https://raw.githubusercontent.com/PokeAPI/sprites/master/sprites/pokemon/"

  predicate EndsWithSlash(s: string) {
    |s| > 0 && s[|s| - 1] == '/'
  }

  /** The URL with at most one trailing `/` removed. */
  function DropTrailingSlash(url: string): (base: string)
    ensures |base| <= |url| && base == url[..|base|]
    ensures |base| == |url| - 1 <==> EndsWithSlash(url)
    ensures !EndsWithSlash(url) ==> base == url
  {
    if EndsWithSlash(url) then url[..|url| - 1] else url
  }

  /**
   * The number string of a resource URL: after dropping one trailing `/`,
   * the longest run of digits that ends what is left.
   */
  function UrlNumber(url: string): (r: string)
    ensures AllDigits(r)
  {
    TakeLastWhileDigit(DropTrailingSlash(url))
  }

  /**
   * The number string is the longest run of digits ending the URL once at
   * most one trailing `/` is dropped.
   */
  lemma UrlNumberIsTrailingDigitRun(url: string)
    ensures var base := DropTrailingSlash(url); var r := UrlNumber(url);
      && |r| <= |base| && r == base[|base| - |r|..]
      && (|r| < |base| ==> !IsDigit(base[|base| - |r| - 1]))
  {
  }

  /** A URL whose path ends in a number, with or without a trailing `/`, gives that number's digits. */
  lemma UrlNumberOf(prefix: string, n: nat, slash: bool)
    requires prefix == [] || !IsDigit(prefix[|prefix| - 1])
    ensures UrlNumber(prefix + DecimalString(n) + (if slash then "/" else "")) == DecimalString(n)
  {
    var d := DecimalString(n);
    var url := prefix + d + (if slash then "/" else "");
    assert DropTrailingSlash(url) == prefix + d;
    TakeLastWhileDigitAfter(prefix, d);
  }

  /** Both spellings of a resource URL such as `.../pokemon/25/` give the number string "25". */
  lemma UrlNumberExamples(prefix: string)
    requires EndsWithSlash(prefix)
    ensures UrlNumber(prefix + "25/") == "25"
    ensures UrlNumber(prefix + "25") == "25"
  {
    assert DecimalString(25) == "25" by {
      assert DecimalString(2) == "2";
    }
    assert prefix + "25/" == prefix + "25" + "/";
    assert prefix + "25" == prefix + "25" + "";
    UrlNumberOf(prefix, 25, true);
    UrlNumberOf(prefix, 25, false);
  }

  /**
   * The sprite image URL for a number string: the sprite prefix, the number
   * string and the `.png` extension, from which the number string can be read
   * back.
   */
  function SpriteUrl(number: string): (url: string)
    ensures |url| == |SpritePrefix| + |number| + 4
    ensures url[..|SpritePrefix|] == SpritePrefix
    ensures url[|SpritePrefix|..|SpritePrefix| + |number|] == number
    ensures url[|SpritePrefix| + |number|..] == ".png"
  {
    SpritePrefix + number + ".png"
  }

  /** Different number strings give different sprite URLs. */
  lemma SpriteUrlInjective(a: string, b: string)
    requires SpriteUrl(a) == SpriteUrl(b)
    ensures a == b
  {
  }

  /** `number.toInt()` does not throw: after one trailing `/` is dropped, the URL ends in a digit. */
  predicate Parses(item: ResultItem) {
    var base := DropTrailingSlash(item.url);
    |base| > 0 && IsDigit(base[|base| - 1])
  }

  /** An entry parses exactly when its number string is non-empty. */
  lemma ParsesIff(item: ResultItem)
    ensures Parses(item) <==> UrlNumber(item.url) != []
  {
  }

  predicate PageParses(page: PokemonList) {
    forall i :: 0 <= i < |page.results| ==> Parses(page.results[i])
  }

  /** The body of the `mapIndexed` lambda: one raw entry to one displayed entry. */
  function ToEntry(item: ResultItem): (e: PokedexListEntry)
    requires Parses(item)
    ensures e.number >= 0
    ensures |e.pokemonName| == |item.name|
    ensures e.imageUrl == SpriteUrl(UrlNumber(item.url))
  {
    var number := UrlNumber(item.url);
    PokedexListEntry(Capitalize(item.name), SpriteUrl(number), ParseDigits(number))
  }

  /**
   * An entry whose URL ends in the decimal form of `n` (and one optional `/`)
   * gets number `n`, the sprite for `n`, and the name with its first letter
   * titlecased.
   */
  lemma ToEntryOfUrl(name: string, prefix: string, n: nat, slash: bool)
    requires prefix == [] || !IsDigit(prefix[|prefix| - 1])
    ensures var item := ResultItem(name, prefix + DecimalString(n) + (if slash then "/" else ""));
      && Parses(item)
      && ToEntry(item).number == n
      && ToEntry(item).imageUrl == SpriteUrl(IntToString(n))
      && ToEntry(item).pokemonName == Capitalize(name)
  {
    UrlNumberOf(prefix, n, slash);
    ParseDecimalString(n);
  }

  /** When the URL's digit run has no leading zero, the stored number prints back as that run. */
  lemma ToEntryNumberPrintsBack(item: ResultItem)
    requires Parses(item) && IsCanonicalDecimal(UrlNumber(item.url))
    ensures IntToString(ToEntry(item).number) == UrlNumber(item.url)
  {
    DecimalStringOfParse(UrlNumber(item.url));
  }

  /** The page's entries mapped one by one, in result order, as `mapIndexed` does. */
  function MapEntries(results: seq<ResultItem>): (r: seq<PokedexListEntry>)
    requires forall i :: 0 <= i < |results| ==> Parses(results[i])
    ensures |r| == |results|
    ensures forall i :: 0 <= i < |results| ==> r[i] == ToEntry(results[i])
  {
    seq(|results|, (i: int) requires 0 <= i < |results| => ToEntry(results[i]))
  }

  /**
   * The predicate given to `filter`: the name contains the trimmed query,
   * ignoring case, or the number prints as exactly the trimmed query. A blank
   * query matches every entry, and so does the entry's own name in any case.
   */
  predicate SearchMatches(e: PokedexListEntry, query: string): (b: bool)
    ensures Trim(query) == [] ==> b
    ensures EqualsIgnoreCase(e.pokemonName, Trim(query)) ==> b
  {
    var q := Trim(query);
    ContainsEmpty(e.pokemonName);
    ContainsIgnoreCase(e.pokemonName, q) || IntToString(e.number) == q
  }

  /**
   * For a non-negative number, the number half of the match rule holds exactly
   * when the trimmed query is a decimal numeral without leading zeros for it.
   */
  lemma SearchMatchesIff(e: PokedexListEntry, query: string)
    requires e.number >= 0
    ensures SearchMatches(e, query) <==>
      ContainsIgnoreCase(e.pokemonName, Trim(query)) ||
      (IsCanonicalDecimal(Trim(query)) && ParseDigits(Trim(query)) == e.number)
  {
    DecimalStringIff(e.number, Trim(query));
  }

  /** The entries of `list` that match the query, in list order. */
  function FilterEntries(list: seq<PokedexListEntry>, query: string): (r: seq<PokedexListEntry>)
    ensures |r| <= |list|
    ensures forall e :: e in r <==> e in list && SearchMatches(e, query)
  {
    if list == [] then []
    else (if SearchMatches(list[0], query) then [list[0]] else []) + FilterEntries(list[1..], query)
  }

  /** Filtering a concatenation filters each part and keeps them in order. */
  lemma {:induction false} FilterAppend(a: seq<PokedexListEntry>, b: seq<PokedexListEntry>, query: string)
    ensures FilterEntries(a + b, query) == FilterEntries(a, query) + FilterEntries(b, query)
  {
    if a == [] {
      assert a + b == b;
    } else {
      assert (a + b)[0] == a[0];
      assert (a + b)[1..] == a[1..] + b;
      FilterAppend(a[1..], b, query);
    }
  }

  /** When every entry matches, the filter keeps the whole list unchanged. */
  lemma {:induction false} FilterKeepsAll(list: seq<PokedexListEntry>, query: string)
    requires forall i :: 0 <= i < |list| ==> SearchMatches(list[i], query)
    ensures FilterEntries(list, query) == list
  {
    if list != [] {
      FilterKeepsAll(list[1..], query);
    }
  }

  /** A query of only whitespace trims to "" and so keeps every entry. */
  lemma FilterBlankQuery(list: seq<PokedexListEntry>, query: string)
    requires forall i :: 0 <= i < |query| ==> IsWhitespace(query[i])
    ensures FilterEntries(list, query) == list
  {
    TrimAllWhitespace(query);
    forall i | 0 <= i < |list|
      ensures SearchMatches(list[i], query)
    {
      ContainsEmpty(list[i].pokemonName);
    }
    FilterKeepsAll(list, query);
  }

  /** Filtering the filtered list again with the same query changes nothing. */
  lemma FilterIdempotent(list: seq<PokedexListEntry>, query: string)
    ensures FilterEntries(FilterEntries(list, query), query) == FilterEntries(list, query)
  {
    var r := FilterEntries(list, query);
    assert forall i :: 0 <= i < |r| ==> r[i] in r;
    FilterKeepsAll(r, query);
  }

  lemma BulbasaurHasBulb()
    ensures ContainsIgnoreCase("Bulbasaur", "bulb")
  {
    assert "Bulbasaur"[0..4] == "Bulb";
    assert LowerCase('B') == 'b';
    assert EqualsIgnoreCase("Bulb", "bulb");
    assert RegionMatches("Bulbasaur", 0, "bulb");
  }

  lemma IvysaurLacksBulb()
    ensures !ContainsIgnoreCase("Ivysaur", "bulb")
  {
    forall k | 0 <= k <= 3 ensures !RegionMatches("Ivysaur", k, "bulb") {
      assert LowerCase("Ivysaur"[k]) != 'b';
    }
  }

  lemma BulbasaurLacksTwo()
    ensures !ContainsIgnoreCase("Bulbasaur", "2")
  {
    forall k | 0 <= k <= 8 ensures !RegionMatches("Bulbasaur", k, "2") {
      assert LowerCase("Bulbasaur"[k]) != '2';
    }
  }

  lemma SampleQueriesTrim()
    ensures Trim("bulb") == "bulb" && Trim(" 2 ") == "2"
  {
    TrimNoOp("bulb");
    assert " 2 "[1..] == "2 " && "2 "[..1] == "2";
    assert TrimStart(" 2 ") == TrimStart("2 ") == "2 ";
    assert TrimEnd("2 ") == TrimEnd("2") == "2";
  }

  /** The name query "bulb" matches Bulbasaur (1) and not Ivysaur (2), whatever their sprite URLs. */
  lemma SampleNameMatches(bulbasaur: PokedexListEntry, ivysaur: PokedexListEntry)
    requires bulbasaur.pokemonName == "Bulbasaur" && bulbasaur.number == 1
    requires ivysaur.pokemonName == "Ivysaur" && ivysaur.number == 2
    ensures SearchMatches(bulbasaur, "bulb") && !SearchMatches(ivysaur, "bulb")
  {
    SampleQueriesTrim();
    assert IntToString(2) == "2";
    BulbasaurHasBulb();
    IvysaurLacksBulb();
  }

  /** The number query " 2 " matches Ivysaur (2) and not Bulbasaur (1). */
  lemma SampleNumberMatches(bulbasaur: PokedexListEntry, ivysaur: PokedexListEntry)
    requires bulbasaur.pokemonName == "Bulbasaur" && bulbasaur.number == 1
    requires ivysaur.pokemonName == "Ivysaur" && ivysaur.number == 2
    ensures !SearchMatches(bulbasaur, " 2 ") && SearchMatches(ivysaur, " 2 ")
  {
    SampleQueriesTrim();
    assert IntToString(1) == "1" && IntToString(2) == "2";
    BulbasaurLacksTwo();
  }

  /** Filtering a two-entry list keeps each of the two exactly when it matches. */
  lemma FilterPair(a: PokedexListEntry, b: PokedexListEntry, query: string)
    ensures FilterEntries([a, b], query) ==
      (if SearchMatches(a, query) then [a] else []) + (if SearchMatches(b, query) then [b] else [])
  {
    assert [a, b][1..] == [b] && [b][1..] == [];
  }

  /** Sample search over the first two catalog entries: by name fragment, then by number. */
  lemma FilterExamples()
    ensures var bulbasaur := PokedexListEntry("Bulbasaur", SpriteUrl("1"), 1);
      var ivysaur := PokedexListEntry("Ivysaur", SpriteUrl("2"), 2);
      && FilterEntries([bulbasaur, ivysaur], "bulb") == [bulbasaur]
      && FilterEntries([bulbasaur, ivysaur], " 2 ") == [ivysaur]
  {
    var bulbasaur := PokedexListEntry("Bulbasaur", SpriteUrl("1"), 1);
    var ivysaur := PokedexListEntry("Ivysaur", SpriteUrl("2"), 2);
    FilterPair(bulbasaur, ivysaur, "bulb");
    FilterPair(bulbasaur, ivysaur, " 2 ");
    SampleNameMatches(bulbasaur, ivysaur);
    SampleNumberMatches(bulbasaur, ivysaur);
  }
}

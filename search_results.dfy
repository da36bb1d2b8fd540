/**
 * The search-results pane: a case-insensitive substring filter over search
 * records that keeps their order, the empty state or the counted header,
 * and one card per kept record with at most two inline tags.
 */
module SearchResults {
  import opened Options
  import opened Sequences
  import opened Text

  datatype SearchResult = SearchResult(
    id: string,
    title: string,
    description: string,
    category: string,
    tags: seq<string>,
    relevance: int)

  /** The query shown when none is given. */
  const DefaultQuery := "installation"

  /** Three long descriptions, named so that proofs about them can refer to them. */
  const UserRolesDescription := "Understanding user roles " + "and permission management " + "in CARGEN POS"
  const SalesDescription := "Complete guide to processing " + "sales transactions and " + "handling payments"
  const QuickStartDescription := "Get up and running with " + "CARGEN POS in minutes"

  /**
   * The records searched when none are given. Long descriptions are written
   * as a concatenation of shorter literals; the strings are the same.
   */
  const MockSearchResults: seq<SearchResult> := [
    SearchResult("installation", "Installation Guide",
      "Step-by-step instructions " + "for installing CARGEN POS " + "on your system",
      "Getting Started", ["Setup", "Installation"], 95),
    SearchResult("user-roles", "User Roles & Permissions", UserRolesDescription,
      "User Management", ["Security", "Users", "Permissions"], 87),
    SearchResult("sales-processing", "Sales Processing", SalesDescription,
      "POS Operations", ["Sales", "Transactions", "POS"], 82),
    SearchResult("quick-start", "Quick Start Guide", QuickStartDescription,
      "Getting Started", ["Getting Started", "Tutorial"], 78)
  ]

  /**
   * A record matches when the lower-cased query occurs in its lower-cased
   * title, in its lower-cased description, or in some lower-cased tag.
   */
  predicate Matches(query: string, result: SearchResult) {
    var q := Lower(query);
    || Contains(q, Lower(result.title))
    || Contains(q, Lower(result.description))
    || exists tag <- result.tags :: Contains(q, Lower(tag))
  }

  /** The matching records, in the order given. */
  function Filter(query: string, results: seq<SearchResult>): (filtered: seq<SearchResult>)
    ensures forall r :: r in filtered <==> r in results && Matches(query, r)
  {
    Keep(results, r => Matches(query, r))
  }

  /** The filtered list is a subsequence of the input: records are never reordered. */
  lemma FilterPreservesOrder(query: string, results: seq<SearchResult>)
    ensures IsSubsequence(Filter(query, results), results)
  {
    KeepIsSubsequence(results, r => Matches(query, r));
  }

  /** Each matching record is kept as often as it occurs; no other record is kept. */
  lemma FilterCounts(query: string, results: seq<SearchResult>)
    ensures forall r :: multiset(Filter(query, results))[r] == if Matches(query, r) then multiset(results)[r] else 0
  {
    KeepCounts(results, r => Matches(query, r));
  }

  /** The empty query is contained in every title, so it keeps every record. */
  lemma EmptyQueryKeepsAll(results: seq<SearchResult>)
    ensures Filter("", results) == results
  {
    assert Lower("") == "";
    forall r | r in results ensures Matches("", r) {
      ContainsEmpty(Lower(r.title));
    }
    KeepAll(results, r => Matches("", r));
  }

  /** Queries differing only in letter case filter alike. */
  lemma FilterCaseInsensitive(query1: string, query2: string, results: seq<SearchResult>)
    requires DifferOnlyInCase(query1, query2)
    ensures Filter(query1, results) == Filter(query2, results)
  {
    DifferOnlyInCaseLower(query1, query2);
    KeepCongruent(results, r => Matches(query1, r), r => Matches(query2, r));
  }

  /** A record with its relevance score erased. */
  function WithoutRelevance(result: SearchResult): SearchResult {
    result.(relevance := 0)
  }

  /** Relevance takes no part in filtering: erasing it before or after filtering gives the same list. */
  lemma FilterIgnoresRelevance(query: string, results: seq<SearchResult>)
    ensures Map(WithoutRelevance, Filter(query, results)) == Filter(query, Map(WithoutRelevance, results))
  {
    KeepMap(results, r => Matches(query, r), WithoutRelevance, r => Matches(query, r));
  }

  /** How many tags a card shows inline. */
  const InlineTagLimit := 2

  /** The tags a card shows inline: the first two, or all of them when there are fewer. */
  function InlineTags(tags: seq<string>): (shown: seq<string>)
    ensures |shown| == if |tags| < InlineTagLimit then |tags| else InlineTagLimit
    ensures shown == tags[..|shown|]
  {
    if |tags| <= InlineTagLimit then tags else tags[..InlineTagLimit]
  }

  /** The number a string of decimal digits denotes, most significant digit first. */
  function DigitsValue(digits: string): int {
    if digits == [] then 0
    else DigitsValue(digits[..|digits| - 1]) * 10 + (digits[|digits| - 1] as int - '0' as int)
  }

  /** The decimal numeral of a natural number, as a number is shown in text: no leading zero. */
  function Decimal(n: nat): (digits: string)
    ensures |digits| >= 1
    ensures forall i :: 0 <= i < |digits| ==> '0' <= digits[i] <= '9'
    ensures DigitsValue(digits) == n
    ensures n > 0 ==> digits[0] != '0'
    ensures |digits| == 1 || digits[0] != '0'
  {
    if n < 10 then
      var numeral := [(n + '0' as int) as char];
      assert numeral[..0] == [];
      numeral
    else
      var high, low := Decimal(n / 10), Decimal(n % 10);
      assert |low| == 1;
      var numeral := high + low;
      assert numeral[..|numeral| - 1] == high;
      numeral
  }

  /** The overflow badge: `+K` for the K tags not shown inline, present only when some are hidden. */
  function OverflowBadge(tags: seq<string>): (badge: Option<string>)
    ensures badge.Some? <==> |tags| > InlineTagLimit
    ensures badge.Some? ==> badge.value == "+" + Decimal(|tags| - |InlineTags(tags)|)
  {
    if |tags| > InlineTagLimit then Some("+" + Decimal(|tags| - InlineTagLimit)) else None
  }

  /** The inline tags and the hidden tags counted by the badge together are all the tags, in order. */
  lemma TagsAccounted(tags: seq<string>)
    ensures InlineTags(tags) + tags[|InlineTags(tags)|..] == tags
    ensures OverflowBadge(tags).None? ==> InlineTags(tags) == tags
  {
  }

  /** One card of the result list. */
  datatype Card = Card(
    id: string,
    title: string,
    description: string,
    relevance: int,
    category: string,
    inlineTags: seq<string>,
    overflowBadge: Option<string>)

  /** The card for one kept record. */
  function CardFor(result: SearchResult): (card: Card)
    ensures ClickedId(card) == result.id
    ensures card.title == result.title && card.description == result.description
    ensures card.relevance == result.relevance && card.category == result.category
    ensures card.inlineTags == InlineTags(result.tags) && card.overflowBadge == OverflowBadge(result.tags)
  {
    Card(result.id, result.title, result.description, result.relevance, result.category,
         InlineTags(result.tags), OverflowBadge(result.tags))
  }

  /** The id handed to the click callback when a card's View button is pressed. */
  function ClickedId(card: Card): string {
    card.id
  }

  /** The header's plural suffix: "s" unless exactly one record was found. */
  function PluralSuffix(count: nat): string {
    if count != 1 then "s" else ""
  }

  /** The pane: the empty state alone, or a counted header and one card per kept record. */
  datatype View =
    | NoResults(query: string)
    | ResultList(query: string, count: nat, suffix: string, cards: seq<Card>)

  function Render(query: string, results: seq<SearchResult>): (view: View)
    ensures view.query == query
    ensures view.NoResults? <==> Filter(query, results) == []
    ensures view.ResultList? ==> view.count == |Filter(query, results)|
    ensures view.ResultList? ==> (view.suffix == "s" <==> view.count != 1)
    ensures view.ResultList? ==> (view.suffix == "" <==> view.count == 1)
    ensures view.ResultList? ==> |view.cards| == view.count
    ensures view.ResultList? ==> forall i :: 0 <= i < |view.cards| ==>
      var result := Filter(query, results)[i];
      && ClickedId(view.cards[i]) == result.id
      && view.cards[i].title == result.title
      && view.cards[i].description == result.description
      && view.cards[i].relevance == result.relevance
      && view.cards[i].category == result.category
      && view.cards[i].inlineTags == InlineTags(result.tags)
      && view.cards[i].overflowBadge == OverflowBadge(result.tags)
  {
    var filtered := Filter(query, results);
    if |filtered| == 0 then NoResults(query)
    else
      ResultList(query, |filtered|, PluralSuffix(|filtered|),
        seq(|filtered|, i requires 0 <= i < |filtered| => CardFor(filtered[i])))
  }

  /**
   * The header line of a result list: "Found ", the numeral of the count,
   * and " result" or, unless the count is one, " results".
   */
  function HeaderText(count: nat): (header: string)
    ensures |header| > 6 && header[..6] == "Found "
    ensures var tail := if count == 1 then " result" else " results";
      && |header| > 6 + |tail|
      && header[|header| - |tail|..] == tail
      && DigitsValue(header[6..|header| - |tail|]) == count
      && (header[6] != '0' || |header| - |tail| == 7)
      && forall i :: 6 <= i < |header| - |tail| ==> '0' <= header[i] <= '9'
  {
    var numeral := Decimal(count);
    var tail := " result" + PluralSuffix(count);
    var header := "Found " + numeral + tail;
    assert header[..6] == "Found ";
    assert header[6..|header| - |tail|] == numeral;
    assert header[|header| - |tail|..] == tail;
    header
  }

  /** A card whose record has five tags shows two of them inline and a `+3` badge. */
  lemma FiveTagsShowTwoAndBadge()
    ensures InlineTags(["a", "b", "c", "d", "e"]) == ["a", "b"]
    ensures OverflowBadge(["a", "b", "c", "d", "e"]) == Some("+3")
  {
    assert Decimal(3) == ['3'];
    assert "+" + ['3'] == "+3";
  }

  /** The default query occurs in the tags of the installation guide. */
  lemma DefaultQueryMatchesInstallation()
    ensures Matches(DefaultQuery, MockSearchResults[0])
  {
    var r := MockSearchResults[0];
    assert r.tags[1] == "Installation";
    assert Lower(DefaultQuery) == DefaultQuery;
    assert Lower("Installation") == "installation";
    assert Contains(DefaultQuery, "installation");
  }

  /** The default query is absent from a lower-cased field, for each long field of the other records. */
  lemma UserRolesTitleLacksDefaultQuery()
    ensures !Contains(DefaultQuery, Lower(MockSearchResults[1].title))
  {
    assert MockSearchResults[1].title == "User Roles & Permissions";
    AbsentWithBreaks(DefaultQuery, MockSearchResults[1].title, [11, 16]);
  }

  lemma UserRolesDescriptionLacksDefaultQuery()
    ensures !Contains(DefaultQuery, Lower(MockSearchResults[1].description))
  {
    assert MockSearchResults[1].description == UserRolesDescription;
    UserRolesDescriptionBreaks();
  }

  lemma UserRolesDescriptionBreaks()
    ensures !Contains(DefaultQuery, Lower(UserRolesDescription))
  {
    AbsentWithBreaks(DefaultQuery, UserRolesDescription, [9, 19, 31, 40, 50, 61]);
  }

  lemma SalesTitleLacksDefaultQuery()
    ensures !Contains(DefaultQuery, Lower(MockSearchResults[2].title))
  {
    assert MockSearchResults[2].title == "Sales Processing";
    AbsentWithBreaks(DefaultQuery, MockSearchResults[2].title, [10]);
  }

  lemma SalesDescriptionLacksDefaultQuery()
    ensures !Contains(DefaultQuery, Lower(MockSearchResults[2].description))
  {
    assert MockSearchResults[2].description == SalesDescription;
    SalesDescriptionBreaks();
  }

  lemma SalesDescriptionBreaks()
    ensures !Contains(DefaultQuery, Lower(SalesDescription))
  {
    AbsentWithBreaks(DefaultQuery, SalesDescription, [10, 22, 34, 41, 52, 64]);
  }

  lemma SalesTagsLackDefaultQuery()
    ensures forall tag <- MockSearchResults[2].tags :: !Contains(DefaultQuery, Lower(tag))
  {
    assert MockSearchResults[2].tags == ["Sales", "Transactions", "POS"];
    AbsentWithBreaks(DefaultQuery, "Transactions", [6]);
  }

  lemma QuickStartTitleLacksDefaultQuery()
    ensures !Contains(DefaultQuery, Lower(MockSearchResults[3].title))
  {
    assert MockSearchResults[3].title == "Quick Start Guide";
    AbsentWithBreaks(DefaultQuery, MockSearchResults[3].title, [11]);
  }

  lemma QuickStartDescriptionLacksDefaultQuery()
    ensures !Contains(DefaultQuery, Lower(MockSearchResults[3].description))
  {
    assert MockSearchResults[3].description == QuickStartDescription;
    QuickStartDescriptionBreaks();
  }

  lemma QuickStartDescriptionBreaks()
    ensures !Contains(DefaultQuery, Lower(QuickStartDescription))
  {
    AbsentWithBreaks(DefaultQuery, QuickStartDescription, [11, 23, 34]);
  }

  lemma QuickStartTagsLackDefaultQuery()
    ensures forall tag <- MockSearchResults[3].tags :: !Contains(DefaultQuery, Lower(tag))
  {
    assert MockSearchResults[3].tags == ["Getting Started", "Tutorial"];
    AbsentWithBreaks(DefaultQuery, "Getting Started", [11]);
  }

  /** A record none of whose fields holds the default query does not match it. */
  lemma MissesDefaultQuery(r: SearchResult)
    requires !Contains(DefaultQuery, Lower(r.title))
    requires !Contains(DefaultQuery, Lower(r.description))
    requires forall tag <- r.tags :: !Contains(DefaultQuery, Lower(tag))
    ensures !Matches(DefaultQuery, r)
  {
    assert Lower(DefaultQuery) == DefaultQuery;
  }

  /** The default query occurs in none of the records after the installation guide. */
  lemma DefaultQueryMissesOthers()
    ensures forall i :: 1 <= i < |MockSearchResults| ==> !Matches(DefaultQuery, MockSearchResults[i])
  {
    UserRolesTitleLacksDefaultQuery();
    UserRolesDescriptionLacksDefaultQuery();
    assert MockSearchResults[1].tags == ["Security", "Users", "Permissions"];
    MissesDefaultQuery(MockSearchResults[1]);
    SalesTitleLacksDefaultQuery();
    SalesDescriptionLacksDefaultQuery();
    SalesTagsLackDefaultQuery();
    MissesDefaultQuery(MockSearchResults[2]);
    QuickStartTitleLacksDefaultQuery();
    QuickStartDescriptionLacksDefaultQuery();
    QuickStartTagsLackDefaultQuery();
    MissesDefaultQuery(MockSearchResults[3]);
  }

  /** With the default query and records, exactly the installation guide is found. */
  lemma DefaultSearchFindsInstallation()
    ensures Filter(DefaultQuery, MockSearchResults) == [MockSearchResults[0]]
    ensures Render(DefaultQuery, MockSearchResults).ResultList?
    ensures Render(DefaultQuery, MockSearchResults).count == 1
    ensures HeaderText(Render(DefaultQuery, MockSearchResults).count) == "Found 1 result"
  {
    DefaultQueryMatchesInstallation();
    DefaultQueryMissesOthers();
    var rs := MockSearchResults;
    var f := r => Matches(DefaultQuery, r);
    assert Keep(rs[3..], f) == [];
    assert Keep(rs[2..], f) == [];
    assert Keep(rs[1..], f) == [];
    assert Keep(rs, f) == [rs[0]];
    HeaderForOne();
  }

  /** The header for a single record. */
  lemma HeaderForOne()
    ensures HeaderText(1) == "Found 1 result"
  {
    assert Decimal(1) == "1";
  }
}

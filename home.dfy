/**
 * The application shell: the selected topic, the search query and the
 * search flag, the four handlers that overwrite them, and the choice
 * between the search pane and the content pane.
 */
module HomePage {
  import opened Options
  import Sidebar
  import SearchResults
  import ContentArea

  /** The topic selected when the page opens. */
  const InitialTopic := "installation"

  /** The main pane: search results, or the content of a topic; never both. */
  datatype Pane =
    | SearchPane(results: SearchResults.View)
    | ContentPane(content: ContentArea.View)

  /** What the shell shows: the topic the sidebar highlights, the clear button if any, and the pane. */
  datatype Screen = Screen(sidebarSelectedTopic: string, clearButton: bool, pane: Pane)

  /** The shell screen for given state; search uses the built-in records. */
  function RenderShell(selectedTopic: string, searchQuery: string, showSearch: bool): (screen: Screen)
    ensures screen.sidebarSelectedTopic == selectedTopic
    ensures screen.clearButton <==> searchQuery != ""
    ensures screen.pane.SearchPane? <==> showSearch
    ensures screen.pane.SearchPane? ==>
      screen.pane.results == SearchResults.Render(searchQuery, SearchResults.MockSearchResults)
    ensures screen.pane.ContentPane? ==> screen.pane.content == ContentArea.Render(Some(selectedTopic))
  {
    var pane :=
      if showSearch then SearchPane(SearchResults.Render(searchQuery, SearchResults.MockSearchResults))
      else ContentPane(ContentArea.Render(Some(selectedTopic)));
    Screen(selectedTopic, searchQuery != "", pane)
  }

  /** The shell's state, overwritten by its handlers. */
  class Home {
    var selectedTopic: string
    var searchQuery: string
    var showSearch: bool

    /** Search results are shown exactly when there is a query. */
    predicate Valid()
      reads this
    {
      showSearch == (searchQuery != "")
    }

    constructor ()
      ensures selectedTopic == InitialTopic && searchQuery == "" && !showSearch
      ensures Valid()
    {
      selectedTopic := InitialTopic;
      searchQuery := "";
      showSearch := false;
    }

    /** A sidebar topic was chosen: show it and drop the search. */
    method HandleTopicSelect(topicId: string)
      modifies this
      ensures selectedTopic == topicId && searchQuery == "" && !showSearch
      ensures Valid()
    {
      selectedTopic := topicId;
      showSearch := false;
      searchQuery := "";
    }

    /** The search box changed: keep the query and show results iff it is non-empty. */
    method HandleSearch(query: string)
      modifies this
      ensures searchQuery == query && showSearch == (|query| > 0)
      ensures selectedTopic == old(selectedTopic)
      ensures Valid()
    {
      searchQuery := query;
      showSearch := |query| > 0;
    }

    /** A search result was opened: the same effect as choosing that topic in the sidebar. */
    method HandleSearchResultClick(resultId: string)
      modifies this
      ensures selectedTopic == resultId && searchQuery == "" && !showSearch
      ensures Valid()
    {
      selectedTopic := resultId;
      showSearch := false;
      searchQuery := "";
    }

    /** The clear button: drop the query and the results, keep the topic. */
    method ClearSearch()
      modifies this
      ensures searchQuery == "" && !showSearch
      ensures selectedTopic == old(selectedTopic)
      ensures Valid()
    {
      searchQuery := "";
      showSearch := false;
    }

    /** The current screen. */
    function Render(): (screen: Screen)
      reads this
      ensures Valid() ==> (screen.pane.SearchPane? <==> searchQuery != "")
      ensures Valid() ==> (screen.clearButton <==> screen.pane.SearchPane?)
    {
      RenderShell(selectedTopic, searchQuery, showSearch)
    }
  }

  /** The clear button and the search pane always appear together in a consistent shell. */
  lemma ClearButtonWithSearchPane(selectedTopic: string, searchQuery: string)
    ensures
      var screen := RenderShell(selectedTopic, searchQuery, searchQuery != "");
      (screen.clearButton <==> screen.pane.SearchPane?)
      && (screen.pane.ContentPane? <==> searchQuery == "")
  {
  }

  /** On opening, the content pane shows the installation entry and the sidebar highlights it. */
  lemma InitialScreen()
    ensures RenderShell(InitialTopic, "", false).pane.ContentPane?
    ensures RenderShell(InitialTopic, "", false).pane.content.Article?
    ensures RenderShell(InitialTopic, "", false).pane.content.title == "Installation"
    ensures !RenderShell(InitialTopic, "", false).clearButton
  {
  }

  /** "quick-start" is a sidebar topic, but choosing it shows the not-found notice. */
  lemma QuickStartIsNotFound()
    ensures "quick-start" in Sidebar.AllLeafIds
    ensures RenderShell("quick-start", "", false).pane == ContentPane(ContentArea.NotFound(ContentArea.NotFoundMessage))
  {
  }

  /** Typing the default query shows a result list with exactly one card, the installation guide. */
  lemma SearchingInstallation(selectedTopic: string)
    ensures RenderShell(selectedTopic, SearchResults.DefaultQuery, true).pane.SearchPane?
    ensures RenderShell(selectedTopic, SearchResults.DefaultQuery, true).pane.results.ResultList?
    ensures RenderShell(selectedTopic, SearchResults.DefaultQuery, true).pane.results.count == 1
    ensures ClickedCard(RenderShell(selectedTopic, SearchResults.DefaultQuery, true)) == Some("installation")
  {
    SearchResults.DefaultSearchFindsInstallation();
  }

  /** The id the first card hands back when clicked, or None when no card is shown. */
  function ClickedCard(screen: Screen): Option<string> {
    if screen.pane.SearchPane? && screen.pane.results.ResultList? && |screen.pane.results.cards| > 0
    then Some(SearchResults.ClickedId(screen.pane.results.cards[0]))
    else None
  }
}

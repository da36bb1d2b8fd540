# CARGEN POS documentation browser — a verified model

The browser is a single React page with four parts.
- A **sidebar** shows a fixed tree of sections and leaf topics. Sections expand and collapse, and the selected leaf is highlighted.
- A **search box** filters a list of search records by a case-insensitive substring match.
- A **search-results pane** shows an empty state, or a counted header and one card per kept record.
- A **content pane** looks a topic id up in a fixed documentation table.

A small shell (`Home`) holds the selected topic, the search query and a flag choosing between the two panes.

The model is in Dafny. It has one module per component, plus two supporting modules:

| file | module | what it holds |
|---|---|---|
| `sequences.dfy` | `Options`, `Sequences` | `Option`, and the order-preserving filter `Keep` (JavaScript's `Array.prototype.filter`) with subsequence, multiset-count and duplicate-freedom lemmas |
| `text.dfy` | `Text` | ASCII `toLowerCase` and the substring test `includes`, each with its reference meaning |
| `content_area.dfy` | `ContentArea` | the nine-entry documentation table (bodies opaque), the `contentId` default and the found / not-found view |
| `sidebar.dfy` | `Sidebar` | the navigation id tree, the pure toggle, open and highlight rules, the rendered tree, and the class `SidebarState` holding `expandedSections` |
| `search_results.dfy` | `SearchResults` | the record type, the four built-in records, the match predicate and filter, the empty-state / header / card view, and the tag-overflow rule |
| `home.dfy` | `HomePage` | the class `Home` with its three fields and four handlers, and the pane choice |

Stateful parts are classes whose methods overwrite fields: `Home`, and the sidebar's `expandedSections`. Everything else is functions over values.

Some prose fields of the built-in search records are written as a concatenation of shorter string literals. The strings are identical to the component's.

Three behaviours of the code that a reader might not expect; the model follows the code:
- `toggleSection` with an id that is not a known section appends it, like any absent id. It is not a no-op.
- `expandedSections` is a list, not a set. Removal deletes every occurrence, and the order of the remaining ids is kept.
- `contentId` takes its default `"system-overview"` only when the prop is absent. An empty string is a given id and shows the not-found notice.

## Model

| member | source | states |
|---|---|---|
| `Sequences.Keep` | src/components/documentation/SearchResults.tsx:71-78 | the kept elements are elements of the input satisfying the predicate, every satisfying element is kept, and the result is no longer than the input |
| `Text.Lower` | src/components/documentation/SearchResults.tsx:73-76 | lower-casing keeps the length of the string |
| `Text.LowerIdempotent` | src/components/documentation/SearchResults.tsx:73-76 | lower-casing a lower-cased string changes nothing |
| `Text.DifferOnlyInCaseLower` | src/components/documentation/SearchResults.tsx:73-76 | strings that differ only in ASCII letter case lower-case to the same string |
| `Text.ContainsIff` | src/components/documentation/SearchResults.tsx:73-76 | the `includes` scan succeeds exactly when the pattern occurs as a slice at some offset |
| `Text.ContainsEmpty` | src/components/documentation/SearchResults.tsx:73-76 | every string includes the empty string |
| `SearchResults.Filter` | src/components/documentation/SearchResults.tsx:71-78 | a record is in the result iff it is in the input and the lower-cased query occurs in its lower-cased title, description or some tag |
| `SearchResults.FilterPreservesOrder` | src/components/documentation/SearchResults.tsx:71-78 | the filtered list is a subsequence of the input: records keep their order |
| `SearchResults.FilterCounts` | src/components/documentation/SearchResults.tsx:71-78 | each matching record is kept exactly as many times as it occurs; non-matching records never |
| `SearchResults.EmptyQueryKeepsAll` | src/components/documentation/SearchResults.tsx:71-78 | the empty query keeps the whole input unchanged |
| `SearchResults.FilterCaseInsensitive` | src/components/documentation/SearchResults.tsx:73-77 | two queries differing only in letter case give the same filtered list |
| `SearchResults.FilterIgnoresRelevance` | src/components/documentation/SearchResults.tsx:71-78 | erasing the relevance score before or after filtering gives the same list, so relevance plays no part in filtering or order |
| `SearchResults.InlineTags` | src/components/documentation/SearchResults.tsx:133-137 | the inline tags are the first two tags, or all of them when there are fewer |
| `SearchResults.Decimal` | src/components/documentation/SearchResults.tsx:104-105 | a number is shown as its decimal numeral: one or more digits, with no leading zero, whose value (`DigitsValue`) is the number |
| `SearchResults.OverflowBadge` | src/components/documentation/SearchResults.tsx:138-142 | a badge exists iff there are more than two tags, and it reads `+` and the number of tags not shown inline |
| `SearchResults.TagsAccounted` | src/components/documentation/SearchResults.tsx:133-142 | the inline tags followed by the hidden ones are all the tags in order, and without a badge every tag is inline |
| `SearchResults.FiveTagsShowTwoAndBadge` | src/components/documentation/SearchResults.tsx:133-142 | five tags show the first two inline and a `+3` badge |
| `SearchResults.CardFor` | src/components/documentation/SearchResults.tsx:110-157 | a card shows its record's title, description, relevance, category, inline tags and badge, and its View button hands back the record's id (`ClickedId`) |
| `SearchResults.Render` | src/components/documentation/SearchResults.tsx:80-157 | the empty state iff nothing matches; otherwise the count of kept records, suffix `s` iff the count is not 1, and one card per kept record in order carrying its id, title, description, relevance, category, inline tags and badge |
| `SearchResults.HeaderText` | src/components/documentation/SearchResults.tsx:103-106 | for every count, the header is `Found `, then a numeral with no leading zero whose value is the count, then ` result`, or ` results` unless the count is 1 |
| `SearchResults.MissesDefaultQuery` | src/components/documentation/SearchResults.tsx:71-78 | a record whose title, description and tags all lack the query does not match |
| `SearchResults.DefaultQueryMatchesInstallation` | src/components/documentation/SearchResults.tsx:28-78 | the default query `installation` matches the installation guide |
| `SearchResults.DefaultQueryMissesOthers` | src/components/documentation/SearchResults.tsx:28-78 | the default query matches none of the other three built-in records |
| `SearchResults.DefaultSearchFindsInstallation` | src/components/documentation/SearchResults.tsx:28-106 | the default query over the built-in records keeps exactly the installation guide and the header reads `Found 1 result` |
| `Sidebar.Toggled` | src/components/documentation/Sidebar.tsx:153-159 | an absent id is appended at the end; a present id loses every occurrence and the other ids keep their order and counts; exactly the toggled id changes membership |
| `Sidebar.ToggleTwiceAbsent` | src/components/documentation/Sidebar.tsx:153-159 | toggling an absent id twice restores the list exactly |
| `Sidebar.ToggleTwiceMembership` | src/components/documentation/Sidebar.tsx:153-159 | toggling any id twice restores which ids are expanded |
| `Sidebar.ToggledNoDuplicates` | src/components/documentation/Sidebar.tsx:149-159 | toggling keeps a duplicate-free list duplicate-free |
| `Sidebar.RenderLeaves` | src/components/documentation/Sidebar.tsx:196-211 | one leaf per child in order, highlighted iff its id is the selected topic |
| `Sidebar.RenderSections` | src/components/documentation/Sidebar.tsx:174-213 | one section per tree entry in order, open iff its id is expanded, showing its leaves when open and nothing when closed |
| `Sidebar.LeafIdsOfTree` | src/components/documentation/Sidebar.tsx:32-143 | the tree's leaf ids are the fifteen listed, section by section |
| `Sidebar.LeafIdsDistinct` | src/components/documentation/Sidebar.tsx:32-143 | no leaf id occurs twice in the tree |
| `Sidebar.HighlightedLeavesOf` | src/components/documentation/Sidebar.tsx:200-204 | the highlighted leaves of one section are, in order, children equal to the selected topic |
| `Sidebar.HighlightedAreSelectedLeaves` | src/components/documentation/Sidebar.tsx:174-213 | the highlighted leaves of the rendered tree are, in order, leaves of the tree equal to the selected topic |
| `Sidebar.AtMostOneHighlighted` | src/components/documentation/Sidebar.tsx:196-211 | whatever is expanded and selected, at most one leaf is highlighted |
| `Sidebar.SidebarState.constructor` | src/components/documentation/Sidebar.tsx:149-151 | the sidebar starts with only `getting-started` expanded, and the list is duplicate-free |
| `Sidebar.SidebarState.ToggleSection` | src/components/documentation/Sidebar.tsx:153-159 | the new list is the toggle of the old one, and duplicate-freedom is kept |
| `Sidebar.SidebarState.HandleTopicClick` | src/components/documentation/Sidebar.tsx:161-163 | the clicked id is handed on unchanged and no sidebar state changes |
| `Sidebar.SidebarState.Render` | src/components/documentation/Sidebar.tsx:174-213 | one rendered section per tree entry, open iff its id is in the stored list |
| `ContentArea.ResolveId` | src/components/documentation/ContentArea.tsx:788-790 | an absent `contentId` becomes `system-overview`; a given one, even empty, is kept |
| `ContentArea.Lookup` | src/components/documentation/ContentArea.tsx:791 | an entry is found iff the id is a key, and it is the stored entry, whose own id is that key |
| `ContentArea.Render` | src/components/documentation/ContentArea.tsx:791-833 | the notice alone iff the id is not a key; otherwise the stored entry's title, description, date, tags in order and body |
| `ContentArea.TableKeysAreIds` | src/components/documentation/ContentArea.tsx:27-786 | every key of the table is the id of its entry |
| `ContentArea.TableTopics` | src/components/documentation/ContentArea.tsx:27-786 | the table's keys are exactly the nine topic ids |
| `ContentArea.DefaultIsFound` | src/components/documentation/ContentArea.tsx:788-791 | without a content id the pane shows the system overview, never the notice |
| `ContentArea.EmptyIdNotFound` | src/components/documentation/ContentArea.tsx:788-806 | an empty content id shows the not-found notice |
| `HomePage.RenderShell` | src/components/home.tsx:31-79 | the sidebar gets the selected topic; the clear button is present iff the query is non-empty; the search pane for the query iff the flag is set, otherwise the content pane for the selected topic |
| `HomePage.Home.constructor` | src/components/home.tsx:10-12 | the shell starts on `installation` with an empty query and no search, which is consistent |
| `HomePage.Home.HandleTopicSelect` | src/components/home.tsx:14-18 | the topic becomes the chosen id, the query is emptied and search is off |
| `HomePage.Home.HandleSearch` | src/components/home.tsx:20-23 | the query is stored, search is on iff it is non-empty, and the topic is unchanged |
| `HomePage.Home.HandleSearchResultClick` | src/components/home.tsx:25-29 | the same new state as choosing that id in the sidebar |
| `HomePage.Home.ClearSearch` | src/components/home.tsx:57-60 | the query is emptied, search is off, and the topic is unchanged |
| `HomePage.Home.Render` | src/components/home.tsx:52-76 | in a consistent shell the search pane is shown iff there is a query, and iff the clear button is |
| `HomePage.ClearButtonWithSearchPane` | src/components/home.tsx:52-76 | when the flag follows the query, the clear button and the search pane appear together and the content pane exactly when the query is empty |
| `HomePage.InitialScreen` | src/components/home.tsx:10-12 | the opening screen shows the `Installation` entry and no clear button |
| `HomePage.QuickStartIsNotFound` | src/components/home.tsx:69-76 | `quick-start` is a sidebar leaf, but selecting it shows the not-found notice |
| `HomePage.SearchingInstallation` | src/components/home.tsx:69-76 | searching for `installation` shows one result card, and clicking it hands back `installation` |

Every `Home` handler establishes the consistency invariant `showSearch == (searchQuery != "")` whatever the state before. The constructor establishes it too, so it holds throughout.

## Left out

- Markup, styling, icons and the UI library components (cards, badges, alerts, scroll areas, collapsibles, inputs, buttons). They are presentation. The model keeps only what they display.
- React's `useState`, batching and re-rendering. State is modelled as class fields that each handler overwrites at once.
- Text.Lower: lower-cases ASCII letters only. JavaScript's `toLowerCase` also maps non-ASCII letters, so case-insensitivity is proved relative to ASCII case.
- `query.length` counts UTF-16 code units. Only whether it is zero matters, and that agrees with the length of the string as a character sequence.
- Lookups of inherited object properties, such as a `contentId` of `constructor`, are not modelled. The table is its own nine keys.
- The rich bodies of the documentation entries are kept opaque: each is a value naming its topic. The prose has no logic.
- Section titles and icons in the navigation tree are left out: the tree keeps ids only. Sections always have a (possibly empty) list of children.
- When the collapsible component fires its open-change callback is left out, because that is library behaviour. The model exposes the toggle it calls.
- The relevance badge text (`95% match`) and the category badge are carried on each card as values, not rendered text.
- The no-op default callbacks are left out. So are the default props used only when a component stands alone: the sidebar's selected topic, and the search pane's default query and records. The search defaults exist as constants (`DefaultQuery`, `MockSearchResults`). The shell passes its query and uses the built-in records.
- Sidebar.SidebarState.Render: states only which sections are open. What each open section shows is stated by `Sidebar.RenderSections`, which it returns.

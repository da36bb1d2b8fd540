/**
 * The content pane: a constant table from topic ids to documentation
 * entries, and the lookup that renders an entry or the not-found notice.
 */
module ContentArea {
  import opened Options

  /** The rich body of an entry. It is rendered verbatim and never inspected,
      so the model keeps it opaque: it only names the topic whose prose it is. */
  datatype Body = Prose(topic: string)

  datatype DocumentationContent = DocumentationContent(
    id: string,
    title: string,
    description: string,
    lastUpdated: string,
    tags: seq<string>,
    content: Body)

  /** The topic shown when no content id is given. */
  const DefaultContentId := "system-overview"

  const NotFoundMessage := "Content not found. Please select a topic from the sidebar."

  const DocumentationTable: map<string, DocumentationContent> := map[
    "system-overview" := DocumentationContent(
      "system-overview", "System Overview",
      "Comprehensive overview of CARGEN POS system capabilities",
      "2024-01-15", ["Overview", "Introduction"], Prose("system-overview")),
    "key-features" := DocumentationContent(
      "key-features", "Key Features",
      "Comprehensive list of CARGEN POS features and capabilities",
      "2024-01-15", ["Features", "Capabilities"], Prose("key-features")),
    "installation" := DocumentationContent(
      "installation", "Installation",
      "Complete guide for deploying and installing CARGEN POS",
      "2024-01-15", ["Setup", "Installation", "Deployment"], Prose("installation")),
    "getting-started" := DocumentationContent(
      "getting-started", "Getting Started",
      "Initial setup guide for CARGEN POS",
      "2024-01-15", ["Getting Started", "Setup"], Prose("getting-started")),
    "system-modules" := DocumentationContent(
      "system-modules", "System Modules Explained",
      "Detailed breakdown of each module available in CARGEN POS",
      "2024-01-15", ["Modules", "Features"], Prose("system-modules")),
    "best-practices" := DocumentationContent(
      "best-practices", "Best Practices and Tips",
      "Helpful advice and best practices for using CARGEN POS effectively",
      "2024-01-15", ["Best Practices", "Tips"], Prose("best-practices")),
    "troubleshooting" := DocumentationContent(
      "troubleshooting", "Troubleshooting and Support",
      "Common problems and solutions for CARGEN POS",
      "2024-01-15", ["Troubleshooting", "Support"], Prose("troubleshooting")),
    "compliance-security" := DocumentationContent(
      "compliance-security", "Compliance and Security",
      "Security measures and compliance features in CARGEN POS",
      "2024-01-15", ["Security", "Compliance"], Prose("compliance-security")),
    "appendices" := DocumentationContent(
      "appendices", "Appendices",
      "Glossary of terms and reference materials",
      "2024-01-15", ["Reference", "Glossary"], Prose("appendices"))
  ]

  /** What the pane shows: the notice alone, or an entry's fields and body. */
  datatype View =
    | NotFound(message: string)
    | Article(title: string, description: string, lastUpdated: string, tags: seq<string>, content: Body)

  /** The `contentId` prop after its default: only an absent prop takes the default. */
  function ResolveId(contentId: Option<string>): (id: string)
    ensures contentId.Some? ==> id == contentId.value
    ensures contentId.None? ==> id == DefaultContentId
  {
    match contentId
    case Some(given) => given
    case None => DefaultContentId
  }

  /** The table lookup: the entry stored under `id`, whose own id is `id`, or nothing. */
  function Lookup(id: string): (entry: Option<DocumentationContent>)
    ensures entry.Some? <==> id in DocumentationTable
    ensures entry.Some? ==> entry.value == DocumentationTable[id] && entry.value.id == id
  {
    TableKeysAreIds();
    if id in DocumentationTable then Some(DocumentationTable[id]) else None
  }

  /** The pane for a `contentId` prop: the stored entry's fields, or only the notice. */
  function Render(contentId: Option<string>): (view: View)
    ensures view.NotFound? <==> ResolveId(contentId) !in DocumentationTable
    ensures view.NotFound? ==> view.message == NotFoundMessage
    ensures view.Article? ==>
      var entry := DocumentationTable[ResolveId(contentId)];
      && view.title == entry.title
      && view.description == entry.description
      && view.lastUpdated == entry.lastUpdated
      && view.tags == entry.tags
      && view.content == entry.content
  {
    match Lookup(ResolveId(contentId))
    case None => NotFound(NotFoundMessage)
    case Some(entry) => Article(entry.title, entry.description, entry.lastUpdated, entry.tags, entry.content)
  }

  /** Every key of the table is the id of the entry stored under it. */
  lemma TableKeysAreIds()
    ensures forall k :: k in DocumentationTable ==> DocumentationTable[k].id == k
  {
  }

  /** The table holds exactly nine topics. */
  lemma TableTopics()
    ensures DocumentationTable.Keys == {
      "system-overview", "key-features", "installation", "getting-started", "system-modules",
      "best-practices", "troubleshooting", "compliance-security", "appendices" }
  {
  }

  /** Without a content id the pane shows the system overview, never the notice. */
  lemma DefaultIsFound()
    ensures Render(None).Article?
    ensures Render(None).title == "System Overview"
  {
  }

  /** An empty content id is a given id, not an absent one, and it is not found. */
  lemma EmptyIdNotFound()
    ensures Render(Some("")) == NotFound(NotFoundMessage)
  {
  }
}

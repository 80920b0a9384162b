/**
 * How retrieved documents and the user's question reach the language model:
 * the formatter that turns the retrieved chunks into one context string, and
 * the two prompt templates whose slots that string and the question fill.
 */
module Generator {
  import opened Wrappers
  import opened Text

  /** A retrieved chunk; only its text is used. */
  datatype Document = Document(pageContent: string)

  /** What the model is told when retrieval found nothing. */
  const NoInformation := "No relevant information found."

  /** The separator between two chunks: a blank line. */
  const ChunkSeparator := "\n\n"

  /** The texts of the documents, in retrieval order. */
  function Contents(docs: seq<Document>): (texts: seq<string>)
    ensures |texts| == |docs|
    ensures forall k :: 0 <= k < |docs| ==> texts[k] == docs[k].pageContent
  {
    seq(|docs|, k requires 0 <= k < |docs| => docs[k].pageContent)
  }

  /**
   * format_retrieved_documents: the chunk texts separated by blank lines, or
   * the placeholder when there are no documents (None or an empty list).
   */
  function FormatRetrievedDocuments(docs: Option<seq<Document>>): string
  {
    if docs.None? || docs.value == [] then NoInformation
    else Join(Contents(docs.value), ChunkSeparator)
  }

  /** No documents, or None, give exactly the placeholder. */
  lemma NoDocumentsGivePlaceholder(docs: Option<seq<Document>>)
    requires docs.None? || docs.value == []
    ensures FormatRetrievedDocuments(docs) == NoInformation
  {
  }

  /** For n >= 1 documents the text is their contents plus one blank line between each pair. */
  lemma FormattedLength(docs: seq<Document>)
    requires docs != []
    ensures |FormatRetrievedDocuments(Some(docs))| == TotalLength(Contents(docs)) + 2 * (|docs| - 1)
  {
    JoinLength(Contents(docs), ChunkSeparator);
  }

  /** A single document gives its text unchanged. */
  lemma SingleDocumentUnchanged(d: Document)
    ensures FormatRetrievedDocuments(Some([d])) == d.pageContent
  {
  }

  /**
   * Documents keep their retrieval order: one more document appends a blank
   * line and its text to what the others give.
   */
  lemma FormattingKeepsOrder(docs: seq<Document>, d: Document)
    requires docs != []
    ensures FormatRetrievedDocuments(Some(docs + [d])) == FormatRetrievedDocuments(Some(docs)) + ChunkSeparator + d.pageContent
  {
    assert Contents(docs + [d]) == Contents(docs) + [d.pageContent];
    JoinAppend(Contents(docs), d.pageContent, ChunkSeparator);
  }

  /**
   * Only an absent or empty list gives the placeholder: documents whose
   * texts are all empty give an empty or blank context instead, and one
   * empty document gives "".
   */
  lemma EmptyDocumentsAreNotPlaceholder(docs: seq<Document>)
    requires docs != []
    requires forall k :: 0 <= k < |docs| ==> docs[k].pageContent == []
    ensures |FormatRetrievedDocuments(Some(docs))| == 2 * (|docs| - 1)
    ensures FormatRetrievedDocuments(Some(docs)) != NoInformation
    ensures |docs| == 1 ==> FormatRetrievedDocuments(Some(docs)) == []
  {
    FormattedLength(docs);
    ZeroTotalLength(Contents(docs));
    if |docs| == 1 {
      SingleDocumentUnchanged(docs[0]);
      assert docs == [docs[0]];
    }
    if |docs| > 1 {
      var texts := Contents(docs);
      assert Join(texts, ChunkSeparator) == texts[0] + ChunkSeparator + Join(texts[1..], ChunkSeparator);
      assert FormatRetrievedDocuments(Some(docs))[0] == '\n' != NoInformation[0];
    }
  }

  /** Pieces that are all empty have total length zero. */
  lemma {:induction false} ZeroTotalLength(pieces: seq<string>)
    requires forall k :: 0 <= k < |pieces| ==> pieces[k] == []
    ensures TotalLength(pieces) == 0
  {
    if pieces != [] {
      ZeroTotalLength(pieces[1..]);
    }
  }

  // ---------------------------------------------------------------------
  // Prompt templates
  // ---------------------------------------------------------------------

  /** A piece of a prompt template: literal text, or a slot named by a variable. */
  datatype Segment = Literal(text: string) | Slot(variable: string)

  type Template = seq<Segment>

  const ContextVariable := "context"
  const QuestionVariable := "question"

  /** The system template's text before its context slot. */
  const SystemIntro := "You are a helpful assistant that provides clear and well-formatted responses. Follow these guidelines:\n\n"
    + "1. For simple, direct answers:\n   - Provide a concise, clear response\n"
    + "   - Use basic formatting only when needed (bold for emphasis)\n   - No need for complex structure\n\n"
    + "2. For complex or detailed information:\n   - Use Markdown formatting for better readability\n"
    + "   - Break down information into logical sections\n   - Use headers (##) for main sections\n"
    + "   - Use bullet points for lists\n   - Use bold (**) for important information\n\n"
    + "3. Always:\n   - Be direct and clear\n   - Use appropriate formatting based on content complexity\n"
    + "   - Maintain readability\n   - Say \"I don't know\" if the context doesn't contain the answer\n\n"
    + "Context:\n"

  /** The system template's text after its context slot. */
  const SystemOutro := "\n\nRemember: Adapt your formatting to the complexity of the information. "
    + "Simple answers should be simple, while complex information can use more structured formatting."

  /** The system message template: one context slot between two literal parts. */
  const SystemTemplate: Template := [Literal(SystemIntro), Slot(ContextVariable), Literal(SystemOutro)]

  /** The human message template: the question and nothing else. */
  const HumanTemplate: Template := [Slot(QuestionVariable)]

  /** The variables a template reads. */
  function Variables(t: Template): (vs: set<string>)
    ensures forall k :: 0 <= k < |t| && t[k].Slot? ==> t[k].variable in vs
  {
    if t == [] then {}
    else (if t[0].Slot? then {t[0].variable} else {}) + Variables(t[1..])
  }

  /** Fills every slot of a template with the value bound to its variable. */
  function Render(t: Template, values: map<string, string>): string
    requires Variables(t) <= values.Keys
  {
    if t == [] then []
    else
      (match t[0]
       case Literal(text) => text
       case Slot(v) => values[v])
      + Render(t[1..], values)
  }

  /** A template reads only its own variables: values bound to anything else do not matter. */
  lemma {:induction false} RenderReadsOnlyItsVariables(t: Template, values: map<string, string>, other: map<string, string>)
    requires Variables(t) <= values.Keys && Variables(t) <= other.Keys
    requires forall v :: v in Variables(t) ==> values[v] == other[v]
    ensures Render(t, values) == Render(t, other)
  {
    if t != [] {
      RenderReadsOnlyItsVariables(t[1..], values, other);
    }
  }

  /** The values the chain hands to the prompt: the formatted documents and the question itself. */
  function ChainValues(docs: Option<seq<Document>>, question: string): map<string, string>
  {
    map[ContextVariable := FormatRetrievedDocuments(docs), QuestionVariable := question]
  }

  /** The system template reads only the context and the human template only the question. */
  lemma TemplateVariables()
    ensures Variables(SystemTemplate) == {ContextVariable}
    ensures Variables(HumanTemplate) == {QuestionVariable}
  {
    assert Variables(SystemTemplate[2..]) == {};
    assert Variables(SystemTemplate[1..]) == {ContextVariable};
  }

  /**
   * The system message is the formatted documents, placeholder included,
   * in the one context slot between the template's two literal parts.
   */
  lemma SystemMessage(docs: Option<seq<Document>>, question: string)
    ensures Variables(SystemTemplate) <= ChainValues(docs, question).Keys
    ensures Render(SystemTemplate, ChainValues(docs, question))
      == SystemIntro + FormatRetrievedDocuments(docs) + SystemOutro
  {
    TemplateVariables();
    RenderOneSlot(SystemIntro, ContextVariable, SystemOutro, ChainValues(docs, question));
  }

  /** A template with one slot between two literal parts renders as the value placed between them. */
  lemma RenderOneSlot(before: string, variable: string, after: string, values: map<string, string>)
    requires variable in values
    ensures Variables([Literal(before), Slot(variable), Literal(after)]) <= values.Keys
    ensures Render([Literal(before), Slot(variable), Literal(after)], values) == before + values[variable] + after
  {
    var t := [Literal(before), Slot(variable), Literal(after)];
    assert t[1..][1..] == [Literal(after)];
    assert Variables(t[1..][1..]) == {};
    assert Render(t[1..][1..], values) == after;
  }

  /** The human message is the question verbatim. */
  lemma HumanMessage(docs: Option<seq<Document>>, question: string)
    ensures Variables(HumanTemplate) <= ChainValues(docs, question).Keys
    ensures Render(HumanTemplate, ChainValues(docs, question)) == question
  {
    TemplateVariables();
    assert Render(HumanTemplate[1..], ChainValues(docs, question)) == [];
  }
}

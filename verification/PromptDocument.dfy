/** Prompt files: a block of metadata, and either one template or named sections. */
module PromptDocument {
  import opened Prelude
  import opened PromptMetadata
  import opened PromptRegistry
  import opened PromptSections
  import opened PromptText

  function Parse(text: string, expected: Option<string>, required: bool): Option<Document> {
    var parts := MetadataOf(text, expected);
    if parts == None || (required && parts.value.0 == None) || Strip(parts.value.1) == "" then None
    else
      var (metadata, template) := parts.value;
      var sections := Sections(template);
      if sections == None || (metadata.Some? && metadata.value.variants != Names(sections.value)) then None
      else Some(Document(template, sections.value, metadata))
  }

  /** The text is this document: it describes the metadata, or has none and need not; what is left is the template,
      laid out as the sections, and the metadata's variants are their names. */
  ghost predicate IsDocument(text: string, expected: Option<string>, required: bool, d: Document) {
    && (if d.metadata == None then !required && d.template == text && !AnyMarked(Split(text, '\n'))
        else && Describes(Split(text, '\n'), d.metadata.value, d.template, expected)
             && d.metadata.value.variants == Names(d.sections))
    && Strip(d.template) != "" && Laid(Split(d.template, '\n'), d.sections)
  }

  lemma DocumentIs(text: string, expected: Option<string>, required: bool, d: Document)
    ensures Parse(text, expected, required) == Some(d) <==> IsDocument(text, expected, required, d)
  {
    hide Split, Strip, MetadataIn, Describes, AnyMarked, Laid, Sections;
    SectionsLaid(d.template, d.sections);
    NoMetadata(Split(text, '\n'), text, expected);
    if d.metadata.Some? {
      MetadataDescribed(Split(text, '\n'), text, expected, d.metadata.value, d.template);
    }
  }

  /** Whatever text is accepted: its sections have distinct safe names and trimmed, non-empty bodies, its template is
      not blank, and its metadata, if it has any, declares exactly its sections, in order. */
  lemma AcceptedIsProper(text: string, expected: Option<string>, required: bool)
    requires Parse(text, expected, required).Some?
    ensures var d := Parse(text, expected, required).value;
            && ProperSections(d.sections) && Strip(d.template) != "" && (required ==> d.metadata.Some?)
            && (d.metadata.Some? ==> d.metadata.value.variants == Names(d.sections))
  {
    hide ProperSections, MetadataOf, Strip, ScanLines, Split;
    var d := Parse(text, expected, required).value;
    ScanProper(Split(d.template, '\n'));
  }

  method ParsePromptDocument(text: string, expected: Option<string>, required: bool) returns (r: Option<Document>)
    ensures forall d :: r == Some(d) <==> IsDocument(text, expected, required, d)
    ensures r == Parse(text, expected, required)
  {
    hide IsDocument, MetadataOf, Sections, Split, Strip, Laid, Describes;
    forall d ensures Parse(text, expected, required) == Some(d) <==> IsDocument(text, expected, required, d) {
      DocumentIs(text, expected, required, d);
    }
    var parts := ParsePromptMetadata(text, expected);
    if parts == None || (required && parts.value.0 == None) || Strip(parts.value.1) == "" {
      return None;
    }
    var sections := ParsePromptSections(parts.value.1);
    if sections == None || (parts.value.0.Some? && parts.value.0.value.variants != Names(sections.value)) {
      return None;
    }
    r := Some(Document(parts.value.1, sections.value, parts.value.0));
  }
}

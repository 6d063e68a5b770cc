/** SiglumTextPreviewPanel: the preview of a siglum's text, transformed by the XSL of the
  * `siglumTextMarkup` document definition; the panel hides itself when there is nothing to show. */
module SiglumTextPreview {
  import opened Wrappers
  import opened Text
  import opened Entities
  import opened XmlValidation
  import DocumentDao = XmlDocumentDefinitionDao

  /** The identifier of the definition whose XSL renders sigla texts. */
  const SiglumTextMarkup: string := "siglumTextMarkup"

  /** The XSLT processor: the output of a stylesheet applied to a document, or None when compiling
    * or transforming throws a TransformerException. */
  type Transformer = (string, string) -> Option<string>

  /** `String.format("<%s>%s</%s>", root, text, root)`: the text inside the root element, with no
    * line breaks added. */
  function PreviewDocument(root: string, text: string): string {
    "<" + root + ">" + text + "</" + root + ">"
  }

  /** `transformText`: the definition with identifier `siglumTextMarkup` is looked up (its absence
    * is a NullPointerException); without a text or without a non-empty XSL the result is empty,
    * otherwise it is the transformer's output, or empty when the transformer throws. */
  function TransformText(documents: DocumentDao.DocumentTable, text: Option<string>, transform: Transformer): (r: Result<string, JavaException>)
    reads documents
    ensures r.Failure? <==> DocumentDao.FindByIdentifier(documents, Some(SiglumTextMarkup)).None?
    ensures r.Failure? ==> r.error == NullPointer
    ensures r.Success? ==>
              var definition := DocumentDao.FindByIdentifier(documents, Some(SiglumTextMarkup)).value.data;
              definition.identifier == SiglumTextMarkup
              && (text.None? || definition.xsl.None? || definition.xsl.value == "" ==> r.value == "")
              && (text.Some? && definition.xsl.Some? && definition.xsl.value != "" ==>
                    r.value == transform(definition.xsl.value, PreviewDocument(definition.rootElement, text.value)).GetOr(""))
  {
    match DocumentDao.FindByIdentifier(documents, Some(SiglumTextMarkup))
    case None => Failure(NullPointer)
    case Some(row) =>
      var xsl := row.data.xsl;
      if text.Some? && xsl.Some? && |xsl.value| > 0 then
        match transform(xsl.value, PreviewDocument(row.data.rootElement, text.value))
        case Some(output) => Success(output)
        case None => Success("")
      else Success("")
  }

  /** The panel's markup around the heading and the transformed text. */
  function PanelMarkup(heading: string, body: string): string {
    "<wicket:panel><div class=\"card border-primary mt-3\">\n"
    + "<div class=\"card-header text-white bg-primary\">" + heading + "</div>\n"
    + "<div class=\"card-body\">" + body + "</div>\n</div></wicket:panel>"
  }

  class SiglumTextPreviewPanel {
    const siglum: Siglum
    var visible: bool

    constructor (siglum: Siglum)
      ensures this.siglum == siglum && visible
    {
      this.siglum := siglum;
      visible := true;
    }

    /** `getMarkupResourceStream`: the markup with the transformed text; an empty text makes the
      * panel invisible, any other text leaves the visibility as it was. `heading` is the localized
      * `SiglumTextPreviewPanel.preview` string. */
    method GetMarkupResourceStream(documents: DocumentDao.DocumentTable, transform: Transformer, heading: string)
      returns (r: Result<string, JavaException>)
      modifies this`visible
      ensures var t := TransformText(documents, siglum.text, transform);
              (t.Failure? ==> r == Failure(t.error) && visible == old(visible))
              && (t.Success? ==> r == Success(PanelMarkup(heading, t.value)) && visible == (old(visible) && t.value != ""))
    {
      var transformed := TransformText(documents, siglum.text, transform);
      if transformed.Failure? {
        return Failure(transformed.error);
      }
      var markup := PanelMarkup(heading, transformed.value);
      if |transformed.value| == 0 {
        visible := false;
      }
      r := Success(markup);
    }
  }

  /** Unlike the validator's wrapping, the preview's wrapping adds no line break: the transformed
    * document has the text's lines, the validated one two more. */
  lemma PreviewAddsNoLines(root: string, text: string)
    requires OneLine(root)
    ensures NewlineCount(PreviewDocument(root, text)) == NewlineCount(text)
    ensures NewlineCount(WrappedFragment(Some(root), text)) == NewlineCount(text) + 2
  {
    var open := "<" + root + ">";
    var close := "</" + root + ">";
    assert OneLine(open) && OneLine(close);
    OneLineHasNoBreak(open);
    OneLineHasNoBreak(close);
    assert PreviewDocument(root, text) == open + text + close;
    NewlineCountAppend(open, text);
    NewlineCountAppend(open + text, close);
    assert NewlineCount("\n") == 1 by {
      assert "\n"[..0] == [];
    }
    assert WrappedFragment(Some(root), text) == open + "\n" + text + "\n" + close;
    NewlineCountAppend(open, "\n");
    NewlineCountAppend(open + "\n", text);
    NewlineCountAppend(open + "\n" + text, "\n");
    NewlineCountAppend(open + "\n" + text + "\n", close);
  }

  /** Once `initialize` has stored the `siglumTextMarkup` definition, the preview never fails. */
  lemma PreviewAfterSeeding(documents: DocumentDao.DocumentTable, text: Option<string>, transform: Transformer)
    requires DocumentDao.HasIdentifier(documents.rows, SiglumTextMarkup)
    ensures TransformText(documents, text, transform).Success?
  {
    var i :| 0 <= i < |documents.rows| && documents.rows[i].data.identifier == SiglumTextMarkup;
    assert Some(documents.rows[i].data.identifier) == Some(SiglumTextMarkup);
  }
}

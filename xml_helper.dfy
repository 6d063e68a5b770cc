/** XmlHelper: the empty schema a new document definition starts with, and the text content of a
  * marked-up fragment. The XML parser itself is a parameter. */
module XmlHelper {
  import opened Wrappers

  /** The XML declaration that starts the empty schema. */
  const XmlDeclaration: string := "<?xml version=\"1.0\"?>"

  /** The schema given to a new document definition: an `xs:schema` element that declares nothing. */
  const EmptySchema: string :=
    "<?xml version=\"1.0\"?>\n" + "<xs:schema xmlns:xs=\"http://www.w3.org/2001/XMLSchema\" "
    + "elementFormDefault=\"qualified\" attributeFormDefault=\"unqualified\">\n\n" + "</xs:schema>"

  datatype XmlAttribute = XmlAttribute(name: string, value: string)

  /** A DOM node: character data, or an element with attributes and children. */
  datatype XmlNode =
    | TextNode(content: string)
    | Element(name: string, attributes: seq<XmlAttribute>, children: seq<XmlNode>)

  /** DOM `getTextContent`: the character data of a node and all its descendants, in order. */
  function TextContent(n: XmlNode): string
    decreases n, 1
  {
    match n
    case TextNode(c) => c
    case Element(_, _, children) => TextContentAll(children)
  }

  function TextContentAll(ns: seq<XmlNode>): string
    decreases ns, 0
  {
    if ns == [] then "" else TextContent(ns[0]) + TextContentAll(ns[1..])
  }

  lemma {:induction false} TextContentAllAppend(a: seq<XmlNode>, b: seq<XmlNode>)
    ensures TextContentAll(a + b) == TextContentAll(a) + TextContentAll(b)
    decreases |a|
  {
    if a == [] {
      assert a + b == b;
    } else {
      assert (a + b)[1..] == a[1..] + b;
      TextContentAllAppend(a[1..], b);
    }
  }

  /** The markup of an element's attributes. */
  function AttributesText(attributes: seq<XmlAttribute>): string {
    if attributes == [] then ""
    else " " + attributes[0].name + "=\"" + attributes[0].value + "\"" + AttributesText(attributes[1..])
  }

  /** The markup of a node (character data is written as it is). */
  function Serialize(n: XmlNode): string
    decreases n, 1
  {
    match n
    case TextNode(c) => c
    case Element(name, attributes, children) =>
      "<" + name + AttributesText(attributes) + ">" + SerializeAll(children) + "</" + name + ">"
  }

  function SerializeAll(ns: seq<XmlNode>): string
    decreases ns, 0
  {
    if ns == [] then "" else Serialize(ns[0]) + SerializeAll(ns[1..])
  }

  /** A parser returns the document element of a text, or None when the text is not well formed
    * (the SAXException, IOException and configuration failures that the source prints and drops). */
  type Parser = string -> Option<XmlNode>

  /** The document that `getTextContent` parses: the fragment inside a `<document>` element. */
  function DocumentOf(xmlText: string): string {
    "<document>" + xmlText + "</document>"
  }

  /** `getTextContent`: the text of a fragment with its markup removed; None (Java null) when the
    * wrapped fragment does not parse. */
  function GetTextContent(parse: Parser, xmlText: string): (r: Option<string>)
    ensures r.None? <==> parse(DocumentOf(xmlText)).None?
    ensures r.Some? ==> r.value == TextContent(parse(DocumentOf(xmlText)).value)
  {
    match parse(DocumentOf(xmlText))
    case None => None
    case Some(root) => Some(TextContent(root))
  }

  /** Wrapping a serialized fragment gives the serialization of a `document` element around it. */
  lemma DocumentOfIsElement(nodes: seq<XmlNode>)
    ensures DocumentOf(SerializeAll(nodes)) == Serialize(Element("document", [], nodes))
  {
  }

  /** With a parser that reads back a serialized `document` element, the text content of a
    * serialized fragment is the character data of its nodes. */
  lemma TextOfSerializedFragment(parse: Parser, nodes: seq<XmlNode>)
    requires parse(Serialize(Element("document", [], nodes))) == Some(Element("document", [], nodes))
    ensures GetTextContent(parse, SerializeAll(nodes)) == Some(TextContentAll(nodes))
  {
    DocumentOfIsElement(nodes);
  }

  /** Markup around a part of the text does not change the text: `Hello <i>World</i>` reads as
    * `Hello World`. */
  lemma MarkupIsDropped(parse: Parser, before: string, tag: string, inner: string)
    requires parse(DocumentOf(before + "<" + tag + ">" + inner + "</" + tag + ">"))
          == Some(Element("document", [], [TextNode(before), Element(tag, [], [TextNode(inner)])]))
    ensures GetTextContent(parse, before + "<" + tag + ">" + inner + "</" + tag + ">") == Some(before + inner)
  {
    var world := [TextNode(inner)];
    var tagged := [Element(tag, [], world)];
    var children := [TextNode(before)] + tagged;
    assert world[1..] == [] && tagged[1..] == [] && children[1..] == tagged;
    assert TextContentAll(world) == inner + "";
    assert TextContent(tagged[0]) == TextContentAll(world);
    assert TextContentAll(tagged) == TextContent(tagged[0]) + "";
    assert TextContentAll(children) == before + TextContentAll(tagged);
    assert children == [TextNode(before), Element(tag, [], [TextNode(inner)])];
    assert inner + "" == inner;
    assert TextContentAll(children) == before + inner;
    var root := Element("document", [], [TextNode(before), Element(tag, [], [TextNode(inner)])]);
    assert TextContent(root) == before + inner;
  }
}

/** The four persistent entities of the application. Nullable Java columns are `Option`s; the
  * collections that JPA fills from the database are optional sequences of objects, null until
  * set. */
module Entities {
  import opened Wrappers
  import opened Identity

  /** The three kinds of siglum. */
  datatype SiglumType = Primary | Secondary | Tertiary

  /** A definition of an XML document type: its identifier, root element, schema and stylesheet. */
  class XmlDocumentDefinition {
    var id: Option<int>
    var uuid: Option<string>
    var identifier: Option<string>
    var rootElement: Option<string>
    var schema: Option<string>
    var xsl: Option<string>
    var tagDefinitions: Option<seq<XmlTagDefinition>>

    /** A new, transient XmlDocumentDefinition with every column unset. */
    constructor ()
      ensures id.None? && uuid.None? && identifier.None? && rootElement.None? && schema.None? && xsl.None? && tagDefinitions.None?
    {
      id := None;
      uuid := None;
      identifier := None;
      rootElement := None;
      schema := None;
      xsl := None;
      tagDefinitions := None;
    }

    method SetUuid(value: Option<string>)
      modifies this`uuid
      ensures uuid == value
    {
      uuid := value;
    }

    method SetIdentifier(value: Option<string>)
      modifies this`identifier
      ensures identifier == value
    {
      identifier := value;
    }

    method SetRootElement(value: Option<string>)
      modifies this`rootElement
      ensures rootElement == value
    {
      rootElement := value;
    }

    method SetSchema(value: Option<string>)
      modifies this`schema
      ensures schema == value
    {
      schema := value;
    }

    method SetXsl(value: Option<string>)
      modifies this`xsl
      ensures xsl == value
    {
      xsl := value;
    }

    method SetTagDefinitions(value: Option<seq<XmlTagDefinition>>)
      modifies this`tagDefinitions
      ensures tagDefinitions == value
    {
      tagDefinitions := value;
    }

    /** `equals`: the same object, or an object of this class with the same UUID. A missing UUID on
      * this object is first replaced by a fresh one. */
    method Equals(other: object?, gen: UuidSource) returns (r: bool)
      requires gen.Valid()
      modifies this`uuid, gen
      ensures gen.Valid()
      ensures old(uuid).Some? ==> uuid == old(uuid)
      ensures uuid == old(uuid) ==> gen.issued == old(gen.issued)
      ensures other == this ==> r && uuid == old(uuid)
      ensures other != this && !(other is XmlDocumentDefinition) ==> !r && uuid == old(uuid)
      ensures other != this && other is XmlDocumentDefinition ==>
                uuid.Some? && (old(uuid).None? ==> uuid.value !in old(gen.issued))
                && r == (uuid == (other as XmlDocumentDefinition).uuid)
    {
      if other == this {
        return true;
      }
      if !(other is XmlDocumentDefinition) {
        return false;
      }
      var that := other as XmlDocumentDefinition;
      if uuid.None? {
        var u := gen.Next();
        uuid := Some(u);
      }
      r := uuid == that.uuid;
    }

    /** `hashCode`: the Java hash of the UUID, assigning a fresh UUID first when there is none. */
    method HashCode(gen: UuidSource) returns (h: int)
      requires gen.Valid()
      modifies this`uuid, gen
      ensures gen.Valid()
      ensures uuid.Some? && h == JavaStringHash(uuid.value)
      ensures old(uuid).Some? ==> uuid == old(uuid) && gen.issued == old(gen.issued)
      ensures old(uuid).None? ==> uuid.value !in old(gen.issued)
    {
      if uuid.None? {
        var u := gen.Next();
        uuid := Some(u);
      }
      h := JavaStringHash(uuid.value);
    }
  }

  /** Two calls of `hashCode` on the same XmlDocumentDefinition give the same value. */
  method DocumentHashCodeIsStable(e: XmlDocumentDefinition, gen: UuidSource) returns (h1: int, h2: int)
    requires gen.Valid()
    modifies e`uuid, gen
    ensures h1 == h2
  {
    h1 := e.HashCode(gen);
    h2 := e.HashCode(gen);
  }

  /** Two XmlDocumentDefinition objects that `equals` calls equal have the same `hashCode`. */
  method DocumentEqualImpliesSameHash(a: XmlDocumentDefinition, b: XmlDocumentDefinition, gen: UuidSource)
    returns (equal: bool, ha: int, hb: int)
    requires gen.Valid()
    modifies a`uuid, b`uuid, gen
    ensures equal ==> ha == hb
  {
    equal := a.Equals(b, gen);
    ha := a.HashCode(gen);
    hb := b.HashCode(gen);
  }

  /** A tag allowed in an XML document type. */
  class XmlTagDefinition {
    var id: Option<int>
    var uuid: Option<string>
    var documentDefinition: XmlDocumentDefinition?
    var name: Option<string>
    var selfClosing: Option<bool>
    var attributeDefinitions: Option<seq<XmlAttributeDefinition>>

    /** A new, transient XmlTagDefinition with every column unset. */
    constructor ()
      ensures id.None? && uuid.None? && documentDefinition == null && name.None? && selfClosing.None? && attributeDefinitions.None?
    {
      id := None;
      uuid := None;
      documentDefinition := null;
      name := None;
      selfClosing := None;
      attributeDefinitions := None;
    }

    method SetUuid(value: Option<string>)
      modifies this`uuid
      ensures uuid == value
    {
      uuid := value;
    }

    method SetDocumentDefinition(value: XmlDocumentDefinition?)
      modifies this`documentDefinition
      ensures documentDefinition == value
    {
      documentDefinition := value;
    }

    method SetName(value: Option<string>)
      modifies this`name
      ensures name == value
    {
      name := value;
    }

    method SetSelfClosing(value: Option<bool>)
      modifies this`selfClosing
      ensures selfClosing == value
    {
      selfClosing := value;
    }

    method SetAttributeDefinitions(value: Option<seq<XmlAttributeDefinition>>)
      modifies this`attributeDefinitions
      ensures attributeDefinitions == value
    {
      attributeDefinitions := value;
    }

    /** `equals`: the same object, or an object of this class with the same UUID. A missing UUID on
      * this object is first replaced by a fresh one. */
    method Equals(other: object?, gen: UuidSource) returns (r: bool)
      requires gen.Valid()
      modifies this`uuid, gen
      ensures gen.Valid()
      ensures old(uuid).Some? ==> uuid == old(uuid)
      ensures uuid == old(uuid) ==> gen.issued == old(gen.issued)
      ensures other == this ==> r && uuid == old(uuid)
      ensures other != this && !(other is XmlTagDefinition) ==> !r && uuid == old(uuid)
      ensures other != this && other is XmlTagDefinition ==>
                uuid.Some? && (old(uuid).None? ==> uuid.value !in old(gen.issued))
                && r == (uuid == (other as XmlTagDefinition).uuid)
    {
      if other == this {
        return true;
      }
      if !(other is XmlTagDefinition) {
        return false;
      }
      var that := other as XmlTagDefinition;
      if uuid.None? {
        var u := gen.Next();
        uuid := Some(u);
      }
      r := uuid == that.uuid;
    }

    /** `hashCode`: the Java hash of the UUID, assigning a fresh UUID first when there is none. */
    method HashCode(gen: UuidSource) returns (h: int)
      requires gen.Valid()
      modifies this`uuid, gen
      ensures gen.Valid()
      ensures uuid.Some? && h == JavaStringHash(uuid.value)
      ensures old(uuid).Some? ==> uuid == old(uuid) && gen.issued == old(gen.issued)
      ensures old(uuid).None? ==> uuid.value !in old(gen.issued)
    {
      if uuid.None? {
        var u := gen.Next();
        uuid := Some(u);
      }
      h := JavaStringHash(uuid.value);
    }
  }

  /** Two calls of `hashCode` on the same XmlTagDefinition give the same value. */
  method TagHashCodeIsStable(e: XmlTagDefinition, gen: UuidSource) returns (h1: int, h2: int)
    requires gen.Valid()
    modifies e`uuid, gen
    ensures h1 == h2
  {
    h1 := e.HashCode(gen);
    h2 := e.HashCode(gen);
  }

  /** Two XmlTagDefinition objects that `equals` calls equal have the same `hashCode`. */
  method TagEqualImpliesSameHash(a: XmlTagDefinition, b: XmlTagDefinition, gen: UuidSource)
    returns (equal: bool, ha: int, hb: int)
    requires gen.Valid()
    modifies a`uuid, b`uuid, gen
    ensures equal ==> ha == hb
  {
    equal := a.Equals(b, gen);
    ha := a.HashCode(gen);
    hb := b.HashCode(gen);
  }

  /** An attribute allowed on a tag. */
  class XmlAttributeDefinition {
    var id: Option<int>
    var uuid: Option<string>
    var tagDefinition: XmlTagDefinition?
    var name: Option<string>
    var required: Option<bool>

    /** A new, transient XmlAttributeDefinition with every column unset. */
    constructor ()
      ensures id.None? && uuid.None? && tagDefinition == null && name.None? && required.None?
    {
      id := None;
      uuid := None;
      tagDefinition := null;
      name := None;
      required := None;
    }

    method SetUuid(value: Option<string>)
      modifies this`uuid
      ensures uuid == value
    {
      uuid := value;
    }

    method SetTagDefinition(value: XmlTagDefinition?)
      modifies this`tagDefinition
      ensures tagDefinition == value
    {
      tagDefinition := value;
    }

    method SetName(value: Option<string>)
      modifies this`name
      ensures name == value
    {
      name := value;
    }

    method SetRequired(value: Option<bool>)
      modifies this`required
      ensures required == value
    {
      required := value;
    }

    /** `equals`: the same object, or an object of this class with the same UUID. A missing UUID on
      * this object is first replaced by a fresh one. */
    method Equals(other: object?, gen: UuidSource) returns (r: bool)
      requires gen.Valid()
      modifies this`uuid, gen
      ensures gen.Valid()
      ensures old(uuid).Some? ==> uuid == old(uuid)
      ensures uuid == old(uuid) ==> gen.issued == old(gen.issued)
      ensures other == this ==> r && uuid == old(uuid)
      ensures other != this && !(other is XmlAttributeDefinition) ==> !r && uuid == old(uuid)
      ensures other != this && other is XmlAttributeDefinition ==>
                uuid.Some? && (old(uuid).None? ==> uuid.value !in old(gen.issued))
                && r == (uuid == (other as XmlAttributeDefinition).uuid)
    {
      if other == this {
        return true;
      }
      if !(other is XmlAttributeDefinition) {
        return false;
      }
      var that := other as XmlAttributeDefinition;
      if uuid.None? {
        var u := gen.Next();
        uuid := Some(u);
      }
      r := uuid == that.uuid;
    }

    /** `hashCode`: the Java hash of the UUID, assigning a fresh UUID first when there is none. */
    method HashCode(gen: UuidSource) returns (h: int)
      requires gen.Valid()
      modifies this`uuid, gen
      ensures gen.Valid()
      ensures uuid.Some? && h == JavaStringHash(uuid.value)
      ensures old(uuid).Some? ==> uuid == old(uuid) && gen.issued == old(gen.issued)
      ensures old(uuid).None? ==> uuid.value !in old(gen.issued)
    {
      if uuid.None? {
        var u := gen.Next();
        uuid := Some(u);
      }
      h := JavaStringHash(uuid.value);
    }
  }

  /** Two calls of `hashCode` on the same XmlAttributeDefinition give the same value. */
  method AttributeHashCodeIsStable(e: XmlAttributeDefinition, gen: UuidSource) returns (h1: int, h2: int)
    requires gen.Valid()
    modifies e`uuid, gen
    ensures h1 == h2
  {
    h1 := e.HashCode(gen);
    h2 := e.HashCode(gen);
  }

  /** Two XmlAttributeDefinition objects that `equals` calls equal have the same `hashCode`. */
  method AttributeEqualImpliesSameHash(a: XmlAttributeDefinition, b: XmlAttributeDefinition, gen: UuidSource)
    returns (equal: bool, ha: int, hb: int)
    requires gen.Valid()
    modifies a`uuid, b`uuid, gen
    ensures equal ==> ha == hb
  {
    equal := a.Equals(b, gen);
    ha := a.HashCode(gen);
    hb := b.HashCode(gen);
  }

  /** A siglum: plain name, tagged (marked-up) name, description text and type. */
  class Siglum {
    var id: Option<int>
    var uuid: Option<string>
    var name: Option<string>
    var taggedName: Option<string>
    var text: Option<string>
    var siglumType: Option<SiglumType>

    /** A new, transient Siglum with every column unset. */
    constructor ()
      ensures id.None? && uuid.None? && name.None? && taggedName.None? && text.None? && siglumType.None?
    {
      id := None;
      uuid := None;
      name := None;
      taggedName := None;
      text := None;
      siglumType := None;
    }

    method SetUuid(value: Option<string>)
      modifies this`uuid
      ensures uuid == value
    {
      uuid := value;
    }

    method SetName(value: Option<string>)
      modifies this`name
      ensures name == value
    {
      name := value;
    }

    method SetTaggedName(value: Option<string>)
      modifies this`taggedName
      ensures taggedName == value
    {
      taggedName := value;
    }

    method SetText(value: Option<string>)
      modifies this`text
      ensures text == value
    {
      text := value;
    }

    method SetType(value: Option<SiglumType>)
      modifies this`siglumType
      ensures siglumType == value
    {
      siglumType := value;
    }

    /** `equals`: the same object, or an object of this class with the same UUID. A missing UUID on
      * this object is first replaced by a fresh one. */
    method Equals(other: object?, gen: UuidSource) returns (r: bool)
      requires gen.Valid()
      modifies this`uuid, gen
      ensures gen.Valid()
      ensures old(uuid).Some? ==> uuid == old(uuid)
      ensures uuid == old(uuid) ==> gen.issued == old(gen.issued)
      ensures other == this ==> r && uuid == old(uuid)
      ensures other != this && !(other is Siglum) ==> !r && uuid == old(uuid)
      ensures other != this && other is Siglum ==>
                uuid.Some? && (old(uuid).None? ==> uuid.value !in old(gen.issued))
                && r == (uuid == (other as Siglum).uuid)
    {
      if other == this {
        return true;
      }
      if !(other is Siglum) {
        return false;
      }
      var that := other as Siglum;
      if uuid.None? {
        var u := gen.Next();
        uuid := Some(u);
      }
      r := uuid == that.uuid;
    }

    /** `hashCode`: the Java hash of the UUID, assigning a fresh UUID first when there is none. */
    method HashCode(gen: UuidSource) returns (h: int)
      requires gen.Valid()
      modifies this`uuid, gen
      ensures gen.Valid()
      ensures uuid.Some? && h == JavaStringHash(uuid.value)
      ensures old(uuid).Some? ==> uuid == old(uuid) && gen.issued == old(gen.issued)
      ensures old(uuid).None? ==> uuid.value !in old(gen.issued)
    {
      if uuid.None? {
        var u := gen.Next();
        uuid := Some(u);
      }
      h := JavaStringHash(uuid.value);
    }
  }

  /** Two calls of `hashCode` on the same Siglum give the same value. */
  method SiglumHashCodeIsStable(e: Siglum, gen: UuidSource) returns (h1: int, h2: int)
    requires gen.Valid()
    modifies e`uuid, gen
    ensures h1 == h2
  {
    h1 := e.HashCode(gen);
    h2 := e.HashCode(gen);
  }

  /** Two Siglum objects that `equals` calls equal have the same `hashCode`. */
  method SiglumEqualImpliesSameHash(a: Siglum, b: Siglum, gen: UuidSource)
    returns (equal: bool, ha: int, hb: int)
    requires gen.Valid()
    modifies a`uuid, b`uuid, gen
    ensures equal ==> ha == hb
  {
    equal := a.Equals(b, gen);
    ha := a.HashCode(gen);
    hb := b.HashCode(gen);
  }
}

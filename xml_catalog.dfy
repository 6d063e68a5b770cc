/** XmlHelper's document data: the catalog of a document definition's tags and their attributes
  * that the editor's completion works from, built from the name-ordered lists the DAOs return. */
module XmlCatalog {
  import opened Wrappers
  import opened Entities
  import AttributeDao = XmlAttributeDefinitionDao
  import TagDao = XmlTagDefinitionDao

  /** `{name, required}` */
  datatype AttributeEntry = AttributeEntry(name: string, required: bool)

  /** `{name, selfClosing, attributes}` */
  datatype TagEntry = TagEntry(name: string, selfClosing: bool, attributes: seq<AttributeEntry>)

  /** `{identifier, tags}` */
  datatype DocumentEntry = DocumentEntry(identifier: string, tags: seq<TagEntry>)

  /** The attribute array for a list of attribute rows, in their order. A null `required` flag
    * cannot be added to a JSON object (the unboxing throws a NullPointerException). */
  function AttributeEntries(rows: seq<AttributeDao.AttributeRow>): (r: Result<seq<AttributeEntry>, JavaException>)
    ensures r.Failure? <==> exists i :: 0 <= i < |rows| && rows[i].data.required.None?
    ensures r.Failure? ==> r.error == NullPointer
    ensures r.Success? ==> |r.value| == |rows|
                           && forall i :: 0 <= i < |rows| ==>
                                r.value[i] == AttributeEntry(rows[i].data.name, rows[i].data.required.value)
    decreases |rows|
  {
    if rows == [] then Success([])
    else
      var last := rows[|rows| - 1];
      match AttributeEntries(rows[..|rows| - 1])
      case Failure(e) => Failure(e)
      case Success(entries) =>
        if last.data.required.None? then Failure(NullPointer)
        else Success(entries + [AttributeEntry(last.data.name, last.data.required.value)])
  }

  /** The attribute array of the tag with primary key `tagId`. */
  function AttributeData(attributes: seq<AttributeDao.AttributeRow>, tagId: int): Result<seq<AttributeEntry>, JavaException> {
    AttributeEntries(AttributeDao.OfTagByName(attributes, Some(tagId)))
  }

  /** The entry of one tag: its name, its self-closing flag (null cannot be added) and its
    * attribute array. */
  function TagEntryOf(attributes: seq<AttributeDao.AttributeRow>, row: TagDao.TagRow): (r: Result<TagEntry, JavaException>)
    ensures r.Failure? <==> row.data.selfClosing.None? || AttributeData(attributes, row.id).Failure?
    ensures r.Failure? ==> r.error == NullPointer
    ensures r.Success? ==> r.value.name == row.data.name && r.value.selfClosing == row.data.selfClosing.value
                           && r.value.attributes == AttributeData(attributes, row.id).value
  {
    match AttributeData(attributes, row.id)
    case Failure(e) => Failure(e)
    case Success(attributeData) =>
      if row.data.selfClosing.None? then Failure(NullPointer)
      else Success(TagEntry(row.data.name, row.data.selfClosing.value, attributeData))
  }

  /** A JSON array built element by element: the first element that cannot be built ends the
    * whole build with its error. */
  function Collect<T>(results: seq<Result<T, JavaException>>): (r: Result<seq<T>, JavaException>)
    ensures r.Failure? <==> exists i :: 0 <= i < |results| && results[i].Failure?
    ensures r.Failure? ==> exists i :: 0 <= i < |results| && results[i] == Failure(r.error)
    ensures r.Success? ==> |r.value| == |results|
                           && forall i :: 0 <= i < |results| ==> results[i] == Success(r.value[i])
    decreases |results|
  {
    if results == [] then Success([])
    else
      var prefix := Collect(results[..|results| - 1]);
      var last := results[|results| - 1];
      if prefix.Failure? then prefix
      else if last.Failure? then Failure(last.error)
      else Success(prefix.value + [last.value])
  }

  /** The tag entries of a list of tag rows, one per row. */
  function TagResults(attributes: seq<AttributeDao.AttributeRow>, rows: seq<TagDao.TagRow>): (r: seq<Result<TagEntry, JavaException>>)
    ensures |r| == |rows| && forall i :: 0 <= i < |rows| ==> r[i] == TagEntryOf(attributes, rows[i])
  {
    seq(|rows|, i requires 0 <= i < |rows| => TagEntryOf(attributes, rows[i]))
  }

  /** The tag array for a list of tag rows, in their order, each with its own attribute array. */
  function TagEntries(attributes: seq<AttributeDao.AttributeRow>, rows: seq<TagDao.TagRow>): (r: Result<seq<TagEntry>, JavaException>)
    ensures r.Failure? <==> exists i :: 0 <= i < |rows| && TagEntryOf(attributes, rows[i]).Failure?
    ensures r.Failure? ==> r.error == NullPointer
    ensures r.Success? ==> |r.value| == |rows|
                           && forall i :: 0 <= i < |rows| ==> Success(r.value[i]) == TagEntryOf(attributes, rows[i])
  {
    Collect(TagResults(attributes, rows))
  }

  /** The document data of a definition: its identifier and the tags `findAll` lists for it. A null
    * identifier cannot be added (NullPointerException). */
  function DocumentData(tags: TagDao.TagTable, attributes: AttributeDao.AttributeTable,
                        definition: XmlDocumentDefinition): Result<DocumentEntry, JavaException>
    reads tags, attributes, definition
  {
    if definition.identifier.None? then Failure(NullPointer)
    else match TagEntries(attributes.rows, TagDao.FindAll(tags, definition.id))
      case Failure(e) => Failure(e)
      case Success(entries) => Success(DocumentEntry(definition.identifier.value, entries))
  }

  /** `getAttributeData`: one entry per attribute of the tag, appended in `findAll` order. */
  method GetAttributeData(attributes: AttributeDao.AttributeTable, tagId: int)
    returns (r: Result<seq<AttributeEntry>, JavaException>)
    ensures r == AttributeData(attributes.rows, tagId)
  {
    var list := AttributeDao.FindAll(attributes, Some(tagId));
    assert AttributeEntries(list) == AttributeData(attributes.rows, tagId);
    var builder: seq<AttributeEntry> := [];
    for i := 0 to |list|
      invariant AttributeEntries(list[..i]) == Success(builder)
    {
      if list[i].data.required.None? {
        AttributeFailureStays(list, i + 1);
        return Failure(NullPointer);
      }
      AttributeEntriesStep(list, i);
      builder := builder + [AttributeEntry(list[i].data.name, list[i].data.required.value)];
    }
    assert list[..|list|] == list;
    r := Success(builder);
  }

  /** One more attribute with a `required` flag appends its entry. */
  lemma AttributeEntriesStep(list: seq<AttributeDao.AttributeRow>, i: nat)
    requires i < |list| && AttributeEntries(list[..i]).Success? && list[i].data.required.Some?
    ensures AttributeEntries(list[..i + 1])
            == Success(AttributeEntries(list[..i]).value + [AttributeEntry(list[i].data.name, list[i].data.required.value)])
  {
    assert list[..i + 1][..i] == list[..i];
  }

  /** Once a prefix of the list fails, the whole list does. */
  lemma AttributeFailureStays(list: seq<AttributeDao.AttributeRow>, n: nat)
    requires n <= |list| && AttributeEntries(list[..n]).Failure?
    ensures AttributeEntries(list).Failure?
  {
    var i :| 0 <= i < n && list[..n][i].data.required.None?;
    assert list[i] == list[..n][i];
  }

  /** `getTagData`: one entry per tag of the definition, appended in `findAll` order. */
  method GetTagData(tags: TagDao.TagTable, attributes: AttributeDao.AttributeTable, documentId: Option<int>)
    returns (r: Result<seq<TagEntry>, JavaException>)
    ensures r == TagEntries(attributes.rows, TagDao.FindAll(tags, documentId))
  {
    var list := TagDao.FindAll(tags, documentId);
    ghost var results := TagResults(attributes.rows, list);
    var builder: seq<TagEntry> := [];
    for i := 0 to |list|
      invariant Collect(results[..i]) == Success(builder)
    {
      var attributeData := GetAttributeData(attributes, list[i].id);
      assert results[i] == TagEntryOf(attributes.rows, list[i]);
      CollectStep(results, i);
      if attributeData.Failure? || list[i].data.selfClosing.None? {
        CollectFailureStays(results, i + 1);
        return Failure(NullPointer);
      }
      builder := builder + [TagEntry(list[i].data.name, list[i].data.selfClosing.value, attributeData.value)];
    }
    assert results[..|list|] == results;
    r := Success(builder);
  }

  /** Building one more element. */
  lemma CollectStep<T>(results: seq<Result<T, JavaException>>, i: nat)
    requires i < |results| && Collect(results[..i]).Success?
    ensures results[i].Failure? ==> Collect(results[..i + 1]).Failure?
    ensures results[i].Success? ==> Collect(results[..i + 1]) == Success(Collect(results[..i]).value + [results[i].value])
  {
    assert results[..i + 1][..i] == results[..i];
  }

  /** Once a prefix fails to build, the whole array does. */
  lemma CollectFailureStays<T>(results: seq<Result<T, JavaException>>, n: nat)
    requires n <= |results| && Collect(results[..n]).Failure?
    ensures Collect(results).Failure?
  {
    var i :| 0 <= i < n && results[..n][i].Failure?;
    assert results[i] == results[..n][i];
  }

  /** `getDocumentData`: the identifier, then the tag array. */
  method GetDocumentData(tags: TagDao.TagTable, attributes: AttributeDao.AttributeTable, definition: XmlDocumentDefinition)
    returns (r: Result<DocumentEntry, JavaException>)
    ensures r == DocumentData(tags, attributes, definition)
  {
    if definition.identifier.None? {
      return Failure(NullPointer);
    }
    var tagData := GetTagData(tags, attributes, definition.id);
    if tagData.Failure? {
      return Failure(tagData.error);
    }
    r := Success(DocumentEntry(definition.identifier.value, tagData.value));
  }

  /** The catalog lists exactly the definition's tags, ordered by name, each with its own attributes
    * ordered by name. */
  lemma DocumentDataFollowsFindAll(tags: TagDao.TagTable, attributes: AttributeDao.AttributeTable,
                                   definition: XmlDocumentDefinition)
    requires DocumentData(tags, attributes, definition).Success?
    ensures var d := DocumentData(tags, attributes, definition).value;
            var list := TagDao.FindAll(tags, definition.id);
            d.identifier == definition.identifier.value
            && |d.tags| == |list|
            && forall i :: 0 <= i < |list| ==>
                 d.tags[i].name == list[i].data.name
                 && list[i].data.selfClosing == Some(d.tags[i].selfClosing)
                 && var owned := AttributeDao.FindAll(attributes, Some(list[i].id));
                    |d.tags[i].attributes| == |owned|
                    && forall j :: 0 <= j < |owned| ==>
                         d.tags[i].attributes[j].name == owned[j].data.name
                         && owned[j].data.required == Some(d.tags[i].attributes[j].required)
  {
    var list := TagDao.FindAll(tags, definition.id);
    var d := DocumentData(tags, attributes, definition).value;
    assert Success(d.tags) == TagEntries(attributes.rows, list);
    forall i | 0 <= i < |list|
      ensures d.tags[i].name == list[i].data.name
              && list[i].data.selfClosing == Some(d.tags[i].selfClosing)
              && var owned := AttributeDao.FindAll(attributes, Some(list[i].id));
                 |d.tags[i].attributes| == |owned|
                 && forall j :: 0 <= j < |owned| ==>
                      d.tags[i].attributes[j].name == owned[j].data.name
                      && owned[j].data.required == Some(d.tags[i].attributes[j].required)
    {
      TagEntryFollowsFindAll(attributes, list[i], d.tags[i]);
    }
  }

  /** A tag's entry lists the tag's attributes in `findAll` order. */
  lemma TagEntryFollowsFindAll(attributes: AttributeDao.AttributeTable, row: TagDao.TagRow, entry: TagEntry)
    requires TagEntryOf(attributes.rows, row) == Success(entry)
    ensures entry.name == row.data.name && row.data.selfClosing == Some(entry.selfClosing)
    ensures var owned := AttributeDao.FindAll(attributes, Some(row.id));
            |entry.attributes| == |owned|
            && forall j :: 0 <= j < |owned| ==>
                 entry.attributes[j].name == owned[j].data.name
                 && owned[j].data.required == Some(entry.attributes[j].required)
  {
    assert entry.attributes == AttributeEntries(AttributeDao.FindAll(attributes, Some(row.id))).value;
  }

  /** A definition without tags gets an empty tag array, not a missing one. */
  lemma NoTagsGiveEmptyArray(tags: TagDao.TagTable, attributes: AttributeDao.AttributeTable,
                             definition: XmlDocumentDefinition)
    requires definition.identifier.Some?
    requires forall i :: 0 <= i < |tags.rows| ==> !TagDao.OfDocument(tags.rows[i], definition.id)
    ensures DocumentData(tags, attributes, definition) == Success(DocumentEntry(definition.identifier.value, []))
  {
  }
}

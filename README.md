# altlombardisch: a Dafny model of the XML definitions, sigla and their editors

altlombardisch is a Wicket web application for editing the sigla of the Lombard dialect
dictionary. This project models its core in Dafny 4.11 and proves properties of the model.
The core covers:

- the XML document, tag and attribute definitions that describe the markup of a siglum's
  text;
- the sigla themselves;
- the JPA data access objects that store, find, merge and remove all of these;
- the XML helpers that extract text content and the tag and attribute catalog;
- the XML validator with its error handler and error listener;
- the XML editor component;
- the siglum text preview;
- the edit forms for tags, attributes, sigla and users;
- the criteria helper of the filterable siglum table;
- the siglum autocomplete field.

The model is organised as follows:

- **Entities.** The entities whose fields the application updates in place are classes:
  `Entities.XmlDocumentDefinition`, `XmlTagDefinition`, `XmlAttributeDefinition` and `Siglum`.
  `equals` and `hashCode` are methods. When an entity has no UUID yet, they draw one from a
  `UuidSource`, and the source promises never to repeat a UUID.
- **The database.** A table is a `Rows.Table`: a sequence of rows and the next primary key.
  The unique indexes of each entity are preserved table invariants. Inserting a row whose
  UUID or unique key is already taken is a constraint violation and leaves the table as it
  was. The same holds for a NOT NULL column without a value.
- **Queries.** The query of each DAO is a function on the rows. The DAO operations that
  change data are methods.
- **Foreign engines.** The XML parser, the schema validator and the XSLT processor are
  function parameters. So are DAO answers that come from code outside the model (the user
  DAO).

## Model

| member | source | states |
|---|---|---|
| Identity.UuidSource.Next | src/main/java/altlombardisch/xml/document/XmlDocumentDefinition.java:237-239 | `UUID.randomUUID()` hands out a UUID string that was never issued before and records it as issued |
| Identity.JavaStringHash | src/main/java/altlombardisch/xml/document/XmlDocumentDefinition.java:255 | `String.hashCode` is an `int`: the result lies in the 32-bit two's complement range and is congruent modulo 2^32 to the unwrapped hash |
| Identity.HashBitsIsPolynomialMod | src/main/java/altlombardisch/xml/document/XmlDocumentDefinition.java:255 | the incrementally wrapped hash `h*31 + c` equals the polynomial `s[0]*31^(n-1) + … + s[n-1]` taken modulo 2^32 |
| Identity.UuidNameInjective | src/main/java/altlombardisch/xml/document/XmlDocumentDefinition.java:237-239 | distinct serial numbers give distinct UUID strings, so the source never runs out |
| Text.ToUpper | src/main/java/altlombardisch/data/CriteriaHelper.java:28-32 | `toUpperCase` keeps the length and upper-cases every character |
| Text.LexLeTotal | src/main/java/altlombardisch/xml/tag/XmlTagDefinitionDao.java:266-268 | the string order of `ORDER BY name` is total |
| Text.LexLeTransitive | src/main/java/altlombardisch/xml/tag/XmlTagDefinitionDao.java:266-268 | the string order of `ORDER BY name` is transitive |
| Text.LexLeAntisymmetric | src/main/java/altlombardisch/xml/tag/XmlTagDefinitionDao.java:266-268 | two strings ordered both ways are equal, so a sort on a unique column is determined |
| SqlLike.PercentMatchesAll | src/main/java/altlombardisch/siglum/SiglumDao.java:260 | the pattern `%` matches every string |
| SqlLike.LikePrefix | src/main/java/altlombardisch/siglum/SiglumDao.java:260 | for a pattern without wildcards, `s LIKE p%` holds exactly when `s` starts with `p` |
| SqlLike.UnderscoreIsAWildcard | src/main/java/altlombardisch/siglum/SiglumDao.java:260 | an unescaped `_` filter makes `_%` select every non-empty name, also those that do not start with `_` |
| SqlLike.UnderscoreMatchesAnyCharacter | src/main/java/altlombardisch/siglum/SiglumDao.java:260 | `_` in the pattern matches any one leading character and the rest is matched as before |
| Rows.DeleteReplaced | src/main/java/altlombardisch/siglum/SiglumDao.java:149-171 | an UPDATE of a row followed by the DELETE of that row leaves what the DELETE alone leaves, so the merge before a removal needs no UPDATE |
| Rows.DeleteFromSortedSelection | src/main/java/altlombardisch/xml/tag/XmlTagDefinitionDao.java:122-125 | a DELETE shows in an ordered selection of rows as exactly the deleted rows leaving it, the rest in their order |
| Rows.InsertedThenDeleted | src/main/java/altlombardisch/siglum/SiglumDao.java:149-171 | deleting, by its fresh key, the row the merge of a transient entity has just appended gives back the rows, so `remove` of a transient entity leaves the table as it was |
| Rows.DeleteByNullKey | src/main/java/altlombardisch/xml/tag/XmlTagDefinitionDao.java:115-138 | a DELETE by the null primary key of a transient entity deletes nothing |
| Rows.Table.constructor | src/main/java/altlombardisch/xml/document/XmlDocumentDefinition.java:24-26 | a fresh table is empty; its first key is 1 |
| Rows.Insert | src/main/java/altlombardisch/xml/tag/XmlTagDefinitionDao.java:41-71 | the INSERT of `persist`, on a row the unique indexes admit: the row is appended with the next key, which no stored row has, and the keys stay unique |
| Rows.Update | src/main/java/altlombardisch/xml/tag/XmlTagDefinitionDao.java:78-107 | the UPDATE of `merge`, on a stored row the unique indexes admit: that row is replaced and the unique indexes still hold |
| Rows.Delete | src/main/java/altlombardisch/xml/tag/XmlTagDefinitionDao.java:115-138 | the DELETE of `remove`: exactly the rows the condition selects are deleted and the unique indexes still hold |
| Entities.XmlDocumentDefinition.constructor | src/main/java/altlombardisch/xml/document/XmlDocumentDefinition.java:76-82 | a new definition is transient: no id, no UUID, no fields, and a null tag list |
| Entities.XmlDocumentDefinition.SetUuid | src/main/java/altlombardisch/xml/document/XmlDocumentDefinition.java:119-121 | sets the UUID and nothing else |
| Entities.XmlDocumentDefinition.SetIdentifier | src/main/java/altlombardisch/xml/document/XmlDocumentDefinition.java:159-161 | sets the identifier and nothing else |
| Entities.XmlDocumentDefinition.SetRootElement | src/main/java/altlombardisch/xml/document/XmlDocumentDefinition.java:178-180 | sets the root element and nothing else |
| Entities.XmlDocumentDefinition.SetSchema | src/main/java/altlombardisch/xml/document/XmlDocumentDefinition.java:197-199 | sets the schema and nothing else |
| Entities.XmlDocumentDefinition.SetXsl | src/main/java/altlombardisch/xml/document/XmlDocumentDefinitionEditForm.java:51 | sets the stylesheet the edit form binds and nothing else |
| Entities.XmlDocumentDefinition.SetTagDefinitions | src/main/java/altlombardisch/xml/document/XmlDocumentDefinition.java:216-218 | sets the tag list and nothing else |
| Entities.XmlDocumentDefinition.Equals | src/main/java/altlombardisch/xml/document/XmlDocumentDefinition.java:229-242 | the same object is equal; null and other classes are not; otherwise a missing UUID is first drawn fresh and the UUIDs are compared |
| Entities.XmlDocumentDefinition.HashCode | src/main/java/altlombardisch/xml/document/XmlDocumentDefinition.java:250-256 | the Java hash of the UUID, which is drawn fresh when missing |
| Entities.DocumentHashCodeIsStable | src/main/java/altlombardisch/xml/document/XmlDocumentDefinition.java:250-256 | two calls of `hashCode` give the same value |
| Entities.DocumentEqualImpliesSameHash | src/main/java/altlombardisch/xml/document/XmlDocumentDefinition.java:229-256 | equal definitions have equal hash codes |
| Entities.XmlTagDefinition.constructor | src/main/java/altlombardisch/xml/tag/XmlTagDefinition.java:91-97 | a new tag definition is transient, with no parent and a null attribute list |
| Entities.XmlTagDefinition.SetUuid | src/main/java/altlombardisch/xml/tag/XmlTagDefinition.java:134-136 | sets the UUID and nothing else |
| Entities.XmlTagDefinition.SetDocumentDefinition | src/main/java/altlombardisch/xml/tag/XmlTagDefinition.java:174-176 | sets the parent and nothing else |
| Entities.XmlTagDefinition.SetName | src/main/java/altlombardisch/xml/tag/XmlTagDefinition.java:193-195 | sets the name and nothing else |
| Entities.XmlTagDefinition.SetSelfClosing | src/main/java/altlombardisch/xml/tag/XmlTagDefinition.java:212-214 | sets the self-closing flag and nothing else |
| Entities.XmlTagDefinition.SetAttributeDefinitions | src/main/java/altlombardisch/xml/tag/XmlTagDefinition.java:231-234 | sets the attribute list and nothing else |
| Entities.XmlTagDefinition.Equals | src/main/java/altlombardisch/xml/tag/XmlTagDefinition.java:245-258 | identity, then the class check, then a comparison of the lazily drawn UUIDs |
| Entities.XmlTagDefinition.HashCode | src/main/java/altlombardisch/xml/tag/XmlTagDefinition.java:266-272 | the Java hash of the lazily drawn UUID |
| Entities.TagHashCodeIsStable | src/main/java/altlombardisch/xml/tag/XmlTagDefinition.java:266-272 | two calls of `hashCode` give the same value |
| Entities.TagEqualImpliesSameHash | src/main/java/altlombardisch/xml/tag/XmlTagDefinition.java:245-272 | equal tag definitions have equal hash codes |
| Entities.XmlAttributeDefinition.constructor | src/main/java/altlombardisch/xml/attribute/XmlAttributeDefinition.java:72-73 | a new attribute definition is transient, with no parent |
| Entities.XmlAttributeDefinition.SetUuid | src/main/java/altlombardisch/xml/attribute/XmlAttributeDefinition.java:110-112 | sets the UUID and nothing else |
| Entities.XmlAttributeDefinition.SetTagDefinition | src/main/java/altlombardisch/xml/attribute/XmlAttributeDefinition.java:150-152 | sets the parent and nothing else |
| Entities.XmlAttributeDefinition.SetName | src/main/java/altlombardisch/xml/attribute/XmlAttributeDefinition.java:169-171 | sets the name and nothing else |
| Entities.XmlAttributeDefinition.SetRequired | src/main/java/altlombardisch/xml/attribute/XmlAttributeDefinition.java:188-190 | sets the required flag and nothing else |
| Entities.XmlAttributeDefinition.Equals | src/main/java/altlombardisch/xml/attribute/XmlAttributeDefinition.java:201-214 | identity, then the class check, then a comparison of the lazily drawn UUIDs |
| Entities.XmlAttributeDefinition.HashCode | src/main/java/altlombardisch/xml/attribute/XmlAttributeDefinition.java:222-228 | the Java hash of the lazily drawn UUID |
| Entities.AttributeHashCodeIsStable | src/main/java/altlombardisch/xml/attribute/XmlAttributeDefinition.java:222-228 | two calls of `hashCode` give the same value |
| Entities.AttributeEqualImpliesSameHash | src/main/java/altlombardisch/xml/attribute/XmlAttributeDefinition.java:201-228 | equal attribute definitions have equal hash codes |
| Entities.Siglum.constructor | src/main/java/altlombardisch/siglum/Siglum.java:76-77 | a new siglum is transient, with no fields set |
| Entities.Siglum.SetUuid | src/main/java/altlombardisch/siglum/Siglum.java:114-116 | sets the UUID and nothing else |
| Entities.Siglum.SetName | src/main/java/altlombardisch/siglum/Siglum.java:154-156 | sets the name and nothing else |
| Entities.Siglum.SetTaggedName | src/main/java/altlombardisch/siglum/Siglum.java:173-175 | sets the tagged name and nothing else |
| Entities.Siglum.SetText | src/main/java/altlombardisch/siglum/Siglum.java:192-194 | sets the text and nothing else |
| Entities.Siglum.SetType | src/main/java/altlombardisch/siglum/Siglum.java:210-212 | sets the type and nothing else |
| Entities.Siglum.Equals | src/main/java/altlombardisch/siglum/Siglum.java:223-236 | identity, then the class check, then a comparison of the lazily drawn UUIDs |
| Entities.Siglum.HashCode | src/main/java/altlombardisch/siglum/Siglum.java:244-250 | the Java hash of the lazily drawn UUID |
| Entities.SiglumHashCodeIsStable | src/main/java/altlombardisch/siglum/Siglum.java:244-250 | two calls of `hashCode` give the same value |
| Entities.SiglumEqualImpliesSameHash | src/main/java/altlombardisch/siglum/Siglum.java:223-250 | equal sigla have equal hash codes |
| XmlTagDefinitionDao.Persist | src/main/java/altlombardisch/xml/tag/XmlTagDefinitionDao.java:41-71 | a missing UUID is drawn first; a null name or parent, a transient parent, or a taken (parent, name) or UUID fails and stores nothing; otherwise one row is appended and the entity gets its key |
| XmlTagDefinitionDao.Merge | src/main/java/altlombardisch/xml/tag/XmlTagDefinitionDao.java:78-107 | the stored row with the entity's key is replaced by the entity's columns, and a transient entity is appended under the next key; a missing row is stale; a null name or transient parent fails with that error and a clash with a constraint violation, and no failure stores anything |
| XmlTagDefinitionDao.Remove | src/main/java/altlombardisch/xml/tag/XmlTagDefinitionDao.java:115-138 | a stored definition's row is deleted and the cascade deletes its attribute rows; a transient definition passes exactly when the merge's INSERT succeeds, which a null name, a transient parent or a taken (parent, name) or UUID prevents, and its rows end as before; the parent's tags, as `findAll` yields them, lose this one and keep their order; the caller's parent object is not touched; a null parent, a stale entity or a failed insert changes no row |
| XmlTagDefinitionDao.RemoveTransient | src/main/java/altlombardisch/xml/tag/XmlTagDefinitionDao.java:121-125 | the merge inserts the transient definition under the next key and the DELETE takes it away again with that key's attribute rows; it fails with the insert's error, or a null reference without a parent, and then rolls back |
| XmlTagDefinitionDao.DeleteFromDocument | src/main/java/altlombardisch/xml/tag/XmlTagDefinitionDao.java:122-125 | the DELETE takes the row out of the parent's name-ordered tag list and keeps the others in order, as detaching before deleting intends |
| XmlTagDefinitionDao.DeleteLeavesOrder | src/main/java/altlombardisch/xml/tag/XmlTagDefinitionDao.java:122-125 | the parent's tags after the DELETE are its tags before it without the deleted one |
| XmlTagDefinitionDao.FindById | src/main/java/altlombardisch/xml/tag/XmlTagDefinitionDao.java:146-174 | the row with that key, None exactly when there is none |
| XmlTagDefinitionDao.FindByName | src/main/java/altlombardisch/xml/tag/XmlTagDefinitionDao.java:182-212 | the parent's row with that name, None exactly when no row matches |
| XmlTagDefinitionDao.FindAll | src/main/java/altlombardisch/xml/tag/XmlTagDefinitionDao.java:259-283 | exactly the parent's rows, sorted by name |
| XmlTagDefinitionDao.FindFirst | src/main/java/altlombardisch/xml/tag/XmlTagDefinitionDao.java:220-250 | a row of the parent whose name no other row of the parent precedes; None exactly when the parent has none |
| XmlAttributeDefinitionDao.Persist | src/main/java/altlombardisch/xml/attribute/XmlAttributeDefinitionDao.java:41-71 | as for tags: UUID first, NOT NULL and unique (tag, name) checked, one row appended |
| XmlAttributeDefinitionDao.Merge | src/main/java/altlombardisch/xml/attribute/XmlAttributeDefinitionDao.java:78-107 | the row with the entity's key is replaced, and a transient entity is appended under the next key; a null name or transient tag fails with that error and a clash with a constraint violation; stale and failing merges change nothing |
| XmlAttributeDefinitionDao.Remove | src/main/java/altlombardisch/xml/attribute/XmlAttributeDefinitionDao.java:115-138 | a stored definition's row is deleted; a transient definition passes exactly when the merge's INSERT succeeds, which a null name, a transient tag or a taken (tag, name) or UUID prevents, and the rows end as before; the tag's attributes, as `findAll` yields them, lose this one and keep their order; the caller's tag object is not touched; a null tag, a stale entity or a failed insert changes no row |
| XmlAttributeDefinitionDao.RemoveTransient | src/main/java/altlombardisch/xml/attribute/XmlAttributeDefinitionDao.java:121-125 | the merge inserts the transient definition under the next key and the DELETE takes it away again; it fails with the insert's error, or a null reference without a tag, and then rolls back |
| XmlAttributeDefinitionDao.DeleteFromTag | src/main/java/altlombardisch/xml/attribute/XmlAttributeDefinitionDao.java:122-125 | the DELETE takes the row out of the tag's name-ordered attribute list and keeps the others in order |
| XmlAttributeDefinitionDao.DeleteLeavesOrder | src/main/java/altlombardisch/xml/attribute/XmlAttributeDefinitionDao.java:122-125 | the tag's attributes after the DELETE are its attributes before it without the deleted one |
| XmlAttributeDefinitionDao.FindById | src/main/java/altlombardisch/xml/attribute/XmlAttributeDefinitionDao.java:146-174 | the row with that key, None exactly when there is none |
| XmlAttributeDefinitionDao.FindByName | src/main/java/altlombardisch/xml/attribute/XmlAttributeDefinitionDao.java:182-212 | the tag's row with that name, None exactly when no row matches |
| XmlAttributeDefinitionDao.OfTagByName | src/main/java/altlombardisch/xml/attribute/XmlAttributeDefinitionDao.java:259-283 | exactly the tag's rows, sorted by name |
| XmlAttributeDefinitionDao.FindAll | src/main/java/altlombardisch/xml/attribute/XmlAttributeDefinitionDao.java:259-283 | exactly the tag's rows, sorted by name |
| XmlAttributeDefinitionDao.FindFirst | src/main/java/altlombardisch/xml/attribute/XmlAttributeDefinitionDao.java:220-250 | a row of the tag with the least name; None exactly when the tag has none |
| XmlDocumentDefinitionDao.Persist | src/main/java/altlombardisch/xml/document/XmlDocumentDefinitionDao.java:45-75 | a missing UUID is drawn first; a null column or a taken identifier or UUID fails and stores nothing; otherwise one row is appended |
| XmlDocumentDefinitionDao.StoreSeed | src/main/java/altlombardisch/xml/document/XmlDocumentDefinitionDao.java:104-110 | the seeded definition of one identifier (root `document`, the empty schema) is appended with a fresh UUID |
| XmlDocumentDefinitionDao.InitializeIdentifier | src/main/java/altlombardisch/xml/document/XmlDocumentDefinitionDao.java:84-111 | an identifier already stored is skipped; a missing one is seeded; the identifier is stored afterwards |
| XmlDocumentDefinitionDao.SeedKeepsInitState | src/main/java/altlombardisch/xml/document/XmlDocumentDefinitionDao.java:84-111 | appending the seed row of an identifier the table lacked keeps the loop's state, with that identifier now handled |
| XmlDocumentDefinitionDao.Initialize | src/main/java/altlombardisch/xml/document/XmlDocumentDefinitionDao.java:83-130 | afterwards both `fontMarkup` and `siglumTextMarkup` are stored; the old rows are a prefix of the new ones; exactly the missing identifiers are added, in order |
| XmlDocumentDefinitionDao.SeedIdentifiers | src/main/java/altlombardisch/xml/document/XmlDocumentDefinitionDao.java:83-130 | the loop over distinct identifiers ends with every one of them stored, the old rows a prefix and exactly the missing ones seeded in order; only a constraint violation stops it, and none occurs while every stored UUID came from the generator |
| XmlDocumentDefinitionDao.InitializeTwiceAddsNothing | src/main/java/altlombardisch/xml/document/XmlDocumentDefinitionDao.java:99-102 | once every identifier is stored, `initialize` has nothing left to seed |
| XmlDocumentDefinitionDao.FindById | src/main/java/altlombardisch/xml/document/XmlDocumentDefinitionDao.java:138-166 | the row with that key, None exactly when there is none |
| XmlDocumentDefinitionDao.FindByIdentifier | src/main/java/altlombardisch/xml/document/XmlDocumentDefinitionDao.java:174-202 | the row with that identifier, None exactly when there is none |
| XmlDocumentDefinitionDao.FindByIdentifierIsExact | src/main/java/altlombardisch/xml/document/XmlDocumentDefinitionDao.java:174-202 | when the table is valid, any row with the identifier is the one found |
| XmlDocumentDefinitionDao.FindAll | src/main/java/altlombardisch/xml/document/XmlDocumentDefinitionDao.java:248-271 | a permutation of all rows, sorted by identifier |
| XmlDocumentDefinitionDao.FindFirst | src/main/java/altlombardisch/xml/document/XmlDocumentDefinitionDao.java:210-239 | the row with the least identifier; None exactly when the table is empty |
| SiglumDao.ColumnsOf | src/main/java/altlombardisch/siglum/Siglum.java:51-71 | the columns of a siglum, or a constraint violation exactly when the name, the tagged name or the type is null |
| SiglumDao.Refresh | src/main/java/altlombardisch/siglum/SiglumDao.java:39-67 | a transient siglum is an illegal argument for the entity manager; otherwise its stored row, or no result when it was deleted |
| SiglumDao.Persist | src/main/java/altlombardisch/siglum/SiglumDao.java:74-104 | a missing UUID is drawn first; a null column or a taken name or UUID fails and stores nothing; otherwise one row is appended |
| SiglumDao.Merge | src/main/java/altlombardisch/siglum/SiglumDao.java:111-141 | the row with the siglum's key is replaced or a transient siglum appended; a stale key, a null column or a clash with the unique name or UUID fails with that error and changes nothing |
| SiglumDao.Remove | src/main/java/altlombardisch/siglum/SiglumDao.java:149-171 | a stored siglum loses exactly its row whatever its fields now hold, and a missing row is a stale entity; a transient siglum is inserted and deleted again, so the rows end as they were, and an insert that breaks a constraint changes nothing |
| SiglumDao.FindById | src/main/java/altlombardisch/siglum/SiglumDao.java:179-207 | the row with that key, None exactly when there is none |
| SiglumDao.FindByName | src/main/java/altlombardisch/siglum/SiglumDao.java:215-243 | the row with that name, None exactly when there is none |
| SiglumDao.FindByNameIsUnique | src/main/java/altlombardisch/siglum/SiglumDao.java:215-243 | when the table is valid, any row with the name is the one found |
| SiglumDao.FindAll | src/main/java/altlombardisch/siglum/SiglumDao.java:251-274 | exactly the rows whose name is LIKE the substring followed by `%` (a null substring reads as `null`); the query has no ORDER BY, and the model returns them in table order |
| SiglumDao.FindAllIsPrefixSearch | src/main/java/altlombardisch/siglum/SiglumDao.java:251-274 | for a substring without wildcards, the found rows are exactly those whose name starts with it |
| XmlHelper.TextContentAllAppend | src/main/java/altlombardisch/xml/XmlHelper.java:50-58 | the text content of two node lists is the concatenation of their text contents |
| XmlHelper.GetTextContent | src/main/java/altlombardisch/xml/XmlHelper.java:39-59 | the text is wrapped in a root element and parsed; a parse failure gives null; otherwise the text content of the root |
| XmlHelper.DocumentOfIsElement | src/main/java/altlombardisch/xml/XmlHelper.java:47-48 | wrapping a serialized fragment gives the serialization of a `document` element around it |
| XmlHelper.TextOfSerializedFragment | src/main/java/altlombardisch/xml/XmlHelper.java:39-59 | with a faithful parser, the text content of serialized nodes is their character data |
| XmlHelper.MarkupIsDropped | src/main/java/altlombardisch/xml/XmlHelper.java:39-59 | markup around a part of the text is dropped: `before<t>inner</t>` reads as `before` + `inner` |
| XmlCatalog.AttributeEntries | src/main/java/altlombardisch/xml/XmlHelper.java:109-125 | one entry per found attribute definition, in order: its name and required flag |
| XmlCatalog.TagEntryOf | src/main/java/altlombardisch/xml/XmlHelper.java:89-97 | a tag's entry carries its self-closing flag and its attribute data, or the failure of the attribute query |
| XmlCatalog.TagEntries | src/main/java/altlombardisch/xml/XmlHelper.java:84-100 | one entry per found tag definition, in order, or the first failure |
| XmlCatalog.GetAttributeData | src/main/java/altlombardisch/xml/XmlHelper.java:109-125 | the loop builds exactly `AttributeData` |
| XmlCatalog.GetTagData | src/main/java/altlombardisch/xml/XmlHelper.java:84-100 | the loop builds exactly `TagEntries` |
| XmlCatalog.GetDocumentData | src/main/java/altlombardisch/xml/XmlHelper.java:68-75 | the definition's identifier with the tag data of the tags `findAll` lists; a null identifier is a null reference |
| XmlCatalog.DocumentDataFollowsFindAll | src/main/java/altlombardisch/xml/XmlHelper.java:68-100 | the catalog carries the identifier and one entry per tag in `findAll` order, with its name and self-closing flag, and one entry per attribute of that tag in `findAll` order, with its name and required flag |
| XmlCatalog.TagEntryFollowsFindAll | src/main/java/altlombardisch/xml/XmlHelper.java:86-124 | a tag's entry carries its name, its flag and its attributes in `findAll` order |
| XmlCatalog.NoTagsGiveEmptyArray | src/main/java/altlombardisch/xml/XmlHelper.java:84-100 | a definition without tags has an empty catalog |
| XmlErrors.Int32Add | src/main/java/altlombardisch/ui/xml/XmlErrorHandler.java:90 | Java `int` addition: the result stays in range and agrees with the sum modulo 2^32 |
| XmlErrors.HandlerMessage | src/main/java/altlombardisch/ui/xml/XmlErrorHandler.java:84-106 | a textarea message names the editor and carries the shifted line, the column and the text; a text field message names the field and carries the column and the text; any other component gets none |
| XmlErrors.ListenerMessage | src/main/java/altlombardisch/ui/xml/XmlErrorListener.java:78-115 | every message names the editor (textarea) or the field (text field) and ends with the text; with a locator it carries the locator's line and column (textarea) or column (text field) without an offset; without one, only the name and the text under the `...2` keys |
| XmlErrors.ListenerWithLocatorIsHandlerWithoutOffset | src/main/java/altlombardisch/ui/xml/XmlErrorListener.java:82-96 | the listener reports a located problem as the handler would at offset 0 |
| XmlErrors.OffsetMovesOnlyTheLine | src/main/java/altlombardisch/ui/xml/XmlErrorHandler.java:87-93 | two offsets give textarea messages that differ in the line parameter only |
| XmlErrors.FieldMessageIgnoresLine | src/main/java/altlombardisch/ui/xml/XmlErrorHandler.java:94-100 | a text field message does not depend on the line or the offset |
| XmlErrors.Validatable.constructor | src/main/java/altlombardisch/ui/xml/XmlErrorHandler.java:49-53 | a validatable holds its value and no errors |
| XmlErrors.Validatable.AddError | src/main/java/altlombardisch/ui/xml/XmlErrorHandler.java:102-105 | `validatable.error` appends one error |
| XmlErrors.XmlErrorHandler.constructor | src/main/java/altlombardisch/ui/xml/XmlErrorHandler.java:49-53 | the handler keeps the component, the validatable and the line offset |
| XmlErrors.XmlErrorHandler.Error | src/main/java/altlombardisch/ui/xml/XmlErrorHandler.java:84-106 | appends the handler message of the report, and nothing for another component |
| XmlErrors.XmlErrorHandler.Warning | src/main/java/altlombardisch/ui/xml/XmlErrorHandler.java:62-64 | a warning is reported like an error |
| XmlErrors.XmlErrorHandler.FatalError | src/main/java/altlombardisch/ui/xml/XmlErrorHandler.java:73-75 | a fatal error is reported like an error |
| XmlErrors.XmlErrorHandler.Handle | src/main/java/altlombardisch/ui/xml/XmlErrorHandler.java:62-106 | any severity appends the same message |
| XmlErrors.XmlErrorListener.constructor | src/main/java/altlombardisch/ui/xml/XmlErrorListener.java:44-47 | the listener keeps the component and the validatable |
| XmlErrors.XmlErrorListener.Error | src/main/java/altlombardisch/ui/xml/XmlErrorListener.java:78-115 | appends the listener message of the problem |
| XmlErrors.XmlErrorListener.Warning | src/main/java/altlombardisch/ui/xml/XmlErrorListener.java:56-58 | a warning is reported like an error |
| XmlErrors.XmlErrorListener.FatalError | src/main/java/altlombardisch/ui/xml/XmlErrorListener.java:67-69 | a fatal error is reported like an error |
| XmlErrors.XmlErrorListener.Handle | src/main/java/altlombardisch/ui/xml/XmlErrorListener.java:56-115 | any severity appends the same message |
| XmlValidation.TypeArgumentCheck | src/main/java/altlombardisch/ui/xml/XmlValidator.java:92-101 | only SCHEMA and XSL are accepted; null and DOCUMENT are illegal arguments |
| XmlValidation.SchemaRunOf | src/main/java/altlombardisch/ui/xml/XmlValidator.java:129-155 | DOCUMENT validates the wrapped fragment against the definition's schema at offset −1 (a missing schema is a null reference); SCHEMA validates the value against the bundled XML Schema at offset 0 |
| XmlValidation.HandlerMessages | src/main/java/altlombardisch/ui/xml/XmlValidator.java:160-161 | one handler message per report, in order |
| XmlValidation.ListenerMessages | src/main/java/altlombardisch/ui/xml/XmlValidator.java:167-181 | one listener message per problem, in order |
| XmlValidation.ValidationMessages | src/main/java/altlombardisch/ui/xml/XmlValidator.java:128-183 | the errors `validate` adds: the schema reports, or nothing when the schema does not compile, or the stylesheet's compile and transform problems for XSL |
| XmlValidation.XmlValidator.constructor | src/main/java/altlombardisch/ui/xml/XmlValidator.java:92-119 | the validator keeps its component, its mode and its definition |
| XmlValidation.XmlValidator.Validate | src/main/java/altlombardisch/ui/xml/XmlValidator.java:128-183 | appends exactly `ValidationMessages` to the validatable, or fails with the null reference of a DOCUMENT definition without schema |
| XmlValidation.ValidateStylesheet | src/main/java/altlombardisch/ui/xml/XmlValidator.java:167-182 | in XSL mode the listener appends exactly the XSL case of `ValidationMessages`: the compile reports, then the transform reports when the value compiles |
| XmlValidation.DeliverParseReports | src/main/java/altlombardisch/ui/xml/XmlValidator.java:160-161 | calling the handler once per report appends `HandlerMessages` |
| XmlValidation.DeliverTransformReports | src/main/java/altlombardisch/ui/xml/XmlValidator.java:167-181 | calling the listener once per problem appends `ListenerMessages` |
| XmlValidation.NewTypeValidator | src/main/java/altlombardisch/ui/xml/XmlValidator.java:92-101 | a validator exactly when the type is SCHEMA or XSL, else an illegal argument |
| XmlValidation.NewDocumentValidator | src/main/java/altlombardisch/ui/xml/XmlValidator.java:111-119 | a DOCUMENT validator exactly when the definition is not null |
| XmlValidation.WrappedPositionIsShiftedByOneLine | src/main/java/altlombardisch/ui/xml/XmlValidator.java:142-145 | a position inside the wrapped fragment, shifted by the offset −1, is the position in the value the user typed |
| XmlValidation.SeverityIsIgnored | src/main/java/altlombardisch/ui/xml/XmlErrorHandler.java:62-106 | the handler messages do not depend on the severities |
| XmlEditors.XmlEditor.constructor | src/main/java/altlombardisch/ui/xml/XmlEditor.java:101-110 | the default maximum length 1000, not read-only, 3 rows, markup ids from the suffix, nothing attached |
| XmlEditors.XmlEditor.SetMaximumLength | src/main/java/altlombardisch/ui/xml/XmlEditor.java:222-224 | sets the maximum length |
| XmlEditors.XmlEditor.SetReadOnly | src/main/java/altlombardisch/ui/xml/XmlEditor.java:232-234 | sets the read-only flag |
| XmlEditors.XmlEditor.SetRows | src/main/java/altlombardisch/ui/xml/XmlEditor.java:243-245 | sets the number of rows |
| XmlEditors.XmlEditor.OnInitialize | src/main/java/altlombardisch/ui/xml/XmlEditor.java:251-283 | a null autofocus is a null reference; otherwise the length and XML validators are attached and, in DOCUMENT mode, the tag catalog |
| XmlEditors.XmlEditor.AttachValidators | src/main/java/altlombardisch/ui/xml/XmlEditor.java:271-277 | the length validator with the current maximum, then a fresh XML validator of the editor's mode on the textarea |
| XmlEditors.XmlEditor.AttachDocumentData | src/main/java/altlombardisch/ui/xml/XmlEditor.java:289-292 | the document data of the definition goes on the container; without a definition nothing is attached |
| XmlEditors.XmlEditor.ConvertInput | src/main/java/altlombardisch/ui/xml/XmlEditor.java:311-314 | the textarea converts its raw input and the editor takes it over |
| XmlEditors.XmlEditor.GetInput | src/main/java/altlombardisch/ui/xml/XmlEditor.java:322-324 | the raw input is the textarea's |
| XmlEditors.XmlEditor.UpdateModel | src/main/java/altlombardisch/ui/xml/XmlEditor.java:330-332 | the converted input becomes the model object |
| XmlEditors.NewEditor | src/main/java/altlombardisch/ui/xml/XmlEditor.java:101-127 | a SCHEMA editor without a definition |
| XmlEditors.NewTypeEditor | src/main/java/altlombardisch/ui/xml/XmlEditor.java:141-171 | an editor exactly when the type is SCHEMA or XSL, else an illegal argument |
| XmlEditors.NewDocumentEditor | src/main/java/altlombardisch/ui/xml/XmlEditor.java:185-214 | a DOCUMENT editor exactly when the definition is not null |
| XmlEditors.SubmitInput | src/main/java/altlombardisch/ui/xml/XmlEditor.java:311-332 | after conversion and update, the model holds the converted textarea input |
| SiglumTextPreview.TransformText | src/main/java/altlombardisch/siglum/text/SiglumTextPreviewPanel.java:72-96 | a missing `siglumTextMarkup` definition is a null reference; a null text or an empty stylesheet, and a failed transform, give the empty string; otherwise the stylesheet's output on the text wrapped in the root element |
| SiglumTextPreview.SiglumTextPreviewPanel.constructor | src/main/java/altlombardisch/siglum/text/SiglumTextPreviewPanel.java:34-37 | the panel keeps its siglum and starts visible |
| SiglumTextPreview.SiglumTextPreviewPanel.GetMarkupResourceStream | src/main/java/altlombardisch/siglum/text/SiglumTextPreviewPanel.java:40-52 | the markup around the transformed text; an empty result hides the panel |
| SiglumTextPreview.PreviewAddsNoLines | src/main/java/altlombardisch/siglum/text/SiglumTextPreviewPanel.java:79-80 | the preview's wrapping adds no line break, unlike the validator's two |
| SiglumTextPreview.PreviewAfterSeeding | src/main/java/altlombardisch/siglum/text/SiglumTextPreviewPanel.java:73-74 | once `initialize` has run, the definition lookup of the preview does not fail |
| FormRules.NeighbourIsAnotherItem | src/main/java/altlombardisch/xml/tag/XmlTagDefinitionEditForm.java:355-364 | the item shown after a delete is another item of the view, or a new entity when the view held one item |
| FormRules.PredecessorOrSuccessor | src/main/java/altlombardisch/user/UserEditForm.java:252-273 | the user shown after a delete is the one before the last deleted match, or the one after a first match |
| FormRules.UniqueItemSelectsItsNeighbour | src/main/java/altlombardisch/user/UserEditForm.java:252-273 | when one item matches, the selection is its predecessor, or its successor at the head |
| FormRules.MissingItemSelectsNewEntity | src/main/java/altlombardisch/user/UserEditForm.java:252-273 | when no item matches, a new user is selected |
| TagEditForm.LastMatch | src/main/java/altlombardisch/xml/tag/XmlTagDefinitionEditForm.java:343-353 | the last index of an item equal to the definition, or 0; no later item is equal |
| TagEditForm.LastMatchOfSelves | src/main/java/altlombardisch/xml/tag/XmlTagDefinitionEditForm.java:343-353 | a view holding only the definition itself ends at its last index |
| TagEditForm.LastMatchStep | src/main/java/altlombardisch/xml/tag/XmlTagDefinitionEditForm.java:343-353 | one more item moves the result to that item exactly when it is equal to the definition |
| TagEditForm.CompareAt | src/main/java/altlombardisch/xml/tag/XmlTagDefinitionEditForm.java:343-353 | one `equals` call of the loop extends the result by that item; a UUID is assigned only when none was there |
| TagEditForm.DeletedIndex | src/main/java/altlombardisch/xml/tag/XmlTagDefinitionEditForm.java:343-353 | the loop of `equals` calls ends with `LastMatch`; the definition keeps its UUID or gets a fresh one |
| TagEditForm.XmlTagDefinitionEditForm.constructor | src/main/java/altlombardisch/xml/tag/XmlTagDefinitionEditForm.java:91-100 | delete is visible and the attributes link enabled exactly for a stored definition |
| TagEditForm.XmlTagDefinitionEditForm.ValidateName | src/main/java/altlombardisch/xml/tag/XmlTagDefinitionEditForm.java:420-438 | a non-unique error exactly when the parent has a definition of that name that is not the edited one |
| TagEditForm.XmlTagDefinitionEditForm.Save | src/main/java/altlombardisch/xml/tag/XmlTagDefinitionEditForm.java:218-230 | the definition is attached to the parent, then persisted when transient and merged otherwise: either passes exactly when its columns are complete and the unique indexes admit them, a stored definition without a row is stale, and a failure changes no row |
| TagEditForm.XmlTagDefinitionEditForm.CancelTarget | src/main/java/altlombardisch/xml/tag/XmlTagDefinitionEditForm.java:291-308 | the parent's first definition, None exactly when the parent has none |
| TagEditForm.XmlTagDefinitionEditForm.Delete | src/main/java/altlombardisch/xml/tag/XmlTagDefinitionEditForm.java:341-379 | the neighbour of the last equal item is selected, then `remove` runs with its outcomes: a stored definition loses its row and its attribute rows, a transient one passes only when it can be inserted; on success the parent's `findAll` list loses it, the others in order |
| AttributeEditForm.LastMatch | src/main/java/altlombardisch/xml/attribute/XmlAttributeDefinitionEditForm.java:288-298 | the last index of an item equal to the definition, or 0 |
| AttributeEditForm.LastMatchOfSelves | src/main/java/altlombardisch/xml/attribute/XmlAttributeDefinitionEditForm.java:288-298 | a view holding only the definition itself ends at its last index |
| AttributeEditForm.LastMatchStep | src/main/java/altlombardisch/xml/attribute/XmlAttributeDefinitionEditForm.java:288-298 | one more item moves the result to that item exactly when it is equal to the definition |
| AttributeEditForm.CompareAt | src/main/java/altlombardisch/xml/attribute/XmlAttributeDefinitionEditForm.java:288-298 | one `equals` call of the loop extends the result by that item; a UUID is assigned only when none was there |
| AttributeEditForm.DeletedIndex | src/main/java/altlombardisch/xml/attribute/XmlAttributeDefinitionEditForm.java:288-298 | the loop of `equals` calls ends with `LastMatch` |
| AttributeEditForm.XmlAttributeDefinitionEditForm.constructor | src/main/java/altlombardisch/xml/attribute/XmlAttributeDefinitionEditForm.java:80-81 | delete is visible exactly for a stored definition |
| AttributeEditForm.XmlAttributeDefinitionEditForm.ValidateName | src/main/java/altlombardisch/xml/attribute/XmlAttributeDefinitionEditForm.java:366-384 | a non-unique error exactly when the tag has an attribute of that name that is not the edited one |
| AttributeEditForm.XmlAttributeDefinitionEditForm.Save | src/main/java/altlombardisch/xml/attribute/XmlAttributeDefinitionEditForm.java:162-174 | the definition is attached to the tag, then persisted when transient and merged otherwise: either passes exactly when its columns are complete and the unique indexes admit them, a stored definition without a row is stale, and a failure changes no row |
| AttributeEditForm.XmlAttributeDefinitionEditForm.CancelTarget | src/main/java/altlombardisch/xml/attribute/XmlAttributeDefinitionEditForm.java:236-253 | the tag's first attribute, None exactly when the tag has none |
| AttributeEditForm.XmlAttributeDefinitionEditForm.Delete | src/main/java/altlombardisch/xml/attribute/XmlAttributeDefinitionEditForm.java:286-318 | the neighbour of the last equal item is selected, then `remove` runs with its outcomes: a stored definition loses its row, a transient one passes only when it can be inserted; on success the tag's `findAll` list loses it, the others in order |
| SiglumEditForm.TypeErrors | src/main/java/altlombardisch/siglum/SiglumEditForm.java:359-369 | one type-is-required error exactly when no type is chosen |
| SiglumEditForm.CancelPage | src/main/java/altlombardisch/siglum/SiglumEditForm.java:224-230 | the next page, or the siglum index |
| SiglumEditForm.SubmitPage | src/main/java/altlombardisch/siglum/SiglumEditForm.java:139-143 | the next page, or the siglum edit page |
| SiglumEditForm.SiglumEditForm.constructor | src/main/java/altlombardisch/siglum/SiglumEditForm.java:93-94 | delete is visible exactly for a stored siglum |
| SiglumEditForm.SiglumEditForm.ValidateName | src/main/java/altlombardisch/siglum/SiglumEditForm.java:319-339 | a non-unique error exactly when another siglum has the plain name of the entered tagged name |
| SiglumEditForm.SiglumEditForm.Submit | src/main/java/altlombardisch/siglum/SiglumEditForm.java:119-144 | the name becomes the plain name; persisted when transient and merged otherwise, passing exactly when the columns are complete and the unique indexes admit them, a stored siglum without a row being stale; a submit link or the storage button refreshes and stays, the save button goes to the next page |
| UserEditForm.PasswordChanged | src/main/java/altlombardisch/user/UserEditForm.java:115-124 | the password counts as unchanged exactly when the user is stored and the stored password is the entered one |
| UserEditForm.RoleErrors | src/main/java/altlombardisch/user/UserEditForm.java:312-322 | one role-is-required error exactly when no role is chosen |
| UserEditForm.RealNameErrors | src/main/java/altlombardisch/user/UserEditForm.java:349-367 | a non-unique error exactly when a user of that real name is found that is not the edited one |
| UserEditForm.UsernameErrors | src/main/java/altlombardisch/user/UserEditForm.java:394-412 | a non-unique error exactly when a user of that username is found that is not the edited one |
| UserEditForm.NameValidatorsAgree | src/main/java/altlombardisch/user/UserEditForm.java:349-412 | the two name validators report on the same inputs, each error without parameters, and their reports differ only in the message key |
| UserEditForm.Save | src/main/java/altlombardisch/user/UserEditForm.java:111-160 | a changed password is replaced by its hash with a new salt (a hashing failure leaves both); persist or merge; administrators get the form again, others the home page |
| UserEditForm.SelectAfterDelete | src/main/java/altlombardisch/user/UserEditForm.java:252-273 | the loop's selection is `PredecessorOrSuccessor` of the matches |
| UserEditForm.AfterDelete | src/main/java/altlombardisch/user/UserEditForm.java:275-298 | deleting the session's user goes to sign-in, any other delete shows the selection |
| UserEditForm.CancelResponse | src/main/java/altlombardisch/user/UserEditForm.java:195-228 | administrators get the first user or a new one, others the home page |
| CriteriaHelper.MatchSiglumType | src/main/java/altlombardisch/data/CriteriaHelper.java:23-37 | the first type whose upper-cased label starts with the upper-cased filter, None when none does |
| CriteriaHelper.PrefixOfALabelMatches | src/main/java/altlombardisch/data/CriteriaHelper.java:23-37 | a prefix of the secondary label selects the primary or the secondary type |
| CriteriaHelper.EmptyFilterMatchesPrimary | src/main/java/altlombardisch/data/CriteriaHelper.java:23-37 | the empty filter selects the primary type |
| CriteriaHelper.SiglumRestriction | src/main/java/altlombardisch/data/CriteriaHelper.java:47-58 | a siglum satisfies the restriction exactly when its name is LIKE the filter followed by `%`, or its type is the matched type |
| CriteriaHelper.SiglumRestrictionIsPrefixOrType | src/main/java/altlombardisch/data/CriteriaHelper.java:47-58 | for a filter without wildcards: the name starts with the filter, or the type matches |
| CriteriaHelper.FilterStringRestriction | src/main/java/altlombardisch/data/CriteriaHelper.java:70-78 | the siglum restriction for the siglum class, null for any other |
| CriteriaHelper.SplitAtDots | src/main/java/altlombardisch/data/CriteriaHelper.java:94 | at least one piece, no piece holds a dot, a dot-free string is one piece |
| CriteriaHelper.JoinSplitAtDots | src/main/java/altlombardisch/data/CriteriaHelper.java:94 | joining the pieces with dots gives back the string |
| CriteriaHelper.DropTrailingEmpty | src/main/java/altlombardisch/data/CriteriaHelper.java:94 | a prefix of the pieces that does not end in an empty piece, and only empty pieces were dropped |
| CriteriaHelper.JavaSplitDot | src/main/java/altlombardisch/data/CriteriaHelper.java:94 | a string without dots splits into itself |
| CriteriaHelper.GetJoins | src/main/java/altlombardisch/data/CriteriaHelper.java:126-128 | the join map is null |
| CriteriaHelper.GetOrder | src/main/java/altlombardisch/data/CriteriaHelper.java:91-116 | one order with the given direction: a two-part property on the named join (a null map or a missing join fails), any other on the root |
| CriteriaHelper.PlainPropertySortsOnTheRoot | src/main/java/altlombardisch/data/CriteriaHelper.java:105-107 | a property without a dot sorts on the root |
| CriteriaHelper.TwoPartPropertyNeedsJoins | src/main/java/altlombardisch/data/CriteriaHelper.java:97-104 | with the null join map of `getJoins`, a two-part property fails with a null reference |
| CriteriaHelper.SplitTwo | src/main/java/altlombardisch/data/CriteriaHelper.java:94 | two dot-free parts joined by a dot split into those parts |
| SiglumAutoComplete.SuggestionNames | src/main/java/altlombardisch/siglum/SiglumAutoCompleteTextField.java:92-96 | the names of the first at most ten sigla found, in order |
| SiglumAutoComplete.OnRequest | src/main/java/altlombardisch/siglum/SiglumAutoCompleteTextField.java:83-102 | the loop lists exactly `SuggestionNames` of the sigla LIKE the term |
| SiglumAutoComplete.SuggestionsStartWithTheTerm | src/main/java/altlombardisch/siglum/SiglumAutoCompleteTextField.java:83-102 | every suggestion starts with a wildcard-free term, and when at most ten match, every match is suggested |

## Left out

- Optimistic locking, transactions and concurrency. A rollback is modelled as "the rows are
  unchanged". The `version` columns are not modelled.
- `GenericDao`'s logging and panic handlers. An exception is a `DaoError` or a
  `JavaException` value.
- The JPA persistence context. Loaded objects are new instances carrying a row's columns.
  The cascade from a tag to its attributes is modelled as deleting the attribute rows.
- The Wicket components, Ajax targets, page navigation, feedback panels and localisation.
  Message keys and their parameters are values. The JSON of the tag catalog is a datatype.
- `SecureRandom` and `UUID.randomUUID` are the `UuidSource` oracle. The random suffix of the
  editor's markup ids is a parameter.
- The XML parser, the schema validators and the XSLT processor are function parameters.
  Only the reports they deliver and the outputs they produce are modelled.
- The `User` entity and `UserDao` are not part of this model. The stored user, the new salt
  and the password hash are parameters.
- `SiglumDao.Merge`: `merge` is called twice on the same object. The second merge of an
  already merged object changes nothing, so it is modelled as one merge.
- `SiglumDao.Refresh`: returns the stored row. It does not reload the fields of the siglum
  object.
- `SiglumEditForm.SiglumEditForm.Submit`: the delete confirmation panel of the siglum form is
  not modelled.
- `XmlTagDefinitionDao.Remove` and `XmlAttributeDefinitionDao.Remove`: the merged copy's
  parent and its list live in the persistence context, which is not modelled. The list is
  stood for by what `findAll` yields for the parent. Java's `List.remove` finds the element by
  `equals`, that is by UUID; the model takes out the row with the definition's primary key.
  The two agree while the definition's UUID is the one stored in its row. For a transient
  definition, the cascade of the merge into its attribute list is not modelled. The model
  inserts and deletes only the definition's own row and, for a tag, the attribute rows of its
  new key.
- `XmlErrors.Int32Add`: 32-bit wrap-around is modelled only where the line offset is added
  to a line number. Other integers are unbounded.
- `Text.ToUpper`: upper-cases ASCII letters only. Java's locale-dependent `toUpperCase` is
  not modelled.
- `SqlLike.LikePrefix`: LIKE is compared character by character and case-sensitively. The
  database's collation is not modelled.
- `XmlTagDefinitionDao.FindAll`, `XmlTagDefinitionDao.FindFirst`, `XmlAttributeDefinitionDao.FindAll`,
  `XmlAttributeDefinitionDao.OfTagByName`, `XmlAttributeDefinitionDao.FindFirst`,
  `XmlDocumentDefinitionDao.FindAll` and `XmlDocumentDefinitionDao.FindFirst`: ORDER BY is
  modelled as the code-point order of the strings. The database sorts by its collation,
  which may order case and accents differently.
- `SiglumDao.FindAll`: the query has no ORDER BY, so the database may return the rows in any
  order. The model fixes the table's order. The ten suggestions of the autocomplete depend
  on that order.
- The length limit of the schema and XSL TEXT columns is not modelled.
- `SiglumTextPreview.TransformText`: when the transformer throws, only the empty result is
  modelled. Output written before the exception is dropped.
- `getFirstSiglum` and `getNextSiglumId` are declared in `ISiglumDao.java`, but `SiglumDao.java`
  holds no implementation of them, so the model has none.

## Inconsistencies in the source

- `XmlDocumentDefinition.java` declares no `xsl` field. The siglum text preview reads the
  definition's XSL (`SiglumTextPreviewPanel.java` line 75), and the document definition edit
  form binds an `xsl` property (`XmlDocumentDefinitionEditForm.java` line 51). The model
  follows this use: it gives the definition an optional `xsl`. A seeded definition has none.
- The preview wraps the text in the definition's root element on one line
  (`SiglumTextPreviewPanel.java` lines 79-80). The validator wraps it in three lines
  (`XmlValidator.java` lines 142-144). The model follows the code for each of them.

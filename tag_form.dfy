/** XmlTagDefinitionEditForm: the form that edits one tag definition of a document definition, with
  * its name validator and its save, cancel and delete buttons. */
module TagEditForm {
  import opened Wrappers
  import opened Rows
  import opened Identity
  import opened Entities
  import opened FormRules
  import XmlErrors
  import TagDao = XmlTagDefinitionDao
  import AttributeDao = XmlAttributeDefinitionDao

  const NonUniqueNameKey: string := "XmlTagDefinitionEditForm.name-is-non-unique"

  /** The validation error the name validator reports: its key, without parameters. */
  const NonUniqueName: XmlErrors.ValidationMessage := XmlErrors.ValidationMessage(NonUniqueNameKey, [])

  /** The primary key that restricts a query to the parent; a null or transient parent has none. */
  function ParentId(parent: XmlDocumentDefinition?): Option<int>
    reads parent
  {
    if parent == null then None else parent.id
  }

  /** `d.equals(item)` once `d` carries the UUID `u`: the item is `d` itself or has UUID `u`. */
  predicate Matches(item: XmlTagDefinition, d: XmlTagDefinition, u: Option<string>)
    reads item
  {
    item == d || (u.Some? && item.uuid == u)
  }

  /** The index the delete button's loop ends with: that of the last item of the view equal to `d`,
    * or 0 when no item is. */
  function LastMatch(view: seq<XmlTagDefinition>, d: XmlTagDefinition, u: Option<string>): (k: nat)
    reads view
    ensures view == [] ==> k == 0
    ensures view != [] ==> k < |view|
    ensures k > 0 ==> Matches(view[k], d, u)
    ensures forall j :: k < j < |view| ==> !Matches(view[j], d, u)
    decreases |view|
  {
    if view == [] then 0
    else if Matches(view[|view| - 1], d, u) then |view| - 1
    else LastMatch(view[..|view| - 1], d, u)
  }

  /** A view holding nothing but `d` ends the loop at its last index, whatever UUID `d` has. */
  lemma LastMatchOfSelves(view: seq<XmlTagDefinition>, d: XmlTagDefinition, u: Option<string>)
    requires forall j :: 0 <= j < |view| ==> view[j] == d
    ensures LastMatch(view, d, u) == if view == [] then 0 else |view| - 1
  {
  }

  /** One more item extends the loop's result by that item's comparison. */
  lemma LastMatchStep(view: seq<XmlTagDefinition>, i: nat, d: XmlTagDefinition, u: Option<string>)
    requires i < |view|
    ensures LastMatch(view[..i + 1], d, u) == if Matches(view[i], d, u) then i else LastMatch(view[..i], d, u)
  {
    assert view[..i + 1][..i] == view[..i];
  }

  /** One turn of that loop: `d.equals(view[i])`, keeping `index` when they differ. */
  method CompareAt(view: seq<XmlTagDefinition>, i: nat, d: XmlTagDefinition, gen: UuidSource, index: nat) returns (next: nat)
    requires gen.Valid() && i < |view|
    requires d.uuid.None? ==> forall j :: 0 <= j < i ==> view[j] == d
    requires index == LastMatch(view[..i], d, d.uuid)
    modifies d`uuid, gen
    ensures gen.Valid()
    ensures old(d.uuid).Some? ==> d.uuid == old(d.uuid)
    ensures d.uuid == old(d.uuid) ==> gen.issued == old(gen.issued)
    ensures d.uuid != old(d.uuid) ==> d.uuid.Some? && d.uuid.value !in old(gen.issued)
    ensures d.uuid.None? ==> forall j :: 0 <= j < i + 1 ==> view[j] == d
    ensures next == LastMatch(view[..i + 1], d, d.uuid)
  {
    ghost var before := d.uuid;
    if before.None? {
      LastMatchOfSelves(view[..i], d, None);
    }
    var equal := d.Equals(view[i], gen);
    if d.uuid != before {
      LastMatchOfSelves(view[..i], d, d.uuid);
    } else {
      assert LastMatch(view[..i], d, d.uuid) == index;
    }
    assert equal == Matches(view[i], d, d.uuid);
    LastMatchStep(view, i, d, d.uuid);
    next := if equal then i else index;
  }

  /** The loop of `DeleteButton.onClick`: `d.equals(item)` for every item of the view in turn,
    * remembering the index of each equal one. The first comparison with another object gives `d`
    * a UUID when it has none. */
  method DeletedIndex(view: seq<XmlTagDefinition>, d: XmlTagDefinition, gen: UuidSource) returns (index: nat)
    requires gen.Valid()
    modifies d`uuid, gen
    ensures gen.Valid()
    ensures old(d.uuid).Some? ==> d.uuid == old(d.uuid)
    ensures d.uuid == old(d.uuid) ==> gen.issued == old(gen.issued)
    ensures d.uuid != old(d.uuid) ==> d.uuid.Some? && d.uuid.value !in old(gen.issued)
    ensures index == LastMatch(view, d, d.uuid)
  {
    index := 0;
    var i := 0;
    while i < |view|
      invariant 0 <= i <= |view|
      invariant gen.Valid()
      invariant old(d.uuid).Some? ==> d.uuid == old(d.uuid)
      invariant d.uuid == old(d.uuid) ==> gen.issued == old(gen.issued)
      invariant d.uuid != old(d.uuid) ==> d.uuid.Some? && d.uuid.value !in old(gen.issued)
      invariant d.uuid.None? ==> forall j :: 0 <= j < i ==> view[j] == d
      invariant index == LastMatch(view[..i], d, d.uuid)
    {
      index := CompareAt(view, i, d, gen, index);
      i := i + 1;
    }
    assert view[..i] == view;
  }

  /** The form over `definition`, a tag definition of `parent`. */
  class XmlTagDefinitionEditForm {
    const parent: XmlDocumentDefinition?
    const definition: XmlTagDefinition
    /** The delete button is shown for a stored definition only. */
    const deleteVisible: bool
    /** The link to the attribute definitions is disabled while the definition is transient. */
    const attributesLinkDisabled: bool

    constructor (parent: XmlDocumentDefinition?, definition: XmlTagDefinition)
      ensures this.parent == parent && this.definition == definition
      ensures deleteVisible == !TagDao.IsTransient(definition)
      ensures attributesLinkDisabled == TagDao.IsTransient(definition)
    {
      this.parent := parent;
      this.definition := definition;
      deleteVisible := !TagDao.IsTransient(definition);
      attributesLinkDisabled := TagDao.IsTransient(definition);
    }

    /** The parent's definition with that name, as `findByName` finds it. */
    function SameNamed(t: TagDao.TagTable, name: string): Option<TagDao.TagRow>
      reads this, parent, t
    {
      TagDao.FindByName(t, ParentId(parent), Some(name))
    }

    /** `UniqueNameValidator.validate`: the entered name clashes when the parent has a definition of
      * that name and the edited definition is transient, or the found definition is not equal to
      * it. The found definition is a new object, so `equals` compares UUIDs, after giving the found
      * object a fresh one when its row has none. */
    method ValidateName(t: TagDao.TagTable, validatable: XmlErrors.Validatable, gen: UuidSource)
      returns (nonUnique: bool)
      requires gen.Valid()
      modifies validatable`errors, gen
      ensures gen.Valid()
      ensures validatable.errors == old(validatable.errors) + (if nonUnique then [NonUniqueName] else [])
      ensures SameNamed(t, validatable.value).None? ==> !nonUnique
      ensures SameNamed(t, validatable.value).Some? && TagDao.IsTransient(definition) ==> nonUnique
      ensures SameNamed(t, validatable.value).Some? && !TagDao.IsTransient(definition)
              && SameNamed(t, validatable.value).value.uuid.Some? ==>
                (nonUnique <==> SameNamed(t, validatable.value).value.uuid != definition.uuid)
      ensures (SameNamed(t, validatable.value).Some? && !TagDao.IsTransient(definition)
               && SameNamed(t, validatable.value).value.uuid.None?
               && (definition.uuid.None? || definition.uuid.value in old(gen.issued))) ==> nonUnique
    {
      var found := SameNamed(t, validatable.value);
      nonUnique := false;
      if TagDao.IsTransient(definition) {
        if found.Some? {
          nonUnique := true;
        }
      } else if found.Some? {
        var loaded := TagDao.Load(found.value);
        var equal := loaded.Equals(definition, gen);
        if !equal {
          nonUnique := true;
        }
      }
      if nonUnique {
        validatable.AddError(NonUniqueName);
      }
    }

    /** `SaveButton.onSubmit`: the definition is attached to the parent, then persisted when it is
      * transient and merged otherwise. */
    method Save(t: TagDao.TagTable, gen: UuidSource) returns (r: Outcome<DaoError>)
      requires TagDao.Valid(t) && gen.Valid()
      modifies definition`documentDefinition, definition`uuid, definition`id, t, gen
      ensures TagDao.Valid(t) && gen.Valid()
      ensures definition.documentDefinition == parent
      ensures old(definition.uuid).Some? ==> definition.uuid == old(definition.uuid)
      ensures old(definition.id).None? ==>
                (r.Pass? <==> TagDao.ColumnsOf(definition).Success?
                              && Admits(old(t.rows), None, definition.uuid, TagDao.ColumnsOf(definition).value, TagDao.DocumentAndName))
      ensures old(definition.id).None? && r.Pass? ==>
                definition.id == Some(old(t.nextId))
                && t.rows == old(t.rows) + [Row(old(t.nextId), definition.uuid, TagDao.ColumnsOf(definition).value)]
      ensures old(definition.id).Some? ==> definition.id == old(definition.id) && definition.uuid == old(definition.uuid)
      ensures old(definition.id).Some? && r.Pass? ==>
                TagDao.ColumnsOf(definition).Success? && t.rows == ReplaceRow(old(t.rows), Row(definition.id.value, definition.uuid, TagDao.ColumnsOf(definition).value))
      ensures old(definition.id).Some? && RowWithId(old(t.rows), definition.id).None? ==> r == Fail(StaleEntity)
      ensures old(definition.id).Some? && RowWithId(old(t.rows), definition.id).Some? ==>
                (TagDao.ColumnsOf(definition).Failure? ==> r == Fail(TagDao.ColumnsOf(definition).error))
                && (TagDao.ColumnsOf(definition).Success? ==>
                      (r.Pass? <==> Admits(old(t.rows), definition.id, definition.uuid, TagDao.ColumnsOf(definition).value, TagDao.DocumentAndName)))
      ensures r.Fail? ==> t.rows == old(t.rows) && definition.id == old(definition.id)
    {
      definition.SetDocumentDefinition(parent);
      if TagDao.IsTransient(definition) {
        r := TagDao.Persist(t, definition, gen);
      } else {
        var merged := TagDao.Merge(t, definition);
        r := if merged.Success? then Pass else Fail(merged.error);
      }
    }

    /** `CancelButton.onClick`: the form is replaced by one over the parent's first definition by
      * name; without any definition nothing happens. */
    function CancelTarget(t: TagDao.TagTable): (r: Option<TagDao.TagRow>)
      reads this, parent, t
      ensures r.None? <==> forall i :: 0 <= i < |t.rows| ==> !TagDao.OfDocument(t.rows[i], ParentId(parent))
      ensures r.Some? ==> r.value in t.rows && TagDao.OfDocument(r.value, ParentId(parent))
    {
      TagDao.FindFirst(t, ParentId(parent))
    }

    /** `DeleteButton.onClick`: the item to show next is chosen from the index the loop found, then
      * the definition is removed. */
    method Delete(view: seq<XmlTagDefinition>, t: TagDao.TagTable, attributes: AttributeDao.AttributeTable,
                  gen: UuidSource)
      returns (selected: Selection, r: Outcome<DaoError>)
      requires gen.Valid() && TagDao.Valid(t) && AttributeDao.Valid(attributes)
      modifies definition`uuid, gen, t, attributes
      ensures gen.Valid() && TagDao.Valid(t) && AttributeDao.Valid(attributes)
      ensures selected == NeighbourOf(LastMatch(view, definition, definition.uuid), |view|)
      ensures definition.id.Some? ==>
                (r.Pass? <==> RowWithId(old(t.rows), definition.id).Some? && definition.documentDefinition != null)
      ensures definition.id.None? ==>
                (r.Pass? <==> TagDao.ColumnsOf(definition).Success? && definition.documentDefinition != null
                              && Admits(old(t.rows), None, definition.uuid, TagDao.ColumnsOf(definition).value, TagDao.DocumentAndName))
      ensures r.Pass? && definition.id.Some? ==>
                t.rows == DeleteWhere(old(t.rows), HasId(definition.id))
                && attributes.rows == DeleteWhere(old(attributes.rows), AttributeDao.OfTagCondition(definition.id))
      ensures r.Pass? && definition.id.None? ==> t.rows == old(t.rows)
      ensures r.Pass? ==> TagDao.FindAll(t, definition.documentDefinition.id)
                          == DeleteWhere(old(TagDao.FindAll(t, definition.documentDefinition.id)), HasId(definition.id))
      ensures r.Fail? ==> t.rows == old(t.rows) && attributes.rows == old(attributes.rows)
    {
      var index := DeletedIndex(view, definition, gen);
      selected := NeighbourOf(index, |view|);
      ghost var last, columns := LastMatch(view, definition, definition.uuid), TagDao.ColumnsOf(definition);
      r := TagDao.Remove(t, attributes, definition);
      assert LastMatch(view, definition, definition.uuid) == last && TagDao.ColumnsOf(definition) == columns;
    }
  }
}

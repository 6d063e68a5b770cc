/** SiglumEditForm: the form that edits a siglum, with its name and type validators, its submit and
  * its cancel button. */
module SiglumEditForm {
  import opened Wrappers
  import opened Text
  import opened Rows
  import opened Identity
  import opened Entities
  import XmlErrors
  import XmlHelper
  import SiglumDao

  const NonUniqueSiglumKey: string := "SiglumEditForm.siglum-is-non-unique"
  const TypeIsRequiredKey: string := "SiglumEditForm.type-is-required"

  const NonUniqueSiglum: XmlErrors.ValidationMessage := XmlErrors.ValidationMessage(NonUniqueSiglumKey, [])
  const TypeIsRequired: XmlErrors.ValidationMessage := XmlErrors.ValidationMessage(TypeIsRequiredKey, [])

  /** The text editor of the siglum's text takes up to 5000 characters in 5 rows. */
  const TextMaximumLength: nat := 5000
  const TextRows: nat := 5

  /** The page classes a submit or a cancel goes on to. */
  datatype PageClass = SiglumEditPage | SiglumIndexPage | OtherPage(name: string)

  /** The component that submitted the form. */
  datatype Submitter = SubmitLink | IntermediateStorageButton | SaveButton

  /** How a submit ends: the stored siglum is refreshed and the page stays, the response goes to a
    * page, or the store refused the siglum and the exception ends the request. */
  datatype SubmitResponse = Stay(refreshed: Result<SiglumDao.SiglumRow, DaoError>) | Goto(page: PageClass) | Failed(error: DaoError)

  /** The plain name of a tagged name: its text content, as `getTextContent` extracts it from the
    * tagged name (a null one reads as the word `null`). */
  function PlainName(parse: XmlHelper.Parser, taggedName: Option<string>): Option<string> {
    XmlHelper.GetTextContent(parse, JavaString(taggedName))
  }

  /** `RequiredTypeValidator.validate`: the one error it reports, exactly when no type is chosen. */
  function TypeErrors(value: Option<SiglumType>): (r: seq<XmlErrors.ValidationMessage>)
    ensures |r| <= 1
    ensures r == [] <==> value.Some?
    ensures r != [] ==> r[0].key == TypeIsRequiredKey
  {
    if value.Some? then [] else [TypeIsRequired]
  }

  /** Where the cancel button goes: the configured next page, or the siglum index. */
  function CancelPage(nextPage: Option<PageClass>): (r: PageClass)
    ensures nextPage.Some? ==> r == nextPage.value
    ensures nextPage.None? ==> r == SiglumIndexPage
  {
    nextPage.GetOr(SiglumIndexPage)
  }

  /** Where a plain submit goes: the configured next page, or the siglum edit page. */
  function SubmitPage(nextPage: Option<PageClass>): (r: PageClass)
    ensures nextPage.Some? ==> r == nextPage.value
    ensures nextPage.None? ==> r == SiglumEditPage
  {
    nextPage.GetOr(SiglumEditPage)
  }

  /** The form over `siglum`; `nextPage` is the page class it goes on to, when one is set. */
  class SiglumEditForm {
    const siglum: Siglum
    const nextPage: Option<PageClass>
    /** The delete button is shown for a stored siglum only. */
    const deleteVisible: bool

    constructor (siglum: Siglum, nextPage: Option<PageClass>)
      ensures this.siglum == siglum && this.nextPage == nextPage
      ensures deleteVisible == !SiglumDao.IsTransient(siglum)
    {
      this.siglum := siglum;
      this.nextPage := nextPage;
      deleteVisible := !SiglumDao.IsTransient(siglum);
    }

    /** `UniqueSiglumNameValidator.validate`: the plain name of the entered tagged name clashes when
      * a siglum has it and the edited siglum is transient, or the found siglum is not equal to it.
      * The found siglum is a new object, so `equals` compares UUIDs, after giving the found object a
      * fresh one when its row has none. */
    method ValidateName(t: SiglumDao.SiglumTable, parse: XmlHelper.Parser, validatable: XmlErrors.Validatable,
                        gen: UuidSource)
      returns (nonUnique: bool)
      requires gen.Valid()
      modifies validatable`errors, gen
      ensures gen.Valid()
      ensures validatable.errors == old(validatable.errors) + (if nonUnique then [NonUniqueSiglum] else [])
      ensures SameNamed(t, parse, validatable.value).None? ==> !nonUnique
      ensures SameNamed(t, parse, validatable.value).Some? && SiglumDao.IsTransient(siglum) ==> nonUnique
      ensures SameNamed(t, parse, validatable.value).Some? && !SiglumDao.IsTransient(siglum)
              && SameNamed(t, parse, validatable.value).value.uuid.Some? ==>
                (nonUnique <==> SameNamed(t, parse, validatable.value).value.uuid != siglum.uuid)
      ensures (SameNamed(t, parse, validatable.value).Some? && !SiglumDao.IsTransient(siglum)
               && SameNamed(t, parse, validatable.value).value.uuid.None?
               && (siglum.uuid.None? || siglum.uuid.value in old(gen.issued))) ==> nonUnique
    {
      var found := SameNamed(t, parse, validatable.value);
      nonUnique := false;
      if SiglumDao.IsTransient(siglum) {
        if found.Some? {
          nonUnique := true;
        }
      } else if found.Some? {
        var loaded := SiglumDao.Load(found.value);
        var equal := loaded.Equals(siglum, gen);
        if !equal {
          nonUnique := true;
        }
      }
      if nonUnique {
        validatable.AddError(NonUniqueSiglum);
      }
    }

    /** The siglum whose name is the plain name of `taggedName`, as `findByName` finds it. */
    function SameNamed(t: SiglumDao.SiglumTable, parse: XmlHelper.Parser, taggedName: string): Option<SiglumDao.SiglumRow>
      reads t
    {
      SiglumDao.FindByName(t, PlainName(parse, Some(taggedName)))
    }

    /** `onSubmit`: the name becomes the plain name of the tagged name, the siglum is persisted
      * when it is transient and merged otherwise; a submit link or the intermediate storage button
      * then refreshes it and stays, any other submit goes to the next page. */
    method Submit(t: SiglumDao.SiglumTable, parse: XmlHelper.Parser, submitter: Submitter, gen: UuidSource)
      returns (response: SubmitResponse)
      requires SiglumDao.Valid(t) && gen.Valid()
      modifies siglum`name, siglum`uuid, siglum`id, t, gen
      ensures SiglumDao.Valid(t) && gen.Valid()
      ensures siglum.name == PlainName(parse, siglum.taggedName)
      ensures old(siglum.uuid).Some? ==> siglum.uuid == old(siglum.uuid)
      ensures response.Failed? ==> t.rows == old(t.rows) && siglum.id == old(siglum.id)
      ensures old(siglum.id).None? ==>
                (response.Failed? <==> !(SiglumDao.ColumnsOf(siglum).Success?
                                        && Admits(old(t.rows), None, siglum.uuid, SiglumDao.ColumnsOf(siglum).value, SiglumDao.NameKey)))
      ensures old(siglum.id).None? && !response.Failed? ==>
                siglum.id == Some(old(t.nextId))
                && t.rows == old(t.rows) + [Row(old(t.nextId), siglum.uuid, SiglumDao.ColumnsOf(siglum).value)]
      ensures old(siglum.id).Some? ==> siglum.id == old(siglum.id) && siglum.uuid == old(siglum.uuid)
      ensures old(siglum.id).Some? && !response.Failed? ==>
                SiglumDao.ColumnsOf(siglum).Success?
                && t.rows == ReplaceRow(old(t.rows), Row(siglum.id.value, siglum.uuid, SiglumDao.ColumnsOf(siglum).value))
      ensures old(siglum.id).Some? && RowWithId(old(t.rows), siglum.id).None? ==> response == Failed(StaleEntity)
      ensures old(siglum.id).Some? && RowWithId(old(t.rows), siglum.id).Some? ==>
                (SiglumDao.ColumnsOf(siglum).Failure? ==> response == Failed(SiglumDao.ColumnsOf(siglum).error))
                && (SiglumDao.ColumnsOf(siglum).Success? ==>
                      (!response.Failed? <==> Admits(old(t.rows), siglum.id, siglum.uuid, SiglumDao.ColumnsOf(siglum).value, SiglumDao.NameKey)))
      ensures !response.Failed? && submitter != SaveButton ==> response == Stay(SiglumDao.Refresh(t, siglum))
      ensures response.Stay? ==> response.refreshed.Success?
      ensures !response.Failed? && submitter == SaveButton ==> response == Goto(SubmitPage(nextPage))
    {
      siglum.SetName(PlainName(parse, siglum.taggedName));
      if SiglumDao.IsTransient(siglum) {
        var saved := SiglumDao.Persist(t, siglum, gen);
        if saved.Fail? {
          return Failed(saved.error);
        }
      } else {
        var merged := SiglumDao.Merge(t, siglum);
        if merged.Failure? {
          return Failed(merged.error);
        }
      }
      if submitter == SubmitLink || submitter == IntermediateStorageButton {
        assert t.rows[|t.rows| - 1].id == siglum.id.value || RowWithId(old(t.rows), siglum.id).Some?;
        return Stay(SiglumDao.Refresh(t, siglum));
      }
      response := Goto(SubmitPage(nextPage));
    }
  }
}

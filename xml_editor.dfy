/** XmlEditor: the form component that wraps a hidden textarea for the browser's code editor. Its
  * constructors fix the validator mode, its setters the layout, and `onInitialize` attaches the
  * length and XML validators and, for a document definition, the tag catalog. */
module XmlEditors {
  import opened Wrappers
  import opened Entities
  import opened XmlErrors
  import opened XmlValidation
  import opened XmlCatalog
  import AttributeDao = XmlAttributeDefinitionDao
  import TagDao = XmlTagDefinitionDao

  /** A validator attached to the textarea. */
  datatype TextAreaValidator =
    | LengthValidator(minimum: Option<int>, maximum: Option<int>)   // `StringValidator`
    | XmlValidatorOf(validator: XmlValidator)

  const DefaultMaximumLength: int := 1000
  const DefaultRows: int := 3

  class XmlEditor {
    const id: string
    const mirrorId: string
    const textareaId: string
    var autofocus: Option<bool>
    var maximumLength: Option<int>
    var readOnly: Option<bool>
    var rows: Option<int>
    var validatorType: ValidatorType
    var documentDefinition: XmlDocumentDefinition?

    /** The model object, shared with the textarea. */
    var modelObject: Option<string>
    var convertedInput: Option<string>

    /** The textarea's raw request value and its converted input. */
    var textAreaInput: Option<string>
    var textAreaConvertedInput: Option<string>

    /** What `onInitialize` has built. */
    var initialized: bool
    var containerAutofocus: bool
    var mirrorMarkupId: string
    var textAreaMarkupId: string
    var textAreaRows: Option<int>
    var textAreaValidators: seq<TextAreaValidator>
    var containerDocumentData: Option<DocumentEntry>

    /** A document definition is present exactly in DOCUMENT mode, and nothing is attached before
      * `onInitialize`. */
    predicate Valid()
      reads this
    {
      (validatorType == Document <==> documentDefinition != null)
      && (!initialized ==> textAreaValidators == [] && containerDocumentData.None?)
    }

    /** The shared constructor body: the default layout, the given mode, and ids for the mirror and
      * the textarea that share one random suffix. */
    constructor (id: string, model: Option<string>, suffix: string, validatorType: ValidatorType,
                 documentDefinition: XmlDocumentDefinition?, autofocus: Option<bool>)
      requires validatorType == Document <==> documentDefinition != null
      ensures Valid() && !initialized
      ensures this.id == id && modelObject == model
      ensures mirrorId == "mirror-" + suffix && textareaId == "textarea-" + suffix
      ensures this.autofocus == autofocus && maximumLength == Some(DefaultMaximumLength)
      ensures readOnly == Some(false) && rows == Some(DefaultRows)
      ensures this.validatorType == validatorType && this.documentDefinition == documentDefinition
      ensures textAreaValidators == [] && containerDocumentData.None?
    {
      this.id := id;
      modelObject := model;
      mirrorId := "mirror-" + suffix;
      textareaId := "textarea-" + suffix;
      this.autofocus := autofocus;
      maximumLength := Some(DefaultMaximumLength);
      readOnly := Some(false);
      rows := Some(DefaultRows);
      this.validatorType := validatorType;
      this.documentDefinition := documentDefinition;
      convertedInput := None;
      textAreaInput := None;
      textAreaConvertedInput := None;
      initialized := false;
      containerAutofocus := false;
      mirrorMarkupId := "";
      textAreaMarkupId := "";
      textAreaRows := None;
      textAreaValidators := [];
      containerDocumentData := None;
    }

    method SetMaximumLength(maximumLength: Option<int>)
      modifies this`maximumLength
      ensures this.maximumLength == maximumLength
    {
      this.maximumLength := maximumLength;
    }

    method SetReadOnly(readOnly: Option<bool>)
      modifies this`readOnly
      ensures this.readOnly == readOnly
    {
      this.readOnly := readOnly;
    }

    method SetRows(rows: Option<int>)
      modifies this`rows
      ensures this.rows == rows
    {
      this.rows := rows;
    }

    /** `onInitialize`: the container, the mirror and the textarea get their markup ids, the
      * textarea gets the rows attribute, a length validator with the current maximum and the XML
      * validator of the editor's mode, and a document definition's catalog is put on the container.
      * A null autofocus flag fails when it is unboxed, before anything is attached; a catalog that
      * cannot be built fails after the validators are attached. */
    method OnInitialize(tags: TagDao.TagTable, attributes: AttributeDao.AttributeTable) returns (r: Outcome<JavaException>)
      requires Valid() && !initialized
      modifies this`initialized, this`containerAutofocus, this`mirrorMarkupId, this`textAreaMarkupId,
               this`textAreaRows, this`textAreaValidators, this`containerDocumentData
      ensures Valid()
      ensures autofocus.None? ==> r == Fail(NullPointer) && textAreaValidators == old(textAreaValidators)
      ensures autofocus.Some? ==>
                containerAutofocus == autofocus.value && mirrorMarkupId == mirrorId && textAreaMarkupId == textareaId
                && textAreaRows == rows && |textAreaValidators| == 2
                && textAreaValidators[0] == LengthValidator(None, maximumLength)
                && textAreaValidators[1].XmlValidatorOf?
                && fresh(textAreaValidators[1].validator)
                && textAreaValidators[1].validator.Valid()
                && textAreaValidators[1].validator.component == TextAreaIn(id)
                && textAreaValidators[1].validator.validatorType == validatorType
                && textAreaValidators[1].validator.documentDefinition == documentDefinition
      ensures initialized <==> autofocus.Some?
      ensures autofocus.Some? && documentDefinition == null ==> r.Pass? && containerDocumentData.None?
      ensures autofocus.Some? && documentDefinition != null ==>
                match DocumentData(tags, attributes, documentDefinition)
                case Failure(e) => r == Fail(e) && containerDocumentData.None?
                case Success(d) => r.Pass? && containerDocumentData == Some(d)
    {
      if autofocus.None? {
        return Fail(NullPointer);
      }
      containerAutofocus := autofocus.value;
      mirrorMarkupId := mirrorId;
      textAreaMarkupId := textareaId;
      textAreaRows := rows;
      AttachValidators();
      ghost var validators := textAreaValidators;
      initialized := true;
      r := AttachDocumentData(tags, attributes);
      assert textAreaValidators == validators;
    }

    /** The length validator with the current maximum, then the XML validator of the mode. */
    method AttachValidators()
      requires Valid()
      modifies this`textAreaValidators
      ensures |textAreaValidators| == 2
      ensures textAreaValidators[0] == LengthValidator(None, maximumLength)
      ensures textAreaValidators[1].XmlValidatorOf?
      ensures fresh(textAreaValidators[1].validator)
      ensures textAreaValidators[1].validator.Valid()
      ensures textAreaValidators[1].validator.component == TextAreaIn(id)
      ensures textAreaValidators[1].validator.validatorType == validatorType
      ensures textAreaValidators[1].validator.documentDefinition == documentDefinition
    {
      var validator: Result<XmlValidator, JavaException>;
      if validatorType == Document {
        validator := NewDocumentValidator(TextAreaIn(id), documentDefinition);
      } else {
        validator := NewTypeValidator(TextAreaIn(id), Some(validatorType));
      }
      textAreaValidators := [LengthValidator(None, maximumLength), XmlValidatorOf(validator.value)];
    }

    /** `initializeTagData`, called for a document definition only: the catalog goes on the
      * container. */
    method AttachDocumentData(tags: TagDao.TagTable, attributes: AttributeDao.AttributeTable) returns (r: Outcome<JavaException>)
      requires containerDocumentData.None?
      modifies this`containerDocumentData
      ensures documentDefinition == null ==> r.Pass? && containerDocumentData.None?
      ensures documentDefinition != null ==>
                match DocumentData(tags, attributes, documentDefinition)
                case Failure(e) => r == Fail(e) && containerDocumentData.None?
                case Success(d) => r.Pass? && containerDocumentData == Some(d)
    {
      if documentDefinition != null {
        var documentData := GetDocumentData(tags, attributes, documentDefinition);
        if documentData.Failure? {
          return Fail(documentData.error);
        }
        containerDocumentData := Some(documentData.value);
      }
      r := Pass;
    }

    /** `convertInput`: the textarea converts its raw input (`convert` stands for Wicket's
      * conversion of the request value) and the editor takes over the textarea's converted input. */
    method ConvertInput(convert: Option<string> -> Option<string>)
      modifies this`textAreaConvertedInput, this`convertedInput
      ensures textAreaConvertedInput == convert(textAreaInput)
      ensures convertedInput == textAreaConvertedInput
    {
      textAreaConvertedInput := convert(textAreaInput);
      convertedInput := textAreaConvertedInput;
    }

    /** `getInput`: the raw input is the textarea's. */
    function GetInput(): (r: Option<string>)
      reads this
      ensures r == textAreaInput
    {
      textAreaInput
    }

    /** `updateModel`: the converted input becomes the model object. */
    method UpdateModel()
      modifies this`modelObject
      ensures modelObject == convertedInput
    {
      modelObject := convertedInput;
    }
  }

  /** `XmlEditor(id, model, labelModel[, autofocus])`: SCHEMA mode (the one-argument-shorter
    * constructor passes the default `false` for autofocus). */
  method NewEditor(id: string, model: Option<string>, suffix: string, autofocus: Option<bool>) returns (e: XmlEditor)
    ensures fresh(e) && e.Valid() && !e.initialized
    ensures e.validatorType == Schema && e.documentDefinition == null && e.autofocus == autofocus
  {
    e := new XmlEditor(id, model, suffix, Schema, null, autofocus);
  }

  /** `XmlEditor(id, model, labelModel, validatorType[, autofocus])`: a null type and DOCUMENT are
    * illegal arguments. */
  method NewTypeEditor(id: string, model: Option<string>, suffix: string, t: Option<ValidatorType>, autofocus: Option<bool>)
    returns (r: Result<XmlEditor, JavaException>)
    ensures r.Success? <==> TypeArgumentCheck(t).Pass?
    ensures r.Failure? ==> r.error == IllegalArgument
    ensures r.Success? ==> fresh(r.value) && r.value.Valid() && !r.value.initialized
                           && Some(r.value.validatorType) == t && r.value.documentDefinition == null
                           && r.value.autofocus == autofocus
  {
    var check := TypeArgumentCheck(t);
    if check.Fail? {
      return Failure(check.error);
    }
    var e := new XmlEditor(id, model, suffix, t.value, null, autofocus);
    r := Success(e);
  }

  /** `XmlEditor(id, model, labelModel, documentDefinition[, autofocus])`: DOCUMENT mode; a null
    * definition is an illegal argument. */
  method NewDocumentEditor(id: string, model: Option<string>, suffix: string, d: XmlDocumentDefinition?, autofocus: Option<bool>)
    returns (r: Result<XmlEditor, JavaException>)
    ensures r.Success? <==> d != null
    ensures r.Failure? ==> r.error == IllegalArgument
    ensures r.Success? ==> fresh(r.value) && r.value.Valid() && !r.value.initialized
                           && r.value.validatorType == Document && r.value.documentDefinition == d
                           && r.value.autofocus == autofocus
  {
    if d == null {
      return Failure(IllegalArgument);
    }
    var e := new XmlEditor(id, model, suffix, Document, d, autofocus);
    r := Success(e);
  }

  /** A submitted value reaches the model: the converted textarea input after `convertInput` and
    * `updateModel`. */
  method SubmitInput(e: XmlEditor, convert: Option<string> -> Option<string>)
    modifies e`textAreaConvertedInput, e`convertedInput, e`modelObject
    ensures e.modelObject == convert(e.textAreaInput)
  {
    e.ConvertInput(convert);
    e.UpdateModel();
  }
}

/** XmlValidator: validates the value of an XML form component, as a fragment of a document
  * definition's documents, as an XML schema or as an XSL stylesheet. The schema validator and the
  * XSLT processor are parameters; what they report is passed on to the error handler or listener. */
module XmlValidation {
  import opened Wrappers
  import opened Text
  import opened Entities
  import opened XmlErrors

  /** `ValidatorType.Type` */
  datatype ValidatorType = Document | Schema | Xsl

  /** The rule both the validator and the editor apply to an explicitly given type: a null type and
    * DOCUMENT (which needs a document definition) are illegal arguments. */
  function TypeArgumentCheck(t: Option<ValidatorType>): (r: Outcome<JavaException>)
    ensures r.Pass? <==> t == Some(Schema) || t == Some(Xsl)
    ensures r.Fail? ==> r.error == IllegalArgument
  {
    match t
    case Some(Schema) => Pass
    case Some(Xsl) => Pass
    case _ => Fail(IllegalArgument)
  }

  /** The schema a value is checked against: a definition's schema text, or the XML Schema for
    * schemas that comes with the editor. */
  datatype SchemaSource = SchemaText(text: string) | BundledXmlSchema

  /** What compiling a stylesheet reported, and whether it gave a transformer. */
  datatype Compilation = Compilation(reports: seq<Report<TransformProblem>>, compiles: bool)

  /** The XML engines. `schemaCompiles` is false when building the schema fails (a SAXException, or
    * an IOException while fetching the bundled schema); `validateAgainst` lists what the validator
    * reports to its error handler; `compileStylesheet` and `transform` what the XSLT processor
    * reports to its error listener. */
  datatype Engines = Engines(
    schemaCompiles: SchemaSource -> bool,
    validateAgainst: (SchemaSource, string) -> seq<Report<ParseProblem>>,
    compileStylesheet: string -> Compilation,
    transform: (string, string) -> seq<Report<TransformProblem>>)

  /** The document an XSL value is tried on. */
  const DummyDocument: string := "<?xml version='1.0'?><root/>"

  /** The start tag line put in front of a fragment. */
  function WrapperHead(root: Option<string>): string {
    "<" + JavaString(root) + ">\n"
  }

  /** A fragment as the document DOCUMENT mode validates: inside the definition's root element,
    * on lines of its own (a null root element is written `null`). */
  function WrappedFragment(root: Option<string>, value: string): string {
    WrapperHead(root) + value + "\n</" + JavaString(root) + ">"
  }

  /** What one schema validation run uses: the schema, the validated text and the line offset that
    * maps the text's lines back to the value's. */
  datatype SchemaRun = SchemaRun(source: SchemaSource, document: string, lineOffset: Int32)

  /** The run of the DOCUMENT and SCHEMA modes. A definition without schema fails with a
    * NullPointerException when its schema is read. */
  function SchemaRunOf(t: ValidatorType, schema: Option<string>, root: Option<string>, value: string): (r: Result<SchemaRun, JavaException>)
    requires t != Xsl
    ensures t == Document && schema.None? ==> r == Failure(NullPointer)
    ensures t == Document && schema.Some? ==> r == Success(SchemaRun(SchemaText(schema.value), WrappedFragment(root, value), -1))
    ensures t == Schema ==> r == Success(SchemaRun(BundledXmlSchema, value, 0))
  {
    if t == Schema then Success(SchemaRun(BundledXmlSchema, value, 0))
    else if schema.None? then Failure(NullPointer)
    else Success(SchemaRun(SchemaText(schema.value), WrappedFragment(root, value), -1))
  }

  /** The errors an error handler adds for a list of reports, in order. */
  function HandlerMessages(component: ComponentKind, lineOffset: Int32, reports: seq<Report<ParseProblem>>): (r: seq<ValidationMessage>)
    ensures |r| == if component.OtherComponent? then 0 else |reports|
    ensures !component.OtherComponent? ==>
              forall i :: 0 <= i < |reports| ==> Some(r[i]) == HandlerMessage(component, lineOffset, reports[i].problem)
    decreases |reports|
  {
    if reports == [] then []
    else HandlerMessages(component, lineOffset, reports[..|reports| - 1])
         + AsList(HandlerMessage(component, lineOffset, reports[|reports| - 1].problem))
  }

  /** The errors an error listener adds for a list of reports, in order. */
  function ListenerMessages(component: ComponentKind, reports: seq<Report<TransformProblem>>): (r: seq<ValidationMessage>)
    ensures |r| == if component.OtherComponent? then 0 else |reports|
    ensures !component.OtherComponent? ==>
              forall i :: 0 <= i < |reports| ==> Some(r[i]) == ListenerMessage(component, reports[i].problem)
    decreases |reports|
  {
    if reports == [] then []
    else ListenerMessages(component, reports[..|reports| - 1])
         + AsList(ListenerMessage(component, reports[|reports| - 1].problem))
  }

  /** The errors `validate` adds to a value, or the exception it ends with. Failure to build the
    * schema adds nothing; in XSL mode the dummy document is transformed only when the value
    * compiles. */
  function ValidationMessages(component: ComponentKind, t: ValidatorType, schema: Option<string>, root: Option<string>,
                              value: string, engines: Engines): (r: Result<seq<ValidationMessage>, JavaException>)
    ensures r.Failure? <==> t == Document && schema.None?
    ensures r.Failure? ==> r.error == NullPointer
    ensures t != Xsl && r.Success? && !engines.schemaCompiles(SchemaRunOf(t, schema, root, value).value.source) ==> r.value == []
    ensures t == Xsl && !engines.compileStylesheet(value).compiles ==>
              r == Success(ListenerMessages(component, engines.compileStylesheet(value).reports))
  {
    if t == Xsl then
      var compilation := engines.compileStylesheet(value);
      var compileMessages := ListenerMessages(component, compilation.reports);
      if compilation.compiles then
        Success(compileMessages + ListenerMessages(component, engines.transform(value, DummyDocument)))
      else Success(compileMessages)
    else match SchemaRunOf(t, schema, root, value)
      case Failure(e) => Failure(e)
      case Success(run) =>
        if !engines.schemaCompiles(run.source) then Success([])
        else Success(HandlerMessages(component, run.lineOffset, engines.validateAgainst(run.source, run.document)))
  }

  /** An `XmlValidator`. A document definition is present exactly in DOCUMENT mode. */
  class XmlValidator {
    const component: ComponentKind
    const validatorType: ValidatorType
    const documentDefinition: XmlDocumentDefinition?

    predicate Valid() {
      validatorType == Document <==> documentDefinition != null
    }

    constructor (component: ComponentKind, validatorType: ValidatorType, documentDefinition: XmlDocumentDefinition?)
      requires validatorType == Document <==> documentDefinition != null
      ensures Valid()
      ensures this.component == component && this.validatorType == validatorType
      ensures this.documentDefinition == documentDefinition
    {
      this.component := component;
      this.validatorType := validatorType;
      this.documentDefinition := documentDefinition;
    }

    /** The definition's schema, when there is a definition. */
    function SchemaOf(): Option<string>
      reads documentDefinition
    {
      if documentDefinition == null then None else documentDefinition.schema
    }

    function RootOf(): Option<string>
      reads documentDefinition
    {
      if documentDefinition == null then None else documentDefinition.rootElement
    }

    /** `validate`: adds the errors the engines report against the value; it reads the definition
      * and changes nothing but the errors. */
    method Validate(v: Validatable, engines: Engines) returns (r: Outcome<JavaException>)
      requires Valid()
      modifies v`errors
      ensures var expected := ValidationMessages(component, validatorType, SchemaOf(), RootOf(), v.value, engines);
              (expected.Failure? ==> r == Fail(expected.error) && v.errors == old(v.errors))
              && (expected.Success? ==> r == Pass && v.errors == old(v.errors) + expected.value)
    {
      if validatorType == Xsl {
        ValidateStylesheet(component, v, engines, SchemaOf(), RootOf());
        return Pass;
      }
      var value := v.value;
      var source: SchemaSource;
      var lineOffset: Int32 := 0;
      if validatorType == Document {
        var schemaString := documentDefinition.schema;
        if schemaString.None? {
          return Fail(NullPointer);
        }
        source := SchemaText(schemaString.value);
        if !engines.schemaCompiles(source) {
          return Pass;
        }
        value := WrappedFragment(documentDefinition.rootElement, value);
        lineOffset := -1;
      } else {
        source := BundledXmlSchema;
        if !engines.schemaCompiles(source) {
          return Pass;
        }
      }
      var handler := new XmlErrorHandler(component, v, lineOffset);
      DeliverParseReports(handler, engines.validateAgainst(source, value));
      r := Pass;
    }
  }

  /** `validate` in XSL mode: the listener receives the reports of compiling the value and, when it
    * compiles, those of transforming the dummy document with it. */
  method ValidateStylesheet(component: ComponentKind, v: Validatable, engines: Engines,
                            ghost schema: Option<string>, ghost root: Option<string>)
    modifies v`errors
    ensures v.errors == old(v.errors) + ValidationMessages(component, Xsl, schema, root, v.value, engines).value
  {
    var listener := new XmlErrorListener(component, v);
    var compilation := engines.compileStylesheet(v.value);
    DeliverTransformReports(listener, compilation.reports);
    if compilation.compiles {
      DeliverTransformReports(listener, engines.transform(v.value, DummyDocument));
    }
  }

  /** The validator calls its error handler once per report, in order. */
  method DeliverParseReports(handler: XmlErrorHandler, reports: seq<Report<ParseProblem>>)
    modifies handler.validatable`errors
    ensures handler.validatable.errors
         == old(handler.validatable.errors) + HandlerMessages(handler.component, handler.lineOffset, reports)
  {
    for i := 0 to |reports|
      invariant handler.validatable.errors
             == old(handler.validatable.errors) + HandlerMessages(handler.component, handler.lineOffset, reports[..i])
    {
      handler.Handle(reports[i]);
      assert reports[..i + 1][..i] == reports[..i];
    }
    assert reports[..|reports|] == reports;
  }

  /** The XSLT processor calls its error listener once per report, in order. */
  method DeliverTransformReports(listener: XmlErrorListener, reports: seq<Report<TransformProblem>>)
    modifies listener.validatable`errors
    ensures listener.validatable.errors
         == old(listener.validatable.errors) + ListenerMessages(listener.component, reports)
  {
    for i := 0 to |reports|
      invariant listener.validatable.errors
             == old(listener.validatable.errors) + ListenerMessages(listener.component, reports[..i])
    {
      listener.Handle(reports[i]);
      assert reports[..i + 1][..i] == reports[..i];
    }
    assert reports[..|reports|] == reports;
  }

  /** The type constructor: a null type or DOCUMENT is an illegal argument. */
  method NewTypeValidator(component: ComponentKind, t: Option<ValidatorType>) returns (r: Result<XmlValidator, JavaException>)
    ensures r.Success? <==> TypeArgumentCheck(t).Pass?
    ensures r.Failure? ==> r.error == IllegalArgument
    ensures r.Success? ==> fresh(r.value) && r.value.Valid() && r.value.component == component
                           && Some(r.value.validatorType) == t && r.value.documentDefinition == null
  {
    var check := TypeArgumentCheck(t);
    if check.Fail? {
      return Failure(check.error);
    }
    var v := new XmlValidator(component, t.value, null);
    r := Success(v);
  }

  /** The definition constructor: DOCUMENT mode; a null definition is an illegal argument. */
  method NewDocumentValidator(component: ComponentKind, d: XmlDocumentDefinition?) returns (r: Result<XmlValidator, JavaException>)
    ensures r.Success? <==> d != null
    ensures r.Failure? ==> r.error == IllegalArgument
    ensures r.Success? ==> fresh(r.value) && r.value.Valid() && r.value.component == component
                           && r.value.validatorType == Document && r.value.documentDefinition == d
  {
    if d == null {
      return Failure(IllegalArgument);
    }
    var v := new XmlValidator(component, Document, d);
    r := Success(v);
  }

  /** The line offset of DOCUMENT mode undoes the wrapping: a parser position inside the wrapped
    * value, moved up one line, is the position in the value itself, with the same column. */
  lemma WrappedPositionIsShiftedByOneLine(root: string, value: string, p: nat)
    requires OneLine(root) && p <= |value|
    ensures var wrapped := WrappedFragment(Some(root), value);
            var at := PositionAt(wrapped, |WrapperHead(Some(root))| + p);
            at.line - 1 == PositionAt(value, p).line && at.column == PositionAt(value, p).column
  {
    var head := WrapperHead(Some(root));
    var body := value + "\n</" + root + ">";
    assert WrappedFragment(Some(root), value) == head + body;
    assert "<" + root + ">" + "\n" == head;
    assert OneLine("<" + root + ">");
    OneLineHasNoBreak("<" + root + ">");
    NewlineCountAppend("<" + root + ">", "\n");
    assert NewlineCount("\n") == 1 by {
      assert "\n"[..0] == [];
    }
    PositionAfterHead(head, body, p);
    assert body[..p] == value[..p];
  }

  /** The handler messages do not depend on the severities of the reports. */
  lemma SeverityIsIgnored(component: ComponentKind, lineOffset: Int32, a: seq<Report<ParseProblem>>, b: seq<Report<ParseProblem>>)
    requires |a| == |b| && forall i :: 0 <= i < |a| ==> a[i].problem == b[i].problem
    ensures HandlerMessages(component, lineOffset, a) == HandlerMessages(component, lineOffset, b)
    decreases |a|
  {
    if a != [] {
      SeverityIsIgnored(component, lineOffset, a[..|a| - 1], b[..|b| - 1]);
    }
  }
}

/** XmlErrorHandler and XmlErrorListener: how a problem the schema validator or the XSLT compiler
  * reports becomes a validation error of the edited form component. The localized message is
  * written as its resource key and its parameters. */
module XmlErrors {
  import opened Wrappers

  /** Java's `int`. */
  newtype Int32 = x: int | -0x8000_0000 <= x < 0x8000_0000

  /** Java's `a + b` on two `int`s: the sum wraps around modulo 2^32. */
  function Int32Add(a: Int32, b: Int32): (r: Int32)
    ensures -0x8000_0000 <= a as int + b as int < 0x8000_0000 ==> r as int == a as int + b as int
  {
    var sum := (a as int + b as int + 0x8000_0000) % 0x1_0000_0000 - 0x8000_0000;
    sum as Int32
  }

  /** The component a validator is attached to, as far as the message depends on it. */
  datatype ComponentKind =
    | TextAreaIn(editorId: string)   // the hidden textarea of the XML editor with that id
    | TextField(fieldId: string)     // a one-line XML text field
    | OtherComponent

  /** A parameter of a message: `<b>%s</b>`, `<b>%d</b>` or the plain exception message. */
  datatype MessageParameter = BoldText(text: string) | BoldNumber(number: Int32) | Plain(text: string)

  /** A validation error: the resource key of its template and the template's parameters. */
  datatype ValidationMessage = ValidationMessage(key: string, parameters: seq<MessageParameter>)

  const EditorMessageKey: string := "XmlEditor.validatorMessage"
  const FieldMessageKey: string := "XmlTextField.validatorMessage"
  const EditorMessageWithoutPositionKey: string := "XmlEditor.validatorMessage2"
  const FieldMessageWithoutPositionKey: string := "XmlTextField.validatorMessage2"

  /** How serious the reported problem is; the handlers treat every severity alike. */
  datatype Severity = Warning | Error | FatalError

  /** A `SAXParseException`: the line and column the parser was at and its message. */
  datatype ParseProblem = ParseProblem(line: Int32, column: Int32, message: string)

  /** A `SourceLocator`. */
  datatype Locator = Locator(line: Int32, column: Int32)

  /** A `TransformerException`: its locator, which may be missing, and its message. */
  datatype TransformProblem = TransformProblem(locator: Option<Locator>, message: string)

  /** What a validator hands to its handler or listener: a severity and the problem. */
  datatype Report<P> = Report(severity: Severity, problem: P)

  /** The message `XmlErrorHandler.error` adds for a parse problem: a text area reports the line
    * moved by the line offset and the column, a text field only the column, any other component
    * nothing. */
  function HandlerMessage(component: ComponentKind, lineOffset: Int32, e: ParseProblem): (r: Option<ValidationMessage>)
    ensures r.None? <==> component.OtherComponent?
    ensures r.Some? ==> |r.value.parameters| >= 3 && r.value.parameters[|r.value.parameters| - 1] == Plain(e.message)
    ensures component.TextAreaIn? ==> r.value.key == EditorMessageKey && |r.value.parameters| == 4
                                      && r.value.parameters[0] == BoldText(component.editorId)
                                      && r.value.parameters[1] == BoldNumber(Int32Add(e.line, lineOffset))
                                      && r.value.parameters[2] == BoldNumber(e.column)
    ensures component.TextField? ==> r.value.key == FieldMessageKey
                                     && r.value.parameters == [BoldText(component.fieldId), BoldNumber(e.column), Plain(e.message)]
  {
    match component
    case TextAreaIn(editorId) =>
      Some(ValidationMessage(EditorMessageKey,
        [BoldText(editorId), BoldNumber(Int32Add(e.line, lineOffset)), BoldNumber(e.column), Plain(e.message)]))
    case TextField(fieldId) =>
      Some(ValidationMessage(FieldMessageKey, [BoldText(fieldId), BoldNumber(e.column), Plain(e.message)]))
    case OtherComponent => None
  }

  /** The message `XmlErrorListener.error` adds for a transformer problem: with a locator the same
    * templates as the handler, with the locator's line and no offset; without one the `...2`
    * templates that name only the component and the message. */
  function ListenerMessage(component: ComponentKind, e: TransformProblem): (r: Option<ValidationMessage>)
    ensures r.None? <==> component.OtherComponent?
    ensures r.Some? ==> |r.value.parameters| >= 2 && r.value.parameters[|r.value.parameters| - 1] == Plain(e.message)
    ensures r.Some? && e.locator.None? ==> |r.value.parameters| == 2
    ensures component.TextAreaIn? ==> r.value.parameters[0] == BoldText(component.editorId)
    ensures component.TextField? ==> r.value.parameters[0] == BoldText(component.fieldId)
    ensures component.TextAreaIn? && e.locator.None? ==> r.value.key == EditorMessageWithoutPositionKey
    ensures component.TextField? && e.locator.None? ==> r.value.key == FieldMessageWithoutPositionKey
    ensures component.TextAreaIn? && e.locator.Some? ==>
              r.value.key == EditorMessageKey && |r.value.parameters| == 4
              && r.value.parameters[1] == BoldNumber(e.locator.value.line)
              && r.value.parameters[2] == BoldNumber(e.locator.value.column)
    ensures component.TextField? && e.locator.Some? ==>
              r.value.key == FieldMessageKey
              && r.value.parameters == [BoldText(component.fieldId), BoldNumber(e.locator.value.column), Plain(e.message)]
  {
    match e.locator
    case Some(locator) =>
      (match component
       case TextAreaIn(editorId) =>
         Some(ValidationMessage(EditorMessageKey,
           [BoldText(editorId), BoldNumber(locator.line), BoldNumber(locator.column), Plain(e.message)]))
       case TextField(fieldId) =>
         Some(ValidationMessage(FieldMessageKey, [BoldText(fieldId), BoldNumber(locator.column), Plain(e.message)]))
       case OtherComponent => None)
    case None =>
      match component
      case TextAreaIn(editorId) => Some(ValidationMessage(EditorMessageWithoutPositionKey, [BoldText(editorId), Plain(e.message)]))
      case TextField(fieldId) => Some(ValidationMessage(FieldMessageWithoutPositionKey, [BoldText(fieldId), Plain(e.message)]))
      case OtherComponent => None
  }

  /** The errors a message option adds: one or none. */
  function AsList(m: Option<ValidationMessage>): (r: seq<ValidationMessage>)
    ensures |r| <= 1 && (r == [] <==> m.None?)
  {
    if m.Some? then [m.value] else []
  }

  /** A transformer problem with a locator reads like a parse problem at the locator's position
    * reported without a line offset. */
  lemma ListenerWithLocatorIsHandlerWithoutOffset(component: ComponentKind, line: Int32, column: Int32, message: string)
    ensures ListenerMessage(component, TransformProblem(Some(Locator(line, column)), message))
         == HandlerMessage(component, 0, ParseProblem(line, column, message))
  {
    assert Int32Add(line, 0) == line;
  }

  /** The line offset moves the reported line and nothing else. */
  lemma OffsetMovesOnlyTheLine(component: ComponentKind, offset: Int32, e: ParseProblem)
    requires component.TextAreaIn?
    requires -0x8000_0000 <= e.line as int + offset as int < 0x8000_0000
    ensures var shifted := HandlerMessage(component, offset, e).value;
            var plain := HandlerMessage(component, 0, e).value;
            shifted.key == plain.key && |shifted.parameters| == |plain.parameters| == 4
            && shifted.parameters[1] == BoldNumber((e.line as int + offset as int) as Int32)
            && plain.parameters[1] == BoldNumber(e.line)
            && forall i :: 0 <= i < 4 && i != 1 ==> shifted.parameters[i] == plain.parameters[i]
  {
  }

  /** A text field's message does not depend on the line or on the offset. */
  lemma FieldMessageIgnoresLine(fieldId: string, offset1: Int32, offset2: Int32, e1: ParseProblem, e2: ParseProblem)
    requires e1.column == e2.column && e1.message == e2.message
    ensures HandlerMessage(TextField(fieldId), offset1, e1) == HandlerMessage(TextField(fieldId), offset2, e2)
  {
  }

  /** `IValidatable<String>`: the value under validation and the errors reported against it. */
  class Validatable {
    var value: string
    var errors: seq<ValidationMessage>

    constructor (value: string)
      ensures this.value == value && errors == []
    {
      this.value := value;
      errors := [];
    }

    /** `validatable.error(error)` */
    method AddError(m: ValidationMessage)
      modifies this`errors
      ensures errors == old(errors) + [m]
    {
      errors := errors + [m];
    }
  }

  /** An `ErrorHandler` of the schema validator. */
  class XmlErrorHandler {
    const component: ComponentKind
    const validatable: Validatable
    const lineOffset: Int32

    constructor (component: ComponentKind, validatable: Validatable, lineOffset: Int32)
      ensures this.component == component && this.validatable == validatable && this.lineOffset == lineOffset
    {
      this.component := component;
      this.validatable := validatable;
      this.lineOffset := lineOffset;
    }

    method Error(e: ParseProblem)
      modifies validatable`errors
      ensures validatable.errors == old(validatable.errors) + AsList(HandlerMessage(component, lineOffset, e))
    {
      var m := HandlerMessage(component, lineOffset, e);
      if m.Some? {
        validatable.AddError(m.value);
      }
    }

    /** `warning` delegates to `error`. */
    method Warning(e: ParseProblem)
      modifies validatable`errors
      ensures validatable.errors == old(validatable.errors) + AsList(HandlerMessage(component, lineOffset, e))
    {
      Error(e);
    }

    /** `fatalError` delegates to `error`. */
    method FatalError(e: ParseProblem)
      modifies validatable`errors
      ensures validatable.errors == old(validatable.errors) + AsList(HandlerMessage(component, lineOffset, e))
    {
      Error(e);
    }

    /** The callback the validator picks for a report's severity. */
    method Handle(report: Report<ParseProblem>)
      modifies validatable`errors
      ensures validatable.errors == old(validatable.errors) + AsList(HandlerMessage(component, lineOffset, report.problem))
    {
      match report.severity
      case Warning => Warning(report.problem);
      case Error => Error(report.problem);
      case FatalError => FatalError(report.problem);
    }
  }

  /** An `ErrorListener` of the XSLT compiler and transformer. */
  class XmlErrorListener {
    const component: ComponentKind
    const validatable: Validatable

    constructor (component: ComponentKind, validatable: Validatable)
      ensures this.component == component && this.validatable == validatable
    {
      this.component := component;
      this.validatable := validatable;
    }

    method Error(e: TransformProblem)
      modifies validatable`errors
      ensures validatable.errors == old(validatable.errors) + AsList(ListenerMessage(component, e))
    {
      var m := ListenerMessage(component, e);
      if m.Some? {
        validatable.AddError(m.value);
      }
    }

    /** `warning` delegates to `error`. */
    method Warning(e: TransformProblem)
      modifies validatable`errors
      ensures validatable.errors == old(validatable.errors) + AsList(ListenerMessage(component, e))
    {
      Error(e);
    }

    /** `fatalError` delegates to `error`. */
    method FatalError(e: TransformProblem)
      modifies validatable`errors
      ensures validatable.errors == old(validatable.errors) + AsList(ListenerMessage(component, e))
    {
      Error(e);
    }

    /** The callback the compiler or transformer picks for a report's severity. */
    method Handle(report: Report<TransformProblem>)
      modifies validatable`errors
      ensures validatable.errors == old(validatable.errors) + AsList(ListenerMessage(component, report.problem))
    {
      match report.severity
      case Warning => Warning(report.problem);
      case Error => Error(report.problem);
      case FatalError => FatalError(report.problem);
    }
  }
}

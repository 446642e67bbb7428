/** The validation-state objects of both validator generations and the small
    pydantic models of features/document_render.py. */
module ValidationStates {
  import opened Base
  import opened Values
  import opened ContentFormatting

  /** The message `set_error` stores: `str(message)`, or "" for None. */
  function StoredMessage(m: Option<string>): (r: string)
    ensures m.Some? ==> r == m.value
    ensures m.None? ==> r == ""
  {
    m.GetOr("")
  }

  /** The `error_message` property of the older state: an empty stored message reads as None. */
  function ShownMessage(stored: Option<string>): (r: Option<string>)
    ensures r.None? <==> (stored.None? || stored.value == "")
    ensures r.Some? ==> r == stored
  {
    if stored.Some? && stored.value != "" then stored else None
  }

  /** `ValidationState` of features/document_render.py: private fields behind read-only properties. */
  class RenderValidationState {
    var valid: bool
    var message: Option<string>
    var content: Option<string>

    constructor ()
      ensures valid && message == None && content == None
    {
      valid := true;
      message := None;
      content := None;
    }

    /** `error_message`: what a caller reads back. */
    function ErrorMessage(): Option<string>
      reads this
    {
      ShownMessage(message)
    }

    /** `set_error`: the state becomes invalid whatever the message. */
    method SetError(m: Option<string>)
      modifies this
      ensures !valid && message == Some(StoredMessage(m)) && content == old(content)
    {
      valid := false;
      message := Some(StoredMessage(m));
    }

    method SetContent(c: string)
      modifies this
      ensures content == Some(c) && valid == old(valid) && message == old(message)
    {
      content := Some(c);
    }

    method Reset()
      modifies this
      ensures valid && message == None && content == None
    {
      valid := true;
      message := None;
      content := None;
    }
  }

  /** `ValidationState` of features/validate_template.py: a pydantic model whose
      `error_message` field is read back exactly as stored. */
  class TemplateValidationState {
    var valid: bool
    var errorMessage: Option<string>
    var content: Option<string>

    constructor ()
      ensures valid && errorMessage == None && content == None
    {
      valid := true;
      errorMessage := None;
      content := None;
    }

    method SetError(m: Option<string>)
      modifies this
      ensures !valid && errorMessage == Some(StoredMessage(m)) && content == old(content)
    {
      valid := false;
      errorMessage := Some(StoredMessage(m));
    }

    method Reset()
      modifies this
      ensures valid && errorMessage == None && content == None
    {
      valid := true;
      errorMessage := None;
      content := None;
    }
  }

  /** After `set_error(None)` the two generations disagree: the older one reports no
      message at all, the newer one reports the empty string. */
  method SetErrorNoneDiffers() returns (older: Option<string>, newer: Option<string>)
    ensures older == None && newer == Some("")
  {
    var a := new RenderValidationState();
    var b := new TemplateValidationState();
    a.SetError(None);
    b.SetError(None);
    older := a.ErrorMessage();
    newer := b.errorMessage;
  }

  /** A message is reported by the older state exactly when it is non-empty. */
  lemma ShownAfterSetError(m: Option<string>)
    ensures ShownMessage(Some(StoredMessage(m))) == (if m == None || m == Some("") then None else m)
  {
  }

  /** The frozen pydantic `ValidationResult`. */
  datatype ValidationResult = ValidationResult(isValid: bool, errorMessage: string, content: Option<string>)

  /** Constructing a `ValidationResult`. `errorMessage` None means the field is left at
      its default "", which pydantic does not pass to the field validator; an explicit
      empty message on a failed result is refused. */
  function MakeValidationResult(isValid: bool, errorMessage: Option<string>, content: Option<string>)
    : (r: Result<ValidationResult, string>)
    ensures r.Err? <==> (!isValid && errorMessage == Some(""))
    ensures r.Err? ==> r.error == "Error message is required when validation fails"
    ensures r.Ok? ==> r.value == ValidationResult(isValid, StoredMessage(errorMessage), content)
  {
    if !isValid && errorMessage == Some("") then Err("Error message is required when validation fails")
    else Ok(ValidationResult(isValid, StoredMessage(errorMessage), content))
  }

  /** The state and the result agree: a result built from the newer state after
      `set_error(m)` is accepted exactly when `m` is a non-empty message, and then
      reports that message as a failure. */
  method ResultAfterSetError(m: Option<string>) returns (r: Result<ValidationResult, string>)
    ensures r.Ok? <==> (m.Some? && m.value != "")
    ensures r.Ok? ==> r.value == ValidationResult(false, m.value, None)
    ensures r.Err? ==> r.error == "Error message is required when validation fails"
  {
    var state := new TemplateValidationState();
    state.SetError(m);
    r := MakeValidationResult(state.valid, state.errorMessage, state.content);
  }

  /** The `ContextValidator` model: a format type, a context and the strict-undefined flag. */
  datatype ContextSettings = ContextSettings(formatType: int, context: Context, isStrictUndefined: bool)

  /** The after-validator of `format_type`: out-of-range types fall back to 0. */
  function ClampFormatType(x: int): (r: int)
    ensures 0 <= r <= 4
    ensures 0 <= x <= 4 ==> r == x
    ensures !(0 <= x <= 4) ==> r == 0
  {
    if 0 <= x <= 4 then x else 0
  }

  /** Constructing a `ContextValidator`. A false-y context (None or empty) becomes `{}`;
      the model validator's format-type check can never fire after the clamp. */
  function MakeContextSettings(formatType: int, context: Option<Context>, isStrictUndefined: bool)
    : (r: ContextSettings)
    ensures 0 <= r.formatType <= 4
    ensures r.context == context.GetOr(map[])
    ensures r.isStrictUndefined == isStrictUndefined
  {
    ContextSettings(ClampFormatType(formatType), context.GetOr(map[]), isStrictUndefined)
  }

  /** A validated setting keeps its format type exactly when the type is one of 0..4,
      and the type it ends up with is always one `ContentFormatter.format` accepts, so
      the model validator's "Unsupported format type" check cannot fire. */
  lemma ContextSettingsFormattable(formatType: int, context: Option<Context>, strict: bool, content: string)
    ensures var s := MakeContextSettings(formatType, context, strict);
      && (s.formatType == formatType <==> 0 <= formatType <= 4)
      && Formatted(content, s.formatType).Ok?
  {
  }

  /** `TemplateContent`: text with the file size it came from. */
  datatype TemplateContent = TemplateContent(content: string, fileSize: nat)

  /** The after-validator of `file_size`: negative sizes become 0. */
  function ClampSize(x: int): (r: nat)
    ensures x >= 0 ==> r == x
    ensures x < 0 ==> r == 0
  {
    if x >= 0 then x else 0
  }

  /** Constructing a `TemplateContent`: a missing or empty content becomes "", and the
      model is refused unless the UTF-8 encoding of the content is exactly as long as
      the (clamped) file size. */
  function MakeTemplateContent(content: Option<string>, fileSize: int): (r: Result<TemplateContent, string>)
    ensures r.Ok? <==> Utf8Len(content.GetOr("")) == ClampSize(fileSize)
    ensures r.Ok? ==> r.value == TemplateContent(content.GetOr(""), ClampSize(fileSize))
    ensures r.Err? ==> r.error == "Content size does not match file size"
  {
    var text := content.GetOr("");
    if Utf8Len(text) != ClampSize(fileSize) then Err("Content size does not match file size")
    else Ok(TemplateContent(text, ClampSize(fileSize)))
  }

  /** A negative file size is accepted only together with empty content. */
  lemma NegativeSizeAcceptsOnlyEmpty(content: Option<string>, fileSize: int)
    requires fileSize < 0
    ensures MakeTemplateContent(content, fileSize).Ok? <==> content.GetOr("") == ""
  {
    var text := content.GetOr("");
    assert |text| <= Utf8Len(text);
  }

  /** For ASCII text the size check compares character count with file size. */
  lemma AsciiContentSize(text: string, fileSize: nat)
    requires forall i :: 0 <= i < |text| ==> text[i] as int < 0x80
    ensures MakeTemplateContent(Some(text), fileSize).Ok? <==> |text| == fileSize
  {
    Utf8LenAscii(text);
  }
}

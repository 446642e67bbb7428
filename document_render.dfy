/** `DocumentRender` of features/document_render.py: a template is checked once on
    upload (size, NUL byte, UTF-8, syntax, the older security validator) and can then
    be applied to contexts (runtime checks, rendering, a memory limit, formatting). */
module DocumentRendering {
  import opened Base
  import opened Values
  import opened JinjaAst
  import opened ValidationStates
  import opened Streams
  import opened ContentFormatting
  import opened TemplateSecurity
  import opened LegacySecurity

  /** `MAX_FILE_SIZE`, 1 MiB. */
  const MaxFileSize: nat := 1048576

  /** `MAX_MEMORY_SIZE`, 10 MiB. */
  const MaxMemorySize: nat := 10485760

  /** What `Environment.parse` does with a text: a tree, a `TemplateSyntaxError`
      (whose text is stored as is), or any other exception. */
  datatype ParseOutcome = Parsed(ast: Template) | SyntaxFailure(text: string) | ParseFailure(text: string)

  /** The exception classes `apply_context` tells apart. */
  datatype RenderFailure = UndefinedFailure | TemplateFailure | OtherFailure

  /** What `template.render(**context)` does: a text, or an exception and its text. */
  datatype RenderOutcome = Rendered(text: string) | RenderRaised(failure: RenderFailure, text: string)

  /** The libraries the class calls, as functions: strict UTF-8 decoding, parsing,
      the older `_evaluate_expression` (whose last argument is the strict-undefined
      flag it reads) and rendering with the strict-undefined flag. */
  datatype Engine = Engine(
    decode: Bytes -> Option<string>,
    parse: string -> ParseOutcome,
    evaluate: (Node, Context, Assignments, bool) -> Result<Value, string>,
    render: (string, Context, bool) -> RenderOutcome)

  // ---------------------------------------------------------------------------
  // Upload checks

  /** `_validate_template_file`: size of the whole buffer, then NUL bytes and UTF-8 in
      what is read from `pos`, then syntax, then the older security validator. */
  function IntakeVerdict(data: Bytes, pos: nat, e: Engine): Result<(string, Template), string> {
    var content := if pos <= |data| then data[pos..] else [];
    if |data| > MaxFileSize then Err(TemplateSizeMessage(MaxFileSize))
    else if NUL in content then Err(TemplateBinaryMessage)
    else match e.decode(content)
      case None => Err(TemplateUtf8Message)
      case Some(text) =>
        match e.parse(text)
        case SyntaxFailure(m) => Err(m)
        case ParseFailure(m) => Err(SyntaxMessage(m))
        case Parsed(ast) =>
          match LegacyVerdict(ast)
          case Some(m) => Err(m)
          case None => Ok((text, ast))
  }

  /** Every message of the older validator is non-empty, so `error_message` reports it. */
  lemma LegacyMessageNonEmpty(ast: Template)
    requires LegacyVerdict(ast).Some?
    ensures LegacyVerdict(ast).value != ""
  {
    var ns := FindAll(ast);
    if FirstSome(ns, LegacyTagChecker()).Some? {
      FirstSomeWitness(ns, LegacyTagChecker());
    } else if FirstSome(ns, LegacyAttributeChecker()).Some? {
      FirstSomeWitness(ns, LegacyAttributeChecker());
    } else {
      FirstSomeWitness(ns, LegacyLoopChecker());
    }
  }

  /** The checks run cheapest first: an oversized buffer is refused for its size, and a
      buffer with a NUL byte for that, whatever the decoder or the parser would say. */
  lemma IntakeOrder(data: Bytes, pos: nat, e: Engine)
    ensures |data| > MaxFileSize ==> IntakeVerdict(data, pos, e) == Err(TemplateSizeMessage(MaxFileSize))
    ensures |data| <= MaxFileSize && pos <= |data| && NUL in data[pos..]
      ==> IntakeVerdict(data, pos, e) == Err(TemplateBinaryMessage)
  {
  }

  /** An accepted upload passed every check: its text is the decoding of the bytes from
      `pos`, its tree is the parse of that text, and the older validator found nothing. */
  lemma IntakeAccepted(data: Bytes, pos: nat, e: Engine)
    requires IntakeVerdict(data, pos, e).Ok?
    ensures var content := if pos <= |data| then data[pos..] else [];
      var (text, ast) := IntakeVerdict(data, pos, e).value;
      |data| <= MaxFileSize && NUL !in content && e.decode(content) == Some(text)
      && e.parse(text) == Parsed(ast) && LegacyVerdict(ast).None?
  {
  }

  // ---------------------------------------------------------------------------
  // The older runtime checks

  const RecursiveText: string := "recursive structure detected"
  const RecursiveMessage: string := "Template security error: recursive structure detected"

  /** One node of the first loop of `_runtime_validations`: an evaluation error stops
      the checks only when its text mentions a recursive structure; otherwise the node
      is skipped (an assignment then binds nothing). */
  function LegacyRuntimeStep(n: Node, ctx: Context, asg: Assignments, strict: bool,
                             eval: (Node, Context, Assignments, bool) -> Result<Value, string>)
    : Result<Assignments, string>
  {
    match n
    case Assign(Name(t), value) =>
      (match eval(value, ctx, asg, strict)
       case Ok(v) => Ok(asg[t := v])
       case Err(m) => if Contains(m, RecursiveText) then Err(RecursiveMessage) else Ok(asg))
    case For(_, Name(x), _, _, _) =>
      if x in asg && eval(n.iter, ctx, asg, strict).Err? && Contains(eval(n.iter, ctx, asg, strict).error, RecursiveText)
      then Err(RecursiveMessage) else Ok(asg)
    case Call(_, _, _) =>
      if eval(n, ctx, asg, strict).Err? && Contains(eval(n, ctx, asg, strict).error, RecursiveText)
      then Err(RecursiveMessage) else Ok(asg)
    case _ => Ok(asg)
  }

  function LegacyRuntimePhase(ns: seq<Node>, ctx: Context, asg: Assignments, strict: bool,
                              eval: (Node, Context, Assignments, bool) -> Result<Value, string>)
    : Result<Assignments, string>
  {
    if ns == [] then Ok(asg)
    else
      match LegacyRuntimeStep(ns[0], ctx, asg, strict, eval)
      case Err(m) => Err(m)
      case Ok(asg') => LegacyRuntimePhase(ns[1..], ctx, asg', strict, eval)
  }

  /** `right_value == 0` on what the older evaluator returns: the numbers equal to zero
      are the int 0, a zero `Decimal`, the float zero (either sign) and False. */
  predicate LegacyIsZero(v: Value) {
    v == Int(0) || v == Decimal(0) || v == Float(Finite(0.0)) || v == Bool(false)
  }

  /** One node of the division loop: an evaluation error skips the node. */
  function LegacyDivCheck(n: Node, ctx: Context, asg: Assignments, strict: bool,
                          eval: (Node, Context, Assignments, bool) -> Result<Value, string>)
    : Option<string>
  {
    if n.Div? && eval(n.right, ctx, asg, strict).Ok? && LegacyIsZero(eval(n.right, ctx, asg, strict).value)
    then Some(DivisionMessage) else None
  }

  function LegacyDivChecker(ctx: Context, asg: Assignments, strict: bool,
                            eval: (Node, Context, Assignments, bool) -> Result<Value, string>)
    : Node -> Option<string>
  {
    n => LegacyDivCheck(n, ctx, asg, strict, eval)
  }

  /** `_runtime_validations` on a parsed tree: the message it records, if any. */
  function LegacyRuntime(ast: Template, ctx: Context, strict: bool,
                         eval: (Node, Context, Assignments, bool) -> Result<Value, string>)
    : Option<string>
  {
    var ns := FindAll(ast);
    match LegacyRuntimePhase(ns, ctx, map[], strict, eval)
    case Err(m) => Some(m)
    case Ok(asg) => FirstSome(ns, LegacyDivChecker(ctx, asg, strict, eval))
  }

  /** Only two messages come out of the older runtime checks. */
  lemma {:induction false} LegacyRuntimePhaseMessage(ns: seq<Node>, ctx: Context, asg: Assignments, strict: bool,
                                                     eval: (Node, Context, Assignments, bool) -> Result<Value, string>)
    requires LegacyRuntimePhase(ns, ctx, asg, strict, eval).Err?
    ensures LegacyRuntimePhase(ns, ctx, asg, strict, eval).error == RecursiveMessage
  {
    match LegacyRuntimeStep(ns[0], ctx, asg, strict, eval)
    case Err(m) =>
    case Ok(asg') => LegacyRuntimePhaseMessage(ns[1..], ctx, asg', strict, eval);
  }

  lemma LegacyRuntimeMessages(ast: Template, ctx: Context, strict: bool,
                              eval: (Node, Context, Assignments, bool) -> Result<Value, string>)
    requires LegacyRuntime(ast, ctx, strict, eval).Some?
    ensures LegacyRuntime(ast, ctx, strict, eval).value in {RecursiveMessage, DivisionMessage}
  {
    var ns := FindAll(ast);
    match LegacyRuntimePhase(ns, ctx, map[], strict, eval)
    case Err(m) => LegacyRuntimePhaseMessage(ns, ctx, map[], strict, eval);
    case Ok(asg) => FirstSomeWitness(ns, LegacyDivChecker(ctx, asg, strict, eval));
  }

  /** Passing the older runtime checks means no division's right operand evaluated,
      without error, to zero. */
  lemma LegacyRuntimePassed(ast: Template, ctx: Context, strict: bool,
                            eval: (Node, Context, Assignments, bool) -> Result<Value, string>, i: nat)
    requires LegacyRuntime(ast, ctx, strict, eval).None? && i < |FindAll(ast)| && FindAll(ast)[i].Div?
    ensures var asg := LegacyRuntimePhase(FindAll(ast), ctx, map[], strict, eval).value;
      var r := eval(FindAll(ast)[i].right, ctx, asg, strict);
      r.Ok? ==> !LegacyIsZero(r.value)
  {
    var ns := FindAll(ast);
    var asg := LegacyRuntimePhase(ns, ctx, map[], strict, eval).value;
    FirstSomeNone(ns, LegacyDivChecker(ctx, asg, strict, eval));
    assert LegacyDivChecker(ctx, asg, strict, eval)(ns[i]).None?;
  }

  /** A float zero from the context, such as `d = 0.0` in a TOML file, is refused as a
      divisor like an int zero. */
  lemma FloatZeroDivisorRefused(left: Node, x: string, ctx: Context, asg: Assignments, strict: bool,
                                eval: (Node, Context, Assignments, bool) -> Result<Value, string>)
    requires eval(Name(x), ctx, asg, strict) == Ok(Float(Finite(0.0)))
    ensures LegacyDivCheck(Div(left, Name(x)), ctx, asg, strict, eval) == Some(DivisionMessage)
  {
  }

  // ---------------------------------------------------------------------------
  // Rendering, memory and the whole of apply_context

  /** The message `apply_context` records for a rendering exception. */
  function RenderMessage(f: RenderFailure, text: string): string {
    if Contains(text, RecursiveText) then RecursiveMessage
    else match f
      case UndefinedFailure => text
      case TemplateFailure => text
      case OtherFailure => "Template rendering error: " + text
  }

  const BinaryContentMessage: string := "Content contains invalid binary data"

  function MemoryMessage(): string {
    "Memory consumption exceeds maximum limit of " + NatToString(MaxMemorySize) + " bytes"
  }

  /** `_validate_memory_usage`: the message, if the rendered text holds a NUL character
      or its UTF-8 encoding is over 10 MiB. */
  function MemoryVerdict(text: string): (r: Option<string>)
    ensures r.None? <==> '\0' !in text && Utf8Len(text) <= MaxMemorySize
    ensures '\0' in text ==> r == Some(BinaryContentMessage)
    ensures '\0' !in text && Utf8Len(text) > MaxMemorySize ==> r == Some(MemoryMessage())
  {
    if '\0' in text then Some(BinaryContentMessage)
    else if Utf8Len(text) > MaxMemorySize then Some(MemoryMessage())
    else None
  }

  /** The limit is in bytes, not characters: ASCII text of exactly 10 MiB passes, one
      character more does not. */
  lemma MemoryBoundary(text: string)
    requires forall i :: 0 <= i < |text| ==> 0 < text[i] as int < 0x80
    ensures MemoryVerdict(text).None? <==> |text| <= MaxMemorySize
  {
    Utf8LenAscii(text);
  }

  const UnsupportedFormatMessage: string := "Unsupported format type"
  const NotLoadedMessage: string := "Template content is not loaded"
  const NoAstMessage: string := "AST is not available"

  /** `apply_context` after a successful upload: the formatted text, or the message it
      records. */
  function ApplyResult(content: Option<string>, ast: Option<Template>, ctx: Context, formatType: int,
                       strict: bool, e: Engine): Result<string, string>
  {
    if !(0 <= formatType <= 4) then Err(UnsupportedFormatMessage)
    else if content.None? then Err(NotLoadedMessage)
    else if ast.None? then Err(NoAstMessage)
    else match LegacyRuntime(ast.value, ctx, strict, e.evaluate)
      case Some(m) => Err(m)
      case None =>
        match e.render(content.value, ctx, strict)
        case RenderRaised(f, t) => Err(RenderMessage(f, t))
        case Rendered(text) =>
          match MemoryVerdict(text)
          case Some(m) => Err(m)
          case None => Ok(Formatted(text, formatType).value)
  }

  /** A format type outside 0..4 is refused before any evaluation or rendering. */
  lemma FormatTypeCheckedFirst(content: Option<string>, ast: Option<Template>, ctx: Context, formatType: int,
                               strict: bool, e: Engine)
    requires formatType < 0 || formatType > 4
    ensures ApplyResult(content, ast, ctx, formatType, strict, e) == Err(UnsupportedFormatMessage)
  {
  }

  /** What a successful apply produces: the rendering passed the runtime and memory
      checks, and the result is that rendering run through the formatter, so it keeps
      every non-blank line of the rendering in order. */
  lemma ApplySucceeded(content: Option<string>, ast: Option<Template>, ctx: Context, formatType: int,
                       strict: bool, e: Engine)
    requires ApplyResult(content, ast, ctx, formatType, strict, e).Ok?
    ensures content.Some? && ast.Some? && 0 <= formatType <= 4
    ensures LegacyRuntime(ast.value, ctx, strict, e.evaluate).None?
    ensures var r := e.render(content.value, ctx, strict);
      var out := ApplyResult(content, ast, ctx, formatType, strict, e).value;
      && r.Rendered? && '\0' !in r.text && Utf8Len(r.text) <= MaxMemorySize
      && Formatted(r.text, formatType) == Ok(out)
      && NonBlankLines(SplitLines(out)) == NonBlankLines(SplitLines(r.text))
  {
  }

  // ---------------------------------------------------------------------------
  // The class

  /** The reads of `_validate_file_size` and `_validate_encoding`: the size seen from a
      seek to the end, then the bytes from the current position on, each time seeking
      back, so the upload ends where it started. */
  method ProbeUpload(f: ByteStream) returns (size: nat, content: Bytes)
    modifies f
    ensures size == |f.data| && content == old(f.Remaining())
    ensures f.data == old(f.data) && f.pos == old(f.pos) && f.name == old(f.name)
  {
    var current := f.Tell();
    f.SeekEnd();
    size := f.Tell();
    f.Seek(current);
    current := f.Tell();
    content := f.Read();
    f.Seek(current);
  }

  class DocumentRender {
    const templateFile: ByteStream
    const engine: Engine
    const state: RenderValidationState
    var templateContent: Option<string>
    var ast: Option<Template>
    var renderContent: Option<string>
    var isStrictUndefined: bool
    var initialPassed: bool

    /** The content and the tree are stored together, exactly when the upload passed. */
    predicate Loaded()
      reads this
    {
      initialPassed ==> templateContent.Some? && ast.Some?
    }

    /** `DocumentRender(template_file)`: the fields start empty and the upload checks run. */
    constructor (templateFile: ByteStream, engine: Engine)
      modifies templateFile
      ensures this.templateFile == templateFile && this.engine == engine && fresh(state)
      ensures templateFile.data == old(templateFile.data) && templateFile.pos == old(templateFile.pos)
      ensures templateFile.name == old(templateFile.name)
      ensures renderContent == None && isStrictUndefined
      ensures match IntakeVerdict(old(templateFile.data), old(templateFile.pos), engine)
        case Ok((text, t)) =>
          initialPassed && templateContent == Some(text) && ast == Some(t) && state.valid && state.message == None
        case Err(m) =>
          !initialPassed && templateContent == None && ast == None && !state.valid && state.message == Some(m)
      ensures Loaded()
    {
      this.templateFile := templateFile;
      this.engine := engine;
      state := new RenderValidationState();
      templateContent := None;
      ast := None;
      renderContent := None;
      isStrictUndefined := true;
      initialPassed := false;
      new;
      ValidateTemplateFile();
    }

    /** `is_valid_template`. */
    function IsValidTemplate(): bool
      reads this, state
    {
      state.valid
    }

    /** `error_message`. */
    function ErrorMessage(): Option<string>
      reads this, state
    {
      state.ErrorMessage()
    }

    /** `_validate_template_file`. On failure only the state changes. */
    method ValidateTemplateFile()
      modifies this, state, templateFile
      ensures templateFile.data == old(templateFile.data) && templateFile.pos == old(templateFile.pos)
      ensures templateFile.name == old(templateFile.name)
      ensures renderContent == old(renderContent) && isStrictUndefined == old(isStrictUndefined)
      ensures match IntakeVerdict(old(templateFile.data), old(templateFile.pos), engine)
        case Ok((text, t)) =>
          initialPassed && templateContent == Some(text) && ast == Some(t) && state.valid && state.message == None
        case Err(m) =>
          initialPassed == old(initialPassed) && templateContent == old(templateContent) && ast == old(ast)
          && !state.valid && state.message == Some(m)
      ensures old(Loaded()) ==> Loaded()
    {
      state.Reset();
      var size, content := ProbeUpload(templateFile);
      if size > MaxFileSize {
        state.SetError(Some(TemplateSizeMessage(MaxFileSize)));
        return;
      }
      if NUL in content {
        state.SetError(Some(TemplateBinaryMessage));
        return;
      }
      var text := engine.decode(content);
      if text.None? {
        state.SetError(Some(TemplateUtf8Message));
        return;
      }
      // _validate_syntax
      match engine.parse(text.value) {
        case SyntaxFailure(m) =>
          state.SetError(Some(m));
        case ParseFailure(m) =>
          state.SetError(Some(SyntaxMessage(m)));
        case Parsed(t) =>
          var result := LegacyValidateTemplate(t);
          if !result.valid {
            LegacyMessageNonEmpty(t);
            state.SetError(result.ErrorMessage());
            return;
          }
          templateContent := text;
          ast := Some(t);
          initialPassed := true;
      }
    }

    /** The body of the first loop of `_runtime_validations` for one node. */
    static method RuntimeStep(n: Node, ctx: Context, asg: Assignments, strict: bool,
                              eval: (Node, Context, Assignments, bool) -> Result<Value, string>)
      returns (r: Result<Assignments, string>)
      ensures r == LegacyRuntimeStep(n, ctx, asg, strict, eval)
      ensures r.Err? ==> r.error == RecursiveMessage
      ensures r.Ok? && !n.Assign? ==> r.value == asg
    {
      r := Ok(asg);
      match n {
        case Assign(Name(target), value) =>
          var v := eval(value, ctx, asg, strict);
          if v.Ok? {
            r := Ok(asg[target := v.value]);
          } else if Contains(v.error, RecursiveText) {
            r := Err(RecursiveMessage);
          }
        case For(_, Name(x), _, _, _) =>
          if x in asg {
            var v := eval(n.iter, ctx, asg, strict);
            if v.Err? && Contains(v.error, RecursiveText) {
              r := Err(RecursiveMessage);
            }
          }
        case Call(_, _, _) =>
          var v := eval(n, ctx, asg, strict);
          if v.Err? && Contains(v.error, RecursiveText) {
            r := Err(RecursiveMessage);
          }
        case _ =>
      }
    }

    /** `_runtime_validations` on the stored tree, with the current strict-undefined flag. */
    method RuntimeValidations(t: Template, ctx: Context) returns (ok: bool)
      modifies state
      ensures ok <==> LegacyRuntime(t, ctx, isStrictUndefined, engine.evaluate).None?
      ensures ok ==> state.valid == old(state.valid) && state.message == old(state.message)
      ensures !ok ==> !state.valid && state.message == LegacyRuntime(t, ctx, isStrictUndefined, engine.evaluate)
      ensures state.content == old(state.content)
    {
      var ns := FindAll(t);
      var asg: Assignments := map[];
      var eval := engine.evaluate;
      var strict := isStrictUndefined;
      var i := 0;
      while i < |ns|
        invariant i <= |ns|
        invariant LegacyRuntimePhase(ns, ctx, map[], strict, eval) == LegacyRuntimePhase(ns[i..], ctx, asg, strict, eval)
        invariant unchanged(state)
      {
        assert ns[i..][0] == ns[i] && ns[i..][1..] == ns[i + 1..];
        var step := RuntimeStep(ns[i], ctx, asg, strict, eval);
        if step.Err? {
          state.SetError(Some(step.error));
          return false;
        }
        asg := step.value;
        i := i + 1;
      }
      assert ns[i..] == [];
      ok := LegacyReportFirst(ns, LegacyDivChecker(ctx, asg, strict, eval), state);
    }

    /** `_validate_memory_usage`. */
    method ValidateMemoryUsage(text: string) returns (ok: bool)
      modifies state
      ensures ok <==> MemoryVerdict(text).None?
      ensures ok ==> state.valid == old(state.valid) && state.message == old(state.message)
      ensures !ok ==> !state.valid && state.message == MemoryVerdict(text)
      ensures state.content == old(state.content)
    {
      if '\0' in text {
        state.SetError(Some(BinaryContentMessage));
        return false;
      }
      var size := Utf8Len(text);
      if size > MaxMemorySize {
        state.SetError(Some(MemoryMessage()));
        return false;
      }
      return true;
    }

    /** `apply_context`. A failed upload keeps its error and changes nothing; otherwise
        the first failing step records its message and leaves the previous rendering in
        place, and success stores the formatted text without resetting the state. */
    method ApplyContext(ctx: Context, formatType: int, strict: bool) returns (ok: bool)
      modifies this, state
      ensures templateContent == old(templateContent) && ast == old(ast) && initialPassed == old(initialPassed)
      ensures !old(initialPassed) ==>
        (!ok && renderContent == old(renderContent) && isStrictUndefined == old(isStrictUndefined)
         && state.valid == old(state.valid) && state.message == old(state.message))
      ensures old(initialPassed) ==>
        var r := ApplyResult(templateContent, ast, ctx, formatType, strict, engine);
        && (ok <==> r.Ok?)
        && (r.Ok? ==> renderContent == Some(r.value) && state.valid == old(state.valid) && state.message == old(state.message))
        && (r.Err? ==> renderContent == old(renderContent) && !state.valid && state.message == Some(r.error))
      ensures old(initialPassed) && 0 <= formatType <= 4 && templateContent.Some? && ast.Some?
        ==> isStrictUndefined == strict
      ensures state.content == old(state.content)
    {
      if !initialPassed {
        return false;
      }
      if !(0 <= formatType <= 4) {
        state.SetError(Some(UnsupportedFormatMessage));
        return false;
      }
      if templateContent.None? {
        state.SetError(Some(NotLoadedMessage));
        return false;
      }
      if ast.None? {
        state.SetError(Some(NoAstMessage));
        return false;
      }
      isStrictUndefined := strict;
      ok := RuntimeValidations(ast.value, ctx);
      if !ok {
        return false;
      }
      var rendered := engine.render(templateContent.value, ctx, strict);
      if rendered.RenderRaised? {
        state.SetError(Some(RenderMessage(rendered.failure, rendered.text)));
        return false;
      }
      ok := ValidateMemoryUsage(rendered.text);
      if !ok {
        return false;
      }
      var formatted := Format(rendered.text, formatType);
      renderContent := Some(formatted.value);
      return true;
    }
  }

  /** A failed apply leaves the state invalid for good: a later successful apply does
      not reset it, so the object keeps reporting the older error. */
  method StickyApplyError(file: ByteStream, e: Engine, ctx: Context)
    returns (first: bool, second: bool, valid: bool)
    modifies file
    ensures IntakeVerdict(old(file.data), old(file.pos), e).Ok? &&
      ApplyResult(Some(IntakeVerdict(old(file.data), old(file.pos), e).value.0),
                  Some(IntakeVerdict(old(file.data), old(file.pos), e).value.1), ctx, 0, true, e).Ok?
      ==> !first && second && !valid
  {
    var renderer := new DocumentRender(file, e);
    first := renderer.ApplyContext(ctx, 5, true);
    second := renderer.ApplyContext(ctx, 0, true);
    valid := renderer.IsValidTemplate();
  }
}

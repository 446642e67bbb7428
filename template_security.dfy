/** `TemplateSecurityValidator` of features/validate_template.py: the static checks
    run when a template is uploaded (restricted tags, restricted names and attributes,
    literal `range()` bounds), the runtime pre-check run before rendering (a small
    evaluator looking for division by zero), and `validate_template_file`. */
module TemplateSecurity {
  import opened Base
  import opened Values
  import opened JinjaAst
  import opened RangeArithmetic
  import opened PydanticErrors
  import opened ValidationStates
  import opened Streams
  import opened UploadedFileValidation

  // ---------------------------------------------------------------------------
  // Configuration

  /** `TemplateConfig`. */
  datatype TemplateConfig = TemplateConfig(maxRangeSize: nat, restrictedTags: set<string>, restrictedAttributes: set<string>)

  const DefaultRestrictedTags: set<string> := {"macro", "include", "import", "extends", "do"}

  const DefaultRestrictedAttributes: set<string> :=
    {"request", "config", "os", "sys", "builtins", "eval", "exec", "getattr", "setattr", "delattr",
     "globals", "locals", "__class__", "__base__", "__subclasses__", "__mro__"}

  /** `TemplateConfig(max_range_size=100000)`, the configuration every validator uses. */
  const DefaultConfig: TemplateConfig := TemplateConfig(100000, DefaultRestrictedTags, DefaultRestrictedAttributes)

  /** The validator's fields: its configuration and two byte limits. */
  datatype SecurityValidator = SecurityValidator(config: TemplateConfig, maxFileSizeBytes: nat, maxMemorySizeBytes: nat)

  function LimitErrors(maxFileSizeBytes: int, maxMemorySizeBytes: int): seq<FieldError> {
    (if maxFileSizeBytes > 0 then [] else [GreaterThanZero("max_file_size_bytes", maxFileSizeBytes)])
    + (if maxMemorySizeBytes > 0 then [] else [GreaterThanZero("max_memory_size_bytes", maxMemorySizeBytes)])
  }

  /** Constructing a `TemplateSecurityValidator`: both limits must be positive, and
      pydantic reports every limit that is not. */
  function MakeSecurityValidator(maxFileSizeBytes: int, maxMemorySizeBytes: int): (r: Result<SecurityValidator, string>)
    ensures r.Ok? <==> maxFileSizeBytes > 0 && maxMemorySizeBytes > 0
    ensures r.Ok? ==> r.value == SecurityValidator(DefaultConfig, maxFileSizeBytes, maxMemorySizeBytes)
    ensures r.Err? ==> r.error == ValidationErrorText("TemplateSecurityValidator", LimitErrors(maxFileSizeBytes, maxMemorySizeBytes))
  {
    var errors := LimitErrors(maxFileSizeBytes, maxMemorySizeBytes);
    if errors == [] then Ok(SecurityValidator(DefaultConfig, maxFileSizeBytes, maxMemorySizeBytes))
    else Err(ValidationErrorText("TemplateSecurityValidator", errors))
  }

  // ---------------------------------------------------------------------------
  // Restricted tags

  /** `node.__class__.__name__.lower()` for the four tag node classes. */
  function TagName(n: Node): Option<string> {
    match n
    case Macro(_, _, _) => Some("macro")
    case Include(_) => Some("include")
    case Import(_, _) => Some("import")
    case Extends(_) => Some("extends")
    case _ => None
  }

  predicate IsTagNode(n: Node) {
    n.Macro? || n.Include? || n.Import? || n.Extends?
  }

  function TagMessage(tag: string): string {
    "Template security error: '" + tag + "' tag is not allowed"
  }

  /** One step of the first loop of `_validate_restricted_tags`. */
  function TagCheck(cfg: TemplateConfig, n: Node): Option<string> {
    match TagName(n)
    case Some(tag) => if tag in cfg.restrictedTags then Some(TagMessage(tag)) else None
    case None => None
  }

  function TagChecker(cfg: TemplateConfig): Node -> Option<string> {
    n => TagCheck(cfg, n)
  }

  predicate HasExprStmt(ns: seq<Node>) {
    exists i | 0 <= i < |ns| :: ns[i].ExprStmt?
  }

  /** `_validate_restricted_tags`: the first restricted tag node in pre-order decides;
      only when there is none does the presence of any `do` statement fail. */
  function RestrictedTagsVerdict(cfg: TemplateConfig, ast: Template): Option<string> {
    var ns := FindAll(ast);
    match FirstSome(ns, TagChecker(cfg))
    case Some(m) => Some(m)
    case None => if "do" in cfg.restrictedTags && HasExprStmt(ns) then Some(TagMessage("do")) else None
  }

  /** With the default configuration every tag node and every `do` statement is refused,
      at any depth, and nothing else is. */
  lemma DefaultTagsRefused(ast: Template)
    ensures RestrictedTagsVerdict(DefaultConfig, ast).None?
        <==> forall i :: 0 <= i < |FindAll(ast)| ==> !IsTagNode(FindAll(ast)[i]) && !FindAll(ast)[i].ExprStmt?
  {
    var ns := FindAll(ast);
    FirstSomeNone(ns, TagChecker(DefaultConfig));
    assert forall i :: 0 <= i < |ns| ==> (TagChecker(DefaultConfig)(ns[i]).None? <==> !IsTagNode(ns[i]));
  }

  /** The message always names the first tag node in pre-order. */
  lemma FirstTagDecides(ast: Template, i: nat)
    requires i < |FindAll(ast)| && IsTagNode(FindAll(ast)[i])
    requires forall j :: 0 <= j < i ==> !IsTagNode(FindAll(ast)[j])
    ensures RestrictedTagsVerdict(DefaultConfig, ast) == Some(TagMessage(TagName(FindAll(ast)[i]).value))
  {
    FirstSomeAt(FindAll(ast), TagChecker(DefaultConfig), i);
  }

  // ---------------------------------------------------------------------------
  // Restricted names, attributes, items, calls and assignments

  /** The messages of the five `_check_*` handlers. */
  function AttributeMessage(a: string): string {
    "Template security error: Access to restricted attribute '" + a + "' is forbidden."
  }

  function ItemMessage(key: string): string {
    "Template security error: Access to restricted item '" + key + "' is forbidden."
  }

  function VariableMessage(x: string): string {
    "Template security error: Use of restricted variable '" + x + "' is forbidden."
  }

  function CallMessage(f: string): string {
    "Template security error: Call to restricted function '" + f + "()' is forbidden."
  }

  function AssignVariableMessage(x: string): string {
    "Template security error: Assignment of restricted variable '" + x + "' is forbidden."
  }

  function AssignCallMessage(f: string): string {
    "Template security error: Assignment involving restricted function '" + f + "()' is forbidden."
  }

  /** The handler `_validate_restricted_attributes` dispatches to for one node. */
  function AttributeCheck(cfg: TemplateConfig, n: Node): Option<string> {
    var r := cfg.restrictedAttributes;
    match n
    case Getattr(_, a) =>
      if a in r then Some(AttributeMessage(a)) else None
    case Getitem(_, Const(StrLit(key))) =>
      if key in r then Some(ItemMessage(key)) else None
    case Name(x) =>
      if x in r then Some(VariableMessage(x)) else None
    case Call(Name(f), _, _) =>
      if f in r then Some(CallMessage(f)) else None
    case Assign(_, Name(x)) =>
      if x in r then Some(AssignVariableMessage(x)) else None
    case Assign(_, Call(Name(f), _, _)) =>
      if f in r then Some(AssignCallMessage(f)) else None
    case _ => None
  }

  function AttributeChecker(cfg: TemplateConfig): Node -> Option<string> {
    n => AttributeCheck(cfg, n)
  }

  /** `_validate_restricted_attributes`: the first failing node in pre-order decides. */
  function RestrictedAttributesVerdict(cfg: TemplateConfig, ast: Template): Option<string> {
    FirstSome(FindAll(ast), AttributeChecker(cfg))
  }

  /** What acceptance guarantees: no restricted name is read, called or assigned, no
      restricted attribute or constant item is accessed, anywhere in the template. */
  lemma AttributesAccepted(cfg: TemplateConfig, ast: Template, i: nat)
    requires RestrictedAttributesVerdict(cfg, ast).None? && i < |FindAll(ast)|
    ensures var n := FindAll(ast)[i];
      && (n.Name? ==> n.name !in cfg.restrictedAttributes)
      && (n.Getattr? ==> n.attr !in cfg.restrictedAttributes)
      && (n.Getitem? && n.arg.Const? && n.arg.lit.StrLit? ==> n.arg.lit.s !in cfg.restrictedAttributes)
      && (n.Call? && n.callee.Name? ==> n.callee.name !in cfg.restrictedAttributes)
  {
    FirstSomeNone(FindAll(ast), AttributeChecker(cfg));
    assert AttributeChecker(cfg)(FindAll(ast)[i]).None?;
  }

  /** Pre-order decides the message: a call of a restricted name is reported by the
      call rule, whose node comes before the callee's name. */
  lemma CallReportsCall(cfg: TemplateConfig, f: string, x: string, y: string)
    requires f in cfg.restrictedAttributes
    ensures RestrictedAttributesVerdict(cfg,
      Template([Container("Output", [Call(Name(f), [Const(StrLit(x)), Const(StrLit(y))], [])])]))
      == Some(CallMessage(f))
  {
    var call := Call(Name(f), [Const(StrLit(x)), Const(StrLit(y))], []);
    var out := Container("Output", [call]);
    CallOfTwoConstantsWalk(f, x, y);
    WalkAllSingle(call);
    WalkAllSingle(out);
    var ns := FindAll(Template([out]));
    assert ns == [out] + Walk(call);
    var c := AttributeChecker(cfg);
    assert c(out).None?;
    assert c(call) == Some(CallMessage(f));
    FirstSomeAt(ns, c, 1);
  }

  /** The pre-order walk of `f(x, y)` over two constants. */
  lemma CallOfTwoConstantsWalk(f: string, x: string, y: string)
    ensures var cx, cy := Const(StrLit(x)), Const(StrLit(y));
      Walk(Call(Name(f), [cx, cy], [])) == [Call(Name(f), [cx, cy], []), Name(f), cx, cy]
  {
    var cx, cy := Const(StrLit(x)), Const(StrLit(y));
    var args := [cx, cy];
    var call := Call(Name(f), args, []);
    assert Walk(Name(f)) == [Name(f)];
    assert Walk(cx) == [cx];
    assert Walk(cy) == [cy];
    assert WalkAll(args) == args by {
      assert args[1..] == [cy];
      WalkAllSingle(cy);
      assert WalkAll(args) == Walk(cx) + WalkAll([cy]);
    }
    assert Descendants(call) == Walk(Name(f)) + WalkAll(args) + WalkAll([]);
  }

  /** `getattr('', '__class__')` is reported as a call of `getattr`, not as the name. */
  lemma GetattrCallReportsCall()
    ensures RestrictedAttributesVerdict(DefaultConfig,
      Template([Container("Output", [Call(Name("getattr"), [Const(StrLit("")), Const(StrLit("__class__"))], [])])]))
      == Some(CallMessage("getattr"))
  {
    assert "getattr" in DefaultRestrictedAttributes;
    CallReportsCall(DefaultConfig, "getattr", "", "__class__");
  }

  /** The assignment node comes before the name it assigns, so assigning a restricted
      name is reported by the assignment rule. */
  lemma AssignRestrictedReportsAssign(cfg: TemplateConfig, t: string, x: string)
    requires x in cfg.restrictedAttributes && t !in cfg.restrictedAttributes
    ensures RestrictedAttributesVerdict(cfg, Template([Assign(Name(t), Name(x))]))
      == Some(AssignVariableMessage(x))
  {
    var a := Assign(Name(t), Name(x));
    assert Walk(Name(t)) == [Name(t)];
    assert Walk(Name(x)) == [Name(x)];
    WalkAllSingle(a);
    assert Walk(a) == [a, Name(t), Name(x)];
    assert AttributeChecker(cfg)(a) == Some(AssignVariableMessage(x));
  }

  /** Example: `set my_os = os` is reported by the assignment rule. */
  lemma AssignReportsAssign()
    ensures RestrictedAttributesVerdict(DefaultConfig, Template([Assign(Name("my_os"), Name("os"))]))
      == Some(AssignVariableMessage("os"))
  {
    assert "os" in DefaultRestrictedAttributes && "my_os" !in DefaultRestrictedAttributes;
    AssignRestrictedReportsAssign(DefaultConfig, "my_os", "os");
  }

  /** A method call on a restricted name (`{{ os.system("ls") }}`) is caught by the name
      rule, whatever the method is called, once the call and the attribute pass. */
  lemma AttributeOfRestrictedName(cfg: TemplateConfig, x: string, m: string, arg: string)
    requires x in cfg.restrictedAttributes && m !in cfg.restrictedAttributes
    ensures RestrictedAttributesVerdict(cfg,
      Template([Container("Output", [Call(Getattr(Name(x), m), [Const(StrLit(arg))], [])])]))
      == Some(VariableMessage(x))
  {
    var g := Getattr(Name(x), m);
    var ls := Const(StrLit(arg));
    var call := Call(g, [ls], []);
    var out := Container("Output", [call]);
    assert Walk(Name(x)) == [Name(x)];
    assert Walk(ls) == [ls];
    assert Walk(g) == [g, Name(x)];
    WalkAllSingle(ls);
    assert Walk(call) == [call, g, Name(x), ls];
    WalkAllSingle(call);
    WalkAllSingle(out);
    var ns := FindAll(Template([out]));
    assert ns == [out, call, g, Name(x), ls];
    FirstSomeAt(ns, AttributeChecker(cfg), 3);
  }

  /** The default configuration refuses `{{ os.system("ls") }}` by the name `os`. */
  lemma OsSystemRefused()
    ensures RestrictedAttributesVerdict(DefaultConfig,
      Template([Container("Output", [Call(Getattr(Name("os"), "system"), [Const(StrLit("ls"))], [])])]))
      == Some(VariableMessage("os"))
  {
    assert "system" !in DefaultRestrictedAttributes;
    AttributeOfRestrictedName(DefaultConfig, "os", "system", "ls");
  }

  // ---------------------------------------------------------------------------
  // Literal range() loops

  /** What `_get_range_arguments` makes of a call: a non-literal argument (the
      `TypeError` that defers the loop to runtime), a refusal (the `ValueError` whose
      text follows "Template security error: "), or validated bounds. */
  datatype RangeArgs = NotLiteral | Refused(message: string) | Bounds(start: int, stop: int, step: int)

  /** `_evaluate_literal`: the int value of an int or bool constant, and nothing for
      any other node. */
  function LiteralInt(n: Node): (r: Option<int>)
    ensures r.Some? <==> IsLiteral(n)
  {
    match n
    case Const(IntLit(i)) => Some(i)
    case Const(BoolLit(b)) => Some(if b then 1 else 0)
    case _ => None
  }

  /** `_is_range_call`. */
  predicate IsRangeCall(n: Node) {
    n.Call? && n.callee == Name("range")
  }

  /** The errors of `RangeConfig(start=..., stop=..., step=...)`, in field order. */
  function RangeConfigErrors(start: int, stop: int, step: int): seq<FieldError> {
    (if start >= 0 then [] else [GreaterEqualZero("start", start)])
    + (if stop > 0 then [] else [GreaterThanZero("stop", stop)])
    + (if step > 0 then [] else [GreaterThanZero("step", step)])
  }

  /** `RangeConfig` with all three fields given. */
  function MakeRangeConfig(start: int, stop: int, step: int): (r: RangeArgs)
    ensures r.Bounds? <==> start >= 0 && stop > 0 && step > 0
    ensures r.Bounds? ==> r == Bounds(start, stop, step)
    ensures r.Refused? ==> r.message == ValidationErrorText("RangeConfig", RangeConfigErrors(start, stop, step))
    ensures !r.NotLiteral?
  {
    var errors := RangeConfigErrors(start, stop, step);
    if errors == [] then Bounds(start, stop, step) else Refused(ValidationErrorText("RangeConfig", errors))
  }

  const InvalidArgumentCount: string := "invalid number of arguments for range()"

  /** The arguments `_get_range_arguments` evaluates: the first three at most. */
  function ConsideredArgs(args: seq<Node>): seq<Node> {
    if |args| <= 3 then args else args[..3]
  }

  /** `_get_range_arguments`: `range(stop)` means `range(0, stop, 1)`, `range(a, b)`
      means `range(a, b, 1)`, and further arguments are ignored. */
  function RangeArguments(args: seq<Node>): (r: RangeArgs)
    ensures |args| == 0 ==> r == Refused(InvalidArgumentCount)
    ensures r.Bounds? ==> r.start >= 0 && r.stop > 0 && r.step > 0
  {
    if |args| == 0 then Refused(InvalidArgumentCount)
    else if |args| == 1 then
      match LiteralInt(args[0])
      case None => NotLiteral
      case Some(stop) => MakeRangeConfig(0, stop, 1)
    else
      var start := LiteralInt(args[0]);
      var stop := LiteralInt(args[1]);
      var step := if |args| > 2 then LiteralInt(args[2]) else Some(1);
      if start.None? || stop.None? || step.None? then NotLiteral
      else MakeRangeConfig(start.value, stop.value, step.value)
  }

  /** A node `_evaluate_literal` accepts. */
  predicate IsLiteral(n: Node) {
    n.Const? && (n.lit.IntLit? || n.lit.BoolLit?)
  }

  /** The loop is deferred to runtime exactly when one of the evaluated arguments is
      not an int or bool constant. */
  lemma NotLiteralIff(args: seq<Node>)
    ensures RangeArguments(args).NotLiteral?
        <==> exists i :: 0 <= i < |ConsideredArgs(args)| && !IsLiteral(ConsideredArgs(args)[i])
  {
    NotLiteralCases(args);
    var c := ConsideredArgs(args);
    var k := if |args| <= 3 then |args| else 3;
    assert |c| == k && forall i :: 0 <= i < k ==> c[i] == args[i];
    if RangeArguments(args).NotLiteral? {
      var i := if !IsLiteral(args[0]) then 0 else if !IsLiteral(args[1]) then 1 else 2;
      assert 0 <= i < |c| && !IsLiteral(c[i]);
    } else {
      forall i | 0 <= i < |c| ensures IsLiteral(c[i]) {
        assert c[i] == args[i];
        assert i == 0 || i == 1 || i == 2;
      }
    }
  }

  /** When `RangeArguments` defers, by the number of arguments. */
  lemma NotLiteralCases(args: seq<Node>)
    ensures RangeArguments(args).NotLiteral? <==>
      (|args| >= 1 && (!IsLiteral(args[0]) || (|args| >= 2 && (!IsLiteral(args[1]) || (|args| > 2 && !IsLiteral(args[2]))))))
  {
  }

  /** Validated bounds are the literal arguments, with Python's defaults for the
      missing ones. */
  lemma BoundsAreLiterals(args: seq<Node>)
    requires RangeArguments(args).Bounds?
    ensures var b := RangeArguments(args);
      if |args| == 1 then b == Bounds(0, LiteralInt(args[0]).value, 1)
      else
        b.start == LiteralInt(args[0]).value && b.stop == LiteralInt(args[1]).value
        && b.step == (if |args| > 2 then LiteralInt(args[2]).value else 1)
  {
  }

  function SecurityMessage(m: string): string {
    "Template security error: " + m
  }

  function LoopLimitMessage(max: nat): string {
    SecurityMessage("loop range exceeds maximum limit of " + NatToString(max))
  }

  /** One step of `_validate_loop_range`: only `for` loops over a `range()` call are
      examined, and only when their arguments are literals. */
  function LoopRangeCheck(cfg: TemplateConfig, n: Node): Option<string> {
    if n.For? && IsRangeCall(n.iter) then
      match RangeArguments(n.iter.args)
      case NotLiteral => None
      case Refused(m) => Some(SecurityMessage(m))
      case Bounds(start, stop, step) =>
        if Iterations(start, stop, step) > cfg.maxRangeSize then Some(LoopLimitMessage(cfg.maxRangeSize)) else None
    else None
  }

  function LoopRangeChecker(cfg: TemplateConfig): Node -> Option<string> {
    n => LoopRangeCheck(cfg, n)
  }

  /** `_validate_loop_range`: the first offending loop in pre-order decides. */
  function LoopRangeVerdict(cfg: TemplateConfig, ast: Template): Option<string> {
    FirstSome(FindAll(ast), LoopRangeChecker(cfg))
  }

  /** A loop over validated literal bounds passes exactly when the range it would
      iterate has at most `max_range_size` elements. */
  lemma LoopBoundExact(cfg: TemplateConfig, n: Node)
    requires n.For? && IsRangeCall(n.iter) && RangeArguments(n.iter.args).Bounds?
    ensures var b := RangeArguments(n.iter.args);
      LoopRangeCheck(cfg, n).None? <==> |RangeValues(b.start, b.stop, b.step)| <= cfg.maxRangeSize
  {
    var b := RangeArguments(n.iter.args);
    IterationsCountValues(b.start, b.stop, b.step);
  }

  /** What acceptance guarantees: every literal `range()` loop of the template has
      valid bounds and iterates at most `max_range_size` times. */
  lemma LoopsAccepted(cfg: TemplateConfig, ast: Template, i: nat)
    requires LoopRangeVerdict(cfg, ast).None? && i < |FindAll(ast)|
    requires FindAll(ast)[i].For? && IsRangeCall(FindAll(ast)[i].iter)
    requires !RangeArguments(FindAll(ast)[i].iter.args).NotLiteral?
    ensures var b := RangeArguments(FindAll(ast)[i].iter.args);
      b.Bounds? && b.start >= 0 && b.stop > 0 && b.step > 0
      && |RangeValues(b.start, b.stop, b.step)| <= cfg.maxRangeSize
  {
    FirstSomeNone(FindAll(ast), LoopRangeChecker(cfg));
    assert LoopRangeChecker(cfg)(FindAll(ast)[i]).None?;
    LoopBoundExact(cfg, FindAll(ast)[i]);
  }

  /** Example: `range(stop)` with a literal stop beyond the limit is refused with the
      limit message. */
  lemma SingleStopOverLimit(cfg: TemplateConfig, stop: int, body: seq<Node>)
    requires stop > cfg.maxRangeSize
    ensures LoopRangeCheck(cfg, For(Name("i"), Call(Name("range"), [Const(IntLit(stop))], []), body, [], []))
      == Some(LoopLimitMessage(cfg.maxRangeSize))
  {
    var args := [Const(IntLit(stop))];
    assert RangeArguments(args) == Bounds(0, stop, 1) by {
      assert LiteralInt(args[0]) == Some(stop);
    }
    var it := Iterations(0, stop, 1);
    assert it > cfg.maxRangeSize by {
      assert (it - 1) * 1 < stop <= it * 1;
    }
  }

  /** A literal step of zero is refused by `RangeConfig`, naming the field. */
  lemma ZeroStepRefused(start: int, stop: int)
    requires start >= 0 && stop > 0
    ensures RangeArguments([Const(IntLit(start)), Const(IntLit(stop)), Const(IntLit(0))])
      == Refused(ValidationErrorText("RangeConfig", [GreaterThanZero("step", 0)]))
  {
    assert RangeConfigErrors(start, stop, 0) == [GreaterThanZero("step", 0)];
  }

  /** Example: `range()` with no arguments is refused. */
  lemma EmptyRangeRefused(cfg: TemplateConfig)
    ensures LoopRangeCheck(cfg, For(Name("i"), Call(Name("range"), [], []), [], [], []))
      == Some(SecurityMessage(InvalidArgumentCount))
  {
  }

  /** A non-literal argument defers the loop to runtime, whatever the other arguments are. */
  lemma VariableBoundDeferred(cfg: TemplateConfig, n: Node, k: nat)
    requires n.For? && IsRangeCall(n.iter) && k < |n.iter.args| && k < 3
    requires !IsLiteral(n.iter.args[k])
    ensures LoopRangeCheck(cfg, n).None?
  {
    assert ConsideredArgs(n.iter.args)[k] == n.iter.args[k];
    NotLiteralIff(n.iter.args);
  }

  // ---------------------------------------------------------------------------
  // The static validators as they run, recording into a validation state

  /** The loop shared by the three static validators: visit the nodes in order and
      stop at the first one whose check fails, recording its message. */
  method ReportFirst(ns: seq<Node>, check: Node -> Option<string>, state: TemplateValidationState)
    returns (ok: bool)
    modifies state
    ensures ok <==> FirstSome(ns, check).None?
    ensures ok ==> state.valid == old(state.valid) && state.errorMessage == old(state.errorMessage)
    ensures !ok ==> !state.valid && state.errorMessage == FirstSome(ns, check)
    ensures state.content == old(state.content)
  {
    var i := 0;
    while i < |ns|
      invariant i <= |ns|
      invariant FirstSome(ns, check) == FirstSome(ns[i..], check)
      invariant unchanged(state)
    {
      assert ns[i..][0] == ns[i] && ns[i..][1..] == ns[i + 1..];
      var m := check(ns[i]);
      if m.Some? {
        state.SetError(m);
        return false;
      }
      i := i + 1;
    }
    assert ns[i..] == [];
    return true;
  }

  /** `_validate_restricted_tags`. */
  method ValidateRestrictedTags(cfg: TemplateConfig, ast: Template, state: TemplateValidationState)
    returns (ok: bool)
    modifies state
    ensures ok <==> RestrictedTagsVerdict(cfg, ast).None?
    ensures ok ==> state.valid == old(state.valid) && state.errorMessage == old(state.errorMessage)
    ensures !ok ==> !state.valid && state.errorMessage == RestrictedTagsVerdict(cfg, ast)
    ensures state.content == old(state.content)
  {
    var ns := FindAll(ast);
    ok := ReportFirst(ns, TagChecker(cfg), state);
    if !ok || "do" !in cfg.restrictedTags {
      return;
    }
    var i := 0;
    while i < |ns|
      invariant i <= |ns|
      invariant forall j :: 0 <= j < i ==> !ns[j].ExprStmt?
      invariant state.valid == old(state.valid) && state.errorMessage == old(state.errorMessage)
      invariant state.content == old(state.content)
    {
      if ns[i].ExprStmt? {
        state.SetError(Some(TagMessage("do")));
        return false;
      }
      i := i + 1;
    }
  }

  /** `_validate_restricted_attributes`. */
  method ValidateRestrictedAttributes(cfg: TemplateConfig, ast: Template, state: TemplateValidationState)
    returns (ok: bool)
    modifies state
    ensures ok <==> RestrictedAttributesVerdict(cfg, ast).None?
    ensures ok ==> state.valid == old(state.valid) && state.errorMessage == old(state.errorMessage)
    ensures !ok ==> !state.valid && state.errorMessage == RestrictedAttributesVerdict(cfg, ast)
    ensures state.content == old(state.content)
  {
    ok := ReportFirst(FindAll(ast), AttributeChecker(cfg), state);
  }

  /** `_validate_loop_range`. */
  method ValidateLoopRange(cfg: TemplateConfig, ast: Template, state: TemplateValidationState)
    returns (ok: bool)
    modifies state
    ensures ok <==> LoopRangeVerdict(cfg, ast).None?
    ensures ok ==> state.valid == old(state.valid) && state.errorMessage == old(state.errorMessage)
    ensures !ok ==> !state.valid && state.errorMessage == LoopRangeVerdict(cfg, ast)
    ensures state.content == old(state.content)
  {
    ok := ReportFirst(FindAll(ast), LoopRangeChecker(cfg), state);
  }

  /** The three static checks in the order `validate_template_file` runs them. */
  function StaticVerdict(cfg: TemplateConfig, ast: Template): Option<string> {
    var tags := RestrictedTagsVerdict(cfg, ast);
    if tags.Some? then tags
    else
      var attributes := RestrictedAttributesVerdict(cfg, ast);
      if attributes.Some? then attributes else LoopRangeVerdict(cfg, ast)
  }

  // ---------------------------------------------------------------------------
  // validate_template_file

  function TemplateSizeMessage(max: nat): string {
    "Template file size exceeds maximum limit of " + NatToString(max) + " bytes"
  }

  const TemplateBinaryMessage: string := "Template file contains invalid binary data"
  const TemplateUtf8Message: string := "Template file contains invalid UTF-8 bytes"

  function SyntaxMessage(e: string): string {
    "Template syntax error: " + e
  }

  /** What `validate_template_file` decides for a buffer read from `pos`: the content
      and the tree, or the message it records. `decode` is strict UTF-8 decoding and
      `parse` is `Environment.parse` with its `TemplateSyntaxError` text. The size limit
      applies to the whole buffer; the remaining checks to the bytes from `pos` on. */
  function TemplateFileVerdict(v: SecurityValidator, data: Bytes, pos: nat,
                               decode: Bytes -> Option<string>, parse: string -> Result<Template, string>)
    : Result<(string, Template), string>
  {
    var content := if pos <= |data| then data[pos..] else [];
    if |data| > v.maxFileSizeBytes then Err(TemplateSizeMessage(v.maxFileSizeBytes))
    else if NUL in content then Err(TemplateBinaryMessage)
    else match decode(content)
      case None => Err(TemplateUtf8Message)
      case Some(text) =>
        match parse(text)
        case Err(e) => Err(SyntaxMessage(e))
        case Ok(ast) =>
          match StaticVerdict(v.config, ast)
          case Some(m) => Err(m)
          case None => Ok((text, ast))
  }

  /** `validate_template_file`: the state is reset, the position of the file is
      restored, and the state holds the first failure. */
  method ValidateTemplateFile(v: SecurityValidator, file: ByteStream, state: TemplateValidationState,
                              decode: Bytes -> Option<string>, parse: string -> Result<Template, string>)
    returns (content: Option<string>, ast: Option<Template>)
    modifies file, state
    ensures file.data == old(file.data) && file.pos == old(file.pos) && file.name == old(file.name)
    ensures state.content == None
    ensures match TemplateFileVerdict(v, old(file.data), old(file.pos), decode, parse)
      case Ok((text, t)) => content == Some(text) && ast == Some(t) && state.valid && state.errorMessage == None
      case Err(m) => content == None && ast == None && !state.valid && state.errorMessage == Some(m)
  {
    state.Reset();
    var current := file.Tell();
    var bytes := file.Read();
    file.Seek(current);
    var size := FileValidator.GetFileSize(file);
    if size > v.maxFileSizeBytes {
      state.SetError(Some(TemplateSizeMessage(v.maxFileSizeBytes)));
      return None, None;
    }
    if NUL in bytes {
      state.SetError(Some(TemplateBinaryMessage));
      return None, None;
    }
    var text := decode(bytes);
    if text.None? {
      state.SetError(Some(TemplateUtf8Message));
      return None, None;
    }
    var parsed := parse(text.value);
    if parsed.Err? {
      state.SetError(Some(SyntaxMessage(parsed.error)));
      return None, None;
    }
    var t := parsed.value;
    var ok := ValidateRestrictedTags(v.config, t, state);
    if !ok {
      return None, None;
    }
    ok := ValidateRestrictedAttributes(v.config, t, state);
    if !ok {
      return None, None;
    }
    ok := ValidateLoopRange(v.config, t, state);
    if !ok {
      return None, None;
    }
    return text, Some(t);
  }

  /** What an accepted upload guarantees under the default configuration: the file is
      within the limit and free of NUL bytes, the text is what the decoder and the
      parser made of it, and the tree holds no restricted tag, no `do`, no restricted
      name, attribute or call, and no literal loop beyond the limit. */
  lemma AcceptedTemplateIsSafe(v: SecurityValidator, data: Bytes, pos: nat,
                               decode: Bytes -> Option<string>, parse: string -> Result<Template, string>)
    requires v.config == DefaultConfig
    requires TemplateFileVerdict(v, data, pos, decode, parse).Ok?
    ensures |data| <= v.maxFileSizeBytes
    ensures var content := if pos <= |data| then data[pos..] else [];
      var (text, ast) := TemplateFileVerdict(v, data, pos, decode, parse).value;
      && NUL !in content && decode(content) == Some(text) && parse(text) == Ok(ast)
      && (forall i :: 0 <= i < |FindAll(ast)| ==> !IsTagNode(FindAll(ast)[i]) && !FindAll(ast)[i].ExprStmt?)
      && RestrictedAttributesVerdict(DefaultConfig, ast).None?
      && LoopRangeVerdict(DefaultConfig, ast).None?
  {
    var content := if pos <= |data| then data[pos..] else [];
    var (text, ast) := TemplateFileVerdict(v, data, pos, decode, parse).value;
    DefaultTagsRefused(ast);
  }

  /** The checks run in a fixed order: an oversized file is refused for its size even
      when its bytes would also fail later checks. */
  lemma SizeCheckedFirst(v: SecurityValidator, data: Bytes, pos: nat,
                         decode: Bytes -> Option<string>, parse: string -> Result<Template, string>)
    requires |data| > v.maxFileSizeBytes
    ensures TemplateFileVerdict(v, data, pos, decode, parse) == Err(TemplateSizeMessage(v.maxFileSizeBytes))
  {
  }

  // ---------------------------------------------------------------------------
  // The runtime pre-check: a small evaluator over the tree

  /** The variables `{% set %}` has bound so far. */
  type Assignments = map<string, Value>

  /** The values `_evaluate_name` passes through: None, str, Decimal, list, dict and
      bool. A plain int, a float or any other object reads as None. */
  predicate Visible(v: Value) {
    !v.Int? && !v.Float? && !v.Opaque?
  }

  /** `_evaluate_name`: an assignment shadows the context; an unknown name is None. */
  function Lookup(x: string, ctx: Context, asg: Assignments): (r: Value)
    ensures Visible(r)
    ensures x in asg && Visible(asg[x]) ==> r == asg[x]
    ensures x !in asg && x in ctx && Visible(ctx[x]) ==> r == ctx[x]
    ensures x !in asg && x !in ctx ==> r == NoneValue
  {
    if x in asg then (if Visible(asg[x]) then asg[x] else NoneValue)
    else if x in ctx then (if Visible(ctx[x]) then ctx[x] else NoneValue)
    else NoneValue
  }

  /** `_evaluate_expression`: the value of a name, constant, list, dict, call or
      attribute access, or nothing where the source raises "cannot evaluate
      expression". An int or float constant becomes a `Decimal`; a bool constant
      fails, because `Decimal(str(True))` raises. A call or attribute access evaluates
      its object and arguments and yields None. */
  function Evaluate(n: Node, ctx: Context, asg: Assignments): Option<Value>
    decreases n, 1
  {
    match n
    case Name(x) => Some(Lookup(x, ctx, asg))
    case Const(lit) =>
      (match lit
       case NoneLit => Some(NoneValue)
       case BoolLit(_) => None
       case IntLit(i) => Some(Decimal(i))
       case StrLit(s) => Some(Str(s)))
    case List(items) =>
      (match EvaluateAll(items, ctx, asg)
       case None => None
       case Some(vs) => Some(ListValue(vs)))
    case Dict(items) =>
      (match EvaluateDict(items, ctx, asg, map[])
       case None => None
       case Some(m) => Some(DictValue(m)))
    case Call(callee, args, _) =>
      if Evaluate(callee, ctx, asg).None? || EvaluateAll(args, ctx, asg).None? then None
      else Some(NoneValue)
    case Getattr(obj, _) =>
      if Evaluate(obj, ctx, asg).None? then None else Some(NoneValue)
    case _ => None
  }

  /** The items of a list, left to right; one failure fails the whole. */
  function EvaluateAll(ns: seq<Node>, ctx: Context, asg: Assignments): (r: Option<seq<Value>>)
    ensures r.Some? ==> |r.value| == |ns|
    decreases ns, 0
  {
    if ns == [] then Some([])
    else
      match Evaluate(ns[0], ctx, asg)
      case None => None
      case Some(v) =>
        match EvaluateAll(ns[1..], ctx, asg)
        case None => None
        case Some(vs) => Some([v] + vs)
  }

  /** One pair of `_evaluate_dict`: the key must evaluate to a str. */
  function EvaluatePair(p: Node, ctx: Context, asg: Assignments): Option<(string, Value)>
    decreases p, 0
  {
    match p
    case Pair(key, value) =>
      (match Evaluate(key, ctx, asg)
       case Some(Str(k)) =>
         (match Evaluate(value, ctx, asg)
          case None => None
          case Some(v) => Some((k, v)))
       case _ => None)
    case _ => None
  }

  /** `_evaluate_dict`: the pairs left to right; later keys overwrite earlier ones. */
  function EvaluateDict(ns: seq<Node>, ctx: Context, asg: Assignments, acc: map<string, Value>)
    : Option<map<string, Value>>
    decreases ns, 0
  {
    if ns == [] then Some(acc)
    else
      match EvaluatePair(ns[0], ctx, asg)
      case None => None
      case Some((k, v)) => EvaluateDict(ns[1..], ctx, asg, acc[k := v])
  }

  /** Every value the evaluator produces is one `_evaluate_name` would pass through,
      so what `{% set %}` stores is read back unchanged. */
  lemma EvaluateVisible(n: Node, ctx: Context, asg: Assignments)
    requires Evaluate(n, ctx, asg).Some?
    ensures Visible(Evaluate(n, ctx, asg).value)
  {
  }

  /** Evaluation consults the variables only through `Lookup`: two environments that
      agree on every name give every expression the same value. */
  lemma {:induction false} EvaluateAgrees(n: Node, ctx: Context, asg: Assignments, ctx': Context, asg': Assignments)
    requires forall x :: Lookup(x, ctx, asg) == Lookup(x, ctx', asg')
    ensures Evaluate(n, ctx, asg) == Evaluate(n, ctx', asg')
    decreases n, 1
  {
    match n
    case List(items) => EvaluateAllAgrees(items, ctx, asg, ctx', asg');
    case Dict(items) => EvaluateDictAgrees(items, ctx, asg, ctx', asg', map[]);
    case Call(callee, args, _) =>
      EvaluateAgrees(callee, ctx, asg, ctx', asg');
      EvaluateAllAgrees(args, ctx, asg, ctx', asg');
    case Getattr(obj, _) => EvaluateAgrees(obj, ctx, asg, ctx', asg');
    case _ =>
  }

  lemma {:induction false} EvaluateAllAgrees(ns: seq<Node>, ctx: Context, asg: Assignments, ctx': Context, asg': Assignments)
    requires forall x :: Lookup(x, ctx, asg) == Lookup(x, ctx', asg')
    ensures EvaluateAll(ns, ctx, asg) == EvaluateAll(ns, ctx', asg')
    decreases ns, 0
  {
    if ns != [] {
      EvaluateAgrees(ns[0], ctx, asg, ctx', asg');
      EvaluateAllAgrees(ns[1..], ctx, asg, ctx', asg');
    }
  }

  lemma {:induction false} EvaluatePairAgrees(p: Node, ctx: Context, asg: Assignments, ctx': Context, asg': Assignments)
    requires forall x :: Lookup(x, ctx, asg) == Lookup(x, ctx', asg')
    ensures EvaluatePair(p, ctx, asg) == EvaluatePair(p, ctx', asg')
    decreases p, 0
  {
    if p.Pair? {
      EvaluateAgrees(p.key, ctx, asg, ctx', asg');
      EvaluateAgrees(p.value, ctx, asg, ctx', asg');
    }
  }

  lemma {:induction false} EvaluateDictAgrees(ns: seq<Node>, ctx: Context, asg: Assignments, ctx': Context, asg': Assignments,
                                              acc: map<string, Value>)
    requires forall x :: Lookup(x, ctx, asg) == Lookup(x, ctx', asg')
    ensures EvaluateDict(ns, ctx, asg, acc) == EvaluateDict(ns, ctx', asg', acc)
    decreases ns, 0
  {
    if ns != [] {
      EvaluatePairAgrees(ns[0], ctx, asg, ctx', asg');
      match EvaluatePair(ns[0], ctx, asg)
      case None =>
      case Some((k, v)) => EvaluateDictAgrees(ns[1..], ctx, asg, ctx', asg', acc[k := v]);
    }
  }

  /** The message `_validate_recursive_structures` records when evaluating under a node
      of class `kind` raises. */
  function RuntimeMessage(kind: string): string {
    "Template runtime error: " + kind + " cannot evaluate expression"
  }

  /** One node of `_validate_recursive_structures`: `{% set name = ... %}` evaluates
      and binds its value, a `for` over a bound name evaluates that name, a call
      evaluates itself; other nodes are passed over. */
  function RecursiveStep(n: Node, ctx: Context, asg: Assignments): Result<Assignments, string> {
    match n
    case Assign(Name(t), value) =>
      (match Evaluate(value, ctx, asg)
       case None => Err(RuntimeMessage("Assign"))
       case Some(v) => Ok(asg[t := v]))
    case For(_, Name(x), _, _, _) =>
      if x in asg && Evaluate(n.iter, ctx, asg).None? then Err(RuntimeMessage("For")) else Ok(asg)
    case Call(_, _, _) =>
      if Evaluate(n, ctx, asg).None? then Err(RuntimeMessage("Call")) else Ok(asg)
    case _ => Ok(asg)
  }

  /** `_validate_recursive_structures`: the nodes in pre-order, threading the assignments. */
  function RecursivePhase(ns: seq<Node>, ctx: Context, asg: Assignments): Result<Assignments, string> {
    if ns == [] then Ok(asg)
    else
      match RecursiveStep(ns[0], ctx, asg)
      case Err(m) => Err(m)
      case Ok(asg') => RecursivePhase(ns[1..], ctx, asg')
  }

  /** The outcome of `validate_runtime_security`: a valid state, a state holding a
      message, or the `TypeError` that escapes from the division check. */
  datatype RuntimeVerdict = Passed | Rejected(message: string) | Raised

  const DivisionMessage: string := "Template security error: division by zero is not allowed"

  /** `right_value == 0`: true for a zero `Decimal` and for False. */
  predicate IsZero(v: Value) {
    v == Decimal(0) || v == Bool(false)
  }

  /** One node of `_validate_division_operations`. */
  function DivCheck(n: Node, ctx: Context, asg: Assignments): Option<RuntimeVerdict> {
    if n.Div? then
      match Evaluate(n.right, ctx, asg)
      case None => Some(Raised)
      case Some(v) => if IsZero(v) then Some(Rejected(DivisionMessage)) else None
    else None
  }

  function DivChecker(ctx: Context, asg: Assignments): Node -> Option<RuntimeVerdict> {
    n => DivCheck(n, ctx, asg)
  }

  /** `validate_runtime_security`: the assignment pass, then the division pass with
      the assignments it collected. */
  function RuntimeSecurity(ast: Template, ctx: Context): RuntimeVerdict {
    var ns := FindAll(ast);
    match RecursivePhase(ns, ctx, map[])
    case Err(m) => Rejected(m)
    case Ok(asg) => FirstSome(ns, DivChecker(ctx, asg)).GetOr(Passed)
  }

  /** A `for` loop never fails the assignment pass: evaluating a name cannot raise. */
  lemma ForNeverFails(n: Node, ctx: Context, asg: Assignments)
    requires n.For?
    ensures RecursiveStep(n, ctx, asg) == Ok(asg)
  {
  }

  /** The assignment pass fails exactly at an assignment or a call whose evaluation
      raises, and its message names that node's class. */
  lemma {:induction false} RecursivePhaseFails(ns: seq<Node>, ctx: Context, asg: Assignments)
    requires RecursivePhase(ns, ctx, asg).Err?
    ensures RecursivePhase(ns, ctx, asg).error in {RuntimeMessage("Assign"), RuntimeMessage("Call")}
    ensures exists i :: 0 <= i < |ns| && (ns[i].Assign? || ns[i].Call?)
  {
    match RecursiveStep(ns[0], ctx, asg)
    case Err(m) =>
      assert ns[0].Assign? || ns[0].Call?;
    case Ok(asg') =>
      RecursivePhaseFails(ns[1..], ctx, asg');
      var i :| 0 <= i < |ns[1..]| && (ns[1..][i].Assign? || ns[1..][i].Call?);
      assert ns[i + 1] == ns[1..][i];
  }

  /** What a passing verdict guarantees: no division in the template has a right
      operand that evaluates to zero, under the assignments the first pass collected. */
  lemma RuntimePassedNoZeroDivisor(ast: Template, ctx: Context, i: nat)
    requires RuntimeSecurity(ast, ctx) == Passed && i < |FindAll(ast)| && FindAll(ast)[i].Div?
    ensures var asg := RecursivePhase(FindAll(ast), ctx, map[]).value;
      var v := Evaluate(FindAll(ast)[i].right, ctx, asg);
      v.Some? && !IsZero(v.value)
  {
    var ns := FindAll(ast);
    var asg := RecursivePhase(ns, ctx, map[]).value;
    DivCheckNeverPasses(ns, ctx, asg);
    FirstSomeNone(ns, DivChecker(ctx, asg));
    assert DivChecker(ctx, asg)(ns[i]).None?;
  }

  /** The division pass reports only failures. */
  lemma {:induction false} DivCheckNeverPasses(ns: seq<Node>, ctx: Context, asg: Assignments)
    ensures FirstSome(ns, DivChecker(ctx, asg)) != Some(Passed)
  {
    if ns != [] {
      DivCheckNeverPasses(ns[1..], ctx, asg);
    }
  }

  /** A rejection names the division check or the class of the failing node. */
  lemma RuntimeRejectionMessages(ast: Template, ctx: Context)
    requires RuntimeSecurity(ast, ctx).Rejected?
    ensures RuntimeSecurity(ast, ctx).message in {DivisionMessage, RuntimeMessage("Assign"), RuntimeMessage("Call")}
  {
    var ns := FindAll(ast);
    match RecursivePhase(ns, ctx, map[])
    case Err(m) => RecursivePhaseFails(ns, ctx, map[]);
    case Ok(asg) =>
      FirstSomeWitness(ns, DivChecker(ctx, asg));
  }

  /** `_evaluate_expression` as the source runs it: the lists of items and arguments
      are evaluated by loops. */
  method EvaluateExpression(n: Node, ctx: Context, asg: Assignments) returns (r: Option<Value>)
    ensures r == Evaluate(n, ctx, asg)
    decreases n, 1
  {
    match n {
      case Name(x) =>
        r := Some(Lookup(x, ctx, asg));
      case Const(lit) =>
        r := match lit
          case NoneLit => Some(NoneValue)
          case BoolLit(_) => None
          case IntLit(i) => Some(Decimal(i))
          case StrLit(s) => Some(Str(s));
      case List(items) =>
        var vs := EvaluateEach(items, ctx, asg);
        r := if vs.None? then None else Some(ListValue(vs.value));
      case Dict(items) =>
        var m := EvaluateDictItems(items, ctx, asg);
        r := if m.None? then None else Some(DictValue(m.value));
      case Call(callee, args, _) =>
        var c := EvaluateExpression(callee, ctx, asg);
        if c.None? {
          return None;
        }
        var vs := EvaluateEach(args, ctx, asg);
        r := if vs.None? then None else Some(NoneValue);
      case Getattr(obj, _) =>
        var o := EvaluateExpression(obj, ctx, asg);
        r := if o.None? then None else Some(NoneValue);
      case _ =>
        r := None;
    }
  }

  /** `values` in front of a list of results, if there is one. */
  function Prepend(values: seq<Value>, r: Option<seq<Value>>): Option<seq<Value>> {
    if r.None? then None else Some(values + r.value)
  }

  /** One step of the list loop: the item at `i`, then the rest. */
  lemma EvaluateAllStep(ns: seq<Node>, i: nat, ctx: Context, asg: Assignments, values: seq<Value>)
    requires i < |ns| && Evaluate(ns[i], ctx, asg).Some?
    ensures Prepend(values, EvaluateAll(ns[i..], ctx, asg))
      == Prepend(values + [Evaluate(ns[i], ctx, asg).value], EvaluateAll(ns[i + 1..], ctx, asg))
  {
    assert ns[i..][0] == ns[i] && ns[i..][1..] == ns[i + 1..];
    var rest := EvaluateAll(ns[i + 1..], ctx, asg);
    var v := Evaluate(ns[i], ctx, asg).value;
    if rest.Some? {
      assert values + ([v] + rest.value) == (values + [v]) + rest.value;
    }
  }

  /** The loop of `_evaluate_list` (and of the argument list of `_evaluate_call`). */
  method EvaluateEach(ns: seq<Node>, ctx: Context, asg: Assignments) returns (r: Option<seq<Value>>)
    ensures r == EvaluateAll(ns, ctx, asg)
    decreases ns, 0
  {
    var values: seq<Value> := [];
    var i := 0;
    assert ns[i..] == ns;
    assert EvaluateAll(ns, ctx, asg).Some? ==> values + EvaluateAll(ns, ctx, asg).value == EvaluateAll(ns, ctx, asg).value;
    while i < |ns|
      invariant i <= |ns|
      invariant EvaluateAll(ns, ctx, asg) == Prepend(values, EvaluateAll(ns[i..], ctx, asg))
    {
      var v := EvaluateExpression(ns[i], ctx, asg);
      if v.None? {
        assert ns[i..][0] == ns[i];
        return None;
      }
      EvaluateAllStep(ns, i, ctx, asg, values);
      values := values + [v.value];
      i := i + 1;
    }
    assert ns[i..] == [];
    assert values + [] == values;
    return Some(values);
  }

  /** The body of the loop of `_evaluate_dict`: a key that is not a str raises. */
  method EvaluatePairItem(p: Node, ctx: Context, asg: Assignments) returns (r: Option<(string, Value)>)
    ensures r == EvaluatePair(p, ctx, asg)
    decreases p, 0
  {
    if !p.Pair? {
      return None;
    }
    var key := EvaluateExpression(p.key, ctx, asg);
    if !(key.Some? && key.value.Str?) {
      return None;
    }
    var value := EvaluateExpression(p.value, ctx, asg);
    if value.None? {
      return None;
    }
    return Some((key.value.s, value.value));
  }

  /** The loop of `_evaluate_dict`. */
  method EvaluateDictItems(ns: seq<Node>, ctx: Context, asg: Assignments) returns (r: Option<map<string, Value>>)
    ensures r == EvaluateDict(ns, ctx, asg, map[])
    decreases ns, 0
  {
    var result: map<string, Value> := map[];
    var i := 0;
    while i < |ns|
      invariant i <= |ns|
      invariant EvaluateDict(ns, ctx, asg, map[]) == EvaluateDict(ns[i..], ctx, asg, result)
    {
      assert ns[i..][0] == ns[i] && ns[i..][1..] == ns[i + 1..];
      var pair := EvaluatePairItem(ns[i], ctx, asg);
      if pair.None? {
        return None;
      }
      result := result[pair.value.0 := pair.value.1];
      i := i + 1;
    }
    assert ns[i..] == [];
    return Some(result);
  }

  /** `_validate_assignment_node`, `_validate_for_loop_node` or `_validate_function_call_node`
      on one node, with the `except` that turns a failed evaluation into a message. */
  method ValidateNode(n: Node, ctx: Context, asg: Assignments) returns (r: Result<Assignments, string>)
    ensures r == RecursiveStep(n, ctx, asg)
  {
    match n {
      case Assign(Name(t), value) =>
        var v := EvaluateExpression(value, ctx, asg);
        if v.None? {
          return Err(RuntimeMessage("Assign"));
        }
        return Ok(asg[t := v.value]);
      case For(_, Name(x), _, _, _) =>
        if x in asg {
          var v := EvaluateExpression(n.iter, ctx, asg);
          if v.None? {
            return Err(RuntimeMessage("For"));
          }
        }
        return Ok(asg);
      case Call(_, _, _) =>
        var v := EvaluateExpression(n, ctx, asg);
        if v.None? {
          return Err(RuntimeMessage("Call"));
        }
        return Ok(asg);
      case _ =>
        return Ok(asg);
    }
  }

  /** `_validate_recursive_structures`: the nodes in order, threading the assignments,
      until one fails. */
  method ValidateRecursiveStructures(ns: seq<Node>, ctx: Context) returns (r: Result<Assignments, string>)
    ensures r == RecursivePhase(ns, ctx, map[])
  {
    var asg: Assignments := map[];
    var i := 0;
    while i < |ns|
      invariant i <= |ns|
      invariant RecursivePhase(ns, ctx, map[]) == RecursivePhase(ns[i..], ctx, asg)
    {
      assert ns[i..][0] == ns[i] && ns[i..][1..] == ns[i + 1..];
      var step := ValidateNode(ns[i], ctx, asg);
      if step.Err? {
        return step;
      }
      asg := step.value;
      i := i + 1;
    }
    assert ns[i..] == [];
    return Ok(asg);
  }

  /** `_validate_division_operations`: the first division whose right operand is zero,
      or whose evaluation raises. */
  method ValidateDivisionOperations(ns: seq<Node>, ctx: Context, asg: Assignments) returns (r: Option<RuntimeVerdict>)
    ensures r == FirstSome(ns, DivChecker(ctx, asg))
  {
    var i := 0;
    while i < |ns|
      invariant i <= |ns|
      invariant FirstSome(ns, DivChecker(ctx, asg)) == FirstSome(ns[i..], DivChecker(ctx, asg))
    {
      assert ns[i..][0] == ns[i] && ns[i..][1..] == ns[i + 1..];
      if ns[i].Div? {
        var v := EvaluateExpression(ns[i].right, ctx, asg);
        if v.None? {
          return Some(Raised);
        }
        if IsZero(v.value) {
          return Some(Rejected(DivisionMessage));
        }
      }
      i := i + 1;
    }
    assert ns[i..] == [];
    return None;
  }

  /** `validate_runtime_security`: a fresh state, then the two passes. The verdict
      `Raised` is the `TypeError` the division pass lets escape. */
  method ValidateRuntimeSecurity(ast: Template, ctx: Context) returns (state: TemplateValidationState, raised: bool)
    ensures fresh(state) && state.content == None
    ensures raised <==> RuntimeSecurity(ast, ctx) == Raised
    ensures !raised ==> (state.valid <==> RuntimeSecurity(ast, ctx) == Passed)
    ensures RuntimeSecurity(ast, ctx).Rejected? ==> state.errorMessage == Some(RuntimeSecurity(ast, ctx).message)
    ensures RuntimeSecurity(ast, ctx) == Passed ==> state.errorMessage == None
  {
    state := new TemplateValidationState();
    raised := false;
    var ns := FindAll(ast);
    var recursive := ValidateRecursiveStructures(ns, ctx);
    if recursive.Err? {
      state.SetError(Some(recursive.error));
      return;
    }
    DivCheckNeverPasses(ns, ctx, recursive.value);
    var division := ValidateDivisionOperations(ns, ctx, recursive.value);
    if division == Some(Raised) {
      raised := true;
    } else if division.Some? {
      state.SetError(Some(division.value.message));
    }
  }

  /** Nodes that bind nothing and evaluate nothing leave the assignment pass as it was. */
  lemma {:induction false} RecursivePhaseInert(ns: seq<Node>, ctx: Context, asg: Assignments)
    requires forall i :: 0 <= i < |ns| ==> RecursiveStep(ns[i], ctx, asg) == Ok(asg)
    ensures RecursivePhase(ns, ctx, asg) == Ok(asg)
  {
    if ns != [] {
      assert RecursiveStep(ns[0], ctx, asg) == Ok(asg);
      assert forall i :: 0 <= i < |ns[1..]| ==> ns[1..][i] == ns[i + 1];
      RecursivePhaseInert(ns[1..], ctx, asg);
    }
  }

  /** The assignment pass over a concatenation runs over the front, then the back. */
  lemma {:induction false} RecursivePhaseAppend(a: seq<Node>, b: seq<Node>, ctx: Context, asg: Assignments)
    ensures RecursivePhase(a + b, ctx, asg)
      == match RecursivePhase(a, ctx, asg)
         case Err(m) => Err(m)
         case Ok(asg') => RecursivePhase(b, ctx, asg')
  {
    if a == [] {
      assert a + b == b;
    } else {
      assert (a + b)[0] == a[0];
      assert (a + b)[1..] == a[1..] + b;
      match RecursiveStep(a[0], ctx, asg)
      case Err(m) =>
      case Ok(asg') => RecursivePhaseAppend(a[1..], b, ctx, asg');
    }
  }

  /** The nodes of `{{ a / b }}` in pre-order, for a constant `a` and a leaf `b`. */
  lemma DivOutputNodes(a: int, b: Node)
    requires b.Name? || b.Const?
    ensures FindAll(Template([Container("Output", [Div(Const(IntLit(a)), b)])]))
      == [Container("Output", [Div(Const(IntLit(a)), b)]), Div(Const(IntLit(a)), b), Const(IntLit(a)), b]
  {
    var d := Div(Const(IntLit(a)), b);
    assert Walk(Const(IntLit(a))) == [Const(IntLit(a))];
    assert Walk(b) == [b];
    assert Walk(d) == [d, Const(IntLit(a)), b];
    WalkAllSingle(d);
    WalkAllSingle(Container("Output", [d]));
  }

  /** `{{ a / value }}` passes the pre-check when the context binds `value` to a plain
      int, zero included: `_evaluate_name` reads an int as None. */
  lemma ContextIntDivisorPasses(a: int, k: int, ctx: Context)
    requires "value" in ctx && ctx["value"] == Int(k)
    ensures RuntimeSecurity(Template([Container("Output", [Div(Const(IntLit(a)), Name("value"))])]), ctx) == Passed
  {
    var ast := Template([Container("Output", [Div(Const(IntLit(a)), Name("value"))])]);
    DivOutputNodes(a, Name("value"));
    var ns := FindAll(ast);
    RecursivePhaseInert(ns, ctx, map[]);
    FirstSomeNone(ns, DivChecker(ctx, map[]));
  }

  /** `{{ a / 0 }}` fails the pre-check with the division message. */
  lemma LiteralZeroDivisorRejected(a: int, ctx: Context)
    ensures RuntimeSecurity(Template([Container("Output", [Div(Const(IntLit(a)), Const(IntLit(0)))])]), ctx)
      == Rejected(DivisionMessage)
  {
    var ast := Template([Container("Output", [Div(Const(IntLit(a)), Const(IntLit(0)))])]);
    DivOutputNodes(a, Const(IntLit(0)));
    var ns := FindAll(ast);
    RecursivePhaseInert(ns, ctx, map[]);
    FirstSomeAt(ns, DivChecker(ctx, map[]), 1);
  }

  /** `{% set x = a / 0 %}`: the assignment pass cannot evaluate a division and stops first. */
  lemma AssignedDivisionRejected(a: int, ctx: Context)
    ensures RuntimeSecurity(Template([Assign(Name("x"), Div(Const(IntLit(a)), Const(IntLit(0))))]), ctx)
      == Rejected(RuntimeMessage("Assign"))
  {
    var d := Div(Const(IntLit(a)), Const(IntLit(0)));
    var n := Assign(Name("x"), d);
    WalkAllSingle(n);
    var ns := FindAll(Template([n]));
    assert ns[0] == n;
  }

  /** An assignment shadows the context: after `{% set value = 0 %}` the division by
      `value` is refused whatever the context holds. */
  lemma AssignmentShadowsContext(a: int, ctx: Context)
    ensures RuntimeSecurity(Template([Assign(Name("value"), Const(IntLit(0))),
                                      Container("Output", [Div(Const(IntLit(a)), Name("value"))])]), ctx)
      == Rejected(DivisionMessage)
  {
    var asg := Assign(Name("value"), Const(IntLit(0)));
    var out := Container("Output", [Div(Const(IntLit(a)), Name("value"))]);
    assert Walk(Name("value")) == [Name("value")] && Walk(Const(IntLit(0))) == [Const(IntLit(0))];
    assert Walk(asg) == [asg, Name("value"), Const(IntLit(0))];
    DivOutputNodes(a, Name("value"));
    WalkAllSingle(out);
    WalkAllAppend([asg], [out]);
    WalkAllSingle(asg);
    var ns := FindAll(Template([asg, out]));
    assert [asg, out] == [asg] + [out];
    assert ns == [asg, Name("value"), Const(IntLit(0))] + FindAll(Template([out]));
    var bound := map["value" := Decimal(0)];
    var front := [asg, Name("value"), Const(IntLit(0))];
    assert RecursivePhase(front, ctx, map[]) == Ok(bound) by {
      assert RecursiveStep(front[0], ctx, map[]) == Ok(bound);
      RecursivePhaseInert(front[1..], ctx, bound);
    }
    RecursivePhaseInert(FindAll(Template([out])), ctx, bound);
    RecursivePhaseAppend(front, FindAll(Template([out])), ctx, map[]);
    FirstSomeAt(ns, DivChecker(ctx, bound), 4);
  }
}

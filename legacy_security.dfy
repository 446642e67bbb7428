/** The older `TemplateSecurityValidator` of features/document_render.py, which
    `DocumentRender` runs on upload: four restricted tags, restricted object names
    under attribute access, and a literal `range()` bound without `RangeConfig`. */
module LegacySecurity {
  import opened Base
  import opened JinjaAst
  import opened RangeArithmetic
  import opened ValidationStates
  import opened TemplateSecurity

  /** `RESTRICTED_TAGS`: `do` is not among them. */
  const LegacyTags: set<string> := {"macro", "include", "import", "extends"}

  /** `MAX_RANGE_SIZE`. */
  const LegacyMaxRange: nat := 100000

  const ZeroStepMessage: string := "Template security error: loop step cannot be zero"

  function AccessMessage(x: string): string {
    "Template security error: access to '" + x + "' is restricted"
  }

  /** One step of `_validate_restricted_tags`. */
  function LegacyTagCheck(n: Node): Option<string> {
    match TagName(n)
    case Some(tag) => if tag in LegacyTags then Some(TagMessage(tag)) else None
    case None => None
  }

  function LegacyTagChecker(): Node -> Option<string> {
    n => LegacyTagCheck(n)
  }

  /** One step of `_validate_restricted_attributes`: only the name of the object whose
      attribute is read is looked at, never the attribute itself. */
  function LegacyAttributeCheck(n: Node): Option<string> {
    match n
    case Getattr(Name(x), _) => if x in DefaultRestrictedAttributes then Some(AccessMessage(x)) else None
    case _ => None
  }

  function LegacyAttributeChecker(): Node -> Option<string> {
    n => LegacyAttributeCheck(n)
  }

  /** One step of `_validate_loop_range`: `range(stop)` compares `stop` itself with the
      limit; `range(start, stop[, step])` refuses a literal zero step and otherwise
      compares the iteration count; a non-literal argument skips the loop, and so does
      a call without arguments. */
  function LegacyLoopCheck(n: Node): Option<string> {
    if n.For? && IsRangeCall(n.iter) then
      var args := n.iter.args;
      if |args| == 1 then
        match LiteralInt(args[0])
        case None => None
        case Some(stop) => if stop > LegacyMaxRange then Some(LoopLimitMessage(LegacyMaxRange)) else None
      else if |args| >= 2 then
        var start := LiteralInt(args[0]);
        var stop := LiteralInt(args[1]);
        var step := if |args| > 2 then LiteralInt(args[2]) else Some(1);
        if start.None? || stop.None? || step.None? then None
        else if step.value == 0 then Some(ZeroStepMessage)
        else if Iterations(start.value, stop.value, step.value) > LegacyMaxRange then Some(LoopLimitMessage(LegacyMaxRange))
        else None
      else None
    else None
  }

  function LegacyLoopChecker(): Node -> Option<string> {
    n => LegacyLoopCheck(n)
  }

  /** `validate_template`: tags, then attributes, then loops; the first failure decides. */
  function LegacyVerdict(ast: Template): Option<string> {
    var ns := FindAll(ast);
    var tags := FirstSome(ns, LegacyTagChecker());
    if tags.Some? then tags
    else
      var attributes := FirstSome(ns, LegacyAttributeChecker());
      if attributes.Some? then attributes else FirstSome(ns, LegacyLoopChecker())
  }

  /** The loop each of the three `_validate_*` methods runs over `find_all`. */
  method LegacyReportFirst(ns: seq<Node>, check: Node -> Option<string>, state: RenderValidationState)
    returns (ok: bool)
    modifies state
    ensures ok <==> FirstSome(ns, check).None?
    ensures ok ==> state.valid == old(state.valid) && state.message == old(state.message)
    ensures !ok ==> !state.valid && state.message == FirstSome(ns, check)
    ensures state.content == old(state.content)
  {
    var i := 0;
    while i < |ns|
      invariant i <= |ns|
      invariant FirstSome(ns, check) == FirstSome(ns[i..], check)
      invariant unchanged(state)
    {
      assert ns[i..][0] == ns[i] && ns[i..][1..] == ns[i + 1..];
      var m := check(ns[i]);
      if m.Some? {
        state.SetError(m);
        return false;
      }
      i := i + 1;
    }
    assert ns[i..] == [];
    return true;
  }

  /** `validate_template` as it runs: a fresh state, then the three checks with early return. */
  method LegacyValidateTemplate(ast: Template) returns (state: RenderValidationState)
    ensures fresh(state) && state.content == None
    ensures state.valid <==> LegacyVerdict(ast).None?
    ensures state.message == LegacyVerdict(ast)
  {
    state := new RenderValidationState();
    var ns := FindAll(ast);
    var ok := LegacyReportFirst(ns, LegacyTagChecker(), state);
    if ok {
      ok := LegacyReportFirst(ns, LegacyAttributeChecker(), state);
      if ok {
        ok := LegacyReportFirst(ns, LegacyLoopChecker(), state);
      }
    }
  }

  /** What the older validator accepts about tags: no macro, include, import or
      extends anywhere; `{% do %}` still passes. */
  lemma LegacyTagsAccepted(ast: Template, i: nat)
    requires LegacyVerdict(ast).None? && i < |FindAll(ast)|
    ensures !IsTagNode(FindAll(ast)[i])
  {
    FirstSomeNone(FindAll(ast), LegacyTagChecker());
    assert LegacyTagChecker()(FindAll(ast)[i]).None?;
  }

  /** `{% do x %}` passes the older validator and fails the newer one. */
  lemma DoOnlyRefusedByNewer(x: string)
    requires x !in DefaultRestrictedAttributes
    ensures LegacyVerdict(Template([ExprStmt(Name(x))])).None?
    ensures RestrictedTagsVerdict(DefaultConfig, Template([ExprStmt(Name(x))])) == Some(TagMessage("do"))
  {
    var e := ExprStmt(Name(x));
    var ns := [e, Name(x)];
    assert FindAll(Template([e])) == ns by {
      assert Walk(Name(x)) == [Name(x)];
      assert Walk(e) == [e, Name(x)];
      WalkAllSingle(e);
    }
    assert LegacyVerdict(Template([e])).None? by {
      FirstSomeNone(ns, LegacyTagChecker());
      FirstSomeNone(ns, LegacyAttributeChecker());
      FirstSomeNone(ns, LegacyLoopChecker());
    }
    FirstSomeNone(ns, TagChecker(DefaultConfig));
    assert ns[0].ExprStmt?;
  }

  /** `{{ ''.__class__ }}`: a restricted attribute on a constant escapes the older
      check, which looks only at object names, and is caught by the newer one. */
  lemma DunderOnConstantOnlyRefusedByNewer()
    ensures LegacyVerdict(Template([Container("Output", [Getattr(Const(StrLit("")), "__class__")])])).None?
    ensures RestrictedAttributesVerdict(DefaultConfig,
      Template([Container("Output", [Getattr(Const(StrLit("")), "__class__")])])) == Some(AttributeMessage("__class__"))
  {
    var g := Getattr(Const(StrLit("")), "__class__");
    var out := Container("Output", [g]);
    var ns := [out, g, Const(StrLit(""))];
    assert FindAll(Template([out])) == ns by {
      assert Walk(Const(StrLit(""))) == [Const(StrLit(""))];
      assert Walk(g) == [g, Const(StrLit(""))];
      WalkAllSingle(g);
      WalkAllSingle(out);
    }
    assert LegacyVerdict(Template([out])).None? by {
      FirstSomeNone(ns, LegacyTagChecker());
      FirstSomeNone(ns, LegacyAttributeChecker());
      FirstSomeNone(ns, LegacyLoopChecker());
    }
    FirstSomeAt(ns, AttributeChecker(DefaultConfig), 1);
  }

  /** A descending literal loop passes the older validator; `RangeConfig` refuses it
      in the newer one. */
  lemma DescendingLoopOnlyRefusedByNewer()
    ensures LegacyLoopCheck(For(Name("i"), Call(Name("range"), [Const(IntLit(10)), Const(IntLit(0)), Const(IntLit(-1))], []), [], [], [])).None?
    ensures LoopRangeCheck(DefaultConfig,
      For(Name("i"), Call(Name("range"), [Const(IntLit(10)), Const(IntLit(0)), Const(IntLit(-1))], []), [], [], [])).Some?
  {
    var it := Iterations(10, 0, -1);
    assert (it - 1) < 10 <= it;
  }

  /** The newer loop check is at least as strict: a loop it lets through, the older
      check lets through too. */
  lemma LoopCheckStricter(n: Node)
    requires LoopRangeCheck(DefaultConfig, n).None?
    ensures LegacyLoopCheck(n).None?
  {
    if n.For? && IsRangeCall(n.iter) {
      var args := n.iter.args;
      NotLiteralIff(args);
      var c := ConsideredArgs(args);
      match RangeArguments(args)
      case NotLiteral =>
        var k :| 0 <= k < |c| && !IsLiteral(c[k]);
        assert c[k] == args[k];
      case Bounds(start, stop, step) =>
        BoundsAreLiterals(args);
        if |args| == 1 {
          var it := Iterations(0, stop, 1);
          assert (it - 1) < stop <= it;
        }
    }
  }

  /** The newer generation is stricter as a whole: a template its three static checks
      accept is accepted by the older validator. */
  lemma NewerIsStricter(ast: Template)
    requires StaticVerdict(DefaultConfig, ast).None?
    ensures LegacyVerdict(ast).None?
  {
    var ns := FindAll(ast);
    DefaultTagsRefused(ast);
    FirstSomeNone(ns, LegacyTagChecker());
    forall i | 0 <= i < |ns|
      ensures LegacyAttributeChecker()(ns[i]).None?
    {
      if ns[i].Getattr? && ns[i].obj.Name? {
        assert Walk(ns[i]) == [ns[i]] + Walk(ns[i].obj);
        assert ns[i].obj in Walk(ns[i]);
        assert ns[i].obj in Walk(ns[i].obj);
        WalkAllContains(ns, i);
        FindAllClosed(ast, ns[i], ns[i].obj);
        var j :| 0 <= j < |ns| && ns[j] == ns[i].obj;
        AttributesAccepted(DefaultConfig, ast, j);
      }
    }
    FirstSomeNone(ns, LegacyAttributeChecker());
    FirstSomeNone(ns, LoopRangeChecker(DefaultConfig));
    forall i | 0 <= i < |ns|
      ensures LegacyLoopChecker()(ns[i]).None?
    {
      assert LoopRangeChecker(DefaultConfig)(ns[i]).None?;
      LoopCheckStricter(ns[i]);
    }
    FirstSomeNone(ns, LegacyLoopChecker());
  }
}

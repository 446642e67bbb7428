/** `HTMLSafetyValidator` of features/document_render.py and the `HTMLContent` model
    of features/validate_template.py: text is refused for the `safe` filter when one of
    five regular expressions, searched case-insensitively, matches it. */
module HtmlSafety {
  import opened Base
  import opened PydanticErrors

  /** Case-insensitive matching of a text character against a lower-case letter of the
      patterns: ASCII case, plus the equivalences Python's `re` adds for 'i'
      (U+0130, U+0131) and 's' (U+017F). */
  function Fold(c: char): char {
    if 'A' <= c <= 'Z' then (c as int + 32) as char
    else if c == 'ſ' then 's'
    else if c == 'İ' || c == 'ı' then 'i'
    else c
  }

  /** The ASCII letters and digits. */
  predicate AsciiAlnum(c: char) {
    'a' <= c <= 'z' || 'A' <= c <= 'Z' || '0' <= c <= '9'
  }

  /** `str.isalnum()` on one character, passed in as `alnum` since the Unicode
      character database is not part of this model. What the patterns rely on: it
      agrees with the ASCII letters and digits on ASCII, and no whitespace character
      and no '=' is alphanumeric. */
  ghost predicate AlnumOracle(alnum: char -> bool) {
    && (forall c: char :: c as int < 0x80 ==> (alnum(c) <==> AsciiAlnum(c)))
    && (forall c: char :: alnum(c) ==> !IsSpace(c) && c != '=')
  }

  /** The class `\w` of a str pattern: Unicode letters and digits, and the underscore. */
  predicate IsWordChar(c: char, alnum: char -> bool) {
    alnum(c) || c == '_'
  }

  // ---------------------------------------------------------------------------
  // What the regular expressions mean

  /** The literal pattern `lit` matches `s` at `i`, ignoring case. */
  predicate LiteralAt(s: string, lit: string, i: int) {
    0 <= i && i + |lit| <= |s| && forall k :: 0 <= k < |lit| ==> Fold(s[i + k]) == lit[k]
  }

  /** `re.search(lit, s, re.IGNORECASE)` for a pattern without metacharacters. */
  predicate SearchLiteral(s: string, lit: string) {
    exists i | 0 <= i <= |s| :: LiteralAt(s, lit, i)
  }

  predicate AllWord(s: string, from: int, to: int, alnum: char -> bool)
    requires 0 <= from <= to <= |s|
  {
    forall p :: from <= p < to ==> IsWordChar(s[p], alnum)
  }

  predicate AllSpace(s: string, from: int, to: int)
    requires 0 <= from <= to <= |s|
  {
    forall p :: from <= p < to ==> IsSpace(s[p])
  }

  /** `on\w+\s*=` matches `s[i..k+1]`, its word characters ending at `j`. */
  predicate HandlerAt(s: string, i: int, j: int, k: int, alnum: char -> bool) {
    0 <= i && i + 2 < j <= k < |s|
    && Fold(s[i]) == 'o' && Fold(s[i + 1]) == 'n'
    && AllWord(s, i + 2, j, alnum) && AllSpace(s, j, k) && s[k] == '='
  }

  /** `re.search(r"on\w+\s*=", s, re.IGNORECASE)`: an event-handler attribute. */
  ghost predicate HandlerMatch(s: string, alnum: char -> bool) {
    exists i, j, k :: HandlerAt(s, i, j, k, alnum)
  }

  // ---------------------------------------------------------------------------
  // The scan

  /** First index at or after `p` that does not hold a word character. */
  function WordRunEnd(s: string, p: nat, alnum: char -> bool): (e: nat)
    requires p <= |s|
    ensures p <= e <= |s| && AllWord(s, p, e, alnum) && (e < |s| ==> !IsWordChar(s[e], alnum))
    decreases |s| - p
  {
    if p < |s| && IsWordChar(s[p], alnum) then WordRunEnd(s, p + 1, alnum) else p
  }

  /** First index at or after `p` that does not hold whitespace. */
  function SpaceRunEnd(s: string, p: nat): (e: nat)
    requires p <= |s|
    ensures p <= e <= |s| && AllSpace(s, p, e) && (e < |s| ==> !IsSpace(s[e]))
    decreases |s| - p
  {
    if p < |s| && IsSpace(s[p]) then SpaceRunEnd(s, p + 1) else p
  }

  /** The run of word characters from `p` ends exactly where one is missing. */
  lemma {:induction false} WordRunEndAt(s: string, p: nat, e: nat, alnum: char -> bool)
    requires p <= e <= |s| && AllWord(s, p, e, alnum) && (e < |s| ==> !IsWordChar(s[e], alnum))
    ensures WordRunEnd(s, p, alnum) == e
    decreases e - p
  {
    if p < e {
      WordRunEndAt(s, p + 1, e, alnum);
    }
  }

  lemma {:induction false} SpaceRunEndAt(s: string, p: nat, e: nat)
    requires p <= e <= |s| && AllSpace(s, p, e) && (e < |s| ==> !IsSpace(s[e]))
    ensures SpaceRunEnd(s, p) == e
    decreases e - p
  {
    if p < e {
      SpaceRunEndAt(s, p + 1, e);
    }
  }

  /** The event-handler pattern, matched greedily from `i`. */
  predicate HandlerFrom(s: string, i: nat, alnum: char -> bool) {
    i + 2 < |s| && Fold(s[i]) == 'o' && Fold(s[i + 1]) == 'n'
    && var j := WordRunEnd(s, i + 2, alnum);
       j > i + 2 && var k := SpaceRunEnd(s, j); k < |s| && s[k] == '='
  }

  predicate ScanHandler(s: string, alnum: char -> bool) {
    exists i | 0 <= i < |s| :: HandlerFrom(s, i, alnum)
  }

  /** Greedy matching finds a handler exactly when the pattern matches: word characters,
      whitespace and '=' are disjoint, so no backtracking is ever needed. */
  lemma ScanHandlerCorrect(s: string, alnum: char -> bool)
    requires AlnumOracle(alnum)
    ensures ScanHandler(s, alnum) <==> HandlerMatch(s, alnum)
  {
    if ScanHandler(s, alnum) {
      var i :| 0 <= i < |s| && HandlerFrom(s, i, alnum);
      var j := WordRunEnd(s, i + 2, alnum);
      var k := SpaceRunEnd(s, j);
      assert HandlerAt(s, i, j, k, alnum);
    }
    if HandlerMatch(s, alnum) {
      var i, j, k :| HandlerAt(s, i, j, k, alnum);
      assert !IsWordChar(s[j], alnum) by {
        if j < k { assert IsSpace(s[j]); } else { assert s[j] == '='; }
      }
      WordRunEndAt(s, i + 2, j, alnum);
      SpaceRunEndAt(s, j, k);
      assert HandlerFrom(s, i, alnum);
    }
  }

  // ---------------------------------------------------------------------------
  // The validator

  /** One entry of `UNSAFE_PATTERNS`. */
  datatype UnsafePattern = Literal(text: string) | EventHandler

  /** `<script`, `javascript:`, `data:`, `vbscript:` and `on\w+\s*=`, in this order. */
  const UnsafePatterns: seq<UnsafePattern> :=
    [Literal("<script"), Literal("javascript:"), Literal("data:"), Literal("vbscript:"), EventHandler]

  /** `re.search(pattern, s, re.IGNORECASE)` as the scan computes it. */
  predicate Search(p: UnsafePattern, s: string, alnum: char -> bool) {
    match p
    case Literal(t) => SearchLiteral(s, t)
    case EventHandler => ScanHandler(s, alnum)
  }

  /** What one pattern matches, stated by the pattern's meaning. */
  ghost predicate Matches(p: UnsafePattern, s: string, alnum: char -> bool) {
    match p
    case Literal(t) => SearchLiteral(s, t)
    case EventHandler => HandlerMatch(s, alnum)
  }

  /** The pattern loop: the first pattern that matches ends it with False. */
  function NoPatternMatches(ps: seq<UnsafePattern>, value: string, alnum: char -> bool): (ok: bool)
    ensures ok <==> forall i :: 0 <= i < |ps| ==> !Search(ps[i], value, alnum)
  {
    if ps == [] then true
    else if Search(ps[0], value, alnum) then false
    else
      var rest := NoPatternMatches(ps[1..], value, alnum);
      assert forall i :: 1 <= i < |ps| ==> ps[i] == ps[1..][i - 1];
      rest
  }

  /** `HTMLSafetyValidator.validate_html_content`: true exactly when none of the five
      patterns occurs anywhere in the text, in any letter case. */
  function ValidateHtmlContent(value: string, alnum: char -> bool): (safe: bool)
    requires AlnumOracle(alnum)
    ensures safe <==> forall i :: 0 <= i < |UnsafePatterns| ==> !Matches(UnsafePatterns[i], value, alnum)
  {
    ScanHandlerCorrect(value, alnum);
    NoPatternMatches(UnsafePatterns, value, alnum)
  }

  const UnsafeMessage: string := "HTML content contains potentially unsafe elements"

  /** `Markup("").join(value)`: each character passes through markupsafe's `escape`,
      an oracle here, and the results are concatenated. */
  function EscapeEach(value: string, escape: char -> string): string {
    if value == [] then "" else escape(value[0]) + EscapeEach(value[1..], escape)
  }

  /** `HTMLSafetyValidator.create_safe_markup`: unsafe text raises a `ValueError`,
      anything else becomes markup built character by character. */
  function CreateSafeMarkup(value: string, alnum: char -> bool, escape: char -> string): (r: Result<string, string>)
    requires AlnumOracle(alnum)
    ensures r.Err? <==> !ValidateHtmlContent(value, alnum)
    ensures r.Err? ==> r.error == UnsafeMessage
    ensures r.Ok? ==> r.value == EscapeEach(value, escape)
  {
    if !ValidateHtmlContent(value, alnum) then Err(UnsafeMessage) else Ok(EscapeEach(value, escape))
  }

  /** `TemplateSecurityValidator.html_safe_filter`: the same patterns, checked by the
      `HTMLContent` model, whose failure is re-raised with pydantic's error text. */
  function HtmlSafeFilter(value: string, alnum: char -> bool, escape: char -> string): (r: Result<string, string>)
    requires AlnumOracle(alnum)
    ensures r.Err? <==> !ValidateHtmlContent(value, alnum)
    ensures r.Err? ==> r.error == ValidationErrorText("HTMLContent", [ValueError("content", UnsafeMessage, value)])
    ensures r.Ok? ==> r.value == EscapeEach(value, escape)
  {
    if !ValidateHtmlContent(value, alnum) then Err(ValidationErrorText("HTMLContent", [ValueError("content", UnsafeMessage, value)]))
    else Ok(EscapeEach(value, escape))
  }

  // ---------------------------------------------------------------------------
  // Properties

  /** Every pattern needs a '<', a ':' or an '=' in the text, so text without any of
      them is always accepted. */
  lemma NoMarkersIsSafe(value: string, alnum: char -> bool)
    requires AlnumOracle(alnum)
    requires forall i :: 0 <= i < |value| ==> value[i] != '<' && value[i] != ':' && value[i] != '='
    ensures ValidateHtmlContent(value, alnum)
  {
    forall t | t in ["<script", "javascript:", "data:", "vbscript:"]
      ensures !SearchLiteral(value, t)
    {
      var m := if t == "<script" then 0 else |t| - 1;
      assert t[m] == '<' || t[m] == ':';
      forall i | 0 <= i <= |value|
        ensures !LiteralAt(value, t, i)
      {
        if i + |t| <= |value| {
          assert Fold(value[i + m]) != t[m];
        }
      }
    }
    forall i, j, k
      ensures !HandlerAt(value, i, j, k, alnum)
    {
      if 0 <= i && i + 2 < j <= k < |value| {
        assert value[k] != '=';
      }
    }
  }

  /** Letter case never matters: upper-casing the ASCII letters of a text leaves the
      verdict unchanged. */
  lemma UpperCaseSameVerdict(value: string, alnum: char -> bool)
    requires AlnumOracle(alnum)
    ensures ValidateHtmlContent(UpperAscii(value), alnum) == ValidateHtmlContent(value, alnum)
  {
    var u := UpperAscii(value);
    forall p | 0 <= p < |value|
      ensures Fold(u[p]) == Fold(value[p]) && IsWordChar(u[p], alnum) == IsWordChar(value[p], alnum)
      ensures IsSpace(u[p]) == IsSpace(value[p]) && (u[p] == '=') == (value[p] == '=')
    {
      UpperCharAlike(value[p], alnum);
    }
    AlikeSameVerdict(u, value, alnum);
  }

  /** Upper-casing one character keeps its folded form and its classes. */
  lemma UpperCharAlike(c: char, alnum: char -> bool)
    requires AlnumOracle(alnum)
    ensures var d := if 'a' <= c <= 'z' then (c as int - 32) as char else c;
      && Fold(d) == Fold(c) && IsWordChar(d, alnum) == IsWordChar(c, alnum)
      && IsSpace(d) == IsSpace(c) && (d == '=') == (c == '=')
  {
    var d := if 'a' <= c <= 'z' then (c as int - 32) as char else c;
    if 'a' <= c <= 'z' {
      assert AsciiAlnum(d) && AsciiAlnum(c);
      assert alnum(d) && alnum(c);
    }
  }

  /** Two texts that agree, position by position, on everything the patterns look at
      get the same verdict. */
  lemma AlikeSameVerdict(a: string, b: string, alnum: char -> bool)
    requires AlnumOracle(alnum)
    requires |a| == |b|
    requires forall p :: 0 <= p < |a| ==> Fold(a[p]) == Fold(b[p]) && IsWordChar(a[p], alnum) == IsWordChar(b[p], alnum)
    requires forall p :: 0 <= p < |a| ==> IsSpace(a[p]) == IsSpace(b[p]) && (a[p] == '=') == (b[p] == '=')
    ensures ValidateHtmlContent(a, alnum) == ValidateHtmlContent(b, alnum)
  {
    assert forall t, i :: LiteralAt(a, t, i) <==> LiteralAt(b, t, i);
    forall i, j, k ensures HandlerAt(a, i, j, k, alnum) <==> HandlerAt(b, i, j, k, alnum) {
      if 0 <= i && i + 2 < j <= k < |a| {
        assert AllWord(a, i + 2, j, alnum) == AllWord(b, i + 2, j, alnum);
        assert AllSpace(a, j, k) == AllSpace(b, j, k);
      }
    }
  }

  /** `str.upper()` restricted to ASCII letters. */
  function UpperAscii(s: string): (u: string)
    ensures |u| == |s|
    ensures forall p :: 0 <= p < |s| ==> u[p] == if 'a' <= s[p] <= 'z' then (s[p] as int - 32) as char else s[p]
  {
    if s == [] then [] else [if 'a' <= s[0] <= 'z' then (s[0] as int - 32) as char else s[0]] + UpperAscii(s[1..])
  }

  /** A script tag is refused in any letter case. */
  lemma ScriptTagRefused(pre: string, post: string, alnum: char -> bool)
    requires AlnumOracle(alnum)
    ensures !ValidateHtmlContent(pre + "<ScRiPt" + post, alnum)
  {
    var s := pre + "<ScRiPt" + post;
    assert LiteralAt(s, "<script", |pre|);
  }

  /** An event-handler attribute is refused, with or without spaces before '='. */
  lemma EventHandlerRefused(pre: string, post: string, alnum: char -> bool)
    requires AlnumOracle(alnum)
    ensures !ValidateHtmlContent(pre + "onClick =" + post, alnum)
  {
    var s := pre + "onClick =" + post;
    var i := |pre|;
    assert AllWord(s, i + 2, i + 7, alnum) by {
      assert s[i + 2..i + 7] == "Click";
      assert AsciiAlnum('C') && AsciiAlnum('l') && AsciiAlnum('i') && AsciiAlnum('c') && AsciiAlnum('k');
    }
    assert AllSpace(s, i + 7, i + 8);
    assert HandlerAt(s, i, i + 7, i + 8, alnum);
    assert Matches(UnsafePatterns[4], s, alnum);
  }

  /** The handler name may hold any Unicode letter: `onü=` is refused, since `\w`
      in a str pattern matches every alphanumeric character. */
  lemma UnicodeHandlerRefused(alnum: char -> bool)
    requires AlnumOracle(alnum) && alnum('ü')
    ensures !ValidateHtmlContent("onü=", alnum)
  {
    var s := "onü=";
    assert AllWord(s, 2, 3, alnum);
    assert AllSpace(s, 3, 3);
    assert HandlerAt(s, 0, 3, 3, alnum);
    assert Matches(UnsafePatterns[4], s, alnum);
  }
}

/** The text of a pydantic `ValidationError` (pydantic 2.11), which several
    validators embed in their own messages. */
module PydanticErrors {
  import opened Base

  /** One failed constraint: the field, pydantic's message and error type, and the
      rendered input value and its type name. */
  datatype FieldError = FieldError(loc: string, msg: string, kind: string, inputValue: string, inputType: string)

  /** `repr(i)` of a Python int. */
  function IntRepr(i: int): string {
    if i < 0 then "-" + NatToString(-i) else NatToString(i)
  }

  /** `repr(s)` of a Python str: single quotes unless the text holds a single quote and
      no double quote; each character as `ReprChar` shows it. */
  function StrRepr(s: string): string {
    var q := if '\'' in s && '"' !in s then '"' else '\'';
    [q] + EscapeRepr(s, q) + [q]
  }

  function EscapeRepr(s: string, q: char): string {
    if s == [] then [] else ReprChar(s[0], q) + EscapeRepr(s[1..], q)
  }

  function HexDigit(n: nat): char
    requires n < 16
  {
    "0123456789abcdef"[n]
  }

  /** One character inside `repr`: backslash, the chosen quote and the three common
      control characters get their escapes; the other characters below U+00FF that are
      not printable (the C0 and C1 controls, DEL, the no-break space and the soft
      hyphen) become `\xNN` in lower-case hex; everything else is shown as itself. */
  function ReprChar(c: char, q: char): (r: string)
    ensures |r| >= 1
    ensures IsPrintableAscii(c) && c != '\\' && c != q ==> r == [c]
  {
    var k := c as int;
    if c == '\\' then "\\\\"
    else if c == q then ['\\', q]
    else if c == '\n' then "\\n"
    else if c == '\r' then "\\r"
    else if c == '\t' then "\\t"
    else if k < 0x20 || 0x7F <= k <= 0xA0 || k == 0xAD then ['\\', 'x', HexDigit(k / 16), HexDigit(k % 16)]
    else [c]
  }

  predicate IsPrintableAscii(c: char) {
    0x20 <= c as int < 0x7F
  }

  /** A repr whose every character is printable ASCII and neither a quote nor a
      backslash is the text between two single quotes. */
  lemma {:induction false} PlainRepr(s: string)
    requires forall i :: 0 <= i < |s| ==> IsPrintableAscii(s[i]) && s[i] != '\\' && s[i] != '\'' && s[i] != '"'
    ensures StrRepr(s) == "'" + s + "'"
  {
    PlainEscape(s, '\'');
  }

  lemma {:induction false} PlainEscape(s: string, q: char)
    requires forall i :: 0 <= i < |s| ==> IsPrintableAscii(s[i]) && s[i] != '\\' && s[i] != q
    ensures EscapeRepr(s, q) == s
  {
    if s != [] {
      PlainEscape(s[1..], q);
      assert s == [s[0]] + s[1..];
    }
  }

  // ---------------------------------------------------------------------------
  // Truncation of the input value

  /** The longest prefix of `s` whose UTF-8 encoding fits in `budget` bytes: a byte
      slice cut back to a character boundary. */
  function BytePrefix(s: string, budget: nat): (r: string)
    ensures |r| <= |s| && r == s[..|r|]
    ensures Utf8Len(r) <= budget
    ensures |r| < |s| ==> Utf8Len(r) + CharUtf8Len(s[|r|]) > budget
  {
    if s == [] || CharUtf8Len(s[0]) > budget then []
    else
      var rest := BytePrefix(s[1..], budget - CharUtf8Len(s[0]));
      Utf8LenCons(s[0], rest);
      assert [s[0]] + rest == s[..|rest| + 1];
      [s[0]] + rest
  }

  /** The longest suffix of `s` whose UTF-8 encoding fits in `budget` bytes. */
  function ByteSuffix(s: string, budget: nat): (r: string)
    ensures |r| <= |s| && r == s[|s| - |r|..]
    ensures Utf8Len(r) <= budget
    ensures |r| < |s| ==> Utf8Len(r) + CharUtf8Len(s[|s| - |r| - 1]) > budget
  {
    SuffixLenFits(s, budget);
    s[|s| - SuffixLen(s, budget)..]
  }

  /** How many characters at the end of `s` fit in `budget` bytes. */
  function SuffixLen(s: string, budget: nat): (k: nat)
    ensures k <= |s|
  {
    if s == [] || CharUtf8Len(s[|s| - 1]) > budget then 0
    else SuffixLen(s[..|s| - 1], budget - CharUtf8Len(s[|s| - 1])) + 1
  }

  /** The suffix `SuffixLen` measures fits, and one more character would not. */
  lemma {:induction false} SuffixLenFits(s: string, budget: nat)
    ensures var k := SuffixLen(s, budget);
      && Utf8Len(s[|s| - k..]) <= budget
      && (k < |s| ==> Utf8Len(s[|s| - k..]) + CharUtf8Len(s[|s| - k - 1]) > budget)
  {
    if s == [] || CharUtf8Len(s[|s| - 1]) > budget {
      assert s[|s|..] == [];
    } else {
      var k := SuffixLen(s[..|s| - 1], budget - CharUtf8Len(s[|s| - 1]));
      SuffixLenFits(s[..|s| - 1], budget - CharUtf8Len(s[|s| - 1]));
      SuffixStep(s, budget, k);
    }
  }

  /** One more character at the end fits when the rest of the budget holds the
      suffix of all but the last character. */
  lemma SuffixStep(s: string, budget: nat, k: nat)
    requires |s| > 0 && CharUtf8Len(s[|s| - 1]) <= budget
    requires var f := s[..|s| - 1]; var b := budget - CharUtf8Len(s[|s| - 1]);
      && k <= |f| && Utf8Len(f[|f| - k..]) <= b
      && (k < |f| ==> Utf8Len(f[|f| - k..]) + CharUtf8Len(f[|f| - k - 1]) > b)
    ensures Utf8Len(s[|s| - (k + 1)..]) <= budget
    ensures k + 1 < |s| ==> Utf8Len(s[|s| - (k + 1)..]) + CharUtf8Len(s[|s| - (k + 1) - 1]) > budget
  {
    SuffixSplit(s, k);
  }

  /** A suffix of `s` is the same suffix of all but the last character, then that
      character. */
  lemma SuffixSplit(s: string, k: nat)
    requires k < |s|
    ensures Utf8Len(s[|s| - k - 1..]) == Utf8Len(s[..|s| - 1][|s| - 1 - k..]) + CharUtf8Len(s[|s| - 1])
    ensures k + 1 < |s| ==> s[..|s| - 1][|s| - 1 - k - 1] == s[|s| - k - 2]
  {
    var x := s[|s| - k - 1..];
    assert x[..|x| - 1] == s[..|s| - 1][|s| - 1 - k..];
  }

  lemma Utf8LenCons(c: char, x: string)
    ensures Utf8Len([c] + x) == CharUtf8Len(c) + Utf8Len(x)
  {
    Utf8LenAppend([c], x);
    assert [c][..0] == [];
  }

  /** The cut text never takes more than 52 bytes or 52 characters. */
  lemma TruncationBound(p: string, s: string)
    requires Utf8Len(p) <= 25 && Utf8Len(s) <= 24
    ensures Utf8Len(p + "..." + s) <= 52 && |p + "..." + s| <= 52
  {
    Utf8LenAppend(p, "...");
    Utf8LenAppend(p + "...", s);
    assert Utf8Len("...") == 3 by {
      Utf8LenAscii("...");
    }
  }

  /** How a `ValidationError` shows an input value: a repr longer than 50 bytes keeps
      only its first 25 and its last 24 bytes, joined by "...". */
  function TruncatedInput(r: string): (t: string)
    ensures Utf8Len(r) <= 50 ==> t == r
    ensures Utf8Len(r) > 50 ==> Utf8Len(t) <= 52 && |t| <= 52
  {
    if Utf8Len(r) <= 50 then r
    else
      var p, s := BytePrefix(r, 25), ByteSuffix(r, 24);
      TruncationBound(p, s);
      p + "..." + s
  }

  /** For a repr in ASCII the cut is by characters: the first 25 and the last 24. */
  lemma AsciiTruncation(r: string)
    requires forall i :: 0 <= i < |r| ==> r[i] as int < 0x80
    requires |r| > 50
    ensures TruncatedInput(r) == r[..25] + "..." + r[|r| - 24..]
  {
    Utf8LenAscii(r);
    AsciiBytePrefix(r, 25);
    AsciiByteSuffix(r, 24);
  }

  lemma AsciiBytePrefix(r: string, n: nat)
    requires forall i :: 0 <= i < |r| ==> r[i] as int < 0x80
    requires n <= |r|
    ensures BytePrefix(r, n) == r[..n]
  {
    var k := |BytePrefix(r, n)|;
    AsciiSliceLen(r, 0, k);
    assert r[0..k] == r[..k];
    assert k < |r| ==> CharUtf8Len(r[k]) == 1;
  }

  lemma AsciiByteSuffix(r: string, n: nat)
    requires forall i :: 0 <= i < |r| ==> r[i] as int < 0x80
    requires n <= |r|
    ensures ByteSuffix(r, n) == r[|r| - n..]
  {
    var k := |ByteSuffix(r, n)|;
    AsciiSliceLen(r, |r| - k, |r|);
    assert r[|r| - k..|r|] == r[|r| - k..];
    assert k < |r| ==> CharUtf8Len(r[|r| - k - 1]) == 1;
  }

  /** Any slice of an ASCII text encodes to one byte per character. */
  lemma AsciiSliceLen(r: string, i: nat, j: nat)
    requires forall m :: 0 <= m < |r| ==> r[m] as int < 0x80
    requires i <= j <= |r|
    ensures Utf8Len(r[i..j]) == j - i
  {
    var t := r[i..j];
    assert forall m :: 0 <= m < |t| ==> t[m] == r[i + m];
    Utf8LenAscii(t);
  }

  /** A long plain text is shown by its first 24 and last 23 characters, inside the
      quotes of its repr. */
  lemma LongPlainValueTruncated(value: string)
    requires forall i :: 0 <= i < |value| ==> IsPrintableAscii(value[i]) && value[i] != '\\' && value[i] != '\'' && value[i] != '"'
    requires |value| > 48
    ensures TruncatedInput(StrRepr(value)) == "'" + value[..24] + "..." + value[|value| - 23..] + "'"
  {
    PlainRepr(value);
    QuotedAscii(value);
    AsciiTruncation("'" + value + "'");
    QuotedSlices(value);
  }

  lemma QuotedAscii(value: string)
    requires forall i :: 0 <= i < |value| ==> IsPrintableAscii(value[i])
    ensures var r := "'" + value + "'"; forall i :: 0 <= i < |r| ==> r[i] as int < 0x80
  {
    var r := "'" + value + "'";
    forall i | 0 <= i < |r| ensures r[i] as int < 0x80 {
      if 0 < i < |r| - 1 { assert r[i] == value[i - 1]; }
    }
  }

  lemma QuotedSlices(value: string)
    requires |value| > 48
    ensures var r := "'" + value + "'";
      r[..25] == "'" + value[..24] && r[|r| - 24..] == value[|value| - 23..] + "'"
  {
  }

  /** A `gt=0` failure on an int field. */
  function GreaterThanZero(loc: string, value: int): FieldError {
    FieldError(loc, "Input should be greater than 0", "greater_than", IntRepr(value), "int")
  }

  /** A `ge=0` failure on an int field. */
  function GreaterEqualZero(loc: string, value: int): FieldError {
    FieldError(loc, "Input should be greater than or equal to 0", "greater_than_equal", IntRepr(value), "int")
  }

  /** A `ValueError` raised by a field validator on a str field. */
  function ValueError(loc: string, message: string, value: string): FieldError {
    FieldError(loc, "Value error, " + message, "value_error", StrRepr(value), "str")
  }

  function ErrorLines(e: FieldError): string {
    "\n" + e.loc + "\n  " + e.msg + " [type=" + e.kind + ", input_value=" + TruncatedInput(e.inputValue)
    + ", input_type=" + e.inputType + "]\n    For further information visit https://errors.pydantic.dev/2.11/v/" + e.kind
  }

  function AllErrorLines(errors: seq<FieldError>): string {
    if errors == [] then "" else ErrorLines(errors[0]) + AllErrorLines(errors[1..])
  }

  /** `str(ValidationError)`: a count line naming the model, then one block per error. */
  function ValidationErrorText(model: string, errors: seq<FieldError>): (t: string)
    requires |errors| > 0
    ensures |t| > 0
  {
    NatToString(|errors|) + (if |errors| == 1 then " validation error for " else " validation errors for ")
    + model + AllErrorLines(errors)
  }
}

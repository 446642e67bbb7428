# Command ghostwriter: a verified model of its core

The command ghostwriter is a Streamlit application. It takes an uploaded configuration file (TOML, YAML or CSV) and an uploaded Jinja template. It renders the template with the configuration as its context, tidies the blank lines of the result, and offers it for download. Between upload and download the program:

- screens the template: size, binary data, UTF-8, syntax, and a security validator over the parsed tree;
- checks the rendered text against a memory limit;
- sniffs and transcodes uploads to UTF-8;
- turns every failure into an error line of the form `<header>: <message> in '<file name>'`.

This project models that control flow in Dafny and proves what it promises. The libraries underneath (Jinja2, tomllib, PyYAML, pandas, chardet, Python's codecs, markupsafe, `sys.getsizeof`, the clock) are not modelled. Each enters as a function-typed parameter, bundled in a datatype: `Engine`, `Parsers`, `Codecs`, `Services`, `Ghostwriter`.

Modules, following the source files:

- `Base`, `Values`, `JinjaAst`, `Streams`: shared types.
  - `Streams` is a `BytesIO` with its data, read position and optional name.
  - `JinjaAst` holds the template tree and `find_all` as a pre-order walk that excludes the root.
  - `Values` holds the values a context holds.
- `ContentFormatting` (`ContentFormatter`), `ValidationStates`, `HtmlSafety`, `LegacySecurity` (the older `TemplateSecurityValidator`) and `DocumentRendering` (`DocumentRender`) model features/document_render.py.
- `TemplateSecurity`, `RangeArithmetic` and `PydanticErrors` model the newer validator of features/validate_template.py.
- `ConfigParsing` models features/config_parser.py.
- `UploadedFileValidation` models features/validate_uploaded_file.py.
- `Transcoding` models features/transcoder.py.
- `Application` models `AppCore` of features/core.py.
- `LegacyApplication` models `AppModel` of app.py.
- `Messages` holds the error lines and download names both application classes build.

Objects that the source updates in place are classes whose methods are proved against specification functions. These are the validation states, `FileValidator`, `TextTranscoder`, `ConfigParser`, `DocumentRender`, `AppCore` and `AppModel`. Pure logic is written as functions and lemmas.

Modelling choices:

- Python's `splitlines(True)` is modelled as splitting on `'\n'`, each line keeping its terminator.
- `strip()`-blankness means every character of the line is in the whitespace set of `str.isspace`.
- A Python float is a finite real, an infinity or NaN; a missing CSV cell is NaN.
- `\w` in a regular expression is Unicode-aware: the `alnum` parameter stands for `str.isalnum`, fixed on ASCII, and `_` is added to it.
- Strings are sequences of Unicode scalar values.

## Model

| member | source | states |
|---|---|---|
| ContentFormatting.Formatted | features/document_render.py:491-508 | types 0 and 2 return the text, 1 and 3 the compressed text, 4 the text without blank lines, and any other type the fixed `ValueError` message "Unsupported format type" |
| ContentFormatting.Format | features/document_render.py:491-508 | the method computes exactly `Formatted` |
| ContentFormatting.CompressWhitespace | features/document_render.py:510-532 | the one-pass loop with its previous-line-blank flag returns `CompressedText`, each maximal run of blank lines replaced by one "\n" |
| ContentFormatting.CompressLinesShape | features/document_render.py:519-532 | the compressed lines never hold two blank lines in a row, and every blank line they hold is exactly "\n" |
| ContentFormatting.CompressKeepsNonBlankLines | features/document_render.py:519-532 | compressing keeps the non-blank lines verbatim and in order |
| ContentFormatting.CompressedTextLines | features/document_render.py:510-532 | splitting the compressed text into lines gives back the compressed line list |
| ContentFormatting.RemoveAllWhitespaceLines | features/document_render.py:534-545 | the lines of the type-4 output are exactly the input's non-blank lines, in order |
| ContentFormatting.RemoveAllWhitespaceIdempotent | features/document_render.py:534-545 | removing blank lines twice removes nothing more |
| ContentFormatting.RemoveAfterCompress | features/document_render.py:510-545 | dropping blank lines after compressing gives the same text as dropping them directly |
| ContentFormatting.JoinSplitLines | features/document_render.py:517-545 | joining the lines of a text gives the text back |
| ContentFormatting.SplitLinesJoin | features/document_render.py:517-545 | splitting the join of a well-formed line list gives the list back |
| ValidationStates.StoredMessage | features/document_render.py:224-231 | `set_error` stores the message, or "" for None |
| ValidationStates.ShownMessage | features/document_render.py:210-218 | the older `error_message` reads None exactly when the stored message is None or empty |
| ValidationStates.RenderValidationState.constructor | features/document_render.py:199-204 | a new older-generation state is valid, with no message and no content |
| ValidationStates.RenderValidationState.SetError | features/document_render.py:224-231 | `set_error` always makes the state invalid, stores the message, and keeps the content |
| ValidationStates.RenderValidationState.SetContent | features/document_render.py:233-239 | only the content changes |
| ValidationStates.RenderValidationState.Reset | features/document_render.py:241-245 | valid again, with no message and no content |
| ValidationStates.TemplateValidationState.constructor | features/validate_template.py:151-158 | a new newer-generation state is valid, with no message and no content |
| ValidationStates.TemplateValidationState.SetError | features/validate_template.py:160-167 | invalid, with the message or "" stored, and the content kept |
| ValidationStates.TemplateValidationState.Reset | features/validate_template.py:169-173 | valid, with no message and no content |
| ValidationStates.SetErrorNoneDiffers | features/document_render.py:210-231 | after `set_error(None)` the older state reports no message and the newer one reports "" |
| ValidationStates.ShownAfterSetError | features/document_render.py:210-231 | after `set_error(m)` the older state reports m exactly when m is neither None nor empty |
| ValidationStates.MakeValidationResult | features/document_render.py:72-111 | the result is refused exactly when it is a failure with an explicit empty message, and then with the validator's text |
| ValidationStates.ResultAfterSetError | features/document_render.py:72-111 | a result built from a state after `set_error(m)` is accepted exactly when m is a non-empty message, and then reports m as a failure; otherwise the validator's text |
| ValidationStates.ClampFormatType | features/document_render.py:440-445 | a type in 0..4 is kept and any other becomes 0 |
| ValidationStates.MakeContextSettings | features/document_render.py:422-478 | the format type lies in 0..4, a missing context becomes `{}`, and the strict flag is kept |
| ValidationStates.ContextSettingsFormattable | features/document_render.py:422-478 | the format type is kept exactly when it lies in 0..4, and the validated type is always one the formatter accepts, so "Unsupported format type" cannot be raised |
| ValidationStates.MakeTemplateContent | features/document_render.py:152-194 | accepted exactly when the UTF-8 length of the content equals the clamped file size, and otherwise refused with the mismatch message |
| ValidationStates.NegativeSizeAcceptsOnlyEmpty | features/document_render.py:170-193 | a negative file size is accepted only with empty content |
| ValidationStates.AsciiContentSize | features/document_render.py:181-193 | for ASCII text the size check compares the character count |
| HtmlSafety.ValidateHtmlContent | features/document_render.py:1331-1351 | true exactly when none of the five patterns matches anywhere in the text, ignoring case, with `\w` the Unicode word class |
| HtmlSafety.ScanHandlerCorrect | features/document_render.py:1338-1348 | the greedy scan finds an event handler exactly when `on\w+\s*=` matches, for any Unicode letter or digit `str.isalnum` accepts |
| HtmlSafety.CreateSafeMarkup | features/document_render.py:1353-1369 | unsafe text gives the `ValueError` message, and safe text gives the escaped characters concatenated |
| HtmlSafety.HtmlSafeFilter | features/validate_template.py:180-216 | the same verdict, with pydantic's error text on refusal, the input shown as its truncated repr |
| HtmlSafety.NoMarkersIsSafe | features/document_render.py:1338-1351 | text without '<', ':' or '=' is always accepted |
| HtmlSafety.UpperCaseSameVerdict | features/document_render.py:1338-1351 | upper-casing ASCII letters never changes the verdict |
| HtmlSafety.AlikeSameVerdict | features/document_render.py:1338-1351 | two texts that agree position by position on folded letter, word and space classes and `=` get the same verdict |
| HtmlSafety.ScriptTagRefused | features/document_render.py:1338-1351 | a text holding `<SCRIPT` is refused |
| HtmlSafety.EventHandlerRefused | features/document_render.py:1338-1351 | a text holding `onClick =` is refused |
| HtmlSafety.UnicodeHandlerRefused | features/document_render.py:1338-1348 | `onü=` is refused, because `ü` is a word character |
| JinjaAst.WalkAllContains | features/validate_template.py:618-642 | every top-level node is enumerated |
| JinjaAst.FindAllClosed | features/validate_template.py:618-642 | below any node `find_all` reaches, it reaches every node, so checks see every depth |
| RangeArithmetic.Iterations | features/validate_template.py:807-821 | the count is the ceiling of the distance over the step, for either sign of the step |
| RangeArithmetic.RangeValues | features/validate_template.py:807-821 | the values `range` yields are start + i·step, strictly within the bounds |
| RangeArithmetic.IterationsCountValues | features/validate_template.py:807-821 | the formula counts exactly the values `range` yields, or goes negative for an empty range |
| RangeArithmetic.IterationsStep | features/validate_template.py:807-821 | taking the first value off a non-empty range lowers the count by exactly one, from at least one |
| RangeArithmetic.IterationsEmpty | features/validate_template.py:807-821 | the formula gives at most zero for an empty range |
| PydanticErrors.ValidationErrorText | features/validate_template.py:141-148 | the text of a `ValidationError` is never empty |
| PydanticErrors.ReprChar | features/validate_template.py:412-416 | a printable ASCII character other than the backslash and the quote stands for itself in a repr, and every character yields at least one |
| PydanticErrors.PlainRepr | features/validate_template.py:412-416 | the repr of printable ASCII text without backslashes or quotes is the text in single quotes |
| PydanticErrors.BytePrefix | features/validate_template.py:412-416 | the longest prefix whose UTF-8 encoding fits the byte budget |
| PydanticErrors.ByteSuffix | features/validate_template.py:412-416 | the longest suffix whose UTF-8 encoding fits the byte budget |
| PydanticErrors.TruncatedInput | features/validate_template.py:412-416 | an input repr of at most 50 bytes is shown whole, and a longer one in at most 52 bytes and 52 characters |
| PydanticErrors.AsciiTruncation | features/validate_template.py:412-416 | a long ASCII repr is shown as its first 25 characters, "..." and its last 24 |
| PydanticErrors.LongPlainValueTruncated | features/validate_template.py:412-416 | a long plain text is shown by its first 24 and last 23 characters inside the repr's quotes |
| TemplateSecurity.MakeSecurityValidator | features/validate_template.py:218-250 | the validator is built exactly when both byte limits are positive, and otherwise pydantic reports every bad limit |
| TemplateSecurity.DefaultTagsRefused | features/validate_template.py:618-642 | with the default config, tags are refused exactly when the template holds a macro, include, import, extends or `do` node at any depth |
| TemplateSecurity.FirstTagDecides | features/validate_template.py:618-642 | the message names the first tag node in pre-order |
| TemplateSecurity.AttributesAccepted | features/validate_template.py:644-731 | acceptance means no node anywhere reads, calls or assigns a restricted name, attribute or constant item |
| TemplateSecurity.GetattrCallReportsCall | features/validate_template.py:669-731 | `getattr('', …)` is reported by the call rule, which comes first in pre-order |
| TemplateSecurity.CallReportsCall | features/validate_template.py:669-731 | a call of a restricted name is reported by the call rule, whatever its constant arguments |
| TemplateSecurity.AssignReportsAssign | features/validate_template.py:678-731 | `set x = os` is reported by the assignment rule |
| TemplateSecurity.AssignRestrictedReportsAssign | features/validate_template.py:678-731 | assigning a restricted name to an unrestricted one is reported by the assignment rule |
| TemplateSecurity.AttributeOfRestrictedName | features/validate_template.py:644-731 | a method called on a restricted name is caught by the name rule |
| TemplateSecurity.OsSystemRefused | features/validate_template.py:661-667 | `os.system("ls")` is refused under the default config |
| TemplateSecurity.LiteralInt | features/validate_template.py:823-839 | int and bool constants give their int value, and every other node gives nothing |
| TemplateSecurity.MakeRangeConfig | features/validate_template.py:141-148 | the bounds are accepted exactly when start ≥ 0, stop > 0 and step > 0, and otherwise pydantic's error text is given |
| TemplateSecurity.RangeArguments | features/validate_template.py:776-806 | `range(a)` means (0, a, 1) and `range(a, b)` means (a, b, 1), with no arguments an error, and extra arguments ignored |
| TemplateSecurity.NotLiteralIff | features/validate_template.py:776-806 | the loop is deferred exactly when an evaluated argument is not a literal |
| TemplateSecurity.BoundsAreLiterals | features/validate_template.py:776-806 | validated bounds are the literal arguments, with Python's defaults |
| TemplateSecurity.LoopBoundExact | features/validate_template.py:733-764 | a loop with valid literal bounds passes exactly when the range has at most `max_range_size` elements |
| TemplateSecurity.LoopsAccepted | features/validate_template.py:733-764 | acceptance means every literal `range()` loop has valid bounds and at most `max_range_size` iterations |
| TemplateSecurity.SingleStopOverLimit | features/validate_template.py:752-753 | `range(n)` with n over the limit is refused with the limit message |
| TemplateSecurity.ZeroStepRefused | features/validate_template.py:141-148 | a literal zero step is refused |
| TemplateSecurity.EmptyRangeRefused | features/validate_template.py:776-806 | `range()` is refused |
| TemplateSecurity.VariableBoundDeferred | features/validate_template.py:743-750 | a non-literal argument skips the static check |
| TemplateSecurity.ReportFirst | features/validate_template.py:618-764 | the validator loop records exactly the first failing node's message, or leaves the state untouched |
| TemplateSecurity.ValidateRestrictedTags | features/validate_template.py:618-642 | the method records the tag verdict and returns whether it passed |
| TemplateSecurity.ValidateRestrictedAttributes | features/validate_template.py:698-731 | the method records the attribute verdict |
| TemplateSecurity.ValidateLoopRange | features/validate_template.py:733-764 | the method records the loop verdict |
| TemplateSecurity.ValidateTemplateFile | features/validate_template.py:840-896 | the state is reset, then holds the first failure among size, NUL, UTF-8, syntax, tags, attributes and loops; the content and tree are returned exactly when all pass; the read position is restored |
| TemplateSecurity.AcceptedTemplateIsSafe | features/validate_template.py:840-896 | an accepted file is within the limit and NUL-free, and its tree passes every static check |
| TemplateSecurity.SizeCheckedFirst | features/validate_template.py:852-864 | an oversized file is refused for its size, whatever else is wrong |
| TemplateSecurity.Lookup | features/validate_template.py:466-494 | assignments shadow the context, unknown names are None, and invisible values (plain ints, floats and other objects) read as None |
| TemplateSecurity.EvaluateVisible | features/validate_template.py:418-617 | every evaluated value is visible to `_evaluate_name` |
| TemplateSecurity.EvaluateAgrees | features/validate_template.py:418-617 | two environments that agree on every lookup give every expression the same value |
| TemplateSecurity.ForNeverFails | features/validate_template.py:342-361 | a `for` node never fails the assignment pass |
| TemplateSecurity.RecursivePhaseFails | features/validate_template.py:290-378 | the assignment pass fails only at an assignment or call whose evaluation fails, naming its class |
| TemplateSecurity.RuntimePassedNoZeroDivisor | features/validate_template.py:379-398 | a passing runtime verdict means no division's right operand evaluates to zero |
| TemplateSecurity.DivCheckNeverPasses | features/validate_template.py:379-398 | the division pass reports only failures |
| TemplateSecurity.RuntimeRejectionMessages | features/validate_template.py:267-398 | a rejection carries the division message or a runtime-error message |
| TemplateSecurity.EvaluateExpression | features/validate_template.py:418-617 | the evaluator with its loops computes exactly `Evaluate` |
| TemplateSecurity.EvaluateEach | features/validate_template.py:515-539 | the list loop computes exactly `EvaluateAll` |
| TemplateSecurity.EvaluateDictItems | features/validate_template.py:540-568 | the dict loop computes exactly `EvaluateDict`, and a non-str key fails |
| TemplateSecurity.ValidateRuntimeSecurity | features/validate_template.py:267-398 | a fresh state holding the first runtime failure of `RuntimeSecurity`, and the escaping `TypeError` flagged |
| TemplateSecurity.ValidateNode | features/validate_template.py:290-320 | one node of the first runtime pass gives exactly `RecursiveStep`: an assignment binds its evaluated value, a loop over a bound name and a call must evaluate, and a failed evaluation is an error naming the node kind |
| TemplateSecurity.ValidateRecursiveStructures | features/validate_template.py:290-320 | the first pass over all nodes gives exactly `RecursivePhase` from no assignments |
| TemplateSecurity.ValidateDivisionOperations | features/validate_template.py:379-398 | the second pass reports exactly the first division failure `FirstSome` finds, an escaping error included |
| TemplateSecurity.ContextIntDivisorPasses | features/validate_template.py:466-494 | `10 / value` with value bound to an int passes the pre-check |
| TemplateSecurity.LiteralZeroDivisorRejected | features/validate_template.py:379-398 | `1 / 0` fails with the division message |
| TemplateSecurity.AssignedDivisionRejected | features/validate_template.py:321-341 | `set x = a / 0` stops at the assignment pass |
| TemplateSecurity.AssignmentShadowsContext | features/validate_template.py:466-494 | after `set value = 0`, dividing by `value` is refused whatever the context holds |
| LegacySecurity.LegacyReportFirst | features/document_render.py:321-403 | the older loop records exactly the first failing node's message |
| LegacySecurity.LegacyValidateTemplate | features/document_render.py:296-319 | a fresh state holding `LegacyVerdict`, which is tags, then attributes, then loops |
| LegacySecurity.LegacyTagsAccepted | features/document_render.py:321-336 | acceptance means no macro, include, import or extends node anywhere |
| LegacySecurity.DoOnlyRefusedByNewer | features/document_render.py:291 | `{% do x %}` passes the older validator and fails the newer |
| LegacySecurity.DunderOnConstantOnlyRefusedByNewer | features/document_render.py:338-354 | `''.__class__` passes the older validator, which looks only at object names, and fails the newer |
| LegacySecurity.DescendingLoopOnlyRefusedByNewer | features/document_render.py:356-403 | a descending literal loop passes the older validator and fails the newer |
| LegacySecurity.LoopCheckStricter | features/document_render.py:356-403 | any loop the newer check accepts, the older accepts |
| LegacySecurity.NewerIsStricter | features/document_render.py:296-319 | any template the newer static checks accept, the older accepts |
| DocumentRendering.IntakeOrder | features/document_render.py:626-711 | an oversized buffer is refused for its size, and a NUL in the bytes read for that, whatever decoding or parsing would say |
| DocumentRendering.IntakeAccepted | features/document_render.py:626-730 | an accepted upload is within 1 MiB and NUL-free, its text is the decoding, its tree is the parse, and the older validator passed |
| DocumentRendering.LegacyMessageNonEmpty | features/document_render.py:296-403 | every refusal message of the older validator is non-empty |
| DocumentRendering.DocumentRender.constructor | features/document_render.py:571-597 | starts with no rendering and strict undefined; runs the intake, storing content and tree only when it passes, otherwise recording its message; leaves the upload unchanged |
| DocumentRendering.DocumentRender.ValidateTemplateFile | features/document_render.py:626-664 | `IntakeVerdict` decides: success stores content, tree and the passed flag, and failure changes only the state |
| DocumentRendering.ProbeUpload | features/document_render.py:666-695 | the size and the remaining bytes of the upload, which ends where it started |
| DocumentRendering.DocumentRender.RuntimeStep | features/document_render.py:848-890 | one node of the first runtime loop: only a recursive-structure failure stops, and a non-assignment binds nothing |
| DocumentRendering.DocumentRender.RuntimeValidations | features/document_render.py:848-921 | returns true exactly when `LegacyRuntime` finds nothing, and otherwise records its message |
| DocumentRendering.LegacyRuntimeMessages | features/document_render.py:848-921 | the older runtime checks give only the recursion or the division message |
| DocumentRendering.LegacyRuntimePassed | features/document_render.py:892-921 | passing means no division's right operand evaluated to 0, 0.0 or False |
| DocumentRendering.FloatZeroDivisorRefused | features/document_render.py:908-913 | a right operand that evaluates to the float 0.0 is refused with the division message |
| DocumentRendering.MemoryVerdict | features/document_render.py:1089-1118 | refused exactly when the text holds a NUL or its UTF-8 length is over 10 MiB |
| DocumentRendering.MemoryBoundary | features/document_render.py:1100-1109 | ASCII text of exactly 10 MiB passes, and one byte more fails |
| DocumentRendering.DocumentRender.ValidateMemoryUsage | features/document_render.py:1089-1118 | returns the memory verdict and records its message |
| DocumentRendering.FormatTypeCheckedFirst | features/document_render.py:792-797 | a type outside 0..4 gives "Unsupported format type" before anything is rendered |
| DocumentRendering.ApplySucceeded | features/document_render.py:780-846 | success means the rendering passed the runtime and memory checks, and the result is its formatting, keeping every non-blank line in order |
| DocumentRendering.DocumentRender.ApplyContext | features/document_render.py:780-846 | a failed upload returns false unchanged; otherwise the first failing step records `ApplyResult`'s message, and success stores the formatted text |
| DocumentRendering.StickyApplyError | features/document_render.py:780-846 | after a failed apply, a later successful apply still reports invalid |
| UploadedFileValidation.SizeVerdict | features/validate_uploaded_file.py:63-88 | true exactly when size ≤ max, and otherwise the message naming the limit |
| UploadedFileValidation.SizeBoundary | features/validate_uploaded_file.py:83-85 | the limit is accepted and one byte more is refused |
| UploadedFileValidation.FileValidator.Create | features/validate_uploaded_file.py:41-61 | refused exactly when max ≤ 0, and otherwise keeps max |
| UploadedFileValidation.FileValidator.GetFileSize | features/validate_uploaded_file.py:90-112 | the whole buffer length, with the position unchanged |
| UploadedFileValidation.FileValidator.ValidateSize | features/validate_uploaded_file.py:63-88 | the size verdict, with the position unchanged |
| Streams.ByteStream.Read | features/transcoder.py:53 | the rest of the buffer from the position |
| Streams.ByteStream.ReadAtMost | features/transcoder.py:17 | at most n bytes from the position |
| Transcoding.BinaryIgnoresTail | features/transcoder.py:14-20 | bytes past the first 1024 never change the binary verdict |
| Transcoding.LateNulNotBinary | features/transcoder.py:14-20 | a NUL after byte 1024 is not seen |
| Transcoding.TextTranscoder.DetectBinary | features/transcoder.py:14-20 | a NUL among the first 1024 bytes, with the position restored |
| Transcoding.TextTranscoder.DetectEncoding | features/transcoder.py:22-43 | the loop computes `EncodingOf`; the position is at 0 unless the data is binary |
| Transcoding.BinaryHasNoEncoding | features/transcoder.py:23-24 | binary input has no encoding |
| Transcoding.PreferenceOrder | features/transcoder.py:30-43 | with no known guess, the answer is the first known encoding that decodes, and every earlier one fails |
| Transcoding.RawGuessLast | features/transcoder.py:40-43 | when nothing decodes, the raw guess is returned |
| Transcoding.ConvertKeepsName | features/transcoder.py:45-64 | a conversion exists only for a non-empty decodable encoding, keeps the name, and holds the re-encoded text |
| Transcoding.TextTranscoder.Convert | features/transcoder.py:45-64 | a fresh buffer at 0 with `ConvertOf`'s bytes and name, or None |
| Transcoding.TextTranscoder.ChallengeToUtf8 | features/transcoder.py:66-69 | the UTF-8 copy, or the input itself when there is none |
| ConfigParsing.Extension | features/config_parser.py:78-84 | the text after the last dot, dot-free, or the whole name |
| ConfigParsing.ExtensionAfterLastDot | features/config_parser.py:78-84 | stem + "." + a dot-free ext has extension ext |
| ConfigParsing.LastPartDecides | features/config_parser.py:78-84 | `config.tar.gz` has extension `gz` |
| ConfigParsing.IntakeOf | features/config_parser.py:43-91 | content is present exactly when there is no error, and only for a supported extension |
| ConfigParsing.OversizeNeverRead | features/config_parser.py:55-62 | a file over 30 MiB records the size message and is never read |
| ConfigParsing.UnsupportedRefused | features/config_parser.py:69-72 | an extension outside toml/yaml/yml/csv records "Unsupported file type" |
| ConfigParsing.ConfigParser.constructor | features/config_parser.py:43-64 | records the intake's extension, content and error, with the defaults `csv_rows`, no fill, and no dictionary |
| ConfigParsing.ReadIntake | features/config_parser.py:66-91 | the steps of `__initialize_from_file` compute exactly `IntakeOf`: no name, an unsupported extension, or the decoded rest of the buffer from its position; the buffer's data and name are kept |
| ConfigParsing.ConfigParser.InitializeFromFile | features/config_parser.py:66-76 | prepares the fields the intake gives, touching nothing else |
| ConfigParsing.ConfigParser.SetCsvRowsName | features/config_parser.py:93-108 | only the rows name changes |
| ConfigParsing.ConfigParser.SetEnableFillNan | features/config_parser.py:110-126 | only the fill flag changes |
| ConfigParsing.ConfigParser.SetFillNanWith | features/config_parser.py:128-145 | only the fill value changes |
| ConfigParsing.ConfigParser.Parse | features/config_parser.py:147-172 | without content, false and unchanged; otherwise the parsed dictionary and true, or the message with the dictionary cleared |
| ConfigParsing.NormalizeOtherMessages | features/config_parser.py:196-208 | YAML messages without the tab form pass unchanged |
| ConfigParsing.NormalizeDuplicatesTabLine | features/config_parser.py:196-208 | a message with the tab form gains exactly one line, the spaced copy, before the first tab line |
| ConfigParsing.ParseYaml | features/config_parser.py:190-210 | a non-mapping document gives "Invalid YAML file loaded." |
| ConfigParsing.FillNan | features/config_parser.py:243-262 | every missing cell becomes the fill text, and without one the pandas error is given |
| ConfigParsing.CsvWrapsRows | features/config_parser.py:229-239 | the result has the rows name as its only key, with one entry per row in file order |
| ConfigParsing.CsvEmptyRowsName | features/config_parser.py:229-231 | an empty rows name is refused |
| ConfigParsing.CsvMissingCell | features/config_parser.py:233-262 | a missing cell stays NaN without filling, and holds the fill text with it |
| ConfigParsing.CsvPresentCellFilled | features/config_parser.py:233-262 | after filling, which first casts the numeric columns to `object`, a present cell keeps its stored value and type |
| ConfigParsing.CsvPresentCell | features/config_parser.py:233-262 | a present cell keeps its stored value after filling or when a text column makes every row an object row; otherwise it is what pandas' `row.to_dict()` gives |
| ConfigParsing.RoundHalfEven | features/config_parser.py:278-281 | the rounded quotient is within half a unit |
| ConfigParsing.MemoryVerdict | features/config_parser.py:264-283 | refused exactly over 150 MiB, with the message |
| ConfigParsing.MemoryMessageAtLimit | features/config_parser.py:278-281 | one byte over the limit reads "150.00MB" |
| ConfigParsing.ConfigParser.ValidateMemorySize | features/config_parser.py:264-283 | the verdict, recording its message |
| ConfigParsing.ConfigParser.ParsedDict | features/config_parser.py:285-299 | the stored dictionary exactly when it measures within the limit, and otherwise None and the memory message |
| ConfigParsing.ConfigParser.ParsedStr | features/config_parser.py:301-323 | the printed dictionary within the limit, and otherwise "None" |
| ConfigParsing.OversizeFileNeverParses | features/config_parser.py:55-62 | an oversized file records the size message and `parse()` fails |
| Messages.ErrorLineParts | features/core.py:82-83 | header, message and file name sit at fixed places in an error line |
| Messages.DownloadFilename | features/core.py:148-168 | None exactly when the name or the extension is None |
| Messages.DownloadFilenameShape | features/core.py:162-168 | the name, then "_timestamp" if requested, then "." and the extension |
| Application.DecodingFailureUsesTemplateHeader | features/core.py:64-70 | a failed config transcode is reported under the template header |
| Application.OversizeConfigReported | features/core.py:78-84 | an oversized config gives the size message under the config header |
| Application.MemoryRefusalIsSilent | features/core.py:78-82 | an oversized dictionary is dropped without an error line |
| Application.ConfigLoadedIsParsed | features/core.py:72-82 | a loaded dictionary is the parser's result, within the memory limit |
| Application.OversizeTemplateReported | features/core.py:97-110 | an oversized template's error line names the 1 MiB limit |
| Application.AppCore.constructor | features/core.py:23-34 | the headers are kept and every field starts empty |
| Application.AppCore.LoadConfigFile | features/core.py:36-84 | clears the dictionary; an unnamed file changes nothing else; otherwise `ConfigLoad` decides the dictionary, and an error line replaces the old one only when written |
| Application.ParseConfigSource | features/core.py:73-80 | the parser's error exactly when `ParserResult` fails, else the dictionary it holds when it fits in memory |
| Application.AppCore.LoadTemplateFile | features/core.py:86-117 | with no file nothing changes; otherwise a renderer for every decodable upload, even an invalid one, with `TemplateLoadError` as the error line, and a valid load keeps the old line |
| Application.AppCore.Apply | features/core.py:119-146 | clears the text; without a dictionary or renderer nothing more; otherwise `ApplyResult` sets the text and clears the error, or writes the error line |
| Application.AppCore.SetConfigDict | features/core.py:196-203 | only the dictionary changes |
| Application.AppCore.GetDownloadContent | features/core.py:170-185 | None without a text, and otherwise the encoder's output |
| Application.AppCore.IsReadyFormatted | features/core.py:232-239 | true exactly when there is a formatted text |
| LegacyApplication.AppModel.constructor | app.py:14-19 | every field starts empty |
| LegacyApplication.AppModel.SetConfigDict | app.py:21-22 | only the dictionary changes |
| LegacyApplication.AppModel.LoadConfigFile | app.py:24-38 | an unnamed or missing file gives false with no change; otherwise a parser error writes the line and gives false, and success stores the dictionary and text and gives true |
| LegacyApplication.AppModel.LoadTemplateFile | app.py:40-59 | no dictionary or no named file gives false with no change; otherwise a render error writes the line, and success stores the text |
| LegacyApplication.AppModel.GetUploadedFilename | app.py:73-74 | the upload's name, or None without an upload |
| LegacyApplication.AppModel.IsReadyFormatted | app.py:96-101 | true exactly when there is a formatted text |
| LegacyApplication.FailedLoadKeepsResult | app.py:40-59 | a failed template load keeps the earlier result ready |

## Left out

- Jinja2 parsing and rendering, tomllib, PyYAML, pandas CSV reading and its row conversion, chardet, Python's codecs, markupsafe's `escape`, `pprint` and `sys.getsizeof` are foreign libraries. They are function parameters.
- The clock in `get_download_filename` becomes the `timestamp` parameter.
- `Messages.DownloadFilename` stands for both `AppCore.get_download_filename` and `AppModel.get_download_filename`, whose bodies are the same.
- Template rendering and the sandbox:
  - features/document_render.py `_render_template`, `_create_environment` and its `CustomUndefined` are the `Engine.render` parameter;
  - `_validate_security` and `_validate_safe_content` are not reached by `apply_context`;
  - `_html_safe_filter` is modelled by `HtmlSafety.CreateSafeMarkup`.
- features/document_render.py `_evaluate_expression`, `_evaluate_binary_operation` and `_is_recursive_structure` rely on Python's dynamic arithmetic and object identity. They are the `Engine.evaluate` parameter, whose error text decides the recursion check.
- `_date_filter` uses datetime formatting and is not modelled.
- Exceptions that cannot arise in the model are not modelled, because they are unreachable for the modelled inputs:
  - in features/document_render.py: the `UnicodeEncodeError` branch of `_validate_memory_usage` (strings hold only scalar values), `MemoryError`/`OverflowError`, "File size validation error", "Encoding validation error", "Runtime validation error", "Content formatting error" and the non-`BytesIO` guard of the constructor;
  - in features/validate_uploaded_file.py: the `IOError` branch of `validate_size`;
  - in features/config_parser.py: the `return {}` fall-through of the CSV parser.
- features/core.py calls `convert(is_allow_fallback=False)`, but features/transcoder.py's `convert` takes no such argument, so as written that call raises `TypeError`. The model calls `Convert("utf-8")`, which is the evident intent.
- features/validate_template.py:88 imports `FileSizeConfig`, which features/validate_uploaded_file.py does not define, so as written that module fails at import. Also, the `validate_size` shown raises `ValueError` on an oversized file (features/validate_uploaded_file.py:83-85) instead of returning False, so the `if not …` at features/validate_template.py:860-863 could not catch it either. The size check is modelled as the evident intent: over the limit gives the size message.
- app.py:8-9 imports `GhostwriterRender` from features/command_render.py, which is not part of this model, and `GhostwriterParser` from features/config_parser.py, which defines only `ConfigParser`. As written, app.py therefore fails at import. The model treats both classes as the `Ghostwriter` parameter.
- LegacyApplication.AppModel.GetUploadedFilename: requires a named upload, because the source reads `.name` unchecked and a `BytesIO` without one raises `AttributeError`.
- Application.AppCore.LoadTemplateFile: requires a named upload for the same reason.
- Transcoding.TextTranscoder.Convert: the `Codecs` functions give None for both a `LookupError` and a failed decode or encode. In the source a `LookupError` from `decode` and a `UnicodeEncodeError` from `encode` propagate instead. Chardet names only real codecs, and the application converts only to UTF-8, where encoding cannot fail.
- Application.AppCore.GetDownloadContent: the encoder's None also stands for a `UnicodeEncodeError`, which the source lets propagate to the caller.
- ConfigParsing.TwoDecimals: exact only for sizes below 2^53, where `size / 1048576` is an exact float.
- Only YAML documents with string keys are modelled.
- ConfigParsing.CsvPresentCell: pandas' `iterrows` gives each row in the common dtype of the table's columns. Without filling, an all-numeric table with a float column therefore shows an int cell as a float. That conversion is the `csvRow` parameter, so the model does not compute the upcast. With filling, features/config_parser.py:254-258 casts every numeric column to `object` first, so no upcast happens, and the model shows each stored value as it is.
- features/config_parser.py:58 is followed where a test asserts a different message.
- Float constants inside templates and the Streamlit UI are not modelled.
- HtmlSafety.HtmlSafeFilter: the repr of the input escapes the control characters, U+007F to U+00A0 and U+00AD. Non-printable characters above U+00FF (U+200B, say) are shown as themselves, because the Unicode database is not modelled.
- PydanticErrors.TruncatedInput: follows pydantic-core's rule for a repr over 50 bytes. It keeps the first 25 and the last 24 bytes, cut back to character boundaries.
- HtmlSafety.ValidateHtmlContent: `str.isalnum` is the `alnum` parameter. The model fixes it on ASCII and knows that no space and no `=` is alphanumeric, which is all the verdict needs.
- The i18n and i11n tables, features/command_render.py and features/text_transcoder.py are not part of this model.

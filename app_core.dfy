/** `AppCore` of features/core.py: holds the parsed configuration, the loaded template
    renderer and the formatted result, and turns their failures into error lines. */
module Application {
  import opened Base
  import opened Values
  import opened Streams
  import opened ValidationStates
  import opened Transcoding
  import opened ConfigParsing
  import opened DocumentRendering
  import opened Messages
  import TemplateSecurity

  /** The libraries under the three components the class drives. */
  datatype Services = Services(codecs: Codecs, parsers: Parsers, engine: Engine)

  const DecodingFailure: string := "Failed auto decoding"

  /** The stream a load hands on: the upload itself, or its UTF-8 copy (None when the
      copy cannot be made). Given as its bytes, read position and name. */
  function LoadSource(data: Bytes, pos: nat, name: string, auto: bool, c: Codecs): Option<(Bytes, nat, Option<string>)> {
    if !auto then Some((data, pos, Some(name)))
    else match ConvertOf(data, Some(name), c, "utf-8")
      case None => None
      case Some((b, n)) => Some((b, 0, n))
  }

  /** What `load_config_file` leaves: the dictionary, and the error line it writes (None
      when it writes none). */
  datatype ConfigLoaded = ConfigLoaded(dict: Option<Context>, error: Option<string>)

  /** The parser's error after construction and `parse()`, or its dictionary. */
  function ParserResult(b: Bytes, p: nat, n: Option<string>, csvRowsName: string, fill: bool, fillWith: string,
                        parsers: Parsers): Result<map<string, Value>, string>
  {
    var intake := IntakeOf(b, p, n, parsers.decode);
    if intake.configData.None? then Err(intake.error.value)
    else ParseByFileType(intake.extension, intake.configData.value, csvRowsName, fill, Some(fillWith), parsers)
  }

  function ConfigLoad(data: Bytes, pos: nat, name: string, csvRowsName: string, auto: bool, fill: bool, fillWith: string,
                      configHeader: Option<string>, templateHeader: Option<string>, s: Services): ConfigLoaded
  {
    match LoadSource(data, pos, name, auto, s.codecs)
    case None => ConfigLoaded(None, Some(ErrorLine(templateHeader, DecodingFailure, name)))
    case Some((b, p, n)) =>
      match ParserResult(b, p, n, csvRowsName, fill, fillWith, s.parsers)
      case Err(m) => ConfigLoaded(None, Some(ErrorLine(configHeader, m, name)))
      case Ok(d) =>
        ConfigLoaded(if ConfigParsing.MemoryVerdict(s.parsers.sizeOf(DictValue(d))).None? then Some(d) else None, None)
  }

  /** A config file that cannot be re-encoded is reported under the template header. */
  lemma DecodingFailureUsesTemplateHeader(data: Bytes, pos: nat, name: string, csvRowsName: string, fill: bool,
                                          fillWith: string, configHeader: Option<string>,
                                          templateHeader: Option<string>, s: Services)
    requires ConvertOf(data, Some(name), s.codecs, "utf-8").None?
    ensures ConfigLoad(data, pos, name, csvRowsName, true, fill, fillWith, configHeader, templateHeader, s)
      == ConfigLoaded(None, Some(ErrorLine(templateHeader, DecodingFailure, name)))
  {
  }

  /** An oversized config file is reported under the config header with the parser's
      message. */
  lemma OversizeConfigReported(data: Bytes, pos: nat, name: string, csvRowsName: string, fill: bool,
                               fillWith: string, configHeader: Option<string>, templateHeader: Option<string>,
                               s: Services)
    requires |data| > ConfigParsing.MaxFileSize
    ensures ConfigLoad(data, pos, name, csvRowsName, false, fill, fillWith, configHeader, templateHeader, s)
      == ConfigLoaded(None, Some(ErrorLine(configHeader, SizeMessage, name)))
  {
  }

  /** A dictionary that parses but measures over the limit is dropped without an error
      line: the parser's error is read before `parsed_dict` records the memory error. */
  lemma MemoryRefusalIsSilent(data: Bytes, pos: nat, name: string, csvRowsName: string, fill: bool,
                              fillWith: string, configHeader: Option<string>, templateHeader: Option<string>,
                              s: Services)
    requires LoadSource(data, pos, name, false, s.codecs).Some?
    requires var (b, p, n) := LoadSource(data, pos, name, false, s.codecs).value;
      var r := ParserResult(b, p, n, csvRowsName, fill, fillWith, s.parsers);
      r.Ok? && s.parsers.sizeOf(DictValue(r.value)) > ConfigParsing.MaxMemorySize
    ensures ConfigLoad(data, pos, name, csvRowsName, false, fill, fillWith, configHeader, templateHeader, s)
      == ConfigLoaded(None, None)
  {
  }

  /** A loaded dictionary is exactly what the parser produced for the file. */
  lemma ConfigLoadedIsParsed(data: Bytes, pos: nat, name: string, csvRowsName: string, auto: bool, fill: bool,
                             fillWith: string, configHeader: Option<string>, templateHeader: Option<string>,
                             s: Services)
    requires ConfigLoad(data, pos, name, csvRowsName, auto, fill, fillWith, configHeader, templateHeader, s).dict.Some?
    ensures LoadSource(data, pos, name, auto, s.codecs).Some?
    ensures var (b, p, n) := LoadSource(data, pos, name, auto, s.codecs).value;
      var r := ParserResult(b, p, n, csvRowsName, fill, fillWith, s.parsers);
      && ConfigLoad(data, pos, name, csvRowsName, auto, fill, fillWith, configHeader, templateHeader, s).error.None?
      && r == Ok(ConfigLoad(data, pos, name, csvRowsName, auto, fill, fillWith, configHeader, templateHeader, s).dict.value)
      && s.parsers.sizeOf(DictValue(r.value)) <= ConfigParsing.MaxMemorySize
  {
  }

  /** The error line `load_template_file` writes for an upload, if any. */
  function TemplateLoadError(data: Bytes, pos: nat, name: string, auto: bool, templateHeader: Option<string>,
                             s: Services): Option<string>
  {
    match LoadSource(data, pos, name, auto, s.codecs)
    case None => Some(ErrorLine(templateHeader, DecodingFailure, name))
    case Some((b, p, n)) =>
      match IntakeVerdict(b, p, s.engine)
      case Ok(_) => None
      case Err(m) => Some(ErrorLine(templateHeader, PyStr(ShownMessage(Some(m))), name))
  }

  /** The error line of an oversized template names the renderer's limit message. */
  lemma OversizeTemplateReported(data: Bytes, pos: nat, name: string, templateHeader: Option<string>, s: Services)
    requires |data| > DocumentRendering.MaxFileSize
    ensures TemplateLoadError(data, pos, name, false, templateHeader, s)
      == Some(ErrorLine(templateHeader, TemplateSecurity.TemplateSizeMessage(DocumentRendering.MaxFileSize), name))
  {
  }

  /** The parser's part of `load_config_file`: a `ConfigParser` over the upload, set up
      with the caller's options, parsed, and asked for its dictionary. */
  method ParseConfigSource(source: ByteStream, csvRowsName: string, enableFillNan: bool, fillNanWith: string,
                           parsers: Parsers) returns (dict: Option<Context>, error: Option<string>)
    modifies source
    ensures var pr := ParserResult(old(source.data), old(source.pos), old(source.name), csvRowsName, enableFillNan,
                                   fillNanWith, parsers);
      && (error.None? <==> pr.Ok?)
      && (pr.Err? ==> error == Some(pr.error))
      && (pr.Ok? ==> dict == if ConfigParsing.MemoryVerdict(parsers.sizeOf(DictValue(pr.value))).None? then Some(pr.value) else None)
  {
    var parser := new ConfigParser(source, parsers);
    parser.SetCsvRowsName(csvRowsName);
    parser.SetFillNanWith(Some(fillNanWith));
    parser.SetEnableFillNan(enableFillNan);
    var _ := parser.Parse();
    error := parser.errorMessage;
    dict := None;
    if error.None? {
      dict := parser.ParsedDict();
    }
  }

  class AppCore {
    var configDict: Option<Context>
    var render: Option<DocumentRender>
    var formattedText: Option<string>
    var configErrorMessage: Option<string>
    var templateErrorMessage: Option<string>
    var templateFilename: string
    const configErrorHeader: Option<string>
    const templateErrorHeader: Option<string>
    const services: Services

    /** `AppCore(config_error_header, template_error_header)`. */
    constructor (configErrorHeader: Option<string>, templateErrorHeader: Option<string>, services: Services)
      ensures this.configErrorHeader == configErrorHeader && this.templateErrorHeader == templateErrorHeader
      ensures this.services == services
      ensures configDict == None && render == None && formattedText == None
      ensures configErrorMessage == None && templateErrorMessage == None
    {
      this.configErrorHeader := configErrorHeader;
      this.templateErrorHeader := templateErrorHeader;
      this.services := services;
      configDict := None;
      render := None;
      formattedText := None;
      configErrorMessage := None;
      templateErrorMessage := None;
      templateFilename := "";
    }

    /** `load_config_file`: the dictionary is cleared first; without a named file
        nothing else happens, and a successful load keeps an older error line. */
    method LoadConfigFile(configFile: Option<ByteStream>, csvRowsName: string, enableAutoTranscoding: bool,
                          enableFillNan: bool, fillNanWith: string)
      modifies this, if configFile.Some? then {configFile.value} else {}
      ensures render == old(render) && formattedText == old(formattedText)
      ensures templateErrorMessage == old(templateErrorMessage) && templateFilename == old(templateFilename)
      ensures configFile.None? || old(configFile.value.name).None? ==>
        configDict == None && configErrorMessage == old(configErrorMessage)
      ensures configFile.Some? && old(configFile.value.name).Some? ==>
        var out := ConfigLoad(old(configFile.value.data), old(configFile.value.pos), old(configFile.value.name).value,
                              csvRowsName, enableAutoTranscoding, enableFillNan, fillNanWith,
                              configErrorHeader, templateErrorHeader, services);
        && configDict == out.dict
        && configErrorMessage == (if out.error.Some? then out.error else old(configErrorMessage))
    {
      configDict := None;
      if configFile.None? || configFile.value.name.None? {
        return;
      }
      var file := configFile.value;
      var configFilename := file.name.value;
      var source := file;
      if enableAutoTranscoding {
        var transcoder := new TextTranscoder(file, services.codecs);
        var converted := transcoder.Convert("utf-8");
        if converted.None? {
          configErrorMessage := Some(ErrorLine(templateErrorHeader, DecodingFailure, configFilename));
          return;
        }
        source := converted.value;
      }
      var dict, error := ParseConfigSource(source, csvRowsName, enableFillNan, fillNanWith, services.parsers);
      if error.None? {
        configDict := dict;
        return;
      }
      configErrorMessage := Some(ErrorLine(configErrorHeader, error.value, configFilename));
    }

    /** `load_template_file`: a renderer is stored for every named upload that could be
        decoded, even an invalid one, whose error is then reported; a valid one leaves
        any older error line in place. The source reads the upload's name unchecked. */
    method LoadTemplateFile(templateFile: Option<ByteStream>, enableAutoTranscoding: bool)
      requires templateFile.Some? ==> templateFile.value.name.Some?
      modifies this, if templateFile.Some? then {templateFile.value} else {}
      ensures configDict == old(configDict) && formattedText == old(formattedText)
      ensures configErrorMessage == old(configErrorMessage)
      ensures templateFile.None? ==>
        render == old(render) && templateErrorMessage == old(templateErrorMessage) && templateFilename == old(templateFilename)
      ensures templateFile.Some? ==>
        var name := old(templateFile.value.name).value;
        var src := LoadSource(old(templateFile.value.data), old(templateFile.value.pos), name, enableAutoTranscoding, services.codecs);
        var err := TemplateLoadError(old(templateFile.value.data), old(templateFile.value.pos), name,
                                     enableAutoTranscoding, templateErrorHeader, services);
        && templateErrorMessage == (if err.Some? then err else old(templateErrorMessage))
        && (src.None? ==> render == old(render) && templateFilename == old(templateFilename))
        && (src.Some? ==>
              && templateFilename == name && render.Some? && fresh(render.value) && fresh(render.value.state)
              && render.value.engine == services.engine
              && render.value.renderContent == None
              && (render.value.initialPassed <==> IntakeVerdict(src.value.0, src.value.1, services.engine).Ok?)
              && render.value.Loaded())
    {
      if templateFile.None? {
        return;
      }
      var file := templateFile.value;
      var templateName := file.name.value;
      var source := file;
      if enableAutoTranscoding {
        var transcoder := new TextTranscoder(file, services.codecs);
        var converted := transcoder.Convert("utf-8");
        if converted.None? {
          templateErrorMessage := Some(ErrorLine(templateErrorHeader, DecodingFailure, templateName));
          return;
        }
        source := converted.value;
      }
      var r := new DocumentRender(source, services.engine);
      if !r.IsValidTemplate() {
        templateErrorMessage := Some(ErrorLine(templateErrorHeader, PyStr(r.ErrorMessage()), templateName));
      }
      templateFilename := templateName;
      render := Some(r);
    }

    /** `apply`: the formatted text is cleared first; with a dictionary and a renderer the
        context is applied, and the outcome either sets the text and clears the template
        error or writes the renderer's error line. */
    method Apply(formatType: int, isStrictUndefined: bool)
      modifies this, if render.Some? then {render.value, render.value.state} else {}
      ensures configDict == old(configDict) && render == old(render) && configErrorMessage == old(configErrorMessage)
      ensures templateFilename == old(templateFilename)
      ensures old(configDict).None? || old(render).None? ==>
        formattedText == None && templateErrorMessage == old(templateErrorMessage)
      ensures old(configDict).Some? && old(render).Some? && !old(render.value.initialPassed) ==>
        formattedText == None
        && templateErrorMessage == Some(ErrorLine(templateErrorHeader, PyStr(old(render.value.ErrorMessage())), templateFilename))
      ensures old(configDict).Some? && old(render).Some? && old(render.value.initialPassed) ==>
        var rd := render.value;
        var res := ApplyResult(rd.templateContent, rd.ast, configDict.value, formatType, isStrictUndefined, rd.engine);
        && (res.Ok? ==> formattedText == Some(res.value) && templateErrorMessage == None)
        && (res.Err? ==>
              (formattedText == None
               && templateErrorMessage == Some(ErrorLine(templateErrorHeader, PyStr(ShownMessage(Some(res.error))), templateFilename))))
    {
      formattedText := None;
      if configDict.None? || render.None? {
        return;
      }
      var rd := render.value;
      var ok := rd.ApplyContext(configDict.value, formatType, isStrictUndefined);
      if !ok {
        templateErrorMessage := Some(ErrorLine(templateErrorHeader, PyStr(rd.ErrorMessage()), templateFilename));
        return;
      }
      formattedText := rd.renderContent;
      templateErrorMessage := None;
    }

    /** The `config_dict` setter. */
    method SetConfigDict(config: Option<Context>)
      modifies this
      ensures configDict == config
      ensures render == old(render) && formattedText == old(formattedText) && templateFilename == old(templateFilename)
      ensures configErrorMessage == old(configErrorMessage) && templateErrorMessage == old(templateErrorMessage)
    {
      configDict := config;
    }

    /** `get_download_content`: the formatted text in the requested encoding, or None
        without a text or for an unknown encoding. */
    function GetDownloadContent(encode: string): (r: Option<Bytes>)
      reads this
      ensures r.Some? ==> formattedText.Some? && services.codecs.encode(formattedText.value, encode) == r
      ensures formattedText.None? ==> r.None?
    {
      if formattedText.None? then None else services.codecs.encode(formattedText.value, encode)
    }

    /** `is_ready_formatted`. */
    function IsReadyFormatted(): (r: bool)
      reads this
      ensures r <==> formattedText.Some?
      ensures r ==> GetDownloadContent("utf-8").Some? || services.codecs.encode(formattedText.value, "utf-8").None?
    {
      formattedText.Some?
    }
  }
}

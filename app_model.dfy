/** The older `AppModel` of app.py: the same bookkeeping as `AppCore`, over a parser
    and a renderer (`GhostwriterParser`, `GhostwriterRender`) that are not part of this
    model and enter as functions. */
module LegacyApplication {
  import opened Base
  import opened Values
  import opened Streams
  import opened Messages

  /** What `GhostwriterParser().load_config_file(f).parse()` leaves behind. */
  datatype ParsedConfig = ParsedConfig(error: Option<string>, dict: Option<Context>, text: Option<string>)

  /** What `GhostwriterRender(...).load_template_file(f).apply_context(ctx)` leaves behind. */
  datatype RenderedTemplate = RenderedTemplate(error: Option<string>, content: Option<string>)

  /** The two collaborators, as functions of the upload (its bytes, read position and
      name) and of the other arguments. */
  datatype Ghostwriter = Ghostwriter(
    parse: (Bytes, nat, string) -> ParsedConfig,
    render: (Bytes, nat, string, Context, bool, bool) -> RenderedTemplate)

  /** Whether an upload reaches the collaborators at all: a `BytesIO` is always true,
      so this asks for a file with a name. */
  predicate Named(file: Option<ByteStream>)
    reads if file.Some? then {file.value} else {}
  {
    file.Some? && file.value.name.Some?
  }

  class AppModel {
    var configDict: Option<Context>
    var configStr: Option<string>
    var formattedText: Option<string>
    var configErrorMessage: Option<string>
    var templateErrorMessage: Option<string>
    const ghostwriter: Ghostwriter

    constructor (ghostwriter: Ghostwriter)
      ensures this.ghostwriter == ghostwriter
      ensures configDict == None && configStr == None && formattedText == None
      ensures configErrorMessage == None && templateErrorMessage == None
    {
      this.ghostwriter := ghostwriter;
      configDict := None;
      configStr := None;
      formattedText := None;
      configErrorMessage := None;
      templateErrorMessage := None;
    }

    /** `set_config_dict`. */
    method SetConfigDict(config: Option<Context>)
      modifies this
      ensures configDict == config
      ensures configStr == old(configStr) && formattedText == old(formattedText)
      ensures configErrorMessage == old(configErrorMessage) && templateErrorMessage == old(templateErrorMessage)
    {
      configDict := config;
    }

    /** `load_config_file`: False and no change without a named file; the parser's
        error becomes an error line; otherwise the dictionary and its text are stored. */
    method LoadConfigFile(configFile: Option<ByteStream>, errorHeader: string) returns (ok: bool)
      modifies this
      ensures formattedText == old(formattedText) && templateErrorMessage == old(templateErrorMessage)
      ensures !Named(configFile) ==>
        !ok && configDict == old(configDict) && configStr == old(configStr) && configErrorMessage == old(configErrorMessage)
      ensures Named(configFile) ==>
        var f := configFile.value;
        var out := ghostwriter.parse(f.data, f.pos, f.name.value);
        && (ok <==> out.error.None?)
        && (out.error.Some? ==>
              configErrorMessage == Some(ErrorLine(Some(errorHeader), out.error.value, f.name.value))
              && configDict == old(configDict) && configStr == old(configStr))
        && (out.error.None? ==>
              configDict == out.dict && configStr == out.text && configErrorMessage == old(configErrorMessage))
    {
      if !(configFile.Some? && configFile.value.name.Some?) {
        return false;
      }
      var f := configFile.value;
      var out := ghostwriter.parse(f.data, f.pos, f.name.value);
      if out.error.Some? {
        configErrorMessage := Some(ErrorLine(Some(errorHeader), out.error.value, f.name.value));
        return false;
      }
      configDict := out.dict;
      configStr := out.text;
      return true;
    }

    /** `load_template_file`: False and no change without a dictionary or a named file;
        the renderer's error becomes an error line; otherwise the rendered text is stored. */
    method LoadTemplateFile(templateFile: Option<ByteStream>, errorHeader: string, isStrictUndefined: bool,
                            isClearDupLines: bool) returns (ok: bool)
      modifies this
      ensures configDict == old(configDict) && configStr == old(configStr) && configErrorMessage == old(configErrorMessage)
      ensures configDict.None? || !Named(templateFile) ==>
        !ok && formattedText == old(formattedText) && templateErrorMessage == old(templateErrorMessage)
      ensures configDict.Some? && Named(templateFile) ==>
        var f := templateFile.value;
        var out := ghostwriter.render(f.data, f.pos, f.name.value, configDict.value, isStrictUndefined, isClearDupLines);
        && (ok <==> out.error.None?)
        && (out.error.Some? ==>
              templateErrorMessage == Some(ErrorLine(Some(errorHeader), out.error.value, f.name.value))
              && formattedText == old(formattedText))
        && (out.error.None? ==> formattedText == out.content && templateErrorMessage == old(templateErrorMessage))
    {
      var configData := configDict;
      if configData.None? {
        return false;
      }
      if !(templateFile.Some? && templateFile.value.name.Some?) {
        return false;
      }
      var f := templateFile.value;
      var out := ghostwriter.render(f.data, f.pos, f.name.value, configData.value, isStrictUndefined, isClearDupLines);
      if out.error.Some? {
        templateErrorMessage := Some(ErrorLine(Some(errorHeader), out.error.value, f.name.value));
        return false;
      }
      formattedText := out.content;
      return true;
    }

    /** `get_uploaded_filename`: the source reads the name of any upload it is given. */
    function GetUploadedFilename(file: Option<ByteStream>): (r: Option<string>)
      requires file.Some? ==> file.value.name.Some?
      reads if file.Some? then {file.value} else {}
      ensures r.Some? <==> file.Some?
      ensures r.Some? ==> r == file.value.name
    {
      if file.Some? then file.value.name else None
    }

    /** `is_ready_formatted`. */
    function IsReadyFormatted(): (r: bool)
      reads this
      ensures r <==> formattedText.Some?
    {
      formattedText.Some?
    }
  }

  /** A failed template load does not erase an earlier result: the text rendered before
      stays ready. */
  method FailedLoadKeepsResult(g: Ghostwriter, config: Context, f1: ByteStream, f2: ByteStream)
    returns (first: bool, second: bool, ready: bool)
    requires f1.name.Some? && f2.name.Some?
    requires g.render(f1.data, f1.pos, f1.name.value, config, true, false).error.None?
    requires g.render(f1.data, f1.pos, f1.name.value, config, true, false).content.Some?
    requires g.render(f2.data, f2.pos, f2.name.value, config, true, false).error.Some?
    ensures first && !second && ready
  {
    var m := new AppModel(g);
    m.SetConfigDict(Some(config));
    first := m.LoadTemplateFile(Some(f1), "Template error", true, false);
    second := m.LoadTemplateFile(Some(f2), "Template error", true, false);
    ready := m.IsReadyFormatted();
  }
}

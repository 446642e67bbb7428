/** The two pieces of text both application classes (`AppCore` of features/core.py and
    the older `AppModel` of app.py) build the same way: the error line shown for a
    file, and the name offered for a download. */
module Messages {
  import opened Base

  /** `f"{x}"` for an optional text: None prints as "None". */
  function PyStr(x: Option<string>): (r: string)
    ensures x.Some? ==> r == x.value
  {
    match x
    case None => "None"
    case Some(s) => s
  }

  /** `f"{header}: {message} in '{filename}'"`. */
  function ErrorLine(header: Option<string>, message: string, filename: string): string {
    PyStr(header) + ": " + message + " in '" + filename + "'"
  }

  /** The header, the message and the file name sit at fixed places in an error line,
      so each can be read back off it. */
  lemma ErrorLineParts(header: Option<string>, message: string, filename: string)
    ensures var line := ErrorLine(header, message, filename);
      var h := PyStr(header);
      && line[..|h|] == h
      && line[|h|..|h| + 2] == ": "
      && line[|h| + 2..|line| - |filename| - 6] == message
      && line[|line| - |filename| - 1..|line| - 1] == filename
  {
    var h := PyStr(header);
    var line := ErrorLine(header, message, filename);
    var tail := " in '" + filename + "'";
    assert line == h + ": " + message + tail;
    assert line[..|h|] == h;
    assert line[|h|..|h| + 2] == ": ";
    assert line[|h| + 2..|line| - |tail|] == message;
    assert line[|line| - |tail|..] == tail;
    assert tail[5..|tail| - 1] == filename;
    assert line[|line| - |filename| - 1..|line| - 1] == line[|line| - |tail|..][5..|tail| - 1];
  }

  /** The timestamp suffix: `"_" + datetime.today().strftime("%Y-%m-%d_%H%M%S")`, with the
      clock reading passed in as `timestamp`. */
  function Suffix(isAppendTimestamp: bool, timestamp: string): string {
    if isAppendTimestamp then "_" + timestamp else ""
  }

  /** `get_download_filename`: None when either part is missing, otherwise the name,
      the optional timestamp suffix, a dot and the extension. */
  function DownloadFilename(filename: Option<string>, fileExt: Option<string>, isAppendTimestamp: bool,
                            timestamp: string): (r: Option<string>)
    ensures r.None? <==> filename.None? || fileExt.None?
  {
    if filename.None? || fileExt.None? then None
    else Some(filename.value + Suffix(isAppendTimestamp, timestamp) + "." + fileExt.value)
  }

  /** A download name starts with the given name and ends with a dot and the
      extension; without a timestamp nothing else is added. */
  lemma DownloadFilenameShape(filename: string, fileExt: string, isAppendTimestamp: bool, timestamp: string)
    ensures var r := DownloadFilename(Some(filename), Some(fileExt), isAppendTimestamp, timestamp).value;
      && r[..|filename|] == filename
      && r[|r| - |fileExt| - 1..] == "." + fileExt
      && (!isAppendTimestamp ==> |r| == |filename| + 1 + |fileExt|)
      && (isAppendTimestamp ==> r[|filename|..|filename| + 1 + |timestamp|] == "_" + timestamp)
  {
    var r := DownloadFilename(Some(filename), Some(fileExt), isAppendTimestamp, timestamp).value;
    var s := Suffix(isAppendTimestamp, timestamp);
    assert r == filename + s + "." + fileExt;
    assert r[|filename|..|filename| + |s|] == s;
  }
}

/** Locating the site's stylesheet and script in a page's HTML
    (`getURL`, `getFirstCapturingGroup`, `getStylesheetPathFromHTML`,
    `getScriptPathFromHTML` in src/index.ts). The regular-expression scan
    itself is abstract: a lookup receives the first capture group of the first
    match, or `None` when the expression does not match. */
module AssetLocator {
  import opened Wrappers

  /** `getFirstCapturingGroup` throws a ReferenceError. */
  datatype CaptureError = NoCaptureGroup

  /** The two errors the asset lookups rethrow with their own message. */
  datatype AssetError = StylesheetNotFound | ScriptNotFound

  /** `getURL`: the path is taken relative to the origin, dropping one leading slash. */
  function GetUrl(origin: string, filePath: string): (r: string)
    ensures |r| >= |origin| + 1 && r[..|origin| + 1] == origin + "/"
    ensures filePath != [] && filePath[0] == '/' ==> "/" + r[|origin| + 1..] == filePath
    ensures !(filePath != [] && filePath[0] == '/') ==> r[|origin| + 1..] == filePath
  {
    origin + "/" + (if filePath != [] && filePath[0] == '/' then filePath[1..] else filePath)
  }

  /** `getFirstCapturingGroup`: succeeds exactly on a non-empty capture. */
  function FirstCapturingGroup(capture: Option<string>): (r: Result<string, CaptureError>)
    ensures r.Success? <==> capture.Some? && capture.value != ""
    ensures r.Success? ==> r.value == capture.value
  {
    if capture.Some? && capture.value != "" then Success(capture.value) else Failure(NoCaptureGroup)
  }

  /** Shared body of the two lookups: a missing capture becomes `notFound`,
      a found one is joined to the origin. */
  function LocateAsset(capture: Option<string>, origin: string, notFound: AssetError): (r: Result<string, AssetError>)
    ensures r.Failure? <==> capture.None? || capture == Some("")
    ensures r.Failure? ==> r.error == notFound
    ensures r.Success? ==> r.value == GetUrl(origin, capture.value) && r.value != ""
  {
    match FirstCapturingGroup(capture)
    case Failure(_) => Failure(notFound)
    case Success(filePath) => Success(GetUrl(origin, filePath))
  }

  /** `getStylesheetPathFromHTML`, given the capture of the `styles*.css` href. */
  function StylesheetPath(capture: Option<string>, origin: string): (r: Result<string, AssetError>)
    ensures r.Failure? <==> capture.None? || capture == Some("")
    ensures r.Failure? ==> r.error == StylesheetNotFound
    ensures r.Success? ==> r.value == GetUrl(origin, capture.value) && r.value != ""
  {
    LocateAsset(capture, origin, StylesheetNotFound)
  }

  /** `getScriptPathFromHTML`, given the capture of the `styles*.js` src. */
  function ScriptPath(capture: Option<string>, origin: string): (r: Result<string, AssetError>)
    ensures r.Failure? <==> capture.None? || capture == Some("")
    ensures r.Failure? ==> r.error == ScriptNotFound
    ensures r.Success? ==> r.value == GetUrl(origin, capture.value) && r.value != ""
  {
    LocateAsset(capture, origin, ScriptNotFound)
  }
}

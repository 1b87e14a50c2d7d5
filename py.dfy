/** Python values and exceptions as the service code sees them. */
module Py {

  datatype Option<+T> = None | Some(value: T)

  /** The exceptions a modelled step can raise. */
  datatype PyError =
    | IndexError              // a list or array index out of range
    | KeyError(key: string)   // a missing dictionary key
    | TypeError               // e.g. subscripting None, indexing a str with a str
    | ReadNetworkError        // the engine could not read the model files
    | DeviceLoadError         // the engine could not load the network onto the device
    | FileError               // the label file could not be opened
    | RequestError            // `requests.get` could not reach the URL
    | ArchiveError            // `tarfile` could not open or extract the archive

  /** A Python call either returns a value or raises. */
  datatype Result<+T> = Ok(value: T) | Raised(error: PyError)

  /** `if s:` for a value that is None or a str. */
  predicate Truthy(s: Option<string>)
    ensures Truthy(s) <==> s != None && s != Some("")
  {
    s.Some? && s.value != ""
  }

  /** `s[k]` on a Python list or numpy array: negative indices count from the end. */
  function Index<T>(s: seq<T>, k: int): (r: Result<T>)
    ensures r.Ok? <==> -|s| <= k < |s|
    ensures r.Ok? ==> r.value == s[if k < 0 then |s| + k else k]
  {
    if 0 <= k < |s| then Ok(s[k])
    else if -|s| <= k < 0 then Ok(s[|s| + k])
    else Raised(IndexError)
  }
}

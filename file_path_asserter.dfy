/** FilePathAsserter: classifies a path string by what it starts with. */
module FilePathAsserter {

  /** `s.hasPrefix(prefix)`, character by character. */
  function HasPrefix(s: string, prefix: string): (r: bool)
    ensures r <==> prefix <= s
  {
    prefix == [] || (s != [] && s[0] == prefix[0] && HasPrefix(s[1..], prefix[1..]))
  }

  /** `s.hasSuffix(suffix)`: `s` is some text followed by `suffix`. */
  function HasSuffix(s: string, suffix: string): (r: bool)
    ensures r <==> |suffix| <= |s| && s == s[..|s| - |suffix|] + suffix
  {
    |suffix| <= |s| && s[|s| - |suffix|..] == suffix
  }

  /** `isAbsolute(_:pathSeperator:)`: "/Users/John/" as opposed to "../" or
      "styles/"; the path starts with the separator. */
  function IsAbsolute(path: string, pathSeparator: string := "/"): (r: bool)
    ensures r <==> pathSeparator <= path
  {
    HasPrefix(path, pathSeparator)
  }

  /** `isBacklash(_:)`: the path climbs out of its base with "../". */
  function IsBacklash(path: string): (r: bool)
    ensures r <==> |path| >= 3 && path[..3] == "../"
  {
    HasPrefix(path, "../")
  }

  /** `isFilePath(_:pathSeperator:)`: the path starts with the separator, or
      with ".." and the separator. */
  function IsFilePath(path: string, pathSeparator: string := "/"): (r: bool)
    ensures r <==> pathSeparator <= path || ".." + pathSeparator <= path
  {
    HasPrefix(path, pathSeparator) || HasPrefix(path, ".." + pathSeparator)
  }

  /** `isTildePath(_:)`: the path is relative to the home directory; its
      first character is "~". */
  function IsTildePath(path: string): (r: bool)
    ensures r <==> |path| > 0 && path[0] == '~'
  {
    HasPrefix(path, "~")
  }

  /** With the default separator, a "../" path is a file path and is not absolute. */
  lemma BacklashIsRelativeFilePath(path: string)
    requires IsBacklash(path)
    ensures IsFilePath(path) && !IsAbsolute(path)
  {
  }

  /** With the default separator, the file paths are exactly the absolute and the "../" paths. */
  lemma FilePathIsAbsoluteOrBacklash(path: string)
    ensures IsFilePath(path) <==> IsAbsolute(path) || IsBacklash(path)
  {
  }

  /** A tilde path is neither absolute nor a "../" path. */
  lemma TildeExcludesOthers(path: string)
    requires IsTildePath(path)
    ensures !IsAbsolute(path) && !IsBacklash(path) && !IsFilePath(path)
  {
  }
}

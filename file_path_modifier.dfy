/** FilePathModifier.expand: turns a tilde, "../", absolute or bare path into
    a full path against a base. The three host services it relies on are
    parameters: `tildeExpand` (String.tildePath, NSString's
    expandingTildeInPath), `normalize` (FilePathModifier.normalize, URL
    standardisation, which may fail) and `fileExists` (FileAsserter.exists). */
module FilePathModifier {
  import opened Common
  import opened FilePathAsserter

  /** `baseURL` with a "/" appended unless it already ends in one. */
  function WithTrailingSlash(baseURL: string): (r: string)
    ensures HasSuffix(r, "/")
    ensures baseURL <= r && |r| <= |baseURL| + 1
    ensures HasSuffix(baseURL, "/") ==> r == baseURL
  {
    if HasSuffix(baseURL, "/") then baseURL else baseURL + "/"
  }

  /** `expand(_:baseURL:)`: the first branch that applies wins: tilde path,
      "../" path, existing path, absolute path, bare name. */
  function Expand(filePath: string, baseURL: string,
                  tildeExpand: string -> string,
                  normalize: string -> Option<string>,
                  fileExists: string -> bool): (r: Option<string>)
    ensures r.None? ==> !IsTildePath(filePath) && IsBacklash(filePath)
                        && normalize(WithTrailingSlash(baseURL) + filePath).None?
  {
    if IsTildePath(filePath) then Some(tildeExpand(filePath))
    else if IsBacklash(filePath) then normalize(WithTrailingSlash(baseURL) + filePath)
    else if fileExists(filePath) then Some(filePath)
    else if IsAbsolute(filePath) then Some(baseURL + filePath)
    else Some(WithTrailingSlash(baseURL) + filePath)
  }

  /** A tilde path is expanded from the home directory, whatever the base. */
  lemma ExpandTilde(filePath: string, baseURL: string, tildeExpand: string -> string,
                    normalize: string -> Option<string>, fileExists: string -> bool)
    requires IsTildePath(filePath)
    ensures Expand(filePath, baseURL, tildeExpand, normalize, fileExists) == Some(tildeExpand(filePath))
  {
  }

  /** A "../" path is normalised after the base, with a "/" between them. */
  lemma ExpandBacklash(filePath: string, baseURL: string, tildeExpand: string -> string,
                       normalize: string -> Option<string>, fileExists: string -> bool)
    requires IsBacklash(filePath)
    ensures Expand(filePath, baseURL, tildeExpand, normalize, fileExists) ==
            normalize(WithTrailingSlash(baseURL) + filePath)
  {
  }

  /** Any other path that exists comes back unchanged. */
  lemma ExpandExisting(filePath: string, baseURL: string, tildeExpand: string -> string,
                       normalize: string -> Option<string>, fileExists: string -> bool)
    requires !IsTildePath(filePath) && !IsBacklash(filePath) && fileExists(filePath)
    ensures Expand(filePath, baseURL, tildeExpand, normalize, fileExists) == Some(filePath)
  {
  }

  /** An absolute path that does not exist is put after the base as it is,
      with no separator added. */
  lemma ExpandAbsoluteMissing(filePath: string, baseURL: string, tildeExpand: string -> string,
                              normalize: string -> Option<string>, fileExists: string -> bool)
    requires IsAbsolute(filePath) && !fileExists(filePath)
    ensures Expand(filePath, baseURL, tildeExpand, normalize, fileExists) == Some(baseURL + filePath)
  {
  }

  /** Anything else is a name under the base, with a "/" between them. */
  lemma ExpandBareName(filePath: string, baseURL: string, tildeExpand: string -> string,
                       normalize: string -> Option<string>, fileExists: string -> bool)
    requires !IsTildePath(filePath) && !IsBacklash(filePath) && !fileExists(filePath) && !IsAbsolute(filePath)
    ensures Expand(filePath, baseURL, tildeExpand, normalize, fileExists) ==
            Some(WithTrailingSlash(baseURL) + filePath)
  {
  }

  /** With the default empty base, an absolute path comes back unchanged
      whether it exists or not, and a bare name gets a leading "/". */
  lemma ExpandDefaultBase(filePath: string, tildeExpand: string -> string,
                          normalize: string -> Option<string>, fileExists: string -> bool)
    ensures IsAbsolute(filePath) ==> Expand(filePath, "", tildeExpand, normalize, fileExists) == Some(filePath)
    ensures !IsTildePath(filePath) && !IsBacklash(filePath) && !fileExists(filePath) && !IsAbsolute(filePath)
            ==> Expand(filePath, "", tildeExpand, normalize, fileExists) == Some("/" + filePath)
  {
    assert "" + filePath == filePath;
    assert WithTrailingSlash("") == "/";
  }

  /** The documentation's example of an absolute path that does not exist:
      it is put after the base as it is. */
  lemma ExpandExampleAbsolute(tildeExpand: string -> string, normalize: string -> Option<string>,
                              fileExists: string -> bool)
    requires !fileExists("/temp/colors/star.svg")
    ensures Expand("/temp/colors/star.svg", "/Users/John/Desktop", tildeExpand, normalize, fileExists)
            == Some("/Users/John/Desktop/temp/colors/star.svg")
  {
    var p, base := "/temp/colors/star.svg", "/Users/John/Desktop";
    assert IsAbsolute(p);
    ExpandAbsoluteMissing(p, base, tildeExpand, normalize, fileExists);
    assert base + p == "/Users/John/Desktop/temp/colors/star.svg";
  }

  /** The documentation's example of a bare name: it goes under the base,
      after a "/". */
  lemma ExpandExampleBareName(tildeExpand: string -> string, normalize: string -> Option<string>,
                              fileExists: string -> bool)
    requires !fileExists("star.svg")
    ensures Expand("star.svg", "/Users/John/Desktop", tildeExpand, normalize, fileExists)
            == Some("/Users/John/Desktop/star.svg")
  {
    var p, base := "star.svg", "/Users/John/Desktop";
    assert !IsTildePath(p) && !IsBacklash(p) && !IsAbsolute(p);
    ExpandBareName(p, base, tildeExpand, normalize, fileExists);
    assert WithTrailingSlash(base) == "/Users/John/Desktop/";
    assert "/Users/John/Desktop/" + p == "/Users/John/Desktop/star.svg";
  }

  /** The result is not always absolute: a relative name that exists comes
      back unchanged, and a relative base gives a relative result. */
  lemma ExpandMayBeRelative(tildeExpand: string -> string, normalize: string -> Option<string>,
                            fileExists: string -> bool)
    ensures fileExists("a.txt") ==> Expand("a.txt", "/base", tildeExpand, normalize, fileExists) == Some("a.txt")
    ensures !fileExists("a.txt") ==> Expand("a.txt", "base", tildeExpand, normalize, fileExists) == Some("base/a.txt")
    ensures !IsAbsolute("a.txt") && !IsAbsolute("base/a.txt")
  {
    var p := "a.txt";
    assert !IsTildePath(p) && !IsBacklash(p) && !IsAbsolute(p);
    assert !IsAbsolute("base/a.txt");
    if !fileExists(p) {
      assert WithTrailingSlash("base") == "base/";
      assert "base/" + p == "base/a.txt";
    }
  }
}

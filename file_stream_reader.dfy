/** FileStreamReader: reads a byte span of a file, the size of a file, and a
    span decoded as text. */
module FileStreamReader {
  import opened Common
  import opened Host

  /** What a read of [start, end) returns from a file holding `contents`:
      the bytes of the span that exist, and an error for a reversed span. */
  function ReadRange(contents: seq<byte>, start: nat, end: int): (r: Result<seq<byte>>)
    ensures r.Err? <==> end < start
    ensures r.Err? ==> r.error == InvalidRange
    ensures r.Ok? ==> |r.value| <= end - start
    ensures r.Ok? && end <= |contents| ==> r.value == contents[start..end]
    ensures r.Ok? && start <= |contents| ==> r.value == contents[start..Min(end, |contents|)]
    ensures r.Ok? && |contents| <= start ==> r.value == []
  {
    if end < start then Err(InvalidRange) else Ok(Piece(contents, start, end - start))
  }

  /** What `read(url:startIndex:endIndex:)` returns on the filesystem `files`:
      no data at all from a missing file. */
  function ReadFile(files: map<string, seq<byte>>, path: string, start: nat, end: int): (r: Result<seq<byte>>)
    ensures r.Err? <==> path !in files || end < start
    ensures r == Err(NotFound) <==> path !in files
    ensures r.Ok? ==> |r.value| <= end - start && r.value <= files[path][Min(start, |files[path]|)..]
  {
    if path !in files then Err(NotFound) else ReadRange(files[path], start, end)
  }

  /** `read(url:startIndex:endIndex:)`. The file is opened before the span is
      looked at, so a missing file reports NotFound whatever the span. */
  method Read(fs: FileSystem, url: string, startIndex: u64, endIndex: Int64) returns (r: Result<seq<byte>>)
    requires startIndex <= INT_MAX  // Int(startIndex) traps above Int.max
    ensures r == ReadFile(fs.files, url, startIndex, endIndex)
  {
    var file := OpenForReading(fs, url);
    if file == null {
      return Err(NotFound);
    }
    file.Seek(startIndex);
    if endIndex < startIndex {
      file.CloseFile();
      return Err(InvalidRange);
    }
    var length := endIndex - startIndex;
    var buffer := file.ReadData(length);
    file.CloseFile();
    return Ok(buffer);
  }

  /** `read(filePath:startIndex:endIndex:)`: the same read, addressed by path. */
  method ReadAtPath(fs: FileSystem, filePath: string, startIndex: u64, endIndex: Int64) returns (r: Result<seq<byte>>)
    requires startIndex <= INT_MAX
    ensures r == ReadFile(fs.files, filePath, startIndex, endIndex)
  {
    r := Read(fs, filePath, startIndex, endIndex);
  }

  /** `getFileSize(filePath:)`: the number of bytes in the file. */
  function GetFileSize(files: map<string, seq<byte>>, filePath: string): (r: Result<nat>)
    ensures r.Err? <==> filePath !in files
    ensures r.Err? ==> r.error == NotFound
    ensures r.Ok? ==> r.value == |files[filePath]|
  {
    if filePath in files then Ok(|files[filePath]|) else Err(NotFound)
  }

  /** What `read(filePath:start:end:)` returns: the span decoded by `decode`
      (UTF-8 in the source), or the read's own error, or DecodeFailure. */
  function ReadText(files: map<string, seq<byte>>, path: string, start: nat, end: int,
                    decode: seq<byte> -> Option<string>): (r: Result<string>)
    ensures path !in files ==> r == Err(NotFound)
    ensures path in files && end < start ==> r == Err(InvalidRange)
    ensures path in files && start <= end && decode(ReadRange(files[path], start, end).value).None?
            ==> r == Err(DecodeFailure)
    ensures path in files && start <= end && decode(ReadRange(files[path], start, end).value).Some?
            ==> r == Ok(decode(ReadRange(files[path], start, end).value).value)
    ensures r.Ok? ==> path in files && start <= end
                      && decode(ReadRange(files[path], start, end).value) == Some(r.value)
  {
    match ReadFile(files, path, start, end)
    case Err(e) => Err(e)
    case Ok(data) => if decode(data).Some? then Ok(decode(data).value) else Err(DecodeFailure)
  }

  /** `read(filePath:start:end:)` with its decoder as a parameter. */
  method ReadString(fs: FileSystem, filePath: string, start: u64, end: Int64,
                    decode: seq<byte> -> Option<string>) returns (r: Result<string>)
    requires start <= INT_MAX
    ensures r == ReadText(fs.files, filePath, start, end, decode)
  {
    var data := ReadAtPath(fs, filePath, start, end);
    if data.Err? {
      return Err(data.error);
    }
    var text := decode(data.value);
    if text.None? {
      return Err(DecodeFailure);
    }
    return Ok(text.value);
  }

  // Properties of reads.

  /** A missing file never yields data or a size, whatever the span. */
  lemma ReadMissingFails(files: map<string, seq<byte>>, path: string, start: nat, end: int)
    requires path !in files
    ensures ReadFile(files, path, start, end) == Err(NotFound)
    ensures GetFileSize(files, path) == Err(NotFound)
  {
  }

  /** On an existing file the read is the span read from its contents, and
      the size is its number of bytes. */
  lemma ReadExisting(files: map<string, seq<byte>>, path: string, start: nat, end: int)
    requires path in files
    ensures ReadFile(files, path, start, end) == ReadRange(files[path], start, end)
    ensures GetFileSize(files, path) == Ok(|files[path]|)
  {
  }

  /** Reading [0, size) returns the whole file. */
  lemma ReadWholeFile(files: map<string, seq<byte>>, path: string)
    requires GetFileSize(files, path).Ok?
    ensures ReadFile(files, path, 0, GetFileSize(files, path).value) == Ok(files[path])
  {
    assert files[path][0..|files[path]|] == files[path];
  }
}

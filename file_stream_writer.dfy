/** FileStreamWriter: writes a byte buffer at an arbitrary offset of a file,
    in place, creating the file first when it does not exist; and empties a
    file. */
module FileStreamWriter {
  import opened Common
  import opened Host

  /** The bytes a successful write of `data` at `index` leaves at `path`.
      A missing file is first created holding `data` itself, and `data` is
      then written again at `index` over that. A write never shortens a file. */
  function Written(files: map<string, seq<byte>>, path: string, data: seq<byte>, index: nat): (r: seq<byte>)
    ensures path in files ==> |files[path]| <= |r|
    ensures path !in files ==> |data| <= |r|
  {
    Overwrite(if path in files then files[path] else data, index, data)
  }

  /** `write(url:data:index:)`. */
  method Write(fs: FileSystem, url: string, data: seq<byte>, index: u64) returns (r: Result<()>)
    requires index <= INT_MAX  // seek(toFileOffset:) raises above the largest off_t
    modifies fs
    ensures r == if url in old(fs.unwritable) then Err(IOFailure) else Ok(())
    ensures fs.files == if r.Ok? then old(fs.files)[url := Written(old(fs.files), url, data, index)]
                        else old(fs.files)
    ensures fs.unwritable == old(fs.unwritable)
  {
    var fileExists := url in fs.files;
    if !fileExists {
      var created := WriteAtomically(fs, url, data);
      if !created {
        return Err(IOFailure);
      }
    }
    var file := OpenForUpdating(fs, url);
    if file == null {
      return Err(IOFailure);
    }
    file.Seek(index);
    file.WriteData(data);
    file.CloseFile();
    return Ok(());
  }

  /** `truncateFile(filePath:)`: opening for update needs an existing file. */
  method TruncateFile(fs: FileSystem, filePath: string) returns (r: Result<()>)
    modifies fs
    ensures r == if filePath in old(fs.files) && filePath !in old(fs.unwritable) then Ok(())
                 else Err(IOFailure)
    ensures fs.files == if r.Ok? then old(fs.files)[filePath := []] else old(fs.files)
    ensures fs.unwritable == old(fs.unwritable)
  {
    var file := OpenForUpdating(fs, filePath);
    if file == null {
      return Err(IOFailure);
    }
    file.TruncateFile(0);
    file.CloseFile();
    return Ok(());
  }

  /** `write(filePath:data:index:)`: the same write, addressed by path. */
  method WriteAtPath(fs: FileSystem, filePath: string, data: seq<byte>, index: u64) returns (r: Result<()>)
    requires index <= INT_MAX
    modifies fs
    ensures r == if filePath in old(fs.unwritable) then Err(IOFailure) else Ok(())
    ensures fs.files == if r.Ok? then old(fs.files)[filePath := Written(old(fs.files), filePath, data, index)]
                        else old(fs.files)
    ensures fs.unwritable == old(fs.unwritable)
  {
    r := Write(fs, filePath, data, index);
  }

  // Properties of a successful write.

  /** The written span holds `data` afterwards; writing no bytes leaves the
      file as it was, and a file it had to create stays empty. */
  lemma WrittenSpan(files: map<string, seq<byte>>, path: string, data: seq<byte>, index: nat)
    ensures data != [] ==> index + |data| <= |Written(files, path, data, index)|
    ensures data != [] ==> Written(files, path, data, index)[index..index + |data|] == data
    ensures data == [] ==> Written(files, path, data, index) == if path in files then files[path] else []
  {
  }

  /** The new size is the old size, or the end of the span when that is
      further and something was written; a missing file counts as already
      holding `data`. */
  lemma WrittenSize(files: map<string, seq<byte>>, path: string, data: seq<byte>, index: nat)
    ensures |Written(files, path, data, index)| ==
            if data == [] then (if path in files then |files[path]| else 0)
            else Max(if path in files then |files[path]| else |data|, index + |data|)
  {
  }

  /** On a file that did not exist, the bytes before the span are the start
      of `data` (from the creating write), and between the end of that copy
      and `index` they are zeros; an empty write leaves the created file
      empty. */
  lemma WrittenFreshFile(files: map<string, seq<byte>>, path: string, data: seq<byte>, index: nat)
    requires path !in files
    ensures data == [] ==> Written(files, path, data, index) == []
    ensures data != [] ==> Written(files, path, data, index)[..Min(index, |data|)] == data[..Min(index, |data|)]
    ensures data != [] ==> forall i :: |data| <= i < index ==> Written(files, path, data, index)[i] == 0
  {
    var w := Written(files, path, data, index);
    var k := Min(index, |data|);
    if data != [] {
      assert forall i :: 0 <= i < k ==> w[..k][i] == data[..k][i];
    }
  }

  /** A write replaces and never inserts: on an existing file, every byte
      outside the span that was there before is still there, and when
      something was written every byte between the old end and `index` is
      zero. */
  lemma WriteOverwrites(files: map<string, seq<byte>>, path: string, data: seq<byte>, index: nat)
    requires path in files
    ensures var w := Written(files, path, data, index);
            forall i :: 0 <= i < |files[path]| && (i < index || index + |data| <= i) ==> w[i] == files[path][i]
    ensures var w := Written(files, path, data, index);
            data != [] ==> forall i :: |files[path]| <= i < index ==> w[i] == 0
  {
  }

  /** Writing at the end of an existing file appends. */
  lemma WriteAtEndAppends(files: map<string, seq<byte>>, path: string, data: seq<byte>)
    requires path in files
    ensures Written(files, path, data, |files[path]|) == files[path] + data
  {
    var c := files[path];
    var w := Written(files, path, data, |c|);
    assert |w| == |c + data|;
    forall i | 0 <= i < |w| ensures w[i] == (c + data)[i] {
      if i >= |c| {
        assert w[|c|..|c| + |data|][i - |c|] == data[i - |c|];
      }
    }
  }

  /** Writing at offset 0 of a missing file leaves exactly `data`. */
  lemma WriteFreshAtZero(files: map<string, seq<byte>>, path: string, data: seq<byte>)
    requires path !in files
    ensures Written(files, path, data, 0) == data
  {
    var w := Written(files, path, data, 0);
    assert w[0..|data|] == data;
    assert w == w[0..|data|];
  }

  /** A write over a span of the same length swaps exactly that span. */
  lemma WriteReplacesSpan(files: map<string, seq<byte>>, path: string, before: seq<byte>,
                          span: seq<byte>, after: seq<byte>, data: seq<byte>)
    requires path in files && files[path] == before + span + after && |data| == |span|
    ensures Written(files, path, data, |before|) == before + data + after
  {
    var w := Written(files, path, data, |before|);
    var expected := before + data + after;
    assert |w| == |expected|;
    forall i | 0 <= i < |w| ensures w[i] == expected[i] {
      if |before| <= i < |before| + |data| {
        assert w[|before|..|before| + |data|][i - |before|] == data[i - |before|];
      }
    }
  }
}

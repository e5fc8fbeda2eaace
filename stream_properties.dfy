/** How the reader, the writer and append fit together: round trips, what a
    write leaves alone, sizes, and the concrete outcomes the test suite
    expects. */
module StreamProperties {
  import opened Common
  import opened FileStreamWriter
  import opened FileStreamReader
  import opened FileModifier

  /** Reading back the span just written returns exactly what was written. */
  lemma WriteThenRead(files: map<string, seq<byte>>, path: string, data: seq<byte>, index: nat)
    ensures ReadFile(files[path := Written(files, path, data, index)], path, index, index + |data|) == Ok(data)
  {
    WrittenSpan(files, path, data, index);
  }

  /** A read of an existing file that does not touch the written span returns
      what it returned before the write. */
  lemma WriteKeepsOtherReads(files: map<string, seq<byte>>, path: string, data: seq<byte>, index: nat,
                             start: nat, end: nat)
    requires path in files && start <= end <= |files[path]|
    requires end <= index || index + |data| <= start
    ensures ReadFile(files[path := Written(files, path, data, index)], path, start, end) ==
            ReadFile(files, path, start, end)
  {
    var w := Written(files, path, data, index);
    WriteOverwrites(files, path, data, index);
    WrittenSize(files, path, data, index);
    assert w[start..end] == files[path][start..end];
  }

  /** The size after a write: the old size or the end of the span, whichever
      is larger; a missing file counts as holding `data`. Writing no bytes
      keeps the old size, and leaves a file it had to create empty. */
  lemma SizeAfterWrite(files: map<string, seq<byte>>, path: string, data: seq<byte>, index: nat)
    ensures GetFileSize(files[path := Written(files, path, data, index)], path) ==
            if data == [] then Ok(if path in files then |files[path]| else 0)
            else Ok(Max(if path in files then |files[path]| else |data|, index + |data|))
  {
    WrittenSize(files, path, data, index);
  }

  /** A truncated file has size zero and reads back nothing. */
  lemma SizeAfterTruncate(files: map<string, seq<byte>>, path: string, start: nat, end: nat)
    requires start <= end
    ensures GetFileSize(files[path := []], path) == Ok(0)
    ensures ReadFile(files[path := []], path, start, end) == Ok([])
  {
  }

  /** Appending bytes to an existing file the host lets us write is the same
      as the range writer writing them at the old end of the file. */
  lemma AppendIsWriteAtEnd(files: map<string, seq<byte>>, unwritable: set<string>, path: string,
                           bytes: seq<byte>)
    requires path in files && path !in unwritable
    ensures Appended(files, unwritable, path, bytes) ==
            files[path := Written(files, path, bytes, |files[path]|)]
  {
    WriteAtEndAppends(files, path, bytes);
  }
}

/** The outcomes the test suite asserts, as facts about the model. The tests
    turn ASCII text into bytes with `"...".data(using: .utf8)`; on ASCII text
    that is `AsciiBytes` (Utf8.EncodeAscii). */
module Scenarios {
  import opened Common
  import opened FileStreamWriter
  import opened FileStreamReader
  import opened FileModifier
  import opened Utf8

  /** "Hello, " written at 0 of a new file, then "World!" at 7, reads back as
      "Hello, World!". */
  lemma HelloWorld(files: map<string, seq<byte>>, path: string)
    requires path !in files
    ensures var first := files[path := Written(files, path, AsciiBytes("Hello, "), 0)];
            var second := first[path := Written(first, path, AsciiBytes("World!"), 7)];
            ReadFile(second, path, 0, 13) == Ok(AsciiBytes("Hello, World!"))
  {
    var x, y := "Hello, ", "World!";
    assert x + y == "Hello, World!";
    AsciiBytesConcat(x, y);
    WriteFreshAtZero(files, path, AsciiBytes(x));
    var first := files[path := AsciiBytes(x)];
    WriteAtEndAppends(first, path, AsciiBytes(y));
    ReadWholeFile(first[path := AsciiBytes(x + y)], path);
  }

  /** "ABCDEFGH" written at 0 of a new file, then "123" at 3, reads back as
      "ABC123GH": the write replaces, it does not insert. */
  lemma OverwriteInTheMiddle(files: map<string, seq<byte>>, path: string)
    requires path !in files
    ensures var first := files[path := Written(files, path, AsciiBytes("ABCDEFGH"), 0)];
            var second := first[path := Written(first, path, AsciiBytes("123"), 3)];
            ReadFile(second, path, 0, 8) == Ok(AsciiBytes("ABC123GH"))
  {
    var a, d, g, n := "ABC", "DEF", "GH", "123";
    var before, span, after, data := AsciiBytes(a), AsciiBytes(d), AsciiBytes(g), AsciiBytes(n);
    assert a + d + g == "ABCDEFGH";
    assert a + n + g == "ABC123GH";
    AsciiBytesConcat(a, d);
    AsciiBytesConcat(a + d, g);
    AsciiBytesConcat(a, n);
    AsciiBytesConcat(a + n, g);
    WriteFreshAtZero(files, path, before + span + after);
    var first := files[path := before + span + after];
    WriteReplacesSpan(first, path, before, span, after, data);
    var second := first[path := before + data + after];
    ReadWholeFile(second, path);
  }

  /** "Test Data" written at 1000 of a new file: the size is 1009 and
      [1000, 1009) reads back as "Test Data". */
  lemma WriteBeyondEnd(files: map<string, seq<byte>>, path: string)
    requires path !in files
    ensures var after := files[path := Written(files, path, AsciiBytes("Test Data"), 1000)];
            GetFileSize(after, path) == Ok(1009)
            && ReadFile(after, path, 1000, 1009) == Ok(AsciiBytes("Test Data"))
  {
    var d := AsciiBytes("Test Data");
    WrittenSize(files, path, d, 1000);
    WrittenSpan(files, path, d, 1000);
  }

  /** [5, 10) of a file holding the alphabet reads as "FGHIJ". */
  lemma ReadOffset(files: map<string, seq<byte>>, path: string)
    requires path in files && files[path] == AsciiBytes("ABCDEFGHIJKLMNOPQRSTUVWXYZ")
    ensures ReadFile(files, path, 5, 10) == Ok(AsciiBytes("FGHIJ"))
  {
    var x, y, z := "ABCDE", "FGHIJ", "KLMNOPQRSTUVWXYZ";
    assert x + y + z == "ABCDEFGHIJKLMNOPQRSTUVWXYZ";
    AsciiBytesConcat(x, y);
    AsciiBytesConcat(x + y, z);
    assert (AsciiBytes(x) + AsciiBytes(y) + AsciiBytes(z))[5..10] == AsciiBytes(y);
  }

  /** [5, 3) is refused. */
  lemma ReadReversedRange(files: map<string, seq<byte>>, path: string)
    requires path in files
    ensures ReadFile(files, path, 5, 3) == Err(InvalidRange)
  {
  }

  /** [7, 17) of "Hello, FileStreamReader!" decodes to "FileStream", given a
      decoder that decodes the bytes of "FileStream". */
  lemma ReadPartialString(files: map<string, seq<byte>>, path: string, decode: seq<byte> -> Option<string>)
    requires path in files && files[path] == AsciiBytes("Hello, FileStreamReader!")
    requires decode(AsciiBytes("FileStream")) == Some("FileStream")
    ensures ReadText(files, path, 7, 17, decode) == Ok("FileStream")
  {
    var x, y, z := "Hello, ", "FileStream", "Reader!";
    assert x + y + z == "Hello, FileStreamReader!";
    AsciiBytesConcat(x, y);
    AsciiBytesConcat(x + y, z);
    assert (AsciiBytes(x) + AsciiBytes(y) + AsciiBytes(z))[7..17] == AsciiBytes(y);
  }

  /** ", World!" appended to a file holding "Hello" gives "Hello, World!". */
  lemma AppendText(files: map<string, seq<byte>>, unwritable: set<string>, path: string)
    requires path in files && path !in unwritable && files[path] == Encode("Hello")
    ensures var after := Appended(files, unwritable, path, Encode(", World!"));
            path in after && after[path] == Encode("Hello, World!")
  {
    assert "Hello" + ", World!" == "Hello, World!";
    EncodeConcat("Hello", ", World!");
  }
}

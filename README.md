# FileSugar byte-range I/O, in Dafny

This project models the parts of FileSugar that have behaviour of their own:

- `FileStreamWriter` writes a byte buffer at any offset of a file. It overwrites in place and extends the file when it must. A missing file is first created holding the buffer itself, and the buffer is then written again at the offset. `truncateFile` empties a file.
- `FileStreamReader` reads the bytes of a span `[startIndex, endIndex)`. It also gives a file's size and the span decoded as text.
- `FileModifier.append` appends the first `index` UTF-8 bytes of a text to the end of a file through an append-mode `OutputStream`.
- `FilePathAsserter` classifies a path by its prefix. `FilePathModifier.expand` turns a tilde, `../`, absolute or bare path into a full path against a base.

The host is the class `Host.FileSystem`. It holds `files`, a map from path to bytes, and `unwritable`, the set of paths where the host refuses to create a file or open one for writing. The Foundation objects the core drives are small classes: `Host.FileHandle` (open, seek, read, write, truncate, close, with a current offset) and `Host.OutputStream` (append mode). Each operation of the core is a method over these classes, and each method is proved against a pure function of the filesystem before the call:

- `FileStreamWriter.Written` is the file after a write.
- `FileStreamReader.ReadFile` and `ReadText` are what a read returns.
- `FileModifier.Appended` is the filesystem after an append.

The lemmas are stated about those functions. They cover the round trip between writer and reader, what a write leaves alone, sizes, and the exact outcomes the test suite expects.

Modelling choices:

- A file location is its path string. `URL(fileURLWithPath:)` is the identity here, so `write(filePath:)` and `read(filePath:)` have exactly the effect of their URL forms.
- Host failures are represented by one thing: membership of a path in `unwritable`. Creating the file (`Data.write(.atomic)`) fails there, and so does `FileHandle(forUpdating:)`. An append-mode stream opened there goes into its error state, and its `write` returns -1.
- Whether `OutputStream(toFileAtPath:append:)` returns a stream is a host answer that this model cannot see. It is the boolean parameter `streamCreated` of `FileModifier.Append` and `AppendPrefix`.
- A write past the end of a file leaves a gap. The gap reads as zeros, as in POSIX.1-2017 (IEEE Std 1003.1-2017), description of `lseek()`. The gap exists only once bytes are written beyond it: writing no bytes changes nothing, at any offset (description of `write()`).
- Bytes are the newtype `Common.byte` (0..255). Offsets are `Common.u64` (Swift's `UInt64`), and end offsets are `Common.Int64` (Swift's `Int`).
- Text is encoded by `Utf8.Encode`, a real UTF-8 encoder over Unicode scalar values. Decoding text is a parameter `decode` of `ReadString`. Expansion's home-directory lookup (`String.tildePath`), `normalize` and `FileAsserter.exists` are parameters of `Expand`.

Where the model departs from the code:

- `read(url:startIndex:endIndex:)` has no check that `endIndex >= startIndex`. It passes the negative length on to `readData(ofLength:)`. Its test (Tests/FileStreamTests/FileStreamTests.swift:215-229) expects an error, and the model follows the test: it answers `InvalidRange`. That check runs after the file has been opened, as the code's order implies, so a missing file reports `NotFound` whatever the span.

Edge cases the model settles the way the code does:

- A read past the end of the file returns the bytes that exist: a short read, not an error.
- Truncating a missing file fails (`IOFailure`), because opening for update needs an existing file.

Where the code and its intended design part ways, the model follows the code:

- On a file that did not exist, the bytes before the written span are the start of the buffer, from the creating write. They are not zeros.

## Model

| member | source | states |
|---|---|---|
| Host.Zeros | Sources/FileSugar/stream/FileStreamWriter.swift:42-44 | the gap that a non-empty write past the end leaves holds that many bytes, all zero |
| Host.Overwrite | Sources/FileSugar/stream/FileStreamWriter.swift:42-44 | after writing no bytes the file is unchanged, at any offset; after writing non-empty `data` at `index` the size is max(old size, index + len(data)), the span holds `data`, and bytes between the old end and `index` are 0; every old byte before or after the span is kept |
| Host.Piece | Sources/FileSugar/stream/FileStreamReader.swift:25-27 | reading `length` bytes at `offset` gives at most `length` bytes, exactly the slice when the file is long enough, always a prefix of the rest of the file, and a count of min(end, size) - offset |
| Host.Resize | Sources/FileSugar/stream/FileStreamWriter.swift:68 | truncating to a length gives exactly that length; kept bytes are the old ones and added bytes are zero |
| Host.WriteAtomically | Sources/FileSugar/stream/FileStreamWriter.swift:31 | creating the file with `data` succeeds exactly when the host allows writing at the path, and then the file is `data` and nothing else changes |
| Host.FileHandle.Open | Sources/FileSugar/stream/FileStreamWriter.swift:40 | a freshly opened handle is open at offset 0 on the given file |
| Host.FileHandle.Seek | Sources/FileSugar/stream/FileStreamWriter.swift:42 | the offset becomes the requested one, also past the end of the file; offsets above Int64.max, where the source crashes, are excluded |
| Host.FileHandle.ReadData | Sources/FileSugar/stream/FileStreamReader.swift:27 | returns the bytes there at the current offset (short at the end of the file) and moves the offset past them |
| Host.FileHandle.WriteData | Sources/FileSugar/stream/FileStreamWriter.swift:44 | the file becomes Overwrite(old, offset, data); the offset moves past the data; no other file changes |
| Host.FileHandle.TruncateFile | Sources/FileSugar/stream/FileStreamWriter.swift:68 | the file becomes Resize(old, at) and the offset moves to `at` |
| Host.FileHandle.CloseFile | Sources/FileSugar/stream/FileStreamWriter.swift:46 | the handle is closed; no further operation is allowed on it |
| Host.OpenForReading | Sources/FileSugar/stream/FileStreamReader.swift:24 | opening for reading succeeds exactly when the file exists |
| Host.OpenForUpdating | Sources/FileSugar/stream/FileStreamWriter.swift:40 | opening for update succeeds exactly when the file exists and the host allows writing to it |
| Host.OutputStream.constructor | Sources/FileSugar/FileModifier.swift:150 | a new append-mode stream on the path is not yet open |
| Host.OutputStream.Open | Sources/FileSugar/FileModifier.swift:151 | opening creates a missing file with no bytes; on a path the host refuses, the stream enters its error state and the files are unchanged |
| Host.OutputStream.Write | Sources/FileSugar/FileModifier.swift:152 | an open stream appends the first `maxLength` bytes and returns `maxLength`; a failed stream returns -1 and changes nothing |
| Host.OutputStream.Close | Sources/FileSugar/FileModifier.swift:153 | the stream is closed |
| Utf8.EncodeChar | Sources/FileSugar/FileModifier.swift:143 | a character encodes to 1 to 4 bytes; one byte exactly for ASCII, equal to its code; otherwise a lead byte of at least 0xC0 then continuation bytes 10xxxxxx |
| Utf8.Encode | Sources/FileSugar/FileModifier.swift:143 | the UTF-8 of a text of n characters has between n and 4n bytes, and is empty exactly for the empty text |
| Utf8.EncodeConcat | Sources/FileSugar/FileModifier.swift:143 | the encoding of joined texts is the joined encodings |
| Utf8.AsciiBytes | Tests/FileStreamTests/FileStreamTests.swift:16 | ASCII text as bytes: one per character, equal to the character's code |
| Utf8.EncodeAscii | Tests/FileStreamTests/FileStreamTests.swift:16 | on ASCII text, UTF-8 is exactly AsciiBytes |
| Utf8.AsciiBytesConcat | Tests/FileStreamTests/FileStreamTests.swift:86-88 | joined ASCII texts are ASCII, and their bytes are the joined bytes |
| FileStreamWriter.Write | Sources/FileSugar/stream/FileStreamWriter.swift:24-52 | fails with IOFailure exactly on a path the host refuses, and then changes nothing; otherwise the file becomes Written(old files, path, data, index) and no other file changes |
| FileStreamWriter.TruncateFile | Sources/FileSugar/stream/FileStreamWriter.swift:61-76 | succeeds exactly on an existing file the host lets us write, which becomes empty; a missing or refused file gives IOFailure and changes nothing |
| FileStreamWriter.WriteAtPath | Sources/FileSugar/stream/FileStreamWriter.swift:91-96 | has the same result and the same effect on the files as Write on the same path |
| FileStreamWriter.Written | Sources/FileSugar/stream/FileStreamWriter.swift:26-44 | the file after a write (the creating write of `data` when missing, then `data` at `index`) is never shorter than before, nor shorter than `data` for a file it created |
| FileStreamWriter.WrittenSpan | Sources/FileSugar/stream/FileStreamWriter.swift:28-44 | after a write of non-empty `data`, the file reaches index + len(data) and bytes [index, index + len(data)) are `data`; after a write of no bytes an existing file is unchanged and a created one is empty |
| FileStreamWriter.WrittenSize | Sources/FileSugar/stream/FileStreamWriter.swift:26-44 | the new size after a non-empty write is max(old size, index + len(data)), where the old size of a missing file counts as len(data); after an empty write it is the old size, or 0 for a created file |
| FileStreamWriter.WrittenFreshFile | Sources/FileSugar/stream/FileStreamWriter.swift:28-44 | on a missing file an empty write leaves an empty file; a non-empty write leaves the start of `data` before min(index, len(data)), not zeros, and zeros only between len(data) and `index` |
| FileStreamWriter.WriteOverwrites | Sources/FileSugar/stream/FileStreamWriter.swift:12 | on an existing file every old byte outside the span is unchanged, and after a non-empty write the gap between the old end and `index` is zeros: a write replaces, it does not insert |
| FileStreamWriter.WriteAtEndAppends | Tests/FileStreamTests/FileStreamTests.swift:84-106 | writing at the size of an existing file gives old contents followed by `data` |
| FileStreamWriter.WriteFreshAtZero | Sources/FileSugar/stream/FileStreamWriter.swift:28-44 | writing at offset 0 of a missing file leaves exactly `data` |
| FileStreamWriter.WriteReplacesSpan | Sources/FileSugar/stream/FileStreamWriter.swift:12 | writing over a span of the same length exchanges exactly that span and keeps what is before and after it |
| FileStreamReader.ReadRange | Sources/FileSugar/stream/FileStreamReader.swift:25-27 | fails with InvalidRange exactly when end < start; otherwise at most end - start bytes: every byte of the span that exists, contents[start..min(end, size)], and none from the end of the file on |
| FileStreamReader.ReadFile | Sources/FileSugar/stream/FileStreamReader.swift:22-34 | a read fails exactly for a missing file (NotFound, and only then) or a reversed span; a successful read has at most end - start bytes and they are a prefix of the file from `start` |
| FileStreamReader.Read | Sources/FileSugar/stream/FileStreamReader.swift:22-34 | returns ReadFile of the current files: NotFound for a missing file (checked first), else the span read from its contents |
| FileStreamReader.ReadAtPath | Sources/FileSugar/stream/FileStreamReader.swift:76-81 | returns the same as Read on the same path |
| FileStreamReader.GetFileSize | Sources/FileSugar/stream/FileStreamReader.swift:49-68 | the size is the file's number of bytes; it fails with NotFound exactly when the file is missing |
| FileStreamReader.ReadText | Sources/FileSugar/stream/FileStreamReader.swift:86-96 | the string read is NotFound for a missing file, InvalidRange for a reversed span, DecodeFailure when the bytes do not decode, and Ok of the decoding exactly when the file exists, the span is ordered and the bytes decode |
| FileStreamReader.ReadString | Sources/FileSugar/stream/FileStreamReader.swift:86-96 | returns ReadText of the current files |
| FileStreamReader.ReadMissingFails | Sources/FileSugar/stream/FileStreamReader.swift:24-33 | a missing file yields NotFound for every span and for its size, never data |
| FileStreamReader.ReadExisting | Sources/FileSugar/stream/FileStreamReader.swift:49-68 | on an existing file the read is the span of its contents and the size is its number of bytes |
| FileStreamReader.ReadWholeFile | Tests/FileStreamTests/FileStreamTests.swift:97-99 | reading [0, size) returns the whole file |
| FileModifier.Appended | Sources/FileSugar/FileModifier.swift:150-153 | on a refused path nothing changes; otherwise the file holds its old bytes (none if it was missing) followed by the new bytes; no other file changes |
| FileModifier.AppendPrefix | Sources/FileSugar/FileModifier.swift:149-155 | returns true exactly when the stream could be created; then the first `index` UTF-8 bytes of the text go to the end of the file, not to offset `index` |
| FileModifier.Append | Sources/FileSugar/FileModifier.swift:142-144 | appends all UTF-8 bytes of the text, since the count passed on is its UTF-8 byte length |
| FileModifier.AppendedJoin | Sources/FileSugar/FileModifier.swift:150-153 | two appends in a row equal one append of the joined bytes |
| FileModifier.AppendTwice | Sources/FileSugar/FileModifier.swift:142-144 | appending text a then text b equals appending a + b |
| StreamProperties.WriteThenRead | Tests/FileStreamTests/FileStreamTests.swift:14-29 | after writing `data` at `index`, reading [index, index + len(data)) returns exactly `data`, whether or not the file existed |
| StreamProperties.WriteKeepsOtherReads | Sources/FileSugar/stream/FileStreamWriter.swift:12 | a read of an existing file within its old size and outside the written span returns what it returned before |
| StreamProperties.SizeAfterWrite | Tests/FileStreamTests/FileStreamTests.swift:108-131 | getFileSize after a non-empty write is max(old size, index + len(data)), with len(data) as the old size of a missing file; after an empty write it is the old size, 0 for a created file |
| StreamProperties.SizeAfterTruncate | Tests/FileStreamTests/FileStreamTests.swift:194-212 | a truncated file exists, has size 0 and reads back no bytes |
| StreamProperties.AppendIsWriteAtEnd | Sources/FileSugar/FileModifier.swift:150-153 | on an existing writable file, appending bytes is the range writer writing them at the old size |
| Scenarios.HelloWorld | Tests/FileStreamTests/FileStreamTests.swift:84-106 | "Hello, " at 0 of a new file, then "World!" at 7, reads [0, 13) as "Hello, World!" |
| Scenarios.OverwriteInTheMiddle | Tests/FileStreamTests/FileStreamTests.swift:170-191 | "ABCDEFGH" at 0 of a new file, then "123" at 3, reads [0, 8) as "ABC123GH" |
| Scenarios.WriteBeyondEnd | Tests/FileStreamTests/FileStreamTests.swift:109-131 | "Test Data" at 1000 of a new file gives size 1009, and [1000, 1009) reads "Test Data" |
| Scenarios.ReadOffset | Tests/FileStreamTests/FileStreamTests.swift:32-52 | [5, 10) of the alphabet reads "FGHIJ" |
| Scenarios.ReadReversedRange | Tests/FileStreamTests/FileStreamTests.swift:215-229 | [5, 3) of an existing file fails with InvalidRange |
| Scenarios.ReadPartialString | Tests/FileStreamTests/FileStreamTests.swift:150-167 | [7, 17) of "Hello, FileStreamReader!" reads as the string "FileStream" |
| Scenarios.AppendText | Tests/FileModifierTests/FileModifierTests.swift:220-239 | appending ", World!" to a file holding "Hello" gives "Hello, World!" |
| FilePathAsserter.HasPrefix | Sources/FileSugar/path/FilePathAsserter.swift:8 | the character-by-character prefix test agrees with sequence prefix, true for the empty prefix |
| FilePathAsserter.HasSuffix | Sources/FileSugar/path/FilePathModifier.swift:47 | `s.hasSuffix(suffix)` holds iff `s` is some text followed by `suffix` |
| FilePathAsserter.IsAbsolute | Sources/FileSugar/path/FilePathAsserter.swift:7-9 | isAbsolute holds iff the path starts with the separator |
| FilePathAsserter.IsBacklash | Sources/FileSugar/path/FilePathAsserter.swift:13-15 | isBacklash holds iff the path's first three characters are "../" |
| FilePathAsserter.IsFilePath | Sources/FileSugar/path/FilePathAsserter.swift:19-21 | isFilePath holds iff the path starts with the separator or with ".." and the separator |
| FilePathAsserter.IsTildePath | Sources/FileSugar/path/FilePathAsserter.swift:25-27 | isTildePath holds iff the path's first character is "~" |
| FilePathAsserter.BacklashIsRelativeFilePath | Sources/FileSugar/path/FilePathAsserter.swift:7-21 | with the default "/", a "../" path is a file path and not absolute |
| FilePathAsserter.FilePathIsAbsoluteOrBacklash | Sources/FileSugar/path/FilePathAsserter.swift:7-21 | with the default "/", the file paths are exactly the absolute paths and the "../" paths |
| FilePathAsserter.TildeExcludesOthers | Sources/FileSugar/path/FilePathAsserter.swift:7-27 | a tilde path is neither absolute, nor "../", nor a file path |
| FilePathModifier.WithTrailingSlash | Sources/FileSugar/path/FilePathModifier.swift:47 | the base ends in "/" afterwards, extends the original base by at most one character, and is unchanged when it already ended in "/" |
| FilePathModifier.Expand | Sources/FileSugar/path/FilePathModifier.swift:42-56 | expand returns nil only for a "../" path, non-tilde, whose normalisation after the base fails |
| FilePathModifier.ExpandTilde | Sources/FileSugar/path/FilePathModifier.swift:44-45 | a path starting with "~" gives its home-directory expansion, whatever the base |
| FilePathModifier.ExpandBacklash | Sources/FileSugar/path/FilePathModifier.swift:46-48 | a "../" path gives normalize(base' + path), where base' is the base with "/" appended only when missing |
| FilePathModifier.ExpandExisting | Sources/FileSugar/path/FilePathModifier.swift:49-50 | an existing path that is neither tilde nor "../" comes back unchanged |
| FilePathModifier.ExpandAbsoluteMissing | Sources/FileSugar/path/FilePathModifier.swift:51-52 | an absolute path that does not exist gives base + path, with no separator added |
| FilePathModifier.ExpandBareName | Sources/FileSugar/path/FilePathModifier.swift:53-55 | any other path gives base' + path |
| FilePathModifier.ExpandDefaultBase | Sources/FileSugar/path/FilePathModifier.swift:42-55 | with the default base "", an absolute path comes back unchanged whether or not it exists, and a bare name that does not exist gets "/" in front |
| FilePathModifier.ExpandExampleAbsolute | Sources/FileSugar/path/FilePathModifier.swift:38 | "/temp/colors/star.svg" with base "/Users/John/Desktop" gives "/Users/John/Desktop/temp/colors/star.svg" when it does not exist |
| FilePathModifier.ExpandExampleBareName | Sources/FileSugar/path/FilePathModifier.swift:39 | "star.svg" with base "/Users/John/Desktop" gives "/Users/John/Desktop/star.svg" when it does not exist |
| FilePathModifier.ExpandMayBeRelative | Sources/FileSugar/path/FilePathModifier.swift:30-55 | the documented promise of an absolute result does not hold: an existing relative name comes back unchanged, and a relative base gives a relative result |

## Left out

- FileParser.swift: not modelled. Whole-file reads, directory listing, modification date, temporary and current directory, XML parsing and the open panel are direct Foundation and Cocoa calls whose errors become nil.
- The other FileModifier methods (`move`, `copy`, the two whole-file `write`s, `createDir`, `delete`, `rename`, `createFolder`): not modelled. Each is one `FileManager` call whose error becomes false.
- FilePathParser.swift, FileUtils.swift, the example application and Package.swift are not part of this model.
- FileAsserter.swift: `exists` is the parameter `fileExists` of `Expand`, since it is a host query. `hasContent` is a directory-listing wrapper and is left out. It answers true when the listing is empty.
- `FilePathModifier.normalize` (URL standardisation) and `String.tildePath` (NSString's tilde expansion) are kept only as the function parameters `normalize` and `tildeExpand`.
- UTF-8 decoding is the parameter `decode` of `ReadString`. Its validity rules are not modelled.
- Swift compares strings by grapheme cluster in `hasPrefix` and `hasSuffix`. Here strings are sequences of Unicode scalar values compared character by character.
- The asynchronous read and write variants are left out. They only move the same call onto another executor.
- Error messages: an NSError's domain text is replaced by a tag of `Common.Error`.
- Host failures: permission, missing-directory and disk-full failures are represented only by membership in `unwritable`. Partial writes, short writes by `OutputStream`, interleaving with other processes and a failure in the middle of a write are not modelled. Reads never fail on an existing file.
- FileStreamReader.Read: `Int(startIndex)` traps above `Int.max`, so the read requires `startIndex <= Int.max`. The crash itself is not modelled.
- FileStreamReader.Read: what Foundation does with a negative `readData(ofLength:)` is not modelled. The model answers InvalidRange instead.
- FileStreamReader.Read: `endIndex - Int(startIndex)` traps on overflow when `endIndex < Int.min + startIndex`. Such an end is below the start, and the model answers InvalidRange there instead of modelling the crash.
- FileStreamWriter.Write: an `index` above Int64.max (the largest `off_t`) makes `seek(toFileOffset:)` raise an Objective-C exception that the `do/catch` cannot catch, so the process crashes. The write, like `Host.FileHandle.Seek`, therefore requires `index <= Int64.max`; the crash itself is not modelled.
- FileStreamWriter.Write: the file size is an unbounded integer. A write whose end passes Int64.max, which the host refuses with EFBIG, is not rejected.
- FileModifier.AppendPrefix: requires `0 <= index <= ` the text's UTF-8 byte length. A count of the byte length + 1 would also append the C string's NUL terminator, which is still inside the bridged buffer. Only larger counts read past that buffer. A negative count has no defined meaning.
- FilePathModifier.Expand: its documentation promises an absolute result. The code does not keep that promise (ExpandMayBeRelative), and neither does the model.

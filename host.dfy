/** The host filesystem and the two Foundation stream objects the core drives:
    FileHandle (open, seek, read, write, truncate, close) and an append-mode
    OutputStream. Only regular files are modelled; a file is its bytes. */
module Host {
  import opened Common

  /** `n` zero bytes: what reads back from a gap that a write past the end of
      a file leaves behind (POSIX.1-2017, lseek(): the gap reads as zeros). */
  function Zeros(n: nat): (r: seq<byte>)
    ensures |r| == n
    ensures forall i :: 0 <= i < n ==> r[i] == 0
  {
    seq(n, _ => 0)
  }

  /** The bytes of `contents` after writing `data` at byte offset `index`:
      bytes in the written span are replaced, nothing is inserted, a gap
      between the old end and `index` is zero-filled, and the file grows
      only as far as the span needs. Writing no bytes changes nothing, even
      at an offset past the end: a gap exists only once data is written
      beyond it (POSIX.1-2017, lseek() and write()). */
  function Overwrite(contents: seq<byte>, index: nat, data: seq<byte>): (r: seq<byte>)
    ensures |r| == if data == [] then |contents| else Max(|contents|, index + |data|)
    ensures data == [] ==> r == contents
    ensures data != [] ==> r[index..index + |data|] == data
    ensures forall i :: 0 <= i < index && i < |contents| ==> r[i] == contents[i]
    ensures forall i :: index + |data| <= i < |contents| ==> r[i] == contents[i]
    ensures data != [] ==> forall i :: |contents| <= i < index ==> r[i] == 0
  {
    if data == [] then contents
    else
      var padded := if index <= |contents| then contents else contents + Zeros(index - |contents|);
      padded[..index] + data + padded[Min(index + |data|, |padded|)..]
  }

  /** What a read of up to `length` bytes at `offset` returns: the bytes that
      exist there, fewer at the end of the file, none past it. */
  function Piece(contents: seq<byte>, offset: nat, length: nat): (r: seq<byte>)
    ensures |r| <= length
    ensures offset + length <= |contents| ==> r == contents[offset..offset + length]
    ensures offset <= |contents| ==> r <= contents[offset..]
    ensures |r| == Max(0, Min(offset + length, |contents|) - offset)
  {
    contents[Min(offset, |contents|)..Min(offset + length, |contents|)]
  }

  /** The bytes of `contents` after truncating it to `length` (ftruncate):
      cut when shorter, zero-extended when longer. */
  function Resize(contents: seq<byte>, length: nat): (r: seq<byte>)
    ensures |r| == length
    ensures forall i :: 0 <= i < length && i < |contents| ==> r[i] == contents[i]
    ensures forall i :: |contents| <= i < length ==> r[i] == 0
  {
    if length <= |contents| then contents[..length] else contents + Zeros(length - |contents|)
  }

  class FileSystem {
    /** Every regular file, by path, with its bytes. */
    var files: map<string, seq<byte>>
    /** Paths at which the host refuses to create a file or to open one for
        writing (missing permission, missing parent directory, and the like). */
    var unwritable: set<string>

    constructor (files: map<string, seq<byte>>, unwritable: set<string>)
      ensures this.files == files && this.unwritable == unwritable
    {
      this.files := files;
      this.unwritable := unwritable;
    }
  }

  /** `Data.write(to:options: .atomic)`: replaces (or creates) the whole file. */
  method WriteAtomically(fs: FileSystem, path: string, data: seq<byte>) returns (ok: bool)
    modifies fs
    ensures ok == (path !in old(fs.unwritable))
    ensures fs.unwritable == old(fs.unwritable)
    ensures fs.files == if ok then old(fs.files)[path := data] else old(fs.files)
  {
    ok := path !in fs.unwritable;
    if ok {
      fs.files := fs.files[path := data];
    }
  }

  /** An open file with a current offset, valid for one call of the core. */
  class FileHandle {
    const fs: FileSystem
    const path: string
    const writable: bool
    var offset: nat
    var isOpen: bool

    constructor Open(fs: FileSystem, path: string, writable: bool)
      ensures this.fs == fs && this.path == path && this.writable == writable
      ensures offset == 0 && isOpen
    {
      this.fs := fs;
      this.path := path;
      this.writable := writable;
      offset := 0;
      isOpen := true;
    }

    /** `seek(toFileOffset:)`: any offset, also past the end of the file, up
        to the largest `off_t`; a larger one raises an exception the caller
        cannot catch. */
    method Seek(o: u64)
      requires isOpen && o <= INT_MAX
      modifies this
      ensures isOpen && offset == o
    {
      offset := o;
    }

    /** `readData(ofLength:)`: what is there, and the offset moves past it. */
    method ReadData(length: nat) returns (d: seq<byte>)
      requires isOpen && path in fs.files
      modifies this
      ensures isOpen
      ensures d == Piece(fs.files[path], old(offset), length)
      ensures offset == old(offset) + |d|
    {
      d := Piece(fs.files[path], offset, length);
      offset := offset + |d|;
    }

    /** `write(_:)` at the current offset. */
    method WriteData(d: seq<byte>)
      requires isOpen && writable && path in fs.files
      modifies this, fs
      ensures isOpen && offset == old(offset) + |d|
      ensures fs.files == old(fs.files)[path := Overwrite(old(fs.files[path]), old(offset), d)]
      ensures fs.unwritable == old(fs.unwritable)
    {
      fs.files := fs.files[path := Overwrite(fs.files[path], offset, d)];
      offset := offset + |d|;
    }

    /** `truncateFile(atOffset:)`: sets the length and moves the offset there. */
    method TruncateFile(at: u64)
      requires isOpen && writable && path in fs.files
      modifies this, fs
      ensures isOpen && offset == at
      ensures fs.files == old(fs.files)[path := Resize(old(fs.files[path]), at)]
      ensures fs.unwritable == old(fs.unwritable)
    {
      fs.files := fs.files[path := Resize(fs.files[path], at)];
      offset := at;
    }

    /** `closeFile()`. */
    method CloseFile()
      requires isOpen
      modifies this
      ensures !isOpen && offset == old(offset)
    {
      isOpen := false;
    }
  }

  /** `FileHandle(forReadingFrom:)`: fails when there is no such file. */
  method OpenForReading(fs: FileSystem, path: string) returns (h: FileHandle?)
    ensures (h != null) == (path in fs.files)
    ensures h != null ==> fresh(h) && h.fs == fs && h.path == path && !h.writable
    ensures h != null ==> h.isOpen && h.offset == 0
  {
    if path in fs.files {
      h := new FileHandle.Open(fs, path, false);
    } else {
      h := null;
    }
  }

  /** `FileHandle(forUpdating:)`: needs an existing file the host lets us write. */
  method OpenForUpdating(fs: FileSystem, path: string) returns (h: FileHandle?)
    ensures (h != null) == (path in fs.files && path !in fs.unwritable)
    ensures h != null ==> fresh(h) && h.fs == fs && h.path == path && h.writable
    ensures h != null ==> h.isOpen && h.offset == 0
  {
    if path in fs.files && path !in fs.unwritable {
      h := new FileHandle.Open(fs, path, true);
    } else {
      h := null;
    }
  }

  datatype StreamStatus = NotOpen | Opened | Failed | Closed

  /** `OutputStream(toFileAtPath: path, append: true)`: every write goes to the
      end of the file. A stream whose open failed reports -1 from `write`. */
  class OutputStream {
    const fs: FileSystem
    const path: string
    var status: StreamStatus

    ghost predicate Valid()
      reads this, fs
    {
      status == Opened ==> path in fs.files && path !in fs.unwritable
    }

    constructor (fs: FileSystem, path: string)
      ensures this.fs == fs && this.path == path && status == NotOpen
    {
      this.fs := fs;
      this.path := path;
      status := NotOpen;
    }

    /** `open()`: creates a missing file; on a path the host refuses the
        stream goes into its error state instead, without any signal. */
    method Open()
      requires status == NotOpen
      modifies this, fs
      ensures Valid()
      ensures status == if path in old(fs.unwritable) then Failed else Opened
      ensures fs.unwritable == old(fs.unwritable)
      ensures fs.files == if status == Opened && path !in old(fs.files)
                          then old(fs.files)[path := []] else old(fs.files)
    {
      if path in fs.unwritable {
        status := Failed;
      } else {
        status := Opened;
        if path !in fs.files {
          fs.files := fs.files[path := []];
        }
      }
    }

    /** `write(_:maxLength:)`: appends the first `maxLength` bytes of `buffer`
        and returns their count, or returns -1 when the stream is not open. */
    method Write(buffer: seq<byte>, maxLength: nat) returns (n: int)
      requires Valid() && maxLength <= |buffer|
      modifies fs
      ensures Valid()
      ensures fs.unwritable == old(fs.unwritable)
      ensures status == Opened ==> n == maxLength
      ensures status == Opened ==> fs.files == old(fs.files)[path := old(fs.files[path]) + buffer[..maxLength]]
      ensures status != Opened ==> n == -1 && fs.files == old(fs.files)
    {
      if status == Opened {
        fs.files := fs.files[path := fs.files[path] + buffer[..maxLength]];
        n := maxLength;
      } else {
        n := -1;
      }
    }

    /** `close()`. */
    method Close()
      modifies this
      ensures status == Closed
    {
      status := Closed;
    }
  }
}

/** FileModifier.append: appends the UTF-8 bytes of a text to the end of a
    file through an append-mode OutputStream. */
module FileModifier {
  import opened Common
  import opened Host
  import Utf8

  /** The filesystem after `bytes` go to the end of the file at `path` through
      an append-mode stream: a missing file is created, a path the host refuses
      is left as it was. */
  function Appended(files: map<string, seq<byte>>, unwritable: set<string>, path: string,
                    bytes: seq<byte>): (r: map<string, seq<byte>>)
    ensures path in unwritable ==> r == files
    ensures path !in unwritable ==> path in r && r[path] == (if path in files then files[path] else []) + bytes
    ensures forall p :: p != path ==> (p in r <==> p in files)
    ensures forall p :: p != path && p in files ==> r[p] == files[p]
  {
    if path in unwritable then files
    else files[path := (if path in files then files[path] else []) + bytes]
  }

  /** `append(_:text:index:)`: opens an append-mode stream and writes the first
      `index` UTF-8 bytes of `text`; `streamCreated` is the host's answer to
      creating the stream. The count the stream reports is not looked at, so
      the answer is true whenever the stream exists, also when its open failed
      and nothing was written. */
  method AppendPrefix(fs: FileSystem, path: string, text: string, index: int, streamCreated: bool)
    returns (ok: bool)
    requires 0 <= index <= |Utf8.Encode(text)|  // the stream reads `index` bytes of the C string
    modifies fs
    ensures ok == streamCreated
    ensures fs.files == if ok then Appended(old(fs.files), old(fs.unwritable), path, Utf8.Encode(text)[..index])
                        else old(fs.files)
    ensures fs.unwritable == old(fs.unwritable)
  {
    if !streamCreated {
      return false;
    }
    var os := new OutputStream(fs, path);
    os.Open();
    var written := os.Write(Utf8.Encode(text), index);
    os.Close();
    return true;
  }

  /** `append(_:text:)`: the count passed on is the UTF-8 byte length of the
      text, so all of it is appended. */
  method Append(fs: FileSystem, path: string, text: string, streamCreated: bool) returns (ok: bool)
    modifies fs
    ensures ok == streamCreated
    ensures fs.files == if ok then Appended(old(fs.files), old(fs.unwritable), path, Utf8.Encode(text))
                        else old(fs.files)
    ensures fs.unwritable == old(fs.unwritable)
  {
    var bytes := Utf8.Encode(text);
    assert bytes[..|bytes|] == bytes;
    ok := AppendPrefix(fs, path, text, |bytes|, streamCreated);
  }

  /** Two appends in a row are one append of the joined bytes. */
  lemma AppendedJoin(files: map<string, seq<byte>>, unwritable: set<string>, path: string,
                     x: seq<byte>, y: seq<byte>)
    ensures Appended(Appended(files, unwritable, path, x), unwritable, path, y)
            == Appended(files, unwritable, path, x + y)
  {
    if path !in unwritable {
      var before := if path in files then files[path] else [];
      var once := files[path := before + x];
      assert Appended(files, unwritable, path, x) == once;
      assert Appended(once, unwritable, path, y) == files[path := before + x + y];
      assert before + x + y == before + (x + y);
    }
  }

  /** Two appends of whole texts are one append of the joined text. */
  lemma AppendTwice(files: map<string, seq<byte>>, unwritable: set<string>, path: string, a: string, b: string)
    ensures Appended(Appended(files, unwritable, path, Utf8.Encode(a)), unwritable, path, Utf8.Encode(b))
            == Appended(files, unwritable, path, Utf8.Encode(a + b))
  {
    Utf8.EncodeConcat(a, b);
    AppendedJoin(files, unwritable, path, Utf8.Encode(a), Utf8.Encode(b));
  }
}

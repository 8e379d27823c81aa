/**
 * The file-extension helper of the image uploader
 * (components/ImageUploader.jsx, lines 48-63).
 */
module ImageUploader {

  /** The two properties of a browser `File` the helper reads. */
  datatype File = File(mimeType: string, name: string)

  /** `typesToExts`: the extension used for each image type the uploader knows. */
  const TypesToExts: map<string, string> := map[
    "image/gif" := "gif",
    "image/jpeg" := "jpg",
    "image/png" := "png",
    "image/svg+xml" := "svg",
    "image/webp" := "webp"
  ]

  /** `s.split(".")`: the pieces between the dots, at least one, possibly empty. */
  function Split(s: string): (parts: seq<string>)
    ensures |parts| >= 1
  {
    if s == [] then [[]]
    else
      var rest := Split(s[1..]);
      if s[0] == '.' then [[]] + rest
      else [[s[0]] + rest[0]] + rest[1..]
  }

  /** `parts.join(".")`. */
  function Join(parts: seq<string>): string
    requires |parts| >= 1
  {
    if |parts| == 1 then parts[0] else parts[0] + "." + Join(parts[1..])
  }

  /** `parts.slice(-1)[0]`: the last piece. */
  function Last(parts: seq<string>): string
    requires |parts| >= 1
  {
    parts[|parts| - 1]
  }

  /** Splitting loses nothing but the dots, and no piece holds a dot. */
  lemma {:induction false} SplitJoin(s: string)
    ensures Join(Split(s)) == s
    ensures forall k :: 0 <= k < |Split(s)| ==> '.' !in Split(s)[k]
  {
    if s != [] {
      SplitJoin(s[1..]);
      var rest := Split(s[1..]);
      if s[0] == '.' {
        assert Split(s) == [[]] + rest;
        assert Split(s)[1..] == rest;
        assert s == [] + "." + s[1..];
      } else {
        assert Split(s) == [[s[0]] + rest[0]] + rest[1..];
        if |rest| == 1 {
          assert s == [s[0]] + s[1..];
        } else {
          assert Split(s)[1..] == rest[1..];
          assert Join(rest) == rest[0] + "." + Join(rest[1..]);
          assert s == [s[0]] + s[1..];
        }
        forall k | 0 <= k < |Split(s)| ensures '.' !in Split(s)[k] {
          if k > 0 {
            assert Split(s)[k] == rest[k];
          }
        }
      }
    }
  }

  /**
   * `r` is the part of `s` after its last dot: a dot-free suffix of `s`
   * that is either all of `s` or follows a dot.
   */
  ghost predicate IsLastSegment(r: string, s: string) {
    && |r| <= |s|
    && r == s[|s| - |r|..]
    && '.' !in r
    && (|r| < |s| ==> s[|s| - |r| - 1] == '.')
  }

  /** Joining dot-free pieces, the last piece is what follows the last dot. */
  lemma {:induction false} LastOfJoin(parts: seq<string>)
    requires |parts| >= 1
    requires forall k :: 0 <= k < |parts| ==> '.' !in parts[k]
    ensures IsLastSegment(Last(parts), Join(parts))
  {
    if |parts| > 1 {
      var tail := parts[1..];
      LastOfJoin(tail);
      assert Last(tail) == Last(parts);
      var j := Join(tail);
      var s := Join(parts);
      var r := Last(parts);
      assert s == (parts[0] + ".") + j;
      assert s[|s| - |j|..] == j;
      assert s[|s| - |r|..] == j[|j| - |r|..];
      if |r| < |j| {
        assert s[|s| - |r| - 1] == j[|j| - |r| - 1];
      } else {
        assert s[|s| - |r| - 1] == '.';
      }
    }
  }

  /**
   * `extForFile`: the table's extension for a listed type, whatever the file
   * is called; for any other type the part of the file name after its last dot.
   */
  function ExtForFile(file: File): (ext: string)
    ensures file.mimeType in TypesToExts ==> ext == TypesToExts[file.mimeType]
    ensures file.mimeType !in TypesToExts ==> IsLastSegment(ext, file.name)
  {
    if file.mimeType in TypesToExts then TypesToExts[file.mimeType]
    else
      SplitJoin(file.name);
      LastOfJoin(Split(file.name));
      Last(Split(file.name))
  }

  /** The five listed image types. */
  lemma ListedTypes(name: string)
    ensures ExtForFile(File("image/gif", name)) == "gif"
    ensures ExtForFile(File("image/jpeg", name)) == "jpg"
    ensures ExtForFile(File("image/png", name)) == "png"
    ensures ExtForFile(File("image/svg+xml", name)) == "svg"
    ensures ExtForFile(File("image/webp", name)) == "webp"
  {
  }

  /**
   * For an unlisted type: a name without a dot is returned whole, a name
   * ending in a dot gives the empty extension, and no extension holds a dot.
   */
  lemma FallbackCases(file: File)
    requires file.mimeType !in TypesToExts
    ensures '.' !in ExtForFile(file)
    ensures '.' !in file.name ==> ExtForFile(file) == file.name
    ensures |file.name| > 0 && file.name[|file.name| - 1] == '.' ==> ExtForFile(file) == ""
  {
  }
}

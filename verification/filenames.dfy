/**
 The gallery names every photo after the last path segment of its source URL
 (`getFilename` in main.go). The Go function splits the URL on "/" and returns
 the last piece, guarded by a fatal exit when the split yields no piece at all.
 */
module Filenames {
  import opened GoStrings

  const Slash: char := '/'

  /** What `getFilename` can do: return a name, or end the process through
      `log.Fatalf` with the given message. */
  datatype Outcome = Returned(name: string) | Fatal(message: string)

  /** The independent description of the intended result: `name` is a
      slash-free suffix of `src` that is either all of `src` or starts right
      after a slash. */
  predicate IsLastSegment(src: string, name: string) {
    && |name| <= |src|
    && src[|src| - |name|..] == name
    && Slash !in name
    && (|name| == |src| || src[|src| - |name| - 1] == Slash)
  }

  /** `getFilename(src)`, guard included. The guard can never fire, because
      `Split` always yields at least one piece. */
  function GetFilename(src: string): (r: Outcome)
    ensures r.Returned?
    ensures Slash !in r.name
  {
    var url := Split(src, Slash);
    if |url| < 1 then Fatal("invalid url " + src + "\n")
    else Returned(url[|url| - 1])
  }

  /** The name `getFilename` returns for `src`. */
  function FilenameOf(src: string): string {
    GetFilename(src).name
  }

  /** `getFilename` returns exactly the text after the last slash of `src`,
      or all of `src` when it holds no slash: `src` always ends with the
      result, and when `src` has a slash it is some prefix, then "/", then
      the result. */
  lemma GetFilenameIsLastSegment(src: string)
    ensures IsLastSegment(src, FilenameOf(src))
    ensures Slash !in src ==> FilenameOf(src) == src
    ensures Slash in src ==>
      |FilenameOf(src)| < |src|
      && src == src[..|src| - |FilenameOf(src)| - 1] + [Slash] + FilenameOf(src)
  {
    var url := Split(src, Slash);
    JoinSplit(src, Slash);
    if |url| == 1 {
      OnePieceIsWhole(src, url);
    } else {
      LastPieceAfterSlash(src, url);
    }
  }

  /** A URL that splits into one piece holds no slash and is its own name. */
  lemma OnePieceIsWhole(src: string, url: seq<string>)
    requires url == Split(src, Slash) && |url| == 1
    requires Join(url, Slash) == src
    ensures Slash !in src
    ensures FilenameOf(src) == src
    ensures IsLastSegment(src, src)
  {
  }

  /** A URL that splits into several pieces is the join of all but the last
      piece, then a slash, then the last piece. */
  lemma LastPieceAfterSlash(src: string, url: seq<string>)
    requires url == Split(src, Slash) && |url| >= 2
    requires Join(url, Slash) == src
    ensures Slash in src
    ensures |FilenameOf(src)| < |src|
    ensures src == src[..|src| - |FilenameOf(src)| - 1] + [Slash] + FilenameOf(src)
    ensures IsLastSegment(src, FilenameOf(src))
  {
    var name := url[|url| - 1];
    var dir := Join(url[..|url| - 1], Slash);
    JoinLast(url, Slash);
    assert src == dir + [Slash] + name;
    assert src[|dir|] == Slash;
    assert src[|src| - |name|..] == name;
    assert src[..|src| - |name| - 1] == dir;
  }

  /** The last segment is unique: any slash-free suffix that starts after a
      slash or at the beginning of `src` is the name `getFilename` returns. */
  lemma LastSegmentUnique(src: string, name: string)
    requires IsLastSegment(src, name)
    ensures name == FilenameOf(src)
  {
    GetFilenameIsLastSegment(src);
  }

  /** The empty URL names the empty file. */
  lemma EmptyUrlEmptyName()
    ensures FilenameOf("") == ""
  {
  }

  /** The worked example: the name of `.../folder/image123.png` is
      `image123.png`. */
  lemma ExampleName()
    ensures FilenameOf("https://cdn.example/folder/image123.png") == "image123.png"
  {
    var src := "https://cdn.example/folder/image123.png";
    var name := "image123.png";
    assert src == "https://cdn.example/folder" + [Slash] + name;
    assert IsLastSegment(src, name);
    LastSegmentUnique(src, name);
  }
}

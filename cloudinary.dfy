/** The image-hosting helpers' own logic: the upload filter and size limit,
    and the public id derived from a hosted image's URL when it is deleted. */
module Cloudinary {
  import opened Wrappers
  import opened Text

  /** The upload size limit in bytes: five mebibytes. */
  const MaxFileSize: nat := 5 * 1024 * 1024

  /** Whether the size limit lets a file of `size` bytes through. */
  predicate WithinSizeLimit(size: nat) {
    size <= MaxFileSize
  }

  const NotAnImageMessage := "Only image files are allowed!"

  /** The filter's verdict: accept, or refuse with an error. */
  datatype Verdict = Accept | Refuse(message: string)

  /** `fileFilter`: accept exactly the MIME types under `image/`. */
  function FileFilter(mimetype: string): (v: Verdict)
    ensures v.Accept? <==> StartsWith(mimetype, "image/")
    ensures v.Refuse? ==> v.message == NotAnImageMessage
  {
    if StartsWith(mimetype, "image/") then Accept else Refuse(NotAnImageMessage)
  }

  lemma {:induction false} FileFilterExamples()
    ensures FileFilter("image/png") == Accept
    ensures FileFilter("application/pdf") == Refuse(NotAnImageMessage)
    ensures FileFilter("image") == Refuse(NotAnImageMessage)
  {
    assert "image/png"[..6] == "image/";
    assert "application/pdf"[..6] != "image/" by {
      assert "application/pdf"[0] == 'a';
    }
  }

  /** `slice(-2)`: the last two elements, or all of them when there are
      fewer. */
  function LastTwo(parts: seq<string>): (r: seq<string>)
    ensures |r| == if |parts| < 2 then |parts| else 2
    ensures r == parts[|parts| - |r|..]
  {
    if |parts| < 2 then parts else parts[|parts| - 2..]
  }

  /** The last two `/`-separated segments of the URL, joined by `/`. */
  function TailOf(url: string): string {
    Join(LastTwo(Split(url, '/')), '/')
  }

  /** The public id: the URL's last two segments, cut before their first
      `.`. */
  function PublicId(url: string): (id: string)
    ensures '.' !in id
    ensures |id| <= |TailOf(url)| && id == TailOf(url)[..|id|]
    ensures |id| < |TailOf(url)| ==> TailOf(url)[|id|] == '.'
  {
    SplitFirst(TailOf(url), '.');
    Split(TailOf(url), '.')[0]
  }

  /** A delivery URL `<prefix>/<folder>/<name>.<ext>` gives `<folder>/<name>`,
      for a folder and a name without `/` or `.` and an extension without
      `/`, whatever the prefix segments are. */
  lemma {:induction false} PublicIdOfUpload(prefix: seq<string>, folder: string, name: string, ext: string)
    requires forall k :: 0 <= k < |prefix| ==> '/' !in prefix[k]
    requires '/' !in folder && '.' !in folder && '/' !in name && '.' !in name && '/' !in ext
    ensures PublicId(Join(prefix + [folder, name + "." + ext], '/')) == folder + "/" + name
  {
    var parts := prefix + [folder, name + "." + ext];
    assert forall k :: 0 <= k < |parts| ==> '/' !in parts[k] by {
      forall k | 0 <= k < |parts| ensures '/' !in parts[k] {
        if k < |prefix| { assert parts[k] == prefix[k]; }
        else if k == |prefix| { assert parts[k] == folder; }
        else { assert parts[k] == name + "." + ext; }
      }
    }
    SplitJoin(parts, '/');
    assert LastTwo(parts) == [folder, name + "." + ext];
    assert Join([folder, name + "." + ext], '/') == folder + "/" + name + "." + ext;
    var id := folder + "/" + name;
    assert TailOf(Join(parts, '/')) == id + ['.'] + ext;
    SplitConcat(id, '.', ext);
    SplitWithoutSeparator(id, '.');
  }

  /** A URL with one segment keeps it, up to its first `.`. */
  lemma {:induction false} PublicIdOfOneSegment(url: string)
    requires '/' !in url
    ensures PublicId(url) == Split(url, '.')[0]
  {
    SplitWithoutSeparator(url, '/');
  }

  /** A URL without `.` is not truncated: the id is the last two segments
      joined. */
  lemma {:induction false} PublicIdWithoutDot(url: string)
    requires '.' !in url
    ensures PublicId(url) == TailOf(url)
  {
    var parts := Split(url, '/');
    SplitKeepsAbsent(url, '/', '.');
    LastTwoKeepsAbsent(parts, '.');
    JoinKeepsAbsent(LastTwo(parts), '/', '.');
    SplitWithoutSeparator(TailOf(url), '.');
  }

  lemma {:induction false} LastTwoKeepsAbsent(parts: seq<string>, c: char)
    requires forall k :: 0 <= k < |parts| ==> c !in parts[k]
    ensures forall k :: 0 <= k < |LastTwo(parts)| ==> c !in LastTwo(parts)[k]
  {
    var r := LastTwo(parts);
    forall k | 0 <= k < |r| ensures c !in r[k] {
      assert r[k] == parts[|parts| - |r| + k];
    }
  }
}

/**
 * The compress-and-upload panel: the picked image, its compressed copy renamed after the output type,
 * the size unit shown for each, and the upload of whichever file is at hand to `images/<name>`.
 */
module ImageCompUpload {
  import opened Base

  /** The unit `formatFileSize` shows a size in. */
  datatype SizeUnit = Bytes | KB | MB

  /** `formatFileSize`'s choice of unit; the two-decimal figure itself is not modelled. */
  function SizeUnitOf(size: int): (u: SizeUnit)
    ensures u == Bytes <==> size < 1024
    ensures u == KB <==> 1024 <= size < 1024 * 1024
    ensures u == MB <==> 1024 * 1024 <= size
  {
    if size < 1024 then Bytes
    else if size < 1024 * 1024 then KB
    else MB
  }

  function UnitRank(u: SizeUnit): nat
  {
    match u
    case Bytes => 0
    case KB => 1
    case MB => 2
  }

  /** A larger file is never shown in a smaller unit. */
  lemma SizeUnitMonotone(a: int, b: int)
    requires a <= b
    ensures UnitRank(SizeUnitOf(a)) <= UnitRank(SizeUnitOf(b))
  {
  }

  /**
   * Position `i` starts a match of `/\.[^/.]+$/`: a dot followed, up to the end of the name, by at least
   * one character that is neither a dot nor a slash.
   */
  predicate ExtensionAt(name: string, i: int)
  {
    0 <= i < |name| - 1 && name[i] == '.' && forall j :: i < j < |name| ==> name[j] != '.' && name[j] != '/'
  }

  /** Scans back from position `k`, everything after which is free of dots and slashes. */
  function ExtensionBefore(name: string, k: nat): (r: Option<nat>)
    requires k <= |name|
    requires forall j :: k <= j < |name| ==> name[j] != '.' && name[j] != '/'
    ensures r.Some? ==> ExtensionAt(name, r.value)
    ensures r.None? ==> forall i :: 0 <= i < k ==> !ExtensionAt(name, i)
    decreases k
  {
    if k == 0 then None
    else if name[k - 1] == '.' then (if k < |name| then Some(k - 1) else None)
    else if name[k - 1] == '/' then None
    else ExtensionBefore(name, k - 1)
  }

  /** Where the regular expression matches, if it does; a match, when there is one, is unique. */
  function Extension(name: string): (r: Option<nat>)
    ensures r.Some? ==> ExtensionAt(name, r.value)
    ensures forall i :: ExtensionAt(name, i) ==> r == Some(i)
  {
    ExtensionBefore(name, |name|)
  }

  /** The text before the first slash. */
  function UpToSlash(s: string): (r: string)
    ensures r <= s && '/' !in r
    ensures |r| < |s| ==> s[|r|] == '/'
  {
    if s == [] || s[0] == '/' then [] else [s[0]] + UpToSlash(s[1..])
  }

  /** The text after the first slash, if there is one. */
  function AfterSlash(s: string): (r: Option<string>)
    ensures r.None? <==> '/' !in s
    ensures r.Some? ==> exists i :: 0 <= i < |s| && s[i] == '/' && '/' !in s[..i] && r.value == s[i + 1..]
  {
    if s == [] then None
    else if s[0] == '/' then (assert '/' !in s[..0]; Some(s[1..]))
    else
      var r := AfterSlash(s[1..]);
      if r.Some? then
        ghost var i :| 0 <= i < |s[1..]| && s[1..][i] == '/' && '/' !in s[1..][..i] && r.value == s[1..][i + 1..];
        assert s[..i + 1] == [s[0]] + s[1..][..i];
        r
      else r
  }

  /**
   * `fileType.split("/")[1]`: the second slash-separated piece, or the text `undefined` that a missing
   * piece turns into inside a template literal.
   */
  function Subtype(fileType: string): (r: string)
    ensures '/' !in r
    ensures '/' !in fileType ==> r == "undefined"
  {
    match AfterSlash(fileType)
    case None => "undefined"
    case Some(rest) => UpToSlash(rest)
  }

  /** The text after the first slash is everything after it. */
  lemma {:induction false} AfterFirstSlash(s: string, i: nat)
    requires i < |s| && s[i] == '/' && '/' !in s[..i]
    ensures AfterSlash(s) == Some(s[i + 1..])
  {
    if i > 0 {
      assert s[..i] == [s[0]] + s[1..][..i - 1];
      AfterFirstSlash(s[1..], i - 1);
      assert s[1..][i..] == s[i + 1..];
    }
  }

  /** A text without a slash is a single piece. */
  lemma {:induction false} UpToSlashWhole(s: string)
    requires '/' !in s
    ensures UpToSlash(s) == s
  {
    if s != [] {
      assert s[0] in s;
      assert s == [s[0]] + s[1..];
      UpToSlashWhole(s[1..]);
    }
  }

  /** The default output type gives the `.webp` extension. */
  lemma WebpSubtype()
    ensures Subtype("image/webp") == "webp"
  {
    var t := "image/webp";
    assert t[5] == '/' && t[..5] == "image" && t[6..] == "webp";
    AfterFirstSlash(t, 5);
    UpToSlashWhole("webp");
  }

  /** `name.replace(/\.[^/.]+$/, `.${subtype}`)`: the compressed file's name. */
  function Renamed(name: string, fileType: string): (r: string)
    ensures forall i :: ExtensionAt(name, i) ==> r == name[..i] + ("." + Subtype(fileType))
    ensures (forall i :: !ExtensionAt(name, i)) ==> r == name
  {
    match Extension(name)
    case None => name
    case Some(i) => name[..i] + ("." + Subtype(fileType))
  }

  /** The text before the replaced extension survives; the result ends in the new extension. */
  lemma {:induction false} RenamedKeepsStem(name: string, fileType: string, i: nat)
    requires ExtensionAt(name, i)
    ensures name[..i] <= Renamed(name, fileType)
    ensures |Renamed(name, fileType)| == i + 1 + |Subtype(fileType)|
    ensures Renamed(name, fileType)[i..] == "." + Subtype(fileType)
  {
    var sub := Subtype(fileType);
    var r := Renamed(name, fileType);
    assert r == name[..i] + ("." + sub);
    assert r[..i] == name[..i];
    assert r[i..] == "." + sub;
  }

  /**
   * When the subtype is a non-empty name without a dot, renaming is idempotent: the compressed file's
   * name already has the target extension, so compressing it again keeps the name.
   */
  lemma {:induction false} RenamedIdempotent(name: string, fileType: string)
    requires Subtype(fileType) != [] && '.' !in Subtype(fileType)
    ensures Renamed(Renamed(name, fileType), fileType) == Renamed(name, fileType)
  {
    var sub := Subtype(fileType);
    var r := Renamed(name, fileType);
    var e := Extension(name);
    if e.Some? {
      var i := e.value;
      assert r == name[..i] + ("." + sub);
      assert ExtensionAt(r, i) by {
        forall j | i < j < |r| ensures r[j] != '.' && r[j] != '/' {
          assert r[j] == sub[j - i - 1];
        }
      }
      assert r[..i] == name[..i];
    } else {
      assert forall i :: !ExtensionAt(name, i);
    }
  }

  /** A name without an extension is left alone. */
  lemma RenamedWithoutExtension(name: string, fileType: string)
    requires '.' !in name
    ensures Renamed(name, fileType) == name
  {
    assert forall i :: 0 <= i < |name| ==> name[i] in name;
  }

  /** A browser `File`: its name, its size in bytes and its MIME type. */
  datatype File = File(name: string, size: nat, mime: string)

  /** A pixel resolution. */
  datatype Resolution = Resolution(width: nat, height: nat)

  /** The storage path an upload goes to. */
  function UploadPath(file: File): (p: string)
    ensures |p| == 7 + |file.name| && p[..7] == "images/" && p[7..] == file.name
  {
    "images/" + file.name
  }

  /** Files with different names never share a storage path, so one upload cannot replace another's file. */
  lemma UploadPathInjective(f: File, g: File)
    ensures UploadPath(f) == UploadPath(g) <==> f.name == g.name
  {
    if UploadPath(f) == UploadPath(g) {
      assert f.name == UploadPath(f)[7..] == UploadPath(g)[7..] == g.name;
    }
  }

  /** The panel's state. */
  class Uploader {
    var image: Option<File>
    var compressedImage: Option<File>
    var imageResolution: Option<Resolution>
    var compressedResolution: Option<Resolution>
    /** The compression progress in percent. */
    var progress: int
    /** `options.fileType`, the output type picked in the select. */
    var fileType: string
    var isUploading: bool
    var downloadURL: Option<string>

    constructor ()
      ensures image.None? && compressedImage.None? && imageResolution.None? && compressedResolution.None?
      ensures progress == 0 && fileType == "image/webp" && !isUploading && downloadURL.None?
    {
      image := None;
      compressedImage := None;
      imageResolution := None;
      compressedResolution := None;
      progress := 0;
      fileType := "image/webp";
      isUploading := false;
      downloadURL := None;
    }

    /** The output type select. */
    method SelectFileType(value: string)
      modifies this`fileType
      ensures fileType == value
    {
      fileType := value;
    }

    /**
     * `handleImageChange`: a newly picked file replaces the image and discards the compressed copy, its
     * resolution and the progress. The picked image's own resolution arrives later and is not modelled.
     */
    method HandleImageChange(file: File)
      modifies this`image, this`compressedImage, this`compressedResolution, this`progress
      ensures image == Some(file) && compressedImage.None? && compressedResolution.None? && progress == 0
    {
      compressedImage := None;
      image := Some(file);
      compressedImage := None;
      compressedResolution := None;
      progress := 0;
    }

    /** `clearInput`: back to the empty panel. */
    method ClearInput()
      modifies this`image, this`compressedImage, this`imageResolution, this`compressedResolution, this`progress
      ensures image.None? && compressedImage.None? && imageResolution.None? && compressedResolution.None?
      ensures progress == 0
    {
      image := None;
      compressedImage := None;
      imageResolution := None;
      compressedResolution := None;
      progress := 0;
    }

    /**
     * `handleCompress`. `compressed` is the size of the blob the compression library resolves with, or
     * the error it rejects with. With no image nothing happens; otherwise a successful compression
     * becomes the compressed file, renamed after the output type and typed with it.
     */
    method HandleCompress(compressed: Result<nat, string>)
      modifies this`compressedImage
      ensures image.Some? && compressed.Ok? ==>
        compressedImage == Some(File(Renamed(image.value.name, fileType), compressed.value, fileType))
      ensures image.None? || compressed.Err? ==> compressedImage == old(compressedImage)
    {
      if image.None? {
        return;
      }
      if compressed.Ok? {
        var newFileName := Renamed(image.value.name, fileType);
        compressedImage := Some(File(newFileName, compressed.value, fileType));
      }
    }

    /**
     * `handleImageUploadToFirestore`. `upload` is the download URL the upload resolves with, or the error
     * it rejects with; `path` is where the file goes. The compressed file is preferred over the original;
     * with neither, nothing is uploaded and the panel is left marked as uploading.
     */
    method HandleUpload(upload: Result<string, string>) returns (path: Option<string>)
      modifies this`isUploading, this`downloadURL
      ensures compressedImage.Some? ==> path == Some(UploadPath(compressedImage.value))
      ensures compressedImage.None? && image.Some? ==> path == Some(UploadPath(image.value))
      ensures compressedImage.None? && image.None? ==> path.None? && isUploading && downloadURL == old(downloadURL)
      ensures path.Some? ==> !isUploading && downloadURL == (if upload.Ok? then Some(upload.value) else old(downloadURL))
    {
      isUploading := true;
      if compressedImage.None? && image.None? {
        return None;
      }
      var fileToUpload := if compressedImage.Some? then compressedImage.value else image.value;
      path := Some(UploadPath(fileToUpload));
      if upload.Ok? {
        downloadURL := Some(upload.value);
      }
      isUploading := false;
    }
  }
}

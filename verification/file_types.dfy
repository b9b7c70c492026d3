/**
 * api/ocr.py: classifying an upload by its extension, the MIME type sent
 * for an image, the choice between the two OCR services, and the
 * rejection of unsupported files in `process_file`.
 *
 * The OCR services and the spreadsheet and document readers are inputs:
 * each is a function from what it is given to the text it returns or the
 * error it raises.
 */
module FileTypes {
  import opened Wrappers
  import opened Text

  datatype FileType = Image | Pdf | Excel | Word | Csv | Unknown {
    /** The string `detect_file_type` returns. */
    function Name(): string {
      match this
      case Image => "image"
      case Pdf => "pdf"
      case Excel => "excel"
      case Word => "word"
      case Csv => "csv"
      case Unknown => "unknown"
    }
  }

  /** `name.lower().split('.')[-1]` */
  function Extension(name: string): (r: string)
    ensures '.' !in r && |r| <= |name|
  {
    AfterLast(Lower(name), '.')
  }

  const ImageExtensions: seq<string> := ["jpg", "jpeg", "png", "gif", "bmp", "tiff", "webp"]

  /** The type an extension names: the `if`/`elif` chain of
      `detect_file_type`. */
  function Classify(ext: string): FileType {
    if ext in ImageExtensions then Image
    else if ext == "pdf" then Pdf
    else if ext in ["xlsx", "xls"] then Excel
    else if ext == "docx" then Word
    else if ext == "csv" then Csv
    else Unknown
  }

  /** `detect_file_type` */
  function DetectFileType(filename: string): FileType {
    Classify(Extension(filename))
  }

  lemma {:induction false} AfterLastSuffix(s: string, t: string, sep: char)
    requires sep !in t
    ensures AfterLast(s + [sep] + t, sep) == t
    decreases |t|
  {
    var u := s + [sep] + t;
    if t == [] {
      assert u[|u| - 1] == sep;
    } else {
      var n := |t| - 1;
      assert t[n] in t;
      assert u[..|u| - 1] == s + [sep] + t[..n];
      assert forall k :: 0 <= k < n ==> t[..n][k] == t[k];
      AfterLastSuffix(s, t[..n], sep);
      assert t == t[..n] + [t[n]];
    }
  }

  /** The extension of `stem.ext` is the lower-cased `ext`, whatever the
      stem holds (dots included). */
  lemma ExtensionOfName(stem: string, ext: string)
    requires '.' !in ext
    ensures Extension(stem + "." + ext) == Lower(ext)
  {
    LowerAppend(stem + ".", ext);
    LowerAppend(stem, ".");
    assert Lower(".") == ".";
    assert Lower(stem + "." + ext) == Lower(stem) + ['.'] + Lower(ext);
    assert '.' !in Lower(ext);
    AfterLastSuffix(Lower(stem), Lower(ext), '.');
  }

  /** Classification only depends on the extension, and ignores case: the
      seven image extensions, pdf, xlsx and xls, docx and csv, in any
      capitalisation, give their types, and everything else is unknown. */
  lemma DetectByExtension(stem: string, ext: string)
    requires '.' !in ext
    ensures var t := DetectFileType(stem + "." + ext);
      && (t == Image <==> Lower(ext) in ImageExtensions)
      && (t == Pdf <==> Lower(ext) == "pdf")
      && (t == Excel <==> Lower(ext) == "xlsx" || Lower(ext) == "xls")
      && (t == Word <==> Lower(ext) == "docx")
      && (t == Csv <==> Lower(ext) == "csv")
      && (t == Unknown <==> Lower(ext) !in ImageExtensions + ["pdf", "xlsx", "xls", "docx", "csv"])
  {
    ExtensionOfName(stem, ext);
  }

  /** Lower-casing a name first does not change its type. */
  lemma DetectIgnoresCase(filename: string)
    ensures DetectFileType(Lower(filename)) == DetectFileType(filename)
  {
    assert Lower(Lower(filename)) == Lower(filename);
    assert Extension(Lower(filename)) == Extension(filename);
  }

  /** The older Word format is not accepted. */
  lemma DocIsUnknown(stem: string)
    ensures DetectFileType(stem + ".doc") == Unknown
  {
    assert stem + ".doc" == stem + "." + "doc";
    ExtensionOfName(stem, "doc");
    DocExtension();
  }

  lemma DocExtension()
    ensures Lower("doc") == "doc" && Classify("doc") == Unknown
  {
    assert Lower("doc") == "doc";
  }

  lemma {:induction false} AfterLastAbsent(s: string, sep: char)
    requires sep !in s
    ensures AfterLast(s, sep) == s
  {
    if s != [] {
      var n := |s| - 1;
      assert s[n] in s;
      assert forall k :: 0 <= k < n ==> s[..n][k] == s[k];
      AfterLastAbsent(s[..n], sep);
      assert s == s[..n] + [s[n]];
    }
  }

  /** A name without a dot is its own extension, so a file called `png` is
      classified as an image. */
  lemma NoDotName(name: string)
    requires '.' !in name
    ensures Extension(name) == Lower(name)
  {
    assert '.' !in Lower(name);
    AfterLastAbsent(Lower(name), '.');
  }

  /** The `mime_map` of `extract_text_from_image`. */
  const MimeMap: seq<(string, string)> := [
    ("jpg", "image/jpeg"), ("jpeg", "image/jpeg"), ("png", "image/png"), ("gif", "image/gif"),
    ("bmp", "image/bmp"), ("tiff", "image/tiff"), ("webp", "image/webp")]

  /** `d.get(key, default)` on an association list. */
  function GetOr(m: seq<(string, string)>, key: string, default: string): (r: string)
    ensures (forall i :: 0 <= i < |m| ==> m[i].0 != key) ==> r == default
    ensures forall i :: 0 <= i < |m| && m[i].0 == key && (forall j :: 0 <= j < i ==> m[j].0 != key) ==> r == m[i].1
  {
    if m == [] then default
    else if m[0].0 == key then m[0].1
    else
      var r := GetOr(m[1..], key, default);
      assert forall i :: 1 <= i < |m| ==> m[i] == m[1..][i - 1];
      r
  }

  /** The MIME type sent to Document AI for an image path. */
  function ImageMimeType(path: string): string {
    GetOr(MimeMap, Extension(path), "image/jpeg")
  }

  /** The map covers exactly the image extensions, each sent as
      `image/<ext>` except `jpg`, which is sent as `image/jpeg`; any other
      extension is sent as `image/jpeg`. */
  lemma ImageMimeTypeSpec(path: string)
    ensures var ext := Extension(path);
      && (ext in ImageExtensions && ext != "jpg" ==> ImageMimeType(path) == "image/" + ext)
      && (ext == "jpg" || ext !in ImageExtensions ==> ImageMimeType(path) == "image/jpeg")
  {
    var ext := Extension(path);
    if ext in ImageExtensions {
      MimeKnown(ext);
    } else {
      MimeUnknown(ext);
    }
  }

  lemma MimeKnown(ext: string)
    requires ext in ImageExtensions
    ensures GetOr(MimeMap, ext, "image/jpeg") == "image/" + (if ext == "jpg" then "jpeg" else ext)
  {
    var m := MimeMap;
    MimeKeys();
    var i :| 0 <= i < |ImageExtensions| && ImageExtensions[i] == ext;
    MimeEntry(i);
    forall j | 0 <= j < i
      ensures m[j].0 != ext
    {
      ExtensionsDistinct(j, i);
    }
  }

  lemma MimeUnknown(ext: string)
    requires ext !in ImageExtensions
    ensures GetOr(MimeMap, ext, "image/jpeg") == "image/jpeg"
  {
    MimeKeys();
  }

  /** The map's keys are the image extensions, in order. */
  lemma MimeKeys()
    ensures |MimeMap| == |ImageExtensions|
    ensures forall i :: 0 <= i < |MimeMap| ==> MimeMap[i].0 == ImageExtensions[i]
  {
    assert MimeMap[0].0 == ImageExtensions[0];
    assert MimeMap[1].0 == ImageExtensions[1];
    assert MimeMap[2].0 == ImageExtensions[2];
    assert MimeMap[3].0 == ImageExtensions[3];
    assert MimeMap[4].0 == ImageExtensions[4];
    assert MimeMap[5].0 == ImageExtensions[5];
    assert MimeMap[6].0 == ImageExtensions[6];
  }

  lemma ExtensionsDistinct(j: nat, i: nat)
    requires j < i < |ImageExtensions|
    ensures ImageExtensions[j] != ImageExtensions[i]
  {
    var e := ImageExtensions;
    assert e[j][0] != e[i][0] || e[j][1] != e[i][1] || |e[j]| != |e[i]| || e[j][2] != e[i][2];
  }

  lemma MimeEntry(i: nat)
    requires i < |MimeMap|
    ensures MimeMap[i].1 == "image/" + (if i == 0 then "jpeg" else ImageExtensions[i])
  {
    var e := ImageExtensions;
    if i == 0 {
    } else if i == 1 {
      assert "image/jpeg" == "image/" + e[1];
    } else if i == 2 {
      assert "image/png" == "image/" + e[2];
    } else if i == 3 {
      assert "image/gif" == "image/" + e[3];
    } else if i == 4 {
      assert "image/bmp" == "image/" + e[4];
    } else if i == 5 {
      assert "image/tiff" == "image/" + e[5];
    } else {
      assert "image/webp" == "image/" + e[6];
    }
  }

  /** A Vision API answer: its error message and its text annotations. */
  datatype VisionResponse = VisionResponse(errorMessage: string, annotations: seq<string>)

  /** The text of a Vision answer: an error message raises, no annotations
      gives the empty text, otherwise the first annotation holds it all. */
  function VisionText(resp: Result<VisionResponse, string>): (r: Result<string, string>)
    ensures resp.Failure? ==> r == Failure(resp.error)
    ensures resp.Success? && resp.value.errorMessage != "" ==> r.Failure?
    ensures resp.Success? && resp.value.errorMessage == "" ==>
      r == Success(if resp.value.annotations == [] then "" else resp.value.annotations[0])
  {
    match resp
    case Failure(e) => Failure(e)
    case Success(v) =>
      if v.errorMessage != "" then Failure("Google Vision API error: " + v.errorMessage)
      else if v.annotations == [] then Success("")
      else Success(v.annotations[0])
  }

  /** `extract_text_from_image`: Document AI first when it is enabled and
      configured, the Vision API when that is off or fails. */
  function ImageText(path: string, useDocumentAi: bool, projectId: Option<string>,
                     documentAi: (string, string) -> Result<string, string>,
                     vision: Result<VisionResponse, string>): (r: Result<string, string>)
    ensures useDocumentAi && projectId.Some? && projectId.value != "" && documentAi(path, ImageMimeType(path)).Success? ==>
      r == documentAi(path, ImageMimeType(path))
    ensures !(useDocumentAi && projectId.Some? && projectId.value != "" && documentAi(path, ImageMimeType(path)).Success?) ==>
      r == VisionText(vision)
  {
    if useDocumentAi && projectId.Some? && projectId.value != "" then
      var d := documentAi(path, ImageMimeType(path));
      if d.Success? then d else VisionText(vision)
    else VisionText(vision)
  }

  /** `extract_text_from_pdf`: Document AI with `application/pdf`, the
      Vision API when that fails. */
  function PdfText(path: string, documentAi: (string, string) -> Result<string, string>,
                   vision: Result<VisionResponse, string>): (r: Result<string, string>)
    ensures documentAi(path, "application/pdf").Success? ==> r == documentAi(path, "application/pdf")
    ensures documentAi(path, "application/pdf").Failure? ==> r == VisionText(vision)
  {
    var d := documentAi(path, "application/pdf");
    if d.Success? then d else VisionText(vision)
  }

  /** `process_file`: classify by the upload's name, hand the stored file
      to the extractor for that type, and return the text with the type's
      name; an unknown type raises before any extractor runs. The
      extractor for each known type is an input. */
  function ProcessFile(filePath: string, filename: string,
                       extract: (FileType, string) -> Result<string, string>): (r: Result<(string, string), string>)
    ensures DetectFileType(filename) == Unknown ==> r == Failure("Unsupported file type: unknown")
    ensures r.Success? ==> r.value.1 == DetectFileType(filename).Name() && r.value.1 != "unknown"
    ensures DetectFileType(filename) != Unknown ==>
      (r.Success? <==> extract(DetectFileType(filename), filePath).Success?)
    ensures r.Success? ==> Success(r.value.0) == extract(DetectFileType(filename), filePath)
  {
    var t := DetectFileType(filename);
    if t == Unknown then Failure("Unsupported file type: unknown")
    else
      match extract(t, filePath)
      case Failure(e) => Failure(e)
      case Success(text) =>
        NameKnown(t);
        Success((text, t.Name()))
  }

  /** Only `Unknown` is named "unknown". */
  lemma NameKnown(t: FileType)
    requires t != Unknown
    ensures t.Name() != "unknown"
  {
    assert t.Name()[0] != 'u';
  }
}

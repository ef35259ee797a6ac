/**
 * `downloadBookFromS3` (main.js:46-73): choose the S3 object from the asset
 * id and the type, fetch it, name the output file after the sanitised title
 * and write either the raw body (pdf) or the normalised text (docx).
 *
 * S3, the file system and the console are not modelled as such: the fetch
 * is a function supplied by the caller and every call the run makes to the
 * outside world is an `Event`.
 */
module S3Download {
  import opened Wrappers
  import Sanitizer
  import HtmlText

  /** One row of the `book` table: asset_id, title (NULL as None) and type. */
  datatype BookRecord = BookRecord(assetId: string, title: Option<string>, kind: string)

  /** What the run does to the outside world, in the order it does it. */
  datatype Event =
    | GetObject(bucket: string, key: string)     // s3.getObject(params)
    | WritePdf(name: string, body: string)       // fs.writeFile of the raw body
    | WriteDocx(name: string, text: string)      // writeFileSync of the docx made from the text
    | FolderMissing                              // logged by the writeFile callback on error
    | Progress(position: nat, total: nat)        // 'Done downloading from S3 --- i of n'
    | CsvReadFailed                              // 'Failed to read in the csv.'
    | CsvRead                                    // 'Completed read in of CSV file.'
    | AllDone                                    // 'Finished all downloads.'
    | PartialFailure(ids: seq<Option<string>>)   // the failed ids, printed after the warning

  /** `Key`: the object is called `book` for a pdf and `index.html` for anything else. */
  function ObjectKey(kind: string): (key: string)
    ensures key == "book" <==> kind == "pdf"
    ensures key == "book" || key == "index.html"
  {
    if kind == "pdf" then "book" else "index.html"
  }

  /** `Bucket`: the configured bucket, a '/', then the asset id. */
  function ObjectBucket(bucket: string, assetId: string): (path: string)
    ensures |path| == |bucket| + 1 + |assetId|
  {
    bucket + "/" + assetId
  }

  /** Within one bucket, different assets never share a container path. */
  lemma ObjectBucketInjective(bucket: string, a: string, b: string)
    requires ObjectBucket(bucket, a) == ObjectBucket(bucket, b)
    ensures a == b
  {
    assert a == ObjectBucket(bucket, a)[|bucket| + 1..];
    assert b == ObjectBucket(bucket, b)[|bucket| + 1..];
  }

  /** The extension of the output file: `.pdf` for a pdf and `.docx` for anything else. */
  function Extension(kind: string): (ext: string)
    ensures ext == ".pdf" <==> kind == "pdf"
    ensures ext == ".pdf" || ext == ".docx"
  {
    if kind == "pdf" then ".pdf" else ".docx"
  }

  /** `removeSpaces(bookTitle) + extension`: the name the book is written under. */
  function FileName(title: string, kind: string): (name: string)
    ensures |Extension(kind)| <= |name| <= |title| + |Extension(kind)|
    ensures |name| == |Extension(kind)| <==> title == []
  {
    Sanitizer.RemoveSpaces(title) + Extension(kind)
  }

  /**
   * The name has no '/', so the file lands in the output directory itself,
   * it ends in the extension, and no '.' comes before the extension.
   */
  lemma FileNameShape(title: string, kind: string)
    ensures var name := FileName(title, kind);
            '/' !in name &&
            |name| >= |Extension(kind)| && name[|name| - |Extension(kind)|..] == Extension(kind) &&
            '.' !in name[..|name| - |Extension(kind)|]
  {
    var stem, ext := Sanitizer.RemoveSpaces(title), Extension(kind);
    var name := FileName(title, kind);
    assert forall i :: 0 <= i < |stem| ==> Sanitizer.IsStemChar(stem[i]);
    assert '/' !in stem && '.' !in stem;
    assert '/' !in ext;
    assert name[..|stem|] == stem && name[|stem|..] == ext;
  }

  /**
   * Titles that differ only in which punctuation or space sits at one
   * place are written to the same file: names are not disambiguated.
   */
  lemma TitlesCollide(x: string, y: string, c1: char, c2: char, kind: string)
    requires !Sanitizer.IsAlnum(c1) && !Sanitizer.IsAlnum(c2)
    ensures FileName(x + [c1] + y, kind) == FileName(x + [c2] + y, kind)
  {
    Sanitizer.SeparatorsInterchangeable(x, y, c1, c2);
  }

  /** What one call of `downloadBookFromS3` does: whether it throws, and its events. */
  datatype Outcome = Outcome(threw: bool, events: seq<Event>)

  /**
   * The download stage for one record, at queue position `index` of `total`.
   * It fetches the object (a failed fetch throws), names the file (a NULL
   * title throws in `removeSpaces`), starts the write and reports progress.
   * Neither write is waited for: the docx is written once `Packer` is done,
   * and the pdf write's callback logs a missing folder after the progress
   * line, so no write error reaches the caller.
   */
  function DownloadBook(bucket: string, title: Option<string>, assetId: string, kind: string,
                        index: nat, total: nat,
                        fetch: (nat, string, string) -> Option<string>, dirExists: bool): (r: Outcome)
    ensures r.events != [] && r.events[0] == GetObject(ObjectBucket(bucket, assetId), ObjectKey(kind))
    ensures r.threw <==> fetch(index, ObjectBucket(bucket, assetId), ObjectKey(kind)).None? || title.None?
    ensures r.threw ==> r.events == [r.events[0]]
    ensures !r.threw ==>
              |r.events| >= 3 && r.events[2] == Progress(index + 1, total) &&
              (r.events[1].WritePdf? <==> kind == "pdf") && (r.events[1].WriteDocx? <==> kind != "pdf") &&
              (|r.events| == 4 <==> kind == "pdf" && !dirExists) &&
              (|r.events| == 4 ==> r.events[3] == FolderMissing) && |r.events| <= 4
  {
    var params := GetObject(ObjectBucket(bucket, assetId), ObjectKey(kind));
    match fetch(index, params.bucket, params.key)
    case None => Outcome(true, [params])
    case Some(body) =>
      match title
      case None => Outcome(true, [params])
      case Some(t) =>
        var name := FileName(t, kind);
        var write := if kind != "pdf" then WriteDocx(name, HtmlText.Normalize(body)) else WritePdf(name, body);
        var callback := if kind == "pdf" && !dirExists then [FolderMissing] else [];
        Outcome(false, [params, write, Progress(index + 1, total)] + callback)
  }

  /** Whether the download stage throws does not depend on the output folder. */
  lemma WriteErrorsNotThrown(bucket: string, title: Option<string>, assetId: string, kind: string,
                             index: nat, total: nat, fetch: (nat, string, string) -> Option<string>)
    ensures DownloadBook(bucket, title, assetId, kind, index, total, fetch, false).threw ==
            DownloadBook(bucket, title, assetId, kind, index, total, fetch, true).threw
  {
  }

  /** A successful pdf download writes the fetched body itself, under the sanitised title and `.pdf`. */
  lemma PdfWritesBody(bucket: string, title: string, assetId: string, kind: string,
                      index: nat, total: nat, fetch: (nat, string, string) -> Option<string>, dirExists: bool)
    requires kind == "pdf"
    requires fetch(index, ObjectBucket(bucket, assetId), ObjectKey(kind)).Some?
    ensures var r := DownloadBook(bucket, Some(title), assetId, kind, index, total, fetch, dirExists);
            var body := fetch(index, ObjectBucket(bucket, assetId), ObjectKey(kind)).value;
            r.events[1] == WritePdf(Sanitizer.RemoveSpaces(title) + ".pdf", body)
  {
  }

  /** A successful html download writes the normalised text, in which no tag or `&nbsp;` is left. */
  lemma DocxTextNormalised(bucket: string, title: string, assetId: string, kind: string,
                           index: nat, total: nat, fetch: (nat, string, string) -> Option<string>, dirExists: bool)
    requires kind != "pdf"
    requires fetch(index, ObjectBucket(bucket, assetId), ObjectKey(kind)).Some?
    ensures var r := DownloadBook(bucket, Some(title), assetId, kind, index, total, fetch, dirExists);
            var body := fetch(index, ObjectBucket(bucket, assetId), ObjectKey(kind)).value;
            r.events[1] == WriteDocx(FileName(title, kind), HtmlText.Normalize(body)) &&
            !HtmlText.Occurs(HtmlText.Nbsp, r.events[1].text) && HtmlText.NoTagLeft(r.events[1].text)
  {
  }
}

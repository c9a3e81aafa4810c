/**
  The `__main__` block of main.py, mainv2.py and mainv3.py up to saving the
  document: list the images, parse the rubric, assemble the document and name
  the output file. What comes from the file system, the HTML parser and the
  clock arrives as parameters.
 */
module Report {
  import opened Wrappers
  import opened Rubric
  import opened Images
  import opened Document
  import opened OutputNamer
  import opened Text

  /** The three report scripts. */
  datatype Script = MainPy | MainV2 | MainV3 {
    /** main.py removes spaces from the file stem; mainv2.py and mainv3.py only lowercase it. */
    predicate StripsSpaces() {
      this == MainPy
    }
  }

  /** The configuration keys the pipeline reads, other than the directory
      the rubric is opened from. */
  datatype Config = Config(
    rubricFile: string,
    truncateLength: int,
    imgDirectory: string,
    heading: HeadingFields,
    docxDirectory: Option<string>)

  /** What a run produces before the document is saved. */
  datatype Report = Report(details: SoupDetails, images: seq<string>, document: seq<Element>, docxPath: string)

  /** `config.get('docxDirectory', '.')`. */
  function DocxDirectory(config: Config): string {
    config.docxDirectory.GetOr(".")
  }

  /** The run, composed from the function forms of its steps. */
  function BuildReport(script: Script, config: Config, spanTexts: seq<string>, titleTag: Option<string>,
                       listing: seq<string>, date: string): (r: Report)
    ensures r.details.sections == TruncateAll(KeptSpans(spanTexts), config.truncateLength)
    ensures r.images == GetPngImages(config.imgDirectory, listing)
    ensures titleTag.Some? ==> r.details.title == titleTag.value
    ensures titleTag.None? ==> r.details.title == r.details.fileEnding
    ensures r.details.fileEnding == FileEnding(script.StripsSpaces(), config.rubricFile)
    ensures r.document == TitlePage(r.details.title, config.heading, date) + SectionPages(r.details.sections, r.images)
    ensures |r.document| == 2 + 2 * |r.details.sections| + Min(|r.details.sections|, |r.images|)
    ensures r.document[0] == Heading(r.details.title, 0)
    ensures StartsWith(r.docxPath, DocxDirectory(config))
    ensures EndsWith(r.docxPath, DocxBaseName(config.heading.studentId, r.details.fileEnding))
  {
    var details := GetSoupDetails(script.StripsSpaces(), spanTexts, titleTag, config.rubricFile, config.truncateLength);
    var images := GetPngImages(config.imgDirectory, listing);
    var title := TitlePage(details.title, config.heading, date);
    var pages := SectionPages(details.sections, images);
    assert |title| == 2 && title[0] == Heading(details.title, 0);
    assert (title + pages)[0] == title[0];
    Report(details, images, title + pages,
           GetDocxFileName(DocxDirectory(config), config.heading.studentId, details.fileEnding))
  }

  /** The scripts build the same document whenever the rubric has a `<title>`
      tag or its stem has no space, and the same output path exactly when the
      stem has no space. Two scripts that treat spaces alike, mainv2.py and
      mainv3.py, produce the same report on every input. */
  lemma ScriptsAgree(s1: Script, s2: Script, config: Config, spanTexts: seq<string>, titleTag: Option<string>,
                     listing: seq<string>, date: string)
    ensures BuildReport(s1, config, spanTexts, titleTag, listing, date).details.sections
         == BuildReport(s2, config, spanTexts, titleTag, listing, date).details.sections
    ensures titleTag.Some? || ' ' !in Stem(config.rubricFile) ==>
              BuildReport(s1, config, spanTexts, titleTag, listing, date).document
              == BuildReport(s2, config, spanTexts, titleTag, listing, date).document
    ensures s1.StripsSpaces() != s2.StripsSpaces() ==>
              (BuildReport(s1, config, spanTexts, titleTag, listing, date).docxPath
               == BuildReport(s2, config, spanTexts, titleTag, listing, date).docxPath
               <==> ' ' !in Stem(config.rubricFile))
    ensures s1.StripsSpaces() == s2.StripsSpaces() ==>
              BuildReport(s1, config, spanTexts, titleTag, listing, date)
              == BuildReport(s2, config, spanTexts, titleTag, listing, date)
  {
    VariantsAgree(spanTexts, titleTag, config.rubricFile, config.truncateLength);
    var e1 := FileEnding(s1.StripsSpaces(), config.rubricFile);
    var e2 := FileEnding(s2.StripsSpaces(), config.rubricFile);
    if GetDocxFileName(DocxDirectory(config), config.heading.studentId, e1)
       == GetDocxFileName(DocxDirectory(config), config.heading.studentId, e2) {
      DocxFileNameInjective(DocxDirectory(config), config.heading.studentId, e1, e2);
    }
  }

  /** The run in the form the scripts execute it: main.py and mainv2.py
      parse the rubric with the appending loop, mainv3.py with the
      comprehension; the section pages are appended by the section loop. It
      yields the report `BuildReport` describes. */
  method Run(script: Script, config: Config, spanTexts: seq<string>, titleTag: Option<string>,
             listing: seq<string>, date: string) returns (r: Report)
    ensures r == BuildReport(script, config, spanTexts, titleTag, listing, date)
  {
    var images := GetPngImages(config.imgDirectory, listing);
    var details;
    if script == MainV3 {
      details := GetSoupDetails(script.StripsSpaces(), spanTexts, titleTag, config.rubricFile, config.truncateLength);
    } else {
      details := GetSoupDetailsByLoop(script.StripsSpaces(), spanTexts, titleTag, config.rubricFile, config.truncateLength);
    }
    var document := CreateWordDocument(config.heading, date, images, details);
    var path := GetDocxFileName(DocxDirectory(config), config.heading.studentId, details.fileEnding);
    r := Report(details, images, document, path);
  }
}

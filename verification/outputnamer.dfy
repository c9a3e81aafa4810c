/** The output namer `get_docx_file_name` (main.py, mainv2.py, mainv3.py). */
module OutputNamer {
  import opened Text
  import opened Paths

  const DocxExtension: string := ".docx"

  /** `f"{StudentID}_{fileEnding}.docx"`: the student identifier and an
      underscore in front, the extension behind, and the file ending
      recoverable from between them. */
  function DocxBaseName(studentId: string, fileEnding: string): (r: string)
    ensures StartsWith(r, studentId + "_")
    ensures EndsWith(r, DocxExtension)
    ensures |r| == |studentId| + 1 + |fileEnding| + |DocxExtension|
    ensures r[|studentId| + 1..|r| - |DocxExtension|] == fileEnding
  {
    var r := studentId + "_" + fileEnding + DocxExtension;
    assert r[..|studentId| + 1] == studentId + "_";
    r
  }

  /** `get_docx_file_name(data, output_directory, file_ending)`: the base name joined to the directory. */
  function GetDocxFileName(outputDir: string, studentId: string, fileEnding: string): (r: string)
    ensures StartsWith(r, outputDir)
    ensures EndsWith(r, DocxBaseName(studentId, fileEnding))
    ensures EndsWith(r, DocxExtension)
    ensures outputDir != [] && !EndsWith(outputDir, "/") ==> r == outputDir + "/" + DocxBaseName(studentId, fileEnding)
    ensures outputDir == [] || EndsWith(outputDir, "/") ==> r == outputDir + DocxBaseName(studentId, fileEnding)
  {
    var base := DocxBaseName(studentId, fileEnding);
    var r := Join(outputDir, base);
    EndsWithTransitive(r, base, DocxExtension);
    r
  }

  /** In one directory and for one student, distinct rubric identifiers give distinct output paths. */
  lemma DocxFileNameInjective(outputDir: string, studentId: string, e1: string, e2: string)
    requires GetDocxFileName(outputDir, studentId, e1) == GetDocxFileName(outputDir, studentId, e2)
    ensures e1 == e2
  {
    JoinInjective(outputDir, DocxBaseName(studentId, e1), DocxBaseName(studentId, e2));
  }
}

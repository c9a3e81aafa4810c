# PDFGenerator report pipeline in Dafny

This project models the string and sequence logic of PDFGenerator. PDFGenerator builds a
paginated Word report from three inputs: a grading rubric in HTML, a directory of
screenshots and a YAML configuration.

Report assembly follows the three near-identical scripts `main.py`, `mainv2.py` and
`mainv3.py`:

- **Rubric parser** (`rubric.dfy`, module `Rubric`): `truncate_string` and `get_soup_details`.
  The inputs are the stripped texts of the criterion-description spans, in document order;
  the stripped `<title>` text, as `Option<string>` because the tag may be absent; the rubric
  file name; and the truncation length. The outputs are the title, the section list and the
  `fileEnding` identifier.
- **Image lister** (`images.dfy`, module `Images`): `get_png_images` over a directory listing.
  It keeps the names whose lower-cased form ends in `.png`, joins each to the directory and
  sorts the result. Python's code-point ordering on `str` and `sorted` are in `lexorder.dfy`
  (module `LexOrder`).
- **Document assembler** (`document.dfy`, module `Document`): `create_word_document`,
  `add_title_and_heading` and `add_sections_to_document`. The output is the sequence of
  elements handed to the document library: headings, the heading paragraph, page breaks and
  pictures.
- **Output namer** (`outputnamer.dfy`, module `OutputNamer`): `get_docx_file_name`.
- **Orchestrator** (`report.dfy`, module `Report`): the `__main__` block up to saving the
  document.

Within the modelled part, everything up to saving the document, the scripts differ in one
observable place. `main.py` removes spaces from the file stem;
`mainv2.py` and `mainv3.py` only lowercase it. A single `stripSpaces` flag models this, and
`Report.Script` chooses it per script. `Rubric.VariantsAgree` and `Report.ScriptsAgree` prove
that within this part it is the only difference: two scripts with the same flag produce the same
report on every input.

The separate utility `pdfToText.py` is modelled from the point where the PDF text is in hand
(`pdftext.dfy`, module `PdfText`). It:

1. takes the text after the first occurrence of a marker;
2. splits it on newlines;
3. keeps the lines that start with a digit;
4. strips the leading number and the whitespace after it;
5. turns a leading `.` into `-`.

Shared helpers:

- `wrappers.dfy`: `Option` and `Result`.
- `text.dfy`: ASCII character classes, `lower()`, `replace(" ", "")`, prefixes and suffixes.
- `paths.dfy`: `os.path.join`.

Two behaviours of the code are easy to misread:

- **Truncation length.** `truncate_string` keeps `length - 1` characters and appends `"..."`,
  so a cut section is `length + 2` characters long, not `length`.
- **Empty title.** A `<title>` tag that exists but holds no text still yields the title `""`.
  A tag object is always truthy, so the file-stem fallback is used only when the tag is absent.

## Model

| member | source | states |
|---|---|---|
| Rubric.Truncate | main.py:114-118 | A text of at most `length` characters comes back unchanged. A longer text ends in `"..."`, and what comes before the ellipsis is a prefix of the text. For `length >= 1` that prefix is the first `length - 1` characters, so the result has `length + 2` characters. For `length < 1` it follows Python's negative slice: `length - 1` counts from the end. |
| Rubric.TruncateNeverPlaceholder | main.py:136-140 | Truncating a text that is not `"Description of criterion"` never yields that placeholder. |
| Rubric.KeptSpans | main.py:136-138 | The kept spans are the input spans with every copy of the placeholder removed, counted as a multiset. Their number is the span count minus the placeholder count. |
| Rubric.KeptSpansAppend | main.py:136-140 | Dropping the placeholder distributes over concatenation, so document order is preserved. |
| Rubric.SectionsComprehension | mainv3.py:100-101 | The comprehension is never longer than the span list and never contains the placeholder. |
| Rubric.ComprehensionIsFilterThenMap | mainv3.py:100-101 | The comprehension equals dropping the placeholder first and then truncating each remaining text, in order. |
| Rubric.ComprehensionAppend | mainv3.py:100-101 | The comprehension distributes over concatenation. The loop proof uses this one step at a time. |
| Rubric.SectionsCount | main.py:136-140 | There is one section per span that is not the placeholder, and no section equals the placeholder. |
| Rubric.Stem | main.py:134 | `split('.')[0]` is a prefix of the file name that contains no `.`. It ends at the first `.` or at the end of the name. |
| Rubric.FileEnding | main.py:142 | The identifier has no `.` and no upper-case letter. With `stripSpaces` (main.py) it has no space. Without it (mainv2.py:120, mainv3.py:102) it is a prefix of the lower-cased file name, ending where a `.` or the name ends. |
| Rubric.FileEndingVariants | mainv2.py:120 | main.py's identifier is mainv2.py's with the spaces removed. The two are equal exactly when the stem has no space. |
| Rubric.GetSoupDetails | mainv3.py:93-103 | The title is the tag text whenever the tag exists, even if that text is empty. With no tag, the title equals the `fileEnding`. The `fileEnding` does not depend on the tag. The sections are the truncated non-placeholder spans, in order. |
| Rubric.GetSoupDetailsByLoop | main.py:121-144 | The appending loop of main.py and mainv2.py:99-122 builds the same record as mainv3.py's comprehension. |
| Rubric.VariantsAgree | mainv2.py:109-120 | Across the two stem variants the sections are always equal, and the titles are equal whenever a tag exists. The identifiers, and so the whole records, are equal exactly when the stem has no space. |
| LexOrder.LessTransitive | mainv2.py:41 | Python's `<` on `str` is transitive. |
| LexOrder.LessTotal | mainv2.py:41 | Any two strings are equal, or one is smaller than the other under Python's `<`. |
| LexOrder.Sort | mainv2.py:41 | `sorted` returns an ascending permutation of its input. |
| LexOrder.SortedUnique | mainv2.py:41 | Two ascending sequences with the same multiset of elements are equal. So `sorted`'s result is determined by its contents. |
| Paths.Join | main.py:78 | On POSIX (macOS, Linux), `os.path.join(dir, name)` inserts one `/` exactly when `dir` is non-empty and does not already end in `/`. Otherwise it is `dir + name`, and an empty `dir` gives `name` itself. |
| Paths.JoinInjective | main.py:39 | Within one directory, different names give different paths. |
| Images.PngPaths | main.py:39 | The comprehension is never longer than the listing. |
| Images.PngPathsAppend | main.py:39 | The comprehension distributes over concatenation: the joined PNG paths keep the listing's order and repetitions. |
| Images.PngPathsMembership | main.py:39 | The comprehension holds a path exactly when it is a PNG name of the listing joined to the directory. |
| Images.GetPngImages | mainv2.py:40-41 | The image list is in ascending order and is a permutation of the joined PNG names. It is never longer than the listing. |
| Images.PngImagesMembership | mainv2.py:41 | A path is in the image list exactly when some listed name whose lower-cased form ends in `.png` joins to it. |
| Images.NonPngNeverListed | mainv2.py:41 | A name that is not a PNG never contributes a path. |
| Images.PngImagesDeterministic | mainv3.py:35-36 | Any ascending arrangement of the joined PNG names is the list `get_png_images` returns. |
| Document.ImageAt | main.py:64 | Section `i` has an image exactly when `i < len(images)`, and that image is `images[i]`. The `images and` part of the test changes nothing. |
| Document.SectionPages | main.py:55-67 | The section pages have `2·|sections| + min(|sections|, |images|)` elements. |
| Document.SectionPagesBlockAt | mainv2.py:59-71 | Section `i` has its page break and its level-1 heading at offset `2i + min(i, |images|)`. Picture `images[i]` follows them when `i < |images|`. |
| Document.SectionPagesPositional | mainv2.py:68-71 | The positional pairing holds for every section, and the section blocks fill the whole sequence. |
| Document.SectionPagesHeadings | main.py:57 | The level-1 heading texts of the section pages are exactly the sections, in order. |
| Document.SectionPagesBreaks | main.py:56 | The section pages hold exactly one page break per section. |
| Document.SectionPagesPictures | main.py:64-67 | The pictures are exactly the first `min(|sections|, |images|)` images, in order. Surplus images are unused. |
| Document.SectionPagesContents | mainv3.py:56-64 | This combines the three statements above: the headings in order, one page break per section, and the first `min` images. |
| Document.SectionPagesSnoc | mainv3.py:56 | One more loop iteration appends exactly one section block. |
| Document.TitlePageContents | mainv3.py:46-52 | The title page holds no section heading, no picture and no page break. |
| Document.AddSectionsToDocument | mainv3.py:55-64 | The loop leaves the existing elements unchanged. After them it places every section's block at offset `2j + min(j, |images|)`: a page break, the level-1 heading and, when `j < |images|`, the picture `images[j]`. It adds `|sections|` page breaks and appends exactly the first `min(|sections|, |images|)` images as pictures, in positional order. |
| Document.PositionalDetermines | mainv2.py:59-71 | A sequence of the right length that has every section's block at its offset is exactly the section pages. The positional description therefore pins down the loop's output completely. |
| Document.AssembledDocument | mainv3.py:39-43 | A document whose first two elements are the title page, and which has every section block after them, is the title page followed by the section pages. Its headings are the sections, it has one page break per section, and its pictures are the first `min` images. |
| Document.CreateWordDocument | mainv3.py:39-43 | The document is the title page followed by the section pages, with nothing in between or after. The title page is a level-0 title heading, then a paragraph of the runs Name, `"\n"`+Course and `"\n"`+date. The document has `|sections|` explicit page breaks. Its section headings are the sections and its pictures are the first `min(|sections|, |images|)` images. |
| OutputNamer.DocxBaseName | main.py:78 | The base name starts with `StudentID + "_"` and ends with `.docx`. The `fileEnding` can be read back from between them. |
| OutputNamer.GetDocxFileName | mainv2.py:80-83 | On POSIX, the output path is the output directory, then one `/` unless the directory is empty or already ends in `/`, then the base name. It therefore ends with `.docx`. |
| OutputNamer.DocxFileNameInjective | mainv3.py:71-73 | For one directory and one student, different identifiers give different output paths. |
| PdfText.FindFrom | pdfToText.py:22 | The search returns the leftmost occurrence at or after its start position, or reports that there is none. |
| PdfText.ExtractAfterString | pdfToText.py:19-25 | An empty marker is an error, because `split` raises and the handler does not catch it. If the marker is absent, the result is `""`. Otherwise `text == p + marker + r`, where no occurrence of the marker starts inside `p`. |
| PdfText.ExtractAfterStringComplete | pdfToText.py:22 | Conversely, any split at the first occurrence yields exactly the text after it. |
| PdfText.SplitLines | pdfToText.py:55 | `split('\n')` yields at least one line, and no line contains a newline. |
| PdfText.JoinSplitLines | pdfToText.py:55 | Joining the split lines with newlines restores the text. |
| PdfText.SplitJoinLines | pdfToText.py:55 | Splitting newline-free lines joined with newlines gives those lines back. |
| PdfText.DigitRun | pdfToText.py:33 | `\d+` matches the longest run of leading digits. |
| PdfText.SpaceRun | pdfToText.py:33 | `\s*` matches the longest run of leading whitespace. |
| PdfText.NumberPrefixUnique | pdfToText.py:33 | The line alone determines the match of `^\d+\s*`. |
| PdfText.StripNumber | pdfToText.py:33 | A line without a leading digit is unchanged. Otherwise the maximal digit run goes, then the maximal whitespace run after it, and the rest is kept. |
| PdfText.RewriteLine | pdfToText.py:33-34 | Only a leading `.` of the stripped line changes, to `-`, and the other characters stay. No rewritten line starts with `.`. |
| PdfText.NumberedLines | pdfToText.py:28-36 | The output is never longer than the input, and no output line starts with `.`. |
| PdfText.NumberedLinesAppend | pdfToText.py:31-35 | The filter distributes over concatenation, so input order is kept. |
| PdfText.NumberedLinesCount | pdfToText.py:31-35 | There is one output line per input line whose first character is a digit. Empty lines are dropped. |
| PdfText.NumberedLinesMembership | pdfToText.py:31-35 | A line is in the output exactly when it is the rewrite of an input line that starts with a digit. |
| PdfText.FilterLinesStartingWithNumber | pdfToText.py:28-36 | The appending loop computes the filter, never yields more lines than it reads, and yields no line starting with `.`. |
| PdfText.ExtractLinesStartingWithNumberAfterString | pdfToText.py:46-56 | The result is the filter applied to the newline split of the extracted suffix. An empty marker is an error. An absent marker yields no lines. |
| Text.LowerRemoveSpacesCommute | main.py:134 | Lowering and removing spaces commute, so the order `replace` then `lower` does not matter. |
| Text.RemoveSpacesAppend | main.py:142 | `replace(" ", "")` distributes over concatenation, so the characters it keeps stay in their order. |
| Report.BuildReport | main.py:147-158 | A run yields the filtered, truncated sections and the sorted PNG list. The title is the tag's text when a tag exists, otherwise the file ending, which is the script's form of the stem. The document is exactly the title page followed by the section pages of those sections and images, so it has `2 + 2·|sections| + min(|sections|, |images|)` elements. The output path starts with `docxDirectory`, which defaults to `"."`, and ends in the student's `.docx` base name. |
| Report.ScriptsAgree | main.py:134-142 | Any two scripts produce the same sections. They produce the same document when a title tag exists or the stem has no space. main.py and the other two produce the same output path exactly when the stem has no space. Two scripts with the same flag, mainv2.py and mainv3.py, produce the same report on every input. |
| Report.Run | mainv3.py:106-115 | The run as each script executes it equals `BuildReport`. main.py and mainv2.py parse with the loop and mainv3.py with the comprehension. |

## Left out

- HTML parsing: BeautifulSoup, `find_all('span', class_=...)`, `find('title')` and `get_text(strip=True)` are a foreign library. Their results (stripped span texts, optional title text) are inputs.
- python-docx styling: centring, the 20-point font, the `pageBreakBefore` tweak and the 6.5-inch picture width are library settings, not logic.
- The date: `datetime.today().strftime('%B %d, %Y')` reads the clock, so the date is a string parameter.
- Report.Run: the listed `.png` paths are assumed to be readable image files. `run.add_picture` (main.py:67, mainv2.py:71, mainv3.py:64) opens and parses each one. It raises on a directory named like `old.png` or on a file that is not an image, and the run then ends before any document is saved. That failure is not modelled: `Run` and `BuildReport` always return a complete report.
- I/O: YAML loading, `read_file`, `os.listdir`, `document.save`, `write_to_file` and PyPDF2's `parse_pdf_file` are file or library work. Their results are parameters.
- `convert_to_pdf` and `kill_word_processes` run external processes and OS-specific process handling.
- The `docx2pdf` import: `mainv2.py` imports it when the module loads (mainv2.py:13), so without the package that script stops before writing any `.docx`. `main.py` and `mainv3.py` import it inside `convert_to_pdf` and catch `ImportError`. The model assumes the import succeeds.
- The confirmation `input()` prompt and the unused `argparse` parser do not affect any value.
- `rubricDirectory` is only used to open the rubric file, so it is not modelled.
- The default argument `length=155` of `truncate_string` is never used, because every caller passes `truncateLength`.
- Paths.Join: only POSIX `os.path.join` (macOS, Linux) is modelled. Windows' `ntpath.join` is not: it uses `\` as separator, adds none after a directory ending in `\` or a bare drive such as `C:`, and handles drive letters, so there `.` and `S123_x.docx` give `.\S123_x.docx`. The image paths of `get_png_images` differ in the same way. The rule that an absolute second argument replaces the directory is not modelled either; names from a directory listing never contain `/`.
- OutputNamer.GetDocxFileName: the base name `StudentID_fileEnding.docx` is joined as a relative name. A configured StudentID that starts with `/` would make `os.path.join` drop the output directory, and that case is outside the model. The `StartsWith(r, outputDir)` clause holds only for a StudentID that does not start with `/`. As for `Paths.Join`, only the POSIX separator `/` is modelled; on Windows the path uses `\`.
- Unicode: `lower()`, `\d` and `\s` are modelled on ASCII only. `\s` covers the ASCII characters `str.isspace()` accepts: space, tab, newline, vertical tab, form feed, carriage return and the separators `\x1c` to `\x1f`. Non-ASCII whitespace such as `\x85` or `\xa0` is not matched.
- A `truncateLength` that is not an integer (YAML could give one) is outside the model, because the parameter is an `int`.

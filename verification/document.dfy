/**
  The document assembler `create_word_document` (main.py, mainv2.py) and its
  decomposition into `add_title_and_heading` and `add_sections_to_document`
  (mainv3.py). The document is the sequence of elements handed to the
  document library, in the order they are added.
 */
module Document {
  import opened Wrappers
  import opened Rubric

  /** One call on the document library. Alignment, font size, the
      page-break-before flag and the picture width are styling and are left out. */
  datatype Element =
    | Heading(text: string, level: nat)
    | Paragraph(runs: seq<string>)
    | PageBreak
    | Picture(path: string)

  /** The configuration's `heading` block. */
  datatype HeadingFields = HeadingFields(name: string, course: string, studentId: string)

  function Min(a: nat, b: nat): nat {
    if a <= b then a else b
  }

  /** `add_title_and_heading`: a level-0 heading holding the title, then one
      paragraph whose runs are the name, the course and the date, the last two
      each opened by a line break. */
  function TitlePage(title: string, fields: HeadingFields, date: string): seq<Element> {
    [Heading(title, 0), Paragraph([fields.name, "\n" + fields.course, "\n" + date])]
  }

  /** The image bound to section `i`: the source's test `images and i < len(images)`. */
  function ImageAt(images: seq<string>, i: nat): (r: Option<string>)
    ensures r.Some? <==> i < |images|
    ensures r.Some? ==> r.value == images[i]
  {
    if images != [] && i < |images| then Some(images[i]) else None
  }

  /** What one iteration of the section loop adds: a page break, a level-1
      heading with the section text, and the bound picture if there is one. */
  function SectionBlock(section: string, image: Option<string>): seq<Element> {
    [PageBreak, Heading(section, 1)] + (if image.Some? then [Picture(image.value)] else [])
  }

  /** The section pages, defined by walking the sections and the images
      together: the head section takes the head image when there is one, and
      the rest pair up the same way. */
  function SectionPages(sections: seq<string>, images: seq<string>): (r: seq<Element>)
    ensures |r| == 2 * |sections| + Min(|sections|, |images|)
  {
    if sections == [] then []
    else if images == [] then SectionBlock(sections[0], None) + SectionPages(sections[1..], [])
    else SectionBlock(sections[0], Some(images[0])) + SectionPages(sections[1..], images[1..])
  }

  /** Where the block of section `i` starts: every earlier section took two
      elements, and each of the first `nImages` of them one more. */
  function Offset(i: nat, nImages: nat): nat {
    2 * i + Min(i, nImages)
  }

  /** The block of a section with its optional image sits at position `o` of `doc`. */
  predicate BlockAt(doc: seq<Element>, o: nat, section: string, image: Option<string>) {
    && o + 2 <= |doc|
    && doc[o] == PageBreak
    && doc[o + 1] == Heading(section, 1)
    && (image.Some? ==> o + 2 < |doc| && doc[o + 2] == Picture(image.value))
  }

  /** A block found in `b` is found, shifted by `|a|`, in `a + b`. */
  lemma BlockAtShift(a: seq<Element>, b: seq<Element>, o: nat, section: string, image: Option<string>)
    requires BlockAt(b, o, section, image)
    ensures BlockAt(a + b, |a| + o, section, image)
  {
    assert (a + b)[|a| + o] == b[o] && (a + b)[|a| + o + 1] == b[o + 1];
    if image.Some? {
      assert (a + b)[|a| + o + 2] == b[o + 2];
    }
  }

  /** The first section's block opens the section pages. */
  lemma FirstBlockAt(sections: seq<string>, images: seq<string>)
    requires sections != []
    ensures BlockAt(SectionPages(sections, images), 0, sections[0], ImageAt(images, 0))
  {
    var tail := if images == [] then [] else images[1..];
    var block := SectionBlock(sections[0], ImageAt(images, 0));
    var rest := SectionPages(sections[1..], tail);
    assert SectionPages(sections, images) == block + rest;
    assert (block + rest)[0] == PageBreak && (block + rest)[1] == Heading(sections[0], 1);
    if images != [] {
      assert (block + rest)[2] == Picture(images[0]);
    }
  }

  /** A block of the pages after the first section is a block of the whole
      section pages, shifted by the first section's block. */
  lemma LaterBlockAt(sections: seq<string>, images: seq<string>, i: nat)
    requires 0 < i < |sections|
    requires BlockAt(SectionPages(sections[1..], if images == [] then [] else images[1..]),
                     Offset(i - 1, |if images == [] then [] else images[1..]|),
                     sections[1..][i - 1], ImageAt(if images == [] then [] else images[1..], i - 1))
    ensures BlockAt(SectionPages(sections, images), Offset(i, |images|), sections[i], ImageAt(images, i))
  {
    var tail := if images == [] then [] else images[1..];
    var block := SectionBlock(sections[0], ImageAt(images, 0));
    var rest := SectionPages(sections[1..], tail);
    assert SectionPages(sections, images) == block + rest;
    assert Offset(i, |images|) == |block| + Offset(i - 1, |tail|);
    assert ImageAt(images, i) == ImageAt(tail, i - 1);
    BlockAtShift(block, rest, Offset(i - 1, |tail|), sections[i], ImageAt(images, i));
  }

  /** Section `i` has its page break and heading at `Offset(i)`, followed by
      picture `images[i]` exactly when `i < |images|`. */
  lemma {:induction false} SectionPagesBlockAt(sections: seq<string>, images: seq<string>, i: nat)
    requires i < |sections|
    ensures BlockAt(SectionPages(sections, images), Offset(i, |images|), sections[i], ImageAt(images, i))
  {
    if i == 0 {
      FirstBlockAt(sections, images);
    } else {
      var tail := if images == [] then [] else images[1..];
      SectionPagesBlockAt(sections[1..], tail, i - 1);
      LaterBlockAt(sections, images, i);
    }
  }

  /** Positional pairing: section `i` has its page break and heading at
      `Offset(i)`, followed by picture `images[i]` exactly when
      `i < |images|`; the blocks fill the whole sequence. */
  lemma {:induction false} SectionPagesPositional(sections: seq<string>, images: seq<string>)
    ensures |SectionPages(sections, images)| == Offset(|sections|, |images|)
    ensures forall i :: 0 <= i < |sections| ==>
              BlockAt(SectionPages(sections, images), Offset(i, |images|), sections[i], ImageAt(images, i))
  {
    forall i | 0 <= i < |sections|
      ensures BlockAt(SectionPages(sections, images), Offset(i, |images|), sections[i], ImageAt(images, i))
    {
      SectionPagesBlockAt(sections, images, i);
    }
  }

  /** A block at `o` of `s` is followed by the rest of `s`. */
  lemma BlockSplit(s: seq<Element>, o: nat, section: string, image: Option<string>)
    requires BlockAt(s, o, section, image)
    ensures o + |SectionBlock(section, image)| <= |s|
    ensures s[o..] == SectionBlock(section, image) + s[o + |SectionBlock(section, image)|..]
  {
    var b := SectionBlock(section, image);
    assert s[o..][..|b|] == b;
    assert s[o..] == s[o..][..|b|] + s[o..][|b|..];
  }

  /** Section `n` takes two elements, and one more when it has an image. */
  lemma OffsetStep(n: nat, nImages: nat)
    ensures Offset(n + 1, nImages) == Offset(n, nImages) + 2 + (if n < nImages then 1 else 0)
  {
  }

  /** The section pages from section `n` on start with section `n`'s block. */
  lemma PagesFrom(sections: seq<string>, images: seq<string>, n: nat)
    requires n < |sections|
    ensures SectionPages(sections[n..], images[Min(n, |images|)..])
         == SectionBlock(sections[n], ImageAt(images, n))
            + SectionPages(sections[n + 1..], images[Min(n + 1, |images|)..])
  {
    assert sections[n..][0] == sections[n] && sections[n..][1..] == sections[n + 1..];
    if n < |images| {
      assert images[n..][0] == images[n] && images[n..][1..] == images[n + 1..];
    }
  }

  /** One step of `DeterminesFrom`: a block at section `n`'s offset followed
      by the pages from section `n + 1` on is the pages from section `n` on. */
  lemma DeterminesStep(s: seq<Element>, sections: seq<string>, images: seq<string>, n: nat)
    requires n < |sections|
    requires BlockAt(s, Offset(n, |images|), sections[n], ImageAt(images, n))
    requires Offset(n + 1, |images|) <= |s|
    requires s[Offset(n + 1, |images|)..] == SectionPages(sections[n + 1..], images[Min(n + 1, |images|)..])
    ensures s[Offset(n, |images|)..] == SectionPages(sections[n..], images[Min(n, |images|)..])
  {
    var o := Offset(n, |images|);
    var b := SectionBlock(sections[n], ImageAt(images, n));
    BlockSplit(s, o, sections[n], ImageAt(images, n));
    OffsetStep(n, |images|);
    assert s[o..] == b + s[Offset(n + 1, |images|)..];
    PagesFrom(sections, images, n);
  }

  /** From section `n` on, a sequence holding every block at its offset
      continues with the section pages of the remaining sections and images. */
  lemma {:induction false} DeterminesFrom(s: seq<Element>, sections: seq<string>, images: seq<string>, n: nat)
    requires n <= |sections|
    requires |s| == Offset(|sections|, |images|)
    requires forall j {:trigger Offset(j, |images|)} :: 0 <= j < |sections| ==>
               BlockAt(s, Offset(j, |images|), sections[j], ImageAt(images, j))
    ensures s[Offset(n, |images|)..] == SectionPages(sections[n..], images[Min(n, |images|)..])
    decreases |sections| - n
  {
    if n < |sections| {
      DeterminesFrom(s, sections, images, n + 1);
      assert BlockAt(s, Offset(n, |images|), sections[n], ImageAt(images, n));
      DeterminesStep(s, sections, images, n);
    } else {
      assert s[Offset(n, |images|)..] == [];
    }
  }

  /** The positional pairing determines the section pages: a sequence of the
      right length holding every section's block at its offset is
      `SectionPages(sections, images)`. */
  lemma {:induction false} PositionalDetermines(s: seq<Element>, sections: seq<string>, images: seq<string>)
    requires |s| == Offset(|sections|, |images|)
    requires forall j :: 0 <= j < |sections| ==>
               BlockAt(s, Offset(j, |images|), sections[j], ImageAt(images, j))
    ensures s == SectionPages(sections, images)
  {
    DeterminesFrom(s, sections, images, 0);
    assert s[Offset(0, |images|)..] == s;
    assert sections[0..] == sections && images[Min(0, |images|)..] == images;
  }

  /** The level-1 heading texts of a document, in order. */
  function SectionHeadings(doc: seq<Element>): seq<string> {
    if doc == [] then []
    else if doc[0].Heading? && doc[0].level == 1 then [doc[0].text] + SectionHeadings(doc[1..])
    else SectionHeadings(doc[1..])
  }

  /** The paths of the pictures of a document, in order. */
  function PicturePaths(doc: seq<Element>): seq<string> {
    if doc == [] then []
    else if doc[0].Picture? then [doc[0].path] + PicturePaths(doc[1..])
    else PicturePaths(doc[1..])
  }

  /** The number of explicit page breaks of a document. */
  function CountPageBreaks(doc: seq<Element>): nat {
    if doc == [] then 0
    else (if doc[0].PageBreak? then 1 else 0) + CountPageBreaks(doc[1..])
  }

  lemma {:induction false} HeadingsAppend(a: seq<Element>, b: seq<Element>)
    ensures SectionHeadings(a + b) == SectionHeadings(a) + SectionHeadings(b)
  {
    if a == [] {
      assert a + b == b;
    } else {
      assert (a + b)[0] == a[0] && (a + b)[1..] == a[1..] + b;
      HeadingsAppend(a[1..], b);
    }
  }

  lemma {:induction false} PicturesAppend(a: seq<Element>, b: seq<Element>)
    ensures PicturePaths(a + b) == PicturePaths(a) + PicturePaths(b)
  {
    if a == [] {
      assert a + b == b;
    } else {
      assert (a + b)[0] == a[0] && (a + b)[1..] == a[1..] + b;
      PicturesAppend(a[1..], b);
    }
  }

  lemma {:induction false} BreaksAppend(a: seq<Element>, b: seq<Element>)
    ensures CountPageBreaks(a + b) == CountPageBreaks(a) + CountPageBreaks(b)
  {
    if a == [] {
      assert a + b == b;
    } else {
      assert (a + b)[0] == a[0] && (a + b)[1..] == a[1..] + b;
      BreaksAppend(a[1..], b);
    }
  }

  lemma ProjectionsAppend(a: seq<Element>, b: seq<Element>)
    ensures SectionHeadings(a + b) == SectionHeadings(a) + SectionHeadings(b)
    ensures PicturePaths(a + b) == PicturePaths(a) + PicturePaths(b)
    ensures CountPageBreaks(a + b) == CountPageBreaks(a) + CountPageBreaks(b)
  {
    HeadingsAppend(a, b);
    PicturesAppend(a, b);
    BreaksAppend(a, b);
  }

  /** The title page has no section heading, no picture and no page break. */
  lemma TitlePageContents(title: string, fields: HeadingFields, date: string)
    ensures SectionHeadings(TitlePage(title, fields, date)) == []
    ensures PicturePaths(TitlePage(title, fields, date)) == []
    ensures CountPageBreaks(TitlePage(title, fields, date)) == 0
  {
    var t := TitlePage(title, fields, date);
    var p := t[1..];
    assert p == [t[1]] && p[1..] == [];
    assert t[0].Heading? && !p[0].Picture? && !p[0].PageBreak?;
    assert PicturePaths(p[1..]) == [] && CountPageBreaks(p[1..]) == 0;
    assert SectionHeadings(p) == [] && PicturePaths(p) == [] && CountPageBreaks(p) == 0;
  }

  lemma BlockContents(section: string, image: Option<string>)
    ensures SectionHeadings(SectionBlock(section, image)) == [section]
    ensures CountPageBreaks(SectionBlock(section, image)) == 1
    ensures PicturePaths(SectionBlock(section, image)) == (if image.Some? then [image.value] else [])
  {
    var head: seq<Element> := [PageBreak, Heading(section, 1)];
    var pic: seq<Element> := if image.Some? then [Picture(image.value)] else [];
    ProjectionsAppend(head, pic);
    assert head[1..] == [Heading(section, 1)] && head[1..][1..] == [];
    assert SectionHeadings(head) == [section];
    assert CountPageBreaks(head) == 1;
    assert PicturePaths(head) == [];
    if image.Some? {
      assert pic[1..] == [];
    }
  }

  lemma {:induction false} SectionPagesHeadings(sections: seq<string>, images: seq<string>)
    ensures SectionHeadings(SectionPages(sections, images)) == sections
  {
    if sections != [] {
      var tail := if images == [] then [] else images[1..];
      var block := SectionBlock(sections[0], ImageAt(images, 0));
      var rest := SectionPages(sections[1..], tail);
      SectionPagesHeadings(sections[1..], tail);
      assert SectionPages(sections, images) == block + rest;
      HeadingsAppend(block, rest);
      BlockContents(sections[0], ImageAt(images, 0));
      assert sections == [sections[0]] + sections[1..];
    }
  }

  lemma {:induction false} SectionPagesBreaks(sections: seq<string>, images: seq<string>)
    ensures CountPageBreaks(SectionPages(sections, images)) == |sections|
  {
    if sections != [] {
      var tail := if images == [] then [] else images[1..];
      var block := SectionBlock(sections[0], ImageAt(images, 0));
      var rest := SectionPages(sections[1..], tail);
      SectionPagesBreaks(sections[1..], tail);
      assert SectionPages(sections, images) == block + rest;
      BreaksAppend(block, rest);
      BlockContents(sections[0], ImageAt(images, 0));
    }
  }

  lemma {:induction false} SectionPagesPictures(sections: seq<string>, images: seq<string>)
    ensures PicturePaths(SectionPages(sections, images)) == images[..Min(|sections|, |images|)]
  {
    if sections != [] {
      var tail := if images == [] then [] else images[1..];
      var block := SectionBlock(sections[0], ImageAt(images, 0));
      var rest := SectionPages(sections[1..], tail);
      SectionPagesPictures(sections[1..], tail);
      assert SectionPages(sections, images) == block + rest;
      PicturesAppend(block, rest);
      BlockContents(sections[0], ImageAt(images, 0));
      PicturePrefix(sections, images);
    }
  }

  /** The section pages hold the sections as headings in order, one page
      break per section, and as pictures exactly the first
      `min(|sections|, |images|)` images in order: surplus images are unused. */
  lemma {:induction false} SectionPagesContents(sections: seq<string>, images: seq<string>)
    ensures SectionHeadings(SectionPages(sections, images)) == sections
    ensures CountPageBreaks(SectionPages(sections, images)) == |sections|
    ensures PicturePaths(SectionPages(sections, images)) == images[..Min(|sections|, |images|)]
  {
    SectionPagesHeadings(sections, images);
    SectionPagesBreaks(sections, images);
    SectionPagesPictures(sections, images);
  }

  lemma PicturePrefix(sections: seq<string>, images: seq<string>)
    requires sections != []
    ensures images[..Min(|sections|, |images|)]
         == (if images == [] then [] else [images[0]] + images[1..][..Min(|sections| - 1, |images| - 1)])
  {
    if images != [] {
      var m := Min(|sections|, |images|);
      assert images[..m] == [images[0]] + images[1..][..m - 1];
    }
  }

  lemma ConcatAssoc(a: seq<Element>, b: seq<Element>, c: seq<Element>)
    ensures a + (b + c) == (a + b) + c
  {
  }

  /** The section pages of one more section are the old pages followed by that section's block. */
  lemma {:induction false} SectionPagesSnoc(sections: seq<string>, section: string, images: seq<string>)
    ensures SectionPages(sections + [section], images)
         == SectionPages(sections, images) + SectionBlock(section, ImageAt(images, |sections|))
  {
    if sections == [] {
      assert sections + [section] == [section];
    } else {
      var tail := if images == [] then [] else images[1..];
      var first := SectionBlock(sections[0], ImageAt(images, 0));
      var last := SectionBlock(section, ImageAt(images, |sections|));
      assert (sections + [section])[0] == sections[0];
      assert (sections + [section])[1..] == sections[1..] + [section];
      assert SectionPages(sections + [section], images) == first + SectionPages(sections[1..] + [section], tail);
      SectionPagesSnoc(sections[1..], section, tail);
      assert ImageAt(images, |sections|) == ImageAt(tail, |sections| - 1);
      assert SectionPages(sections[1..] + [section], tail) == SectionPages(sections[1..], tail) + last;
      assert SectionPages(sections, images) == first + SectionPages(sections[1..], tail);
      ConcatAssoc(first, SectionPages(sections[1..], tail), last);
    }
  }

  /** The section pages of the first `i + 1` sections extend those of the first `i` by one block. */
  lemma PagesPrefixStep(doc: seq<Element>, sections: seq<string>, images: seq<string>, i: nat)
    requires i < |sections|
    ensures doc + SectionPages(sections[..i + 1], images)
         == doc + SectionPages(sections[..i], images) + SectionBlock(sections[i], ImageAt(images, i))
  {
    assert sections[..i + 1] == sections[..i] + [sections[i]];
    SectionPagesSnoc(sections[..i], sections[i], images);
  }

  /** What appending the section pages to `doc` does, element by element and by projection. */
  lemma AppendedPages(doc: seq<Element>, sections: seq<string>, images: seq<string>)
    ensures |doc + SectionPages(sections, images)| == |doc| + Offset(|sections|, |images|)
    ensures (doc + SectionPages(sections, images))[..|doc|] == doc
    ensures (doc + SectionPages(sections, images))[|doc|..] == SectionPages(sections, images)
    ensures forall j :: 0 <= j < |sections| ==>
              BlockAt(SectionPages(sections, images), Offset(j, |images|), sections[j], ImageAt(images, j))
    ensures CountPageBreaks(doc + SectionPages(sections, images)) == CountPageBreaks(doc) + |sections|
    ensures PicturePaths(doc + SectionPages(sections, images))
         == PicturePaths(doc) + images[..Min(|sections|, |images|)]
  {
    var r := doc + SectionPages(sections, images);
    assert r[..|doc|] == doc;
    assert r[|doc|..] == SectionPages(sections, images);
    SectionPagesPositional(sections, images);
    SectionPagesContents(sections, images);
    ProjectionsAppend(doc, SectionPages(sections, images));
  }

  /** `add_sections_to_document`: for each section in order, a page break, its
      heading, and the image at the same index when `images` is non-empty and
      the index is within it, all appended to `doc`. The existing elements are
      kept, and by `PositionalDetermines` the appended part is exactly
      `SectionPages(sections, images)`. */
  method AddSectionsToDocument(doc: seq<Element>, sections: seq<string>, images: seq<string>)
    returns (r: seq<Element>)
    ensures |r| == |doc| + Offset(|sections|, |images|)
    ensures r[..|doc|] == doc
    ensures forall j :: 0 <= j < |sections| ==>
              BlockAt(r[|doc|..], Offset(j, |images|), sections[j], ImageAt(images, j))
    ensures CountPageBreaks(r) == CountPageBreaks(doc) + |sections|
    ensures PicturePaths(r) == PicturePaths(doc) + images[..Min(|sections|, |images|)]
  {
    r := doc;
    var i := 0;
    while i < |sections|
      invariant 0 <= i <= |sections|
      invariant r == doc + SectionPages(sections[..i], images)
    {
      ghost var before := r;
      r := r + [PageBreak, Heading(sections[i], 1)];
      if images != [] && i < |images| {
        r := r + [Picture(images[i])];
      }
      assert r == before + SectionBlock(sections[i], ImageAt(images, i));
      PagesPrefixStep(doc, sections, images, i);
      i := i + 1;
    }
    assert sections[..i] == sections;
    AppendedPages(doc, sections, images);
  }

  /** A document that starts with the title page and holds every section's
      block at its offset after it is the title page followed by the section
      pages, with the sections as headings, one page break per section and the
      first `min(|sections|, |images|)` images as pictures. */
  lemma AssembledDocument(doc: seq<Element>, title: string, fields: HeadingFields, date: string,
                          sections: seq<string>, images: seq<string>)
    requires |doc| == 2 + Offset(|sections|, |images|)
    requires doc[..2] == TitlePage(title, fields, date)
    requires forall j :: 0 <= j < |sections| ==>
               BlockAt(doc[2..], Offset(j, |images|), sections[j], ImageAt(images, j))
    ensures doc == TitlePage(title, fields, date) + SectionPages(sections, images)
    ensures CountPageBreaks(doc) == |sections|
    ensures SectionHeadings(doc) == sections
    ensures PicturePaths(doc) == images[..Min(|sections|, |images|)]
  {
    PositionalDetermines(doc[2..], sections, images);
    assert doc == doc[..2] + doc[2..];
    SectionPagesContents(sections, images);
    TitlePageContents(title, fields, date);
    ProjectionsAppend(TitlePage(title, fields, date), SectionPages(sections, images));
  }

  /** `create_word_document`: the title page, then the section pages, with
      nothing between them and nothing after. */
  method CreateWordDocument(fields: HeadingFields, date: string, images: seq<string>, details: SoupDetails)
    returns (doc: seq<Element>)
    ensures doc == TitlePage(details.title, fields, date) + SectionPages(details.sections, images)
    ensures CountPageBreaks(doc) == |details.sections|
    ensures SectionHeadings(doc) == details.sections
    ensures PicturePaths(doc) == images[..Min(|details.sections|, |images|)]
  {
    doc := AddSectionsToDocument(TitlePage(details.title, fields, date), details.sections, images);
    AssembledDocument(doc, details.title, fields, date, details.sections, images);
  }
}

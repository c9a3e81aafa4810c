/**
  The image lister `get_png_images` (main.py, mainv2.py, mainv3.py) over a
  directory listing given as input: the names whose lower-cased form ends in
  `.png`, each joined to the directory, sorted.
 */
module Images {
  import opened Text
  import opened LexOrder
  import opened Paths

  /** `name.lower().endswith('.png')`. */
  predicate IsPng(name: string) {
    EndsWith(Lower(name), ".png")
  }

  /** `p` is the join of some PNG name of the listing. */
  predicate IsPngPathOf(dir: string, listing: seq<string>, p: string) {
    exists n :: n in listing && IsPng(n) && p == Join(dir, n)
  }

  /** The list comprehension before sorting: the PNG names, joined to the
      directory, in listing order. */
  function PngPaths(dir: string, listing: seq<string>): (r: seq<string>)
    ensures |r| <= |listing|
  {
    if listing == [] then []
    else if IsPng(listing[0]) then [Join(dir, listing[0])] + PngPaths(dir, listing[1..])
    else PngPaths(dir, listing[1..])
  }

  /** The comprehension distributes over concatenation, so it keeps the listing's order and repetitions. */
  lemma {:induction false} PngPathsAppend(dir: string, a: seq<string>, b: seq<string>)
    ensures PngPaths(dir, a + b) == PngPaths(dir, a) + PngPaths(dir, b)
  {
    if a == [] {
      assert a + b == b;
    } else {
      assert (a + b)[0] == a[0] && (a + b)[1..] == a[1..] + b;
      PngPathsAppend(dir, a[1..], b);
    }
  }

  /** The comprehension holds a path exactly when it is the join of a PNG name of the listing. */
  lemma {:induction false} PngPathsMembership(dir: string, listing: seq<string>, p: string)
    ensures p in PngPaths(dir, listing) <==> IsPngPathOf(dir, listing, p)
  {
    if listing != [] {
      PngPathsMembership(dir, listing[1..], p);
      assert forall n :: n in listing <==> n == listing[0] || n in listing[1..];
      assert IsPngPathOf(dir, listing, p) <==>
               (IsPng(listing[0]) && p == Join(dir, listing[0])) || IsPngPathOf(dir, listing[1..], p);
    }
  }

  /** `get_png_images(directory)`: the joined PNG paths in ascending order. */
  function GetPngImages(dir: string, listing: seq<string>): (r: seq<string>)
    ensures Sorted(r)
    ensures multiset(r) == multiset(PngPaths(dir, listing))
    ensures |r| <= |listing|
  {
    var r := Sort(PngPaths(dir, listing));
    assert |r| == |multiset(r)| == |multiset(PngPaths(dir, listing))| == |PngPaths(dir, listing)|;
    r
  }

  /** A path is listed exactly when it is the join of a PNG name in the directory. */
  lemma PngImagesMembership(dir: string, listing: seq<string>, p: string)
    ensures p in GetPngImages(dir, listing) <==> IsPngPathOf(dir, listing, p)
  {
    var r := GetPngImages(dir, listing);
    var q := PngPaths(dir, listing);
    assert p in r <==> p in multiset(r);
    assert p in q <==> p in multiset(q);
    PngPathsMembership(dir, listing, p);
  }

  /** A name that is not a PNG never contributes a path. */
  lemma NonPngNeverListed(dir: string, listing: seq<string>, name: string)
    requires !IsPng(name)
    ensures Join(dir, name) !in GetPngImages(dir, listing)
  {
    PngImagesMembership(dir, listing, Join(dir, name));
    if n :| n in listing && IsPng(n) && Join(dir, name) == Join(dir, n) {
      JoinInjective(dir, name, n);
    }
  }

  /** The listing is deterministic: any ascending arrangement of the PNG paths
      is the one `get_png_images` returns. */
  lemma {:induction false} PngImagesDeterministic(dir: string, listing: seq<string>, other: seq<string>)
    requires Sorted(other)
    requires multiset(other) == multiset(PngPaths(dir, listing))
    ensures other == GetPngImages(dir, listing)
  {
    SortedUnique(other, GetPngImages(dir, listing));
  }
}

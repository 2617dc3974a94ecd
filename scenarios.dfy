/**
 * A worked example: a directory holding `report.pdf`, `photo.JPG`,
 * `archive.tar.gz` and `unknownfile.xyz`, under a table that knows both `TAR.GZ`
 * and `GZ`.
 */
module ExampleDirectory {
  import opened Classifier
  import opened LedgerStore

  /** An extension table that knows both `TAR.GZ` and `GZ`. */
  const Categories: Table := map["PDF" := "Documents", "JPG" := "Images", "TAR.GZ" := "Compressed", "GZ" := "Gzip"]

  /** The directory's files, in the order `os.walk` lists them. */
  const Listing: seq<string> := ["report.pdf", "photo.JPG", "archive.tar.gz", "unknownfile.xyz"]

  /** The records a cleanup of the directory saves in the ledger. */
  const Expected: seq<Record> :=
    [Record("report.pdf", "Documents"), Record("photo.JPG", "Images"), Record("archive.tar.gz", "Compressed")]
}

module Scenarios {
  import opened ExampleDirectory
  import opened Optional
  import opened Classifier
  import opened Filesystem
  import opened LedgerStore
  import opened Relocation
  import opened Cleanup

  /** A name made of dot-free parts whose longest known suffix is a non-empty
      extension goes to that extension's category. */
  lemma ClassifiedAs(name: string, parts: seq<string>, k: nat)
    requires |parts| >= 1 && forall i :: 0 <= i < |parts| ==> '.' !in parts[i]
    requires Join(parts, '.') == name
    requires LongestHit(Categories, parts, k) && Suffix(parts, k) != ""
    ensures Category(Categories, name) == Some(Categories[Suffix(parts, k)])
  {
    SplitJoin(parts, '.');
    CategoryOfLongestHit(Categories, name, k);
  }

  lemma ReportIsDocument()
    ensures Category(Categories, "report.pdf") == Some("Documents")
  {
    var parts := ["report", "pdf"];
    LastPartSuffix(parts);
    assert Upper("pdf") == "PDF";
    assert Join(parts, '.') == "report.pdf";
    ClassifiedAs("report.pdf", parts, 1);
  }

  lemma PhotoIsImage()
    ensures Category(Categories, "photo.JPG") == Some("Images")
  {
    var parts := ["photo", "JPG"];
    LastPartSuffix(parts);
    assert Upper("JPG") == "JPG";
    assert Join(parts, '.') == "photo.JPG";
    ClassifiedAs("photo.JPG", parts, 1);
  }

  /** `TAR.GZ` wins over the `GZ` that the table also knows. */
  lemma ArchiveIsCompressed()
    ensures Category(Categories, "archive.tar.gz") == Some("Compressed")
  {
    var parts := ["archive", "tar", "gz"];
    assert parts[1..] == ["tar", "gz"];
    assert Join(["tar", "gz"], '.') == "tar.gz";
    assert Upper("tar.gz") == "TAR.GZ";
    assert Join(parts, '.') == "archive.tar.gz";
    ClassifiedAs("archive.tar.gz", parts, 2);
  }

  /** A name made of dot-free parts none of whose suffixes is known stays unclassified. */
  lemma UnclassifiedAs(name: string, parts: seq<string>)
    requires |parts| >= 1 && forall i :: 0 <= i < |parts| ==> '.' !in parts[i]
    requires Join(parts, '.') == name
    requires forall k :: !LongestHit(Categories, parts, k)
    ensures Category(Categories, name) == None
  {
    SplitJoin(parts, '.');
    LongestMatchFirst(Categories, name);
  }

  /** No suffix of `unknownfile.xyz` is in the table. */
  lemma UnknownHasNoCategory()
    ensures Category(Categories, "unknownfile.xyz") == None
  {
    var parts := ["unknownfile", "xyz"];
    LastPartSuffix(parts);
    assert Upper("xyz") == "XYZ";
    assert !Hit(Categories, "XYZ");
    assert Join(parts, '.') == "unknownfile.xyz";
    UnclassifiedAs("unknownfile.xyz", parts);
  }

  /** The plan of two files is their records, if any, in order. */
  lemma PlanOfTwo(table: Table, x: string, y: string)
    ensures Plan(table, [x, y]) == Entry(table, x) + Entry(table, y)
  {
    assert [x, y] == [x] + [y];
    PlanAppend(table, [x], [y]);
    PlanOfOne(table, x);
    PlanOfOne(table, y);
  }

  /** Three classified files followed by an unclassified one give three records. */
  lemma PlanOfFour(table: Table, a: string, b: string, c: string, d: string, ta: string, tb: string, tc: string)
    requires Category(table, a) == Some(ta) && Category(table, b) == Some(tb)
    requires Category(table, c) == Some(tc) && Category(table, d) == None
    ensures Plan(table, [a, b, c, d]) == [Record(a, ta), Record(b, tb), Record(c, tc)]
  {
    PlanOfTwo(table, a, b);
    PlanOfTwo(table, c, d);
    assert [a, b, c, d] == [a, b] + [c, d];
    PlanAppend(table, [a, b], [c, d]);
  }

  /** The ledger entry of a cleanup of the directory: three records, in listing order. */
  lemma ExamplePlan()
    ensures Plan(Categories, Listing) == Expected
  {
    ReportIsDocument();
    PhotoIsImage();
    ArchiveIsCompressed();
    UnknownHasNoCategory();
    PlanOfFour(Categories, "report.pdf", "photo.JPG", "archive.tar.gz", "unknownfile.xyz",
               "Documents", "Images", "Compressed");
  }

  /** No listed name holds a slash. */
  lemma ListingSlashFree()
    ensures forall m :: m in Listing ==> '/' !in m
  {
    assert Listing == ["report.pdf", "photo.JPG", "archive.tar.gz", "unknownfile.xyz"];
  }

  /** The listed names are pairwise different. */
  lemma ListingDistinct()
    ensures forall i, j :: 0 <= i < j < |Listing| ==> Listing[i] != Listing[j]
  {
    assert Listing == ["report.pdf", "photo.JPG", "archive.tar.gz", "unknownfile.xyz"];
  }

  /** A live cleanup of the directory never touches `unknownfile.xyz`. */
  lemma UnknownStays(files: Files, dir: string)
    ensures (PathJoin(dir, "unknownfile.xyz") in Forward(files, dir, Plan(Categories, Listing)).0) ==
            (PathJoin(dir, "unknownfile.xyz") in files)
    ensures PathJoin(dir, "unknownfile.xyz") in files ==>
              Forward(files, dir, Plan(Categories, Listing)).0[PathJoin(dir, "unknownfile.xyz")]
              == files[PathJoin(dir, "unknownfile.xyz")]
  {
    ExamplePlan();
    UnknownHasNoCategory();
    ListingSlashFree();
    UnclassifiedStays(files, dir, Categories, Listing, "unknownfile.xyz");
  }

  /** When the four files are there and the category paths are free, the cleanup moves
      the three classified files and a revert moves them back. */
  lemma ExampleRoundTrip(files: Files, dir: string)
    requires forall name :: name in Listing ==> PathJoin(dir, name) in files
    requires forall r :: r in Expected ==> Filed(dir, r) !in files
    ensures Forward(files, dir, Expected).1
    ensures Backward(Forward(files, dir, Expected).0, dir, Expected).0 == files
  {
    ExamplePlan();
    ListingSlashFree();
    ListingDistinct();
    PlanRoundTrip(files, dir, Categories, Listing);
  }
}

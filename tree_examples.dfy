/**
  Concrete reports: an empty start directory, a single file, a file two levels
  down, and a start directory with a file and a sub-directory holding another.
*/
module TreeExamples {
  import opened Text
  import opened Paths
  import opened DirectoryTree
  import opened TreeLayout

  /** The relative path of every root, in a walk that only visits the start. */
  function StartOnly(root: string): string {
    "."
  }

  /** The relative paths of the roots of the walk of `/tmp/x`. */
  function RelToTmpX(root: string): string {
    if root == "/tmp/x" then "." else "sub"
  }

  /** The lines and paths of a walk of one entry. */
  lemma OneEntry(e: WalkEntry, relPath: string -> string)
    ensures TreeLines([e], relPath) == EntryLines(e, relPath)
    ensures FoundFiles([e]) == EntryPaths(e.root, e.files)
  {
    assert [e][..0] == [];
  }

  /** The lines and paths of a walk of two entries. */
  lemma TwoEntries(e: WalkEntry, f: WalkEntry, relPath: string -> string)
    ensures TreeLines([e, f], relPath) == EntryLines(e, relPath) + EntryLines(f, relPath)
    ensures FoundFiles([e, f]) == EntryPaths(e.root, e.files) + EntryPaths(f.root, f.files)
  {
    assert [e, f][..1] == [e];
    OneEntry(e, relPath);
  }

  /** The line and path of a directory holding one file. */
  lemma OneFile(root: string, rel: string, name: string)
    ensures FileLines(rel, [name]) == [FileLine(rel, name)]
    ensures EntryPaths(root, [name]) == [PathJoin(root, name)]
  {
    assert [name][..0] == [];
  }

  /** A start directory with nothing in it: the header, `./` and the sentinel. */
  lemma EmptyStartDirectory()
    ensures var walk := [WalkEntry("/tmp/e", [])];
            && FoundFiles(walk) == []
            && ReportLines("/tmp/e", walk, StartOnly) == [HeaderLine("/tmp/e"), "./", NoFilesLine]
  {
    var e := WalkEntry("/tmp/e", []);
    OneEntry(e, StartOnly);
    StartDirLine(e.root);
    assert EntryLines(e, StartOnly) == EntryBlock(e.root, ".", []);
  }

  /** A start directory holding only `a.txt`: one found path, one file line with
      one indent glyph, and a total of 1. */
  lemma SingleFile()
    ensures var walk := [WalkEntry("/tmp/r", ["a.txt"])];
            && FoundFiles(walk) == [PathJoin("/tmp/r", "a.txt")]
            && ReportLines("/tmp/r", walk, StartOnly)
               == [HeaderLine("/tmp/r"), "./", FileLine(".", "a.txt"), SummaryHeader,
                   PathJoin("/tmp/r", "a.txt"), TotalLine(1)]
            && LeadingGlyphs(FileLine(".", "a.txt")) == 1
            && TotalLine(1) == "\nTotal files found: " + "1"
  {
    var e := WalkEntry("/tmp/r", ["a.txt"]);
    OneEntry(e, StartOnly);
    OneFile("/tmp/r", ".", "a.txt");
    StartDirLine(e.root);
    assert EntryLines(e, StartOnly) == EntryBlock(e.root, ".", ["a.txt"]);
    FileLineIndent("/tmp/r", ".", "a.txt");
    assert CountChar(".", Sep) == 0;
    assert NatToString(1) == "1";
  }

  /** The join of the single file above is `/tmp/r/a.txt`. */
  lemma SingleFilePath()
    ensures PathJoin("/tmp/r", "a.txt") == "/tmp/r/a.txt"
  {
  }

  /** `sub/deep` holds one separator. */
  lemma SubDeepSeparators()
    ensures CountChar("sub/deep", Sep) == 1
  {
    assert "sub/deep" == "sub" + "/" + "deep";
    CountCharAppend("sub", "/", Sep);
    CountCharAppend("sub" + "/", "deep", Sep);
    assert CountChar("/", Sep) == 1;
  }

  /** A file in `sub/deep` gets two indent glyphs: one for the separator of the
      relative path and one for being a file; its directory gets one. */
  lemma FileTwoLevelsDown()
    ensures LeadingGlyphs(DirLine("/tmp/r/sub/deep", "sub/deep")) == 1
    ensures LeadingGlyphs(FileLine("sub/deep", "file.txt")) == 2
  {
    SubDeepSeparators();
    DirLineIndent("/tmp/r/sub/deep", "sub/deep");
    FileLineIndent("/tmp/r/sub/deep", "sub/deep", "file.txt");
  }

  /** The walk of `/tmp/x` holding `a.txt` and `sub/b.txt`, with `a.txt` first. */
  const TmpXWalk: seq<WalkEntry> := [WalkEntry("/tmp/x", ["a.txt"]), WalkEntry("/tmp/x/sub", ["b.txt"])]

  /** Both files of `/tmp/x` are found, `a.txt` first. */
  lemma TwoLevelsFound()
    ensures FoundFiles(TmpXWalk) == ["/tmp/x/a.txt", "/tmp/x/sub/b.txt"]
  {
    TwoEntries(TmpXWalk[0], TmpXWalk[1], RelToTmpX);
    OneFile("/tmp/x", ".", "a.txt");
    OneFile("/tmp/x/sub", "sub", "b.txt");
    assert PathJoin("/tmp/x", "a.txt") == "/tmp/x/a.txt";
    assert PathJoin("/tmp/x/sub", "b.txt") == "/tmp/x/sub/b.txt";
  }

  /** The line of `/tmp/x/sub` is the branch glyph, `sub` and a separator. */
  lemma SubDirLine()
    ensures RelToTmpX("/tmp/x/sub") == "sub"
    ensures DirLine("/tmp/x/sub", "sub") == BranchGlyph + "sub/"
  {
    assert |"/tmp/x/sub"| != |"/tmp/x"|;
    BasenameAfterSep("/tmp/x/", "sub");
    assert "/tmp/x/" + "sub" == "/tmp/x/sub";
    ChildDirLine("/tmp/x/sub", "sub");
  }

  /** The tree part of the report of `/tmp/x`: the start directory, `a.txt` with
      one glyph, the sub-directory with none and `b.txt` with one glyph again. */
  lemma TwoLevels()
    ensures TreeLines(TmpXWalk, RelToTmpX)
            == ["./", FileLine(".", "a.txt"), BranchGlyph + "sub/", FileLine("sub", "b.txt")]
    ensures LeadingGlyphs(FileLine(".", "a.txt")) == 1 && LeadingGlyphs(FileLine("sub", "b.txt")) == 1
    ensures TotalFiles(TmpXWalk) == 2
  {
    var e, f := TmpXWalk[0], TmpXWalk[1];
    TwoEntries(e, f, RelToTmpX);
    SubDirLine();
    OneFile("/tmp/x", ".", "a.txt");
    OneFile("/tmp/x/sub", "sub", "b.txt");
    StartDirLine(e.root);
    assert EntryLines(e, RelToTmpX) == ["./", FileLine(".", "a.txt")];
    assert EntryLines(f, RelToTmpX) == [BranchGlyph + "sub/", FileLine("sub", "b.txt")];
    FileLineIndent("/tmp/x", ".", "a.txt");
    FileLineIndent("/tmp/x/sub", "sub", "b.txt");
    assert CountChar(".", Sep) == 0 && CountChar("sub", Sep) == 0;
    assert TmpXWalk[..1] == [e];
  }
}

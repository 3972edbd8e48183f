/**
  Properties of the directory-tree report: where each directory line, file line and
  found path sits, how deep each line is indented, and how the report ends.
*/
module TreeLayout {
  import opened Text
  import opened Seqs
  import opened Paths
  import opened DirectoryTree

  /** The file lines of a directory are one per file, in file order. */
  lemma {:induction false} FileLinesAt(rel: string, files: seq<string>)
    ensures |FileLines(rel, files)| == |files|
    ensures forall j | 0 <= j < |files| :: FileLines(rel, files)[j] == FileLine(rel, files[j])
    decreases |files|
  {
    if files != [] {
      FileLinesAt(rel, files[..|files| - 1]);
    }
  }

  /** The found paths of a directory are one per file, in file order. */
  lemma {:induction false} EntryPathsAt(root: string, files: seq<string>)
    ensures |EntryPaths(root, files)| == |files|
    ensures forall j | 0 <= j < |files| :: EntryPaths(root, files)[j] == PathJoin(root, files[j])
    decreases |files|
  {
    if files != [] {
      EntryPathsAt(root, files[..|files| - 1]);
    }
  }

  /** `found_files` has one path per file of the walk. */
  lemma {:induction false} FoundFilesCount(walk: seq<WalkEntry>)
    ensures |FoundFiles(walk)| == TotalFiles(walk)
    decreases |walk|
  {
    if walk != [] {
      var last := walk[|walk| - 1];
      FoundFilesCount(walk[..|walk| - 1]);
      EntryPathsAt(last.root, last.files);
    }
  }

  /** The tree part has one line per walked directory and one per file. */
  lemma {:induction false} TreeLinesCount(walk: seq<WalkEntry>, relPath: string -> string)
    ensures |TreeLines(walk, relPath)| == |walk| + TotalFiles(walk)
    decreases |walk|
  {
    if walk != [] {
      var last := walk[|walk| - 1];
      TreeLinesCount(walk[..|walk| - 1], relPath);
      FileLinesAt(relPath(last.root), last.files);
    }
  }

  /** The found paths of entry `i` are the slice of `found_files` between
      `FileOffset(walk, i)` and `FileOffset(walk, i + 1)`. */
  lemma {:induction false} FoundFilesSlice(walk: seq<WalkEntry>, i: nat)
    requires i < |walk|
    ensures FileOffset(walk, i + 1) == FileOffset(walk, i) + |walk[i].files|
    ensures FileOffset(walk, i + 1) <= |FoundFiles(walk)|
    ensures FoundFiles(walk)[FileOffset(walk, i)..FileOffset(walk, i + 1)] == EntryPaths(walk[i].root, walk[i].files)
    decreases |walk|
  {
    var n := |walk| - 1;
    var init := walk[..n];
    var paths := EntryPaths(walk[n].root, walk[n].files);
    TotalFilesStep(walk, i);
    FoundFilesCount(init);
    EntryPathsAt(walk[n].root, walk[n].files);
    assert FoundFiles(walk) == FoundFiles(init) + paths;
    if i == n {
      assert walk[..i] == init;
      SliceRight(FoundFiles(init), paths);
      assert FileOffset(walk, i) == |FoundFiles(init)|;
      assert FileOffset(walk, i + 1) == |FoundFiles(init)| + |paths|;
      assert FoundFiles(walk)[FileOffset(walk, i)..FileOffset(walk, i + 1)] == paths;
    } else {
      assert init[..i] == walk[..i] && init[..i + 1] == walk[..i + 1] && init[i] == walk[i];
      FoundFilesSlice(init, i);
      SliceLeft(FoundFiles(init), paths, FileOffset(init, i), FileOffset(init, i + 1));
      assert FileOffset(walk, i) == FileOffset(init, i);
      assert FileOffset(walk, i + 1) == FileOffset(init, i + 1);
      assert FoundFiles(walk)[FileOffset(walk, i)..FileOffset(walk, i + 1)] == FoundFiles(init)[FileOffset(init, i)..FileOffset(init, i + 1)];
    }
  }

  /** File `j` of entry `i` is found at index `FileOffset(walk, i) + j` of
      `found_files`, as `join(root, name)`: the found paths follow walk order and,
      within an entry, file order. */
  lemma FoundFilesLayout(walk: seq<WalkEntry>, i: nat, j: nat)
    requires i < |walk| && j < |walk[i].files|
    ensures FileOffset(walk, i) + j < |FoundFiles(walk)|
    ensures FoundFiles(walk)[FileOffset(walk, i) + j] == PathJoin(walk[i].root, walk[i].files[j])
  {
    FoundFilesSlice(walk, i);
    EntryPathsAt(walk[i].root, walk[i].files);
    SliceIndex(FoundFiles(walk), FileOffset(walk, i), FileOffset(walk, i + 1), j);
  }

  /** The lines of entry `i` are the slice of the tree part between
      `LineOffset(walk, i)` and `LineOffset(walk, i + 1)`. */
  lemma {:induction false} TreeLinesSlice(walk: seq<WalkEntry>, relPath: string -> string, i: nat)
    requires i < |walk|
    ensures LineOffset(walk, i + 1) == LineOffset(walk, i) + 1 + |walk[i].files|
    ensures LineOffset(walk, i + 1) <= |TreeLines(walk, relPath)|
    ensures TreeLines(walk, relPath)[LineOffset(walk, i)..LineOffset(walk, i + 1)] == EntryLines(walk[i], relPath)
    decreases |walk|
  {
    if i == |walk| - 1 {
      LastEntrySlice(walk, relPath);
    } else {
      var init := walk[..|walk| - 1];
      TreeLinesSlice(init, relPath, i);
      InitEntrySlice(walk, relPath, i);
    }
  }

  /** The lines of the last entry end the tree part. */
  lemma LastEntrySlice(walk: seq<WalkEntry>, relPath: string -> string)
    requires walk != []
    ensures var i := |walk| - 1;
            && LineOffset(walk, i + 1) == LineOffset(walk, i) + 1 + |walk[i].files|
            && LineOffset(walk, i + 1) <= |TreeLines(walk, relPath)|
            && TreeLines(walk, relPath)[LineOffset(walk, i)..LineOffset(walk, i + 1)] == EntryLines(walk[i], relPath)
  {
    var n := |walk| - 1;
    var init := walk[..n];
    var last := EntryLines(walk[n], relPath);
    var before := TreeLines(init, relPath);
    assert walk[..n + 1] == walk;
    TreeLinesCount(init, relPath);
    FileLinesAt(relPath(walk[n].root), walk[n].files);
    SliceRight(before, last);
  }

  /** Dropping the last entry keeps the slices of the others in place. */
  lemma InitEntrySlice(walk: seq<WalkEntry>, relPath: string -> string, i: nat)
    requires i < |walk| - 1
    requires var init := walk[..|walk| - 1];
             && LineOffset(init, i + 1) == LineOffset(init, i) + 1 + |init[i].files|
             && LineOffset(init, i + 1) <= |TreeLines(init, relPath)|
             && TreeLines(init, relPath)[LineOffset(init, i)..LineOffset(init, i + 1)] == EntryLines(init[i], relPath)
    ensures LineOffset(walk, i + 1) == LineOffset(walk, i) + 1 + |walk[i].files|
    ensures LineOffset(walk, i + 1) <= |TreeLines(walk, relPath)|
    ensures TreeLines(walk, relPath)[LineOffset(walk, i)..LineOffset(walk, i + 1)] == EntryLines(walk[i], relPath)
  {
    var init := walk[..|walk| - 1];
    assert init[..i] == walk[..i] && init[..i + 1] == walk[..i + 1] && init[i] == walk[i];
    SliceLeft(TreeLines(init, relPath), EntryLines(walk[|walk| - 1], relPath), LineOffset(init, i), LineOffset(init, i + 1));
  }

  /** Extending the walked prefix by one entry adds that entry's files. */
  lemma TotalFilesStep(walk: seq<WalkEntry>, i: nat)
    requires i < |walk|
    ensures TotalFiles(walk[..i + 1]) == TotalFiles(walk[..i]) + |walk[i].files|
  {
    assert walk[..i + 1][..i] == walk[..i];
  }

  /** The lines of a report, laid out around a tree part of `t - 1` lines and a
      list of `f` found paths. */
  lemma ReportAround(header: string, tree: seq<string>, found: seq<string>, t: nat, f: nat)
    requires t == 1 + |tree| && f == |found|
    ensures var lines := [header] + tree + SummaryLines(found);
            && |lines| == t + (if f > 0 then f + 2 else 1)
            && lines[0] == header
            && lines[1..t] == tree
            && (f > 0 ==>
                  && lines[t] == SummaryHeader
                  && lines[t + 1..|lines| - 1] == found
                  && lines[|lines| - 1] == TotalLine(f))
            && (f == 0 ==> lines[t] == NoFilesLine)
  {
    var summary := SummaryLines(found);
    var lines := [header] + tree + summary;
    HeadMiddleTail(header, tree, summary);
    SliceIndex(lines, t, |lines|, 0);
    if found != [] {
      HeadMiddleTail(SummaryHeader, found, [TotalLine(|found|)]);
      SliceIndex(lines, t, |lines|, |summary| - 1);
      SliceOfSlice(lines, t, |lines|, 1, 1 + |found|);
    }
  }

  /** The lines of a report: the header, then the tree part, then either the summary
      header, every found path and the total, or the sentinel line. */
  lemma ReportLayout(absStart: string, walk: seq<WalkEntry>, relPath: string -> string)
    ensures var lines := ReportLines(absStart, walk, relPath);
            var f := TotalFiles(walk);
            var t := 1 + |walk| + f;
            && |lines| == t + (if f > 0 then f + 2 else 1)
            && lines[0] == HeaderLine(absStart)
            && lines[1..t] == TreeLines(walk, relPath)
            && (f > 0 ==>
                  && lines[t] == SummaryHeader
                  && lines[t + 1..|lines| - 1] == FoundFiles(walk)
                  && lines[|lines| - 1] == TotalLine(f))
            && (f == 0 ==> lines[t] == NoFilesLine)
  {
    var f := TotalFiles(walk);
    TreeLinesCount(walk, relPath);
    FoundFilesCount(walk);
    ReportAround(HeaderLine(absStart), TreeLines(walk, relPath), FoundFiles(walk), 1 + |walk| + f, f);
  }

  /** The lines of entry `i` of the walk are the slice of the report starting at
      line `1 + LineOffset(walk, i)`. */
  lemma ReportEntrySlice(absStart: string, walk: seq<WalkEntry>, relPath: string -> string, i: nat)
    requires i < |walk|
    ensures var lines := ReportLines(absStart, walk, relPath);
            var o := 1 + LineOffset(walk, i);
            && o + 1 + |walk[i].files| <= |lines|
            && lines[o..o + 1 + |walk[i].files|] == EntryLines(walk[i], relPath)
            && |FileLines(relPath(walk[i].root), walk[i].files)| == |walk[i].files|
  {
    var lines := ReportLines(absStart, walk, relPath);
    var tree := TreeLines(walk, relPath);
    HeadMiddleTail(HeaderLine(absStart), tree, SummaryLines(FoundFiles(walk)));
    TreeLinesSlice(walk, relPath, i);
    SliceOfSlice(lines, 1, 1 + |tree|, LineOffset(walk, i), LineOffset(walk, i + 1));
    FileLinesAt(relPath(walk[i].root), walk[i].files);
  }

  /** Directory `i` of the walk is line `1 + LineOffset(walk, i)` of the report. */
  lemma ReportDirLine(absStart: string, walk: seq<WalkEntry>, relPath: string -> string, i: nat)
    requires i < |walk|
    ensures 1 + LineOffset(walk, i) < |ReportLines(absStart, walk, relPath)|
    ensures ReportLines(absStart, walk, relPath)[1 + LineOffset(walk, i)] == DirLine(walk[i].root, relPath(walk[i].root))
  {
    var lines := ReportLines(absStart, walk, relPath);
    var o := 1 + LineOffset(walk, i);
    ReportEntrySlice(absStart, walk, relPath, i);
    SliceIndex(lines, o, o + 1 + |walk[i].files|, 0);
  }

  /** File `j` of directory `i` of the walk is the line `j + 1` lines below the
      directory's own line. */
  lemma ReportFileLine(absStart: string, walk: seq<WalkEntry>, relPath: string -> string, i: nat, j: nat)
    requires i < |walk| && j < |walk[i].files|
    ensures 1 + LineOffset(walk, i) + 1 + j < |ReportLines(absStart, walk, relPath)|
    ensures ReportLines(absStart, walk, relPath)[1 + LineOffset(walk, i) + 1 + j]
            == FileLine(relPath(walk[i].root), walk[i].files[j])
  {
    var e := walk[i];
    var rel := relPath(e.root);
    var files := FileLines(rel, e.files);
    ReportEntrySlice(absStart, walk, relPath, i);
    FileLinesAt(rel, e.files);
    BlockElement(ReportLines(absStart, walk, relPath), 1 + LineOffset(walk, i), DirLine(e.root, rel), files, j);
  }

  /** The report text starts with the header line and ends with a newline and the
      total line when files were found, or a newline and the sentinel line when none
      were. */
  lemma ReportTextFrame(absStart: string, walk: seq<WalkEntry>, relPath: string -> string)
    ensures var text := JoinLines(ReportLines(absStart, walk, relPath));
            && HeaderLine(absStart) <= text
            && (TotalFiles(walk) > 0 ==> EndsWith(text, "\n" + TotalLine(TotalFiles(walk))))
            && (TotalFiles(walk) == 0 ==> EndsWith(text, "\n" + NoFilesLine))
  {
    var lines := ReportLines(absStart, walk, relPath);
    ReportLayout(absStart, walk, relPath);
    JoinLinesEnds(lines);
    JoinLinesStarts(lines);
  }

  /** `n` indent glyphs in front of text that does not start with one are counted
      as exactly `n`. */
  lemma {:induction false} LeadingGlyphsRepeat(n: nat, t: string)
    requires !(IndentGlyph <= t)
    ensures LeadingGlyphs(Repeat(IndentGlyph, n) + t) == n
    decreases n
  {
    if n > 0 {
      var rest := Repeat(IndentGlyph, n - 1) + t;
      ConcatAssoc(IndentGlyph, Repeat(IndentGlyph, n - 1), t);
      assert (IndentGlyph + rest)[|IndentGlyph|..] == rest;
      LeadingGlyphsRepeat(n - 1, t);
    }
  }

  /** A line that starts with the branch glyph has no indent glyph in front. */
  lemma BranchIsNotIndent(t: string)
    ensures !(IndentGlyph <= BranchGlyph + t)
  {
    assert (BranchGlyph + t)[0] == BranchGlyph[0];
  }

  /** After `n` indent glyphs comes exactly the text that followed them. */
  lemma IndentedLine(n: nat, t: string)
    requires !(IndentGlyph <= t)
    ensures LeadingGlyphs(Repeat(IndentGlyph, n) + t) == n
    ensures (Repeat(IndentGlyph, n) + t)[|IndentGlyph| * n..] == t
  {
    LeadingGlyphsRepeat(n, t);
    assert |Repeat(IndentGlyph, n)| == |IndentGlyph| * n;
  }

  /** The line of a walked directory other than the start directory is indented
      once per separator of its relative path and then names the directory: the
      branch glyph, its basename and a separator. */
  lemma DirLineIndent(root: string, rel: string)
    requires rel != "."
    ensures LeadingGlyphs(DirLine(root, rel)) == CountChar(rel, Sep)
    ensures DirLine(root, rel)[|IndentGlyph| * CountChar(rel, Sep)..] == BranchGlyph + Basename(root) + [Sep]
  {
    var n := CountChar(rel, Sep);
    var indent := Repeat(IndentGlyph, n);
    var name := Basename(root) + [Sep];
    ConcatAssoc(BranchGlyph, Basename(root), [Sep]);
    ConcatAssoc(indent + BranchGlyph, Basename(root), [Sep]);
    ConcatAssoc(indent, BranchGlyph, name);
    assert DirLine(root, rel) == indent + (BranchGlyph + name);
    BranchIsNotIndent(name);
    IndentedLine(n, BranchGlyph + name);
  }

  /** The start directory's line is `.` and a separator, with no indent. */
  lemma StartDirLine(root: string)
    ensures DirLine(root, ".") == "./"
    ensures LeadingGlyphs(DirLine(root, ".")) == 0
  {
    assert !(IndentGlyph <= "./");
  }

  /** An immediate child of the start directory (a relative path with no separator)
      gets no indent at all. */
  lemma ChildDirLine(root: string, rel: string)
    requires rel != "." && Sep !in rel
    ensures LeadingGlyphs(DirLine(root, rel)) == 0
    ensures DirLine(root, rel) == BranchGlyph + Basename(root) + [Sep]
  {
    DirLineIndent(root, rel);
  }

  /** A file line is indented once more than the separators of its directory's
      relative path, and so one glyph deeper than its directory's own line; after
      the indent comes the branch glyph and the file name. */
  lemma FileLineIndent(root: string, rel: string, name: string)
    ensures LeadingGlyphs(FileLine(rel, name)) == CountChar(rel, Sep) + 1
    ensures LeadingGlyphs(FileLine(rel, name)) == LeadingGlyphs(DirLine(root, rel)) + 1
    ensures FileLine(rel, name)[|IndentGlyph| * (CountChar(rel, Sep) + 1)..] == BranchGlyph + name
  {
    var n := CountChar(rel, Sep) + 1;
    BranchIsNotIndent(name);
    ConcatAssoc(Repeat(IndentGlyph, n), BranchGlyph, name);
    IndentedLine(n, BranchGlyph + name);
    if rel == "." {
      StartDirLine(root);
      assert CountChar(rel, Sep) == 0;
    } else {
      DirLineIndent(root, rel);
    }
  }
}

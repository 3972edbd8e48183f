/**
  The directory-tree report of `generate_directory_tree_text` in data/tree.py.

  The filesystem is replaced by inputs: whether the start path exists, its absolute
  form, the sequence of entries `os.walk` yields (the first one being the start
  directory itself) and `relPath`, the result of `os.path.relpath(root, start)` for
  each walked root.
*/
module DirectoryTree {
  import opened Text
  import opened Seqs
  import opened Paths

  /** One level of indentation. */
  const IndentGlyph: string := "│   "
  /** Put in front of every directory and file name. */
  const BranchGlyph: string := "├── "
  const SummaryHeader: string := "\n--- Summary: All Files Found (Full Paths) ---"
  const NoFilesLine: string := "No files found or an error occurred during scanning."

  /** The whole result when the start path does not exist. */
  function ErrorText(startPath: string): string {
    "Error: The specified path does not exist: '" + startPath + "'\n"
  }

  /** The first line, naming the absolute start path. */
  function HeaderLine(absStart: string): string {
    "Scanning directory tree from: " + absStart + "\n"
  }

  /** The line of a walked directory whose path relative to the start is `rel`. */
  function DirLine(root: string, rel: string): string {
    if rel == "." then "." + [Sep]
    else Repeat(IndentGlyph, CountChar(rel, Sep)) + BranchGlyph + Basename(root) + [Sep]
  }

  /** The line of a file directly inside a directory whose relative path is `rel`. */
  function FileLine(rel: string, name: string): string {
    Repeat(IndentGlyph, CountChar(rel, Sep) + 1) + BranchGlyph + name
  }

  /** The last line of the summary block. */
  function TotalLine(n: nat): string {
    "\nTotal files found: " + NatToString(n)
  }

  /** The joined paths of the files of one walked directory, in order. */
  function EntryPaths(root: string, files: seq<string>): seq<string> {
    if files == [] then []
    else EntryPaths(root, files[..|files| - 1]) + [PathJoin(root, files[|files| - 1])]
  }

  /** The lines of the files of one walked directory, in order. */
  function FileLines(rel: string, files: seq<string>): seq<string> {
    if files == [] then []
    else FileLines(rel, files[..|files| - 1]) + [FileLine(rel, files[|files| - 1])]
  }

  /** The line of a walked directory followed by the lines of its files. */
  function EntryBlock(root: string, rel: string, files: seq<string>): seq<string> {
    [DirLine(root, rel)] + FileLines(rel, files)
  }

  /** The lines of one walk entry. */
  function EntryLines(e: WalkEntry, relPath: string -> string): seq<string> {
    EntryBlock(e.root, relPath(e.root), e.files)
  }

  /** The tree part of the report: every entry's lines, in walk order. */
  function TreeLines(walk: seq<WalkEntry>, relPath: string -> string): seq<string> {
    if walk == [] then []
    else TreeLines(walk[..|walk| - 1], relPath) + EntryLines(walk[|walk| - 1], relPath)
  }

  /** The `found_files` list: every file's joined path, in walk order. */
  function FoundFiles(walk: seq<WalkEntry>): seq<string> {
    if walk == [] then []
    else FoundFiles(walk[..|walk| - 1]) + EntryPaths(walk[|walk| - 1].root, walk[|walk| - 1].files)
  }

  /** The number of files the walk lists. */
  function TotalFiles(walk: seq<WalkEntry>): nat {
    if walk == [] then 0
    else TotalFiles(walk[..|walk| - 1]) + |walk[|walk| - 1].files|
  }

  /** The block after the tree: a header, every found path and the count, or the
      sentinel line when nothing was found. */
  function SummaryLines(found: seq<string>): seq<string> {
    if found != [] then [SummaryHeader] + found + [TotalLine(|found|)]
    else [NoFilesLine]
  }

  /** Every line of the report for an existing start path, before joining. */
  function ReportLines(absStart: string, walk: seq<WalkEntry>, relPath: string -> string): seq<string> {
    [HeaderLine(absStart)] + TreeLines(walk, relPath) + SummaryLines(FoundFiles(walk))
  }

  /** The index in `found_files` of the first file of entry `i`. */
  function FileOffset(walk: seq<WalkEntry>, i: nat): nat
    requires i <= |walk|
  {
    TotalFiles(walk[..i])
  }

  /** The index in the tree lines of the directory line of entry `i`. */
  function LineOffset(walk: seq<WalkEntry>, i: nat): nat
    requires i <= |walk|
  {
    i + TotalFiles(walk[..i])
  }

  /** The number of indent glyphs a line starts with. */
  function LeadingGlyphs(line: string): nat
    decreases |line|
  {
    if IndentGlyph <= line then 1 + LeadingGlyphs(line[|IndentGlyph|..]) else 0
  }

  /** Extending the walked prefix by one entry appends that entry's lines and
      paths. */
  lemma PrefixStep(walk: seq<WalkEntry>, i: nat, relPath: string -> string)
    requires i < |walk|
    ensures TreeLines(walk[..i + 1], relPath) == TreeLines(walk[..i], relPath) + EntryLines(walk[i], relPath)
    ensures FoundFiles(walk[..i + 1]) == FoundFiles(walk[..i]) + EntryPaths(walk[i].root, walk[i].files)
  {
    assert walk[..i + 1][..i] == walk[..i];
  }

  /** Extending the handled prefix of a directory's files by one file appends that
      file's line and path. */
  lemma FilesStep(root: string, rel: string, files: seq<string>, j: nat)
    requires j < |files|
    ensures FileLines(rel, files[..j + 1]) == FileLines(rel, files[..j]) + [FileLine(rel, files[j])]
    ensures EntryPaths(root, files[..j + 1]) == EntryPaths(root, files[..j]) + [PathJoin(root, files[j])]
  {
    assert files[..j + 1][..j] == files[..j];
  }

  /** Appends the line of each of `files`, a directory's files, and its joined
      path. */
  method AppendFiles(lines: seq<string>, found: seq<string>, root: string, relativeRoot: string,
                     files: seq<string>)
    returns (lines': seq<string>, found': seq<string>)
    ensures lines' == lines + FileLines(relativeRoot, files)
    ensures found' == found + EntryPaths(root, files)
  {
    lines', found' := lines, found;
    var j := 0;
    while j < |files|
      invariant j <= |files|
      invariant lines' == lines + FileLines(relativeRoot, files[..j])
      invariant found' == found + EntryPaths(root, files[..j])
    {
      var fullFilePath := PathJoin(root, files[j]);
      found' := found' + [fullFilePath];
      var fileIndentLevel := CountChar(relativeRoot, Sep) + 1;
      var line := Repeat(IndentGlyph, fileIndentLevel) + BranchGlyph + files[j];
      assert line == FileLine(relativeRoot, files[j]);
      lines' := lines' + [line];
      FilesStep(root, relativeRoot, files, j);
      ConcatAssoc(lines, FileLines(relativeRoot, files[..j]), [line]);
      ConcatAssoc(found, EntryPaths(root, files[..j]), [fullFilePath]);
      j := j + 1;
    }
    assert files[..j] == files;
  }

  /** Appends the lines and the paths of one walked directory, `root`, whose path
      relative to the start is `relativeRoot` and which holds `files`. */
  method AppendEntry(lines: seq<string>, found: seq<string>, root: string, relativeRoot: string,
                     files: seq<string>)
    returns (lines': seq<string>, found': seq<string>)
    ensures lines' == lines + EntryBlock(root, relativeRoot, files)
    ensures found' == found + EntryPaths(root, files)
  {
    var dirLine;
    if relativeRoot == "." {
      dirLine := "." + [Sep];
    } else {
      var indentLevel := CountChar(relativeRoot, Sep);
      dirLine := Repeat(IndentGlyph, indentLevel) + BranchGlyph + Basename(root) + [Sep];
    }
    assert dirLine == DirLine(root, relativeRoot);
    lines', found' := AppendFiles(lines + [dirLine], found, root, relativeRoot, files);
    ConcatAssoc(lines, [dirLine], FileLines(relativeRoot, files));
  }

  /** Appends the summary block for the found paths `found`. */
  method AppendSummary(lines: seq<string>, found: seq<string>) returns (lines': seq<string>)
    ensures lines' == lines + SummaryLines(found)
  {
    if found != [] {
      lines' := lines + [SummaryHeader];
      var k := 0;
      while k < |found|
        invariant k <= |found|
        invariant lines' == lines + [SummaryHeader] + found[..k]
      {
        lines' := lines' + [found[k]];
        assert found[..k + 1] == found[..k] + [found[k]];
        ConcatAssoc(lines + [SummaryHeader], found[..k], [found[k]]);
        k := k + 1;
      }
      assert found[..k] == found;
      lines' := lines' + [TotalLine(|found|)];
      ConcatAssoc(lines, [SummaryHeader], found);
      ConcatAssoc(lines, [SummaryHeader] + found, [TotalLine(|found|)]);
    } else {
      lines' := lines + [NoFilesLine];
    }
  }

  /** `generate_directory_tree_text(start_path)`: the report text and the list of
      found paths, built by appending to two lists while walking. */
  method GenerateDirectoryTreeText(startPath: string, pathExists: bool, absStart: string,
                                   walk: seq<WalkEntry>, relPath: string -> string)
    returns (text: string, foundFiles: seq<string>)
    ensures !pathExists ==> text == ErrorText(startPath) && foundFiles == []
    ensures pathExists ==> foundFiles == FoundFiles(walk)
    ensures pathExists ==> text == JoinLines(ReportLines(absStart, walk, relPath))
  {
    if !pathExists {
      return ErrorText(startPath), [];
    }
    var outputLines := [HeaderLine(absStart)];
    foundFiles := [];
    var i := 0;
    while i < |walk|
      invariant i <= |walk|
      invariant outputLines == [HeaderLine(absStart)] + TreeLines(walk[..i], relPath)
      invariant foundFiles == FoundFiles(walk[..i])
    {
      var root := walk[i].root;
      ghost var linesBefore := outputLines;
      outputLines, foundFiles := AppendEntry(outputLines, foundFiles, root, relPath(root), walk[i].files);
      PrefixStep(walk, i, relPath);
      ConcatAssoc([HeaderLine(absStart)], TreeLines(walk[..i], relPath), EntryLines(walk[i], relPath));
      i := i + 1;
    }
    assert walk[..i] == walk;
    outputLines := AppendSummary(outputLines, foundFiles);
    text := JoinLines(outputLines);
  }
}

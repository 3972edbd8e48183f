# Directory-tree reporter and import rewriter, in Dafny

This project models two small Python utilities and proves properties of each.

- **`generate_directory_tree_text(start_path)`** (`data/tree.py`) walks a directory. It returns two things:
  - a text report: a header naming the absolute start path, then one line per directory and one per file, indented by depth, then a summary of every file's joined path and their count, or a sentinel line when there are none;
  - the list of those joined paths.
- **`update_imports.py`** rewrites two old import aliases in every `.js` file under `src`:
  - `from '@/` becomes `from '#@/`;
  - `require('@/` becomes `require('#@/`.

  A file is written back only when its content changed.

Modules:

| file | module | contents |
|---|---|---|
| `seqs.dfy` | `Seqs` | generic sequence lemmas (associativity, slices) used by the proofs |
| `text.dfy` | `Text` | Python's `s * n`, `str.count`, `str.endswith`, `"\n".join` and `str(n)` |
| `paths.dfy` | `Paths` | `os.path.join` and `os.path.basename` for POSIX, and one step of `os.walk` |
| `tree.dfy` | `DirectoryTree` | the report, as imperative methods proved against specification functions |
| `tree_layout.dfy` | `TreeLayout` | where every line and path lands in the report, and the indentation of each line |
| `tree_examples.dfy` | `TreeExamples` | concrete walks: an empty directory, one file, two levels |
| `replace.dfy` | `Replace` | literal left-to-right replace-all: what `re.sub` does with these patterns |
| `update_imports.dfy` | `ImportRewriter` | `PATTERNS`, `update_imports` and `main` |

### Inputs

The model does not touch a filesystem.

For the tree report, these are inputs:
- whether the start path exists;
- its absolute form;
- the sequence of `(root, files)` pairs `os.walk` yields;
- a function giving `os.path.relpath(root, start_path)` for each root.

For the import rewriter:
- the filesystem is a map from path to content;
- a path that is not in the map is a file that cannot be read;
- whether `src` is a directory is a boolean input;
- the walk is an input, as above.

### Indentation

Indentation counts the separators in the `relpath` of a directory (data/tree.py:20, 27). An immediate child such as `sub` gets no indent glyph, and its files get one. A file in `sub/deep` gets two.

- `TreeLayout.ChildDirLine` states the zero-glyph case.
- `TreeExamples.FileTwoLevelsDown` and `TreeExamples.TwoLevels` state the concrete counts.

## Model

| member | source | states |
|---|---|---|
| DirectoryTree.ErrorText | data/tree.py:8-9 | definition: the whole text returned when the start path does not exist, naming the path |
| DirectoryTree.HeaderLine | data/tree.py:11 | definition: the first line, naming the absolute start path and ending in a newline |
| DirectoryTree.DirLine | data/tree.py:17-21 | definition: `./` for the start directory; otherwise one indent glyph per separator of the relative path, the branch glyph, the basename and a separator |
| DirectoryTree.FileLine | data/tree.py:27-28 | definition: one indent glyph more than the separators of the directory's relative path, the branch glyph and the file name |
| DirectoryTree.FoundFiles | data/tree.py:14-25 | definition: the joined path of every walked file, in walk order |
| DirectoryTree.SummaryLines | data/tree.py:30-36 | definition: the summary header, every found path and the total line, or the sentinel line when nothing was found |
| DirectoryTree.ReportLines | data/tree.py:11-36 | definition: the header, the tree lines of every walk entry and the summary block |
| Text.JoinLines | data/tree.py:38 | definition: `"\n".join(lines)` |
| Paths.PathJoin | data/tree.py:24 | definition: `os.path.join(root, name)` on POSIX |
| Paths.Basename | data/tree.py:21 | definition: `os.path.basename(root)` on POSIX |
| Replace.ReplaceAll | update_imports.py:28 | definition: `re.sub` with a literal pattern: a left-to-right scan replacing each non-overlapping match |
| ImportRewriter.Rewrite | update_imports.py:25-28 | definition: the patterns applied in order, each to the output of the previous one |
| ImportRewriter.JsFilesIn | update_imports.py:47-49 | definition: the joined paths of one directory's file names ending in `.js`, in order |
| ImportRewriter.JsPaths | update_imports.py:46-49 | definition: the `.js` paths of every walk entry, in walk order |
| ImportRewriter.RunAll | update_imports.py:46-50 | definition: `update_imports` called on each path in turn, giving the final filesystem and every outcome |
| DirectoryTree.GenerateDirectoryTreeText | data/tree.py:3-38 | If the start path does not exist: the error text naming it, and no found files. Otherwise: the found files are every walked file's joined path in walk order, and the text is the newline-join of the header, the tree lines of every entry and the summary block |
| DirectoryTree.AppendEntry | data/tree.py:14-28 | One walk step appends the directory's line (`./` for the start directory, else indent, branch glyph, basename and separator) followed by one line per file. It also appends each file's joined path |
| DirectoryTree.AppendFiles | data/tree.py:23-28 | The file loop appends, in order, one line per file at one level deeper than its directory, and each file's joined path |
| DirectoryTree.AppendSummary | data/tree.py:30-36 | With found files: the summary header, every path in order and the total line. Otherwise: exactly the sentinel line |
| TreeLayout.FoundFilesCount | data/tree.py:23-25 | The number of found paths equals the number of files the walk lists |
| TreeLayout.TreeLinesCount | data/tree.py:14-28 | The tree part has exactly one line per walked directory plus one per file |
| TreeLayout.FoundFilesSlice | data/tree.py:23-25 | The found paths of entry `i` form one contiguous block, starting after the files of all earlier entries, in the order that entry lists them |
| TreeLayout.FoundFilesLayout | data/tree.py:23-25 | The path of file `j` of entry `i` sits at index (files of earlier entries + `j`) and is the join of that entry's root with the file name |
| TreeLayout.TreeLinesSlice | data/tree.py:14-28 | The lines of entry `i` form one contiguous block of 1 + its file count lines, starting after all earlier entries' lines |
| TreeLayout.ReportLayout | data/tree.py:11-36 | The report's line count. Line 0 is the header. The tree lines follow. Then, with files: the summary header, every found path and the total line last. Without files: the sentinel line last |
| TreeLayout.ReportDirLine | data/tree.py:17-21 | The line at the offset of entry `i` is that directory's line |
| TreeLayout.ReportFileLine | data/tree.py:27-28 | The line right after entry `i`'s directory line plus `j` is the line of its file `j` |
| TreeLayout.ReportTextFrame | data/tree.py:30-38 | The joined text starts with the header line. It ends with a newline and the total line when files were found, and with a newline and the sentinel line otherwise |
| TreeLayout.DirLineIndent | data/tree.py:20-21 | A non-start directory's line has as many leading indent glyphs as its relative path has separators, followed by the branch glyph, its basename and a separator |
| TreeLayout.StartDirLine | data/tree.py:17-18 | The start directory's line is `./` with no indent glyph |
| TreeLayout.ChildDirLine | data/tree.py:20-21 | A directory whose relative path has no separator (an immediate child) gets no indent glyph |
| TreeLayout.FileLineIndent | data/tree.py:27-28 | A file's line has one more indent glyph than its directory's line, followed by the branch glyph and the bare file name |
| TreeLayout.LeadingGlyphsRepeat | data/tree.py:21 | `n` copies of the indent glyph in front of text that does not start with one are counted as exactly `n` glyphs |
| TreeExamples.EmptyStartDirectory | data/tree.py:11-36 | An empty start directory gives the header, `./` and the sentinel line, with no found files |
| TreeExamples.SingleFile | data/tree.py:11-38 | A start directory holding only `a.txt` gives six lines: one found path, one file line with one glyph, and a total of `1` |
| TreeExamples.SingleFilePath | data/tree.py:24 | Joining `/tmp/r` and `a.txt` gives `/tmp/r/a.txt` |
| TreeExamples.FileTwoLevelsDown | data/tree.py:20-28 | The directory `sub/deep` gets one glyph, and a file in it gets two |
| TreeExamples.TwoLevelsFound | data/tree.py:23-25 | A walk of `/tmp/x` with `a.txt` and `sub/b.txt` finds exactly `/tmp/x/a.txt` and then `/tmp/x/sub/b.txt` |
| TreeExamples.SubDirLine | data/tree.py:20-21 | The immediate child `sub` is rendered as the branch glyph and `sub/` |
| TreeExamples.TwoLevels | data/tree.py:14-28 | The tree lines of that walk: `./`, the line of `a.txt`, the line of `sub/` and the line of `b.txt`. Both files have one glyph, and there are two files in total |
| Text.Repeat | data/tree.py:21 | `s * n` is `n` times as long as `s` |
| Text.CountChar | data/tree.py:20 | The count is at most the length. It is zero exactly when the character is absent, and equal to the length exactly when every character is it |
| Text.CountCharAppend | data/tree.py:20 | Counting over a concatenation adds the counts of the two parts |
| Text.JoinLinesAppend | data/tree.py:38 | Joining a non-empty list with one more line gives the old text, a newline and the line |
| Text.JoinLinesEnds | data/tree.py:38 | The joined text ends with the last line, and with a newline before it when there are two or more lines |
| Text.NatToString | data/tree.py:34 | `str(n)`: non-empty decimal digits, no leading zero unless the number is 0, and the digits' value is `n` |
| Paths.PathJoinShape | data/tree.py:24 | A join ends with its second component. If that component is absolute, the join is it. Otherwise the join starts with the first component, and it is one character longer than the two together exactly when the first is non-empty and does not end with a separator; that character is a separator |
| Paths.BasenameShape | data/tree.py:21 | The basename holds no separator. It is a suffix of the path, and either it is the whole path or a separator precedes it |
| Paths.BasenameOfJoin | data/tree.py:21-24 | The basename of a directory joined with a non-empty, separator-free name is that name |
| Replace.ReplaceAllLength | update_imports.py:28 | Each replacement changes the length by the length difference of replacement and pattern |
| Replace.MatchCountZero | update_imports.py:28 | No replacement is made exactly when the pattern does not occur |
| Replace.ReplaceAllAbsent | update_imports.py:28 | Text without the pattern is returned unchanged |
| Replace.NoNewOccurrence | update_imports.py:28 | If a pattern `q` can neither start inside the replacement nor run into it, replacing creates no occurrence of `q` |
| Replace.PatternRemoved | update_imports.py:28 | Under the same conditions on the pattern itself, no occurrence of it survives the substitution |
| ImportRewriter.RewriteIsTwoPasses | update_imports.py:25-28 | Rewriting is the `from` substitution followed by the `require` substitution on its output, in `PATTERNS` order |
| ImportRewriter.FromPatternWellBehaved | update_imports.py:14 | The `from` alias can neither start inside nor run into its replacement |
| ImportRewriter.RequirePatternWellBehaved | update_imports.py:16 | The `require` alias can neither start inside nor run into its replacement |
| ImportRewriter.FromAliasSurvivesRequirePass | update_imports.py:12-17 | The `require` pass cannot create a `from` alias |
| ImportRewriter.RewriteLeavesNoOldAlias | update_imports.py:25-28 | After rewriting, neither old alias occurs anywhere |
| ImportRewriter.RewriteWithoutOldAlias | update_imports.py:25-28 | Content without an old alias is left exactly as it is |
| ImportRewriter.RewriteIdempotent | update_imports.py:25-28 | Rewriting already rewritten content changes nothing |
| ImportRewriter.RewriteLength | update_imports.py:25-28 | Each substitution adds exactly one character (`#`), so the content grows by the number of replacements made |
| ImportRewriter.RewriteChangesIff | update_imports.py:25-30 | The new content differs from the old exactly when the old holds an old alias |
| ImportRewriter.UpdateImports | update_imports.py:19-38 | The substitution loop and the changed check produce exactly what `UpdateResult` gives: unreadable file, error and no change; old alias present, only that file rewritten and an update reported; otherwise no change |
| ImportRewriter.UpdateResult | update_imports.py:19-38 | An unreadable file: nothing changes, and the error is reported. A file with an old alias: only that file is replaced by its rewrite, and an update is reported. Otherwise: nothing changes, and "no changes" is reported |
| ImportRewriter.JsFilesInSound | update_imports.py:47-49 | Every path handed over for a directory joins its root with one of its file names ending in `.js` |
| ImportRewriter.JsFilesInComplete | update_imports.py:47-49 | Every file name ending in `.js` of a directory is handed over, joined to its root |
| ImportRewriter.JsPathsSound | update_imports.py:46-50 | Every path handed to `update_imports` is the joined path of some walked file ending in `.js` |
| ImportRewriter.JsPathsComplete | update_imports.py:46-50 | Every walked file ending in `.js` is handed to `update_imports` |
| ImportRewriter.JsPathsEndInJs | update_imports.py:48-49 | Every path handed over ends in `.js` |
| ImportRewriter.RunAllKeys | update_imports.py:46-50 | The calls never add or remove a file |
| ImportRewriter.RunAllContent | update_imports.py:46-50 | Afterwards, a readable file that was visited holds its rewritten content, and every other file its old content. A file visited twice is rewritten once |
| ImportRewriter.RunAllCount | update_imports.py:46-50 | There is one outcome per call |
| ImportRewriter.RunAllOutcome | update_imports.py:30-50 | Call `k` fails exactly when its file cannot be read. It reports an update exactly when the file is readable, holds an old alias and was not visited by an earlier call |
| ImportRewriter.UpdateAll | update_imports.py:40-50 | If `src` is not a directory, nothing changes and no file is processed. Otherwise the final filesystem and the outcomes are those of calling `update_imports` on every walked `.js` path in walk order |

## Left out

- `os.walk`, `os.path.exists`, `os.path.abspath`, `os.path.relpath` and `os.path.isdir` are not computed; their results are inputs. The model therefore says nothing about which directories the walk visits or in what order; the report follows whatever order it is given.
- `os.sep` is fixed to `/`, as on POSIX systems. Windows separators and drive letters are not modelled.
- The `__main__` block of `data/tree.py` (lines 40-64) is not modelled: argument parsing, the default path next to the script, writing `directory_tree_output.txt` and the console messages are I/O.
- The `print` messages of `update_imports.py` are not modelled as text. Their meaning is kept as the `Outcome` of each call, and the final message of `main` is dropped.
- Reading and writing files is a lookup in and an update of the path-to-content map. Encoding errors are not modelled separately: any read failure is the path being absent. A failure while writing back, which the `except` on lines 37-38 would also catch, is not modelled.
- ImportRewriter.UpdateImports: the map holds a file's text after Python's universal-newline translation. `open` on update_imports.py:22 turns `"\r\n"` and `"\r"` into `"\n"`, and the write on line 32 writes `"\n"`. So a CRLF file that is rewritten loses its original line endings on disk. The model does not capture this, and neither does `RunAllContent`, which gives the rewritten text and not the bytes on disk.
- `re.sub` is modelled only for what these two patterns are: literal strings (`\/` and `\(` are escaped literals), with replacements that hold no group reference. General regular expressions are not modelled.
- ImportRewriter.RewriteLength: counts the `require` replacements in the output of the first pass rather than in the original content. That this equals the count in the original content is not proved.
- TreeExamples.TwoLevels: states the tree lines, the found paths and the total of the two-level walk, but not its fully joined report text.

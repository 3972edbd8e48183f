/**
  The import rewriter of update_imports.py: the two alias-fixing substitutions,
  `update_imports` on one file and the walk in `main` that hands it every `.js`
  file under the root.

  The file system is a map from path to file content; a path missing from the map
  is a file that cannot be read, which `update_imports` reports as an error and
  leaves alone. Whether the root is a directory and what `os.walk` yields are
  inputs.
*/
module ImportRewriter {
  import opened Seqs
  import opened Text
  import opened Paths
  import opened Replace

  /** The old alias in an `import ... from` statement, and what it becomes. */
  const FromAlias: string := "from '@/"
  const FromFixed: string := "from '#@/"
  /** The old alias in a `require(...)` call, and what it becomes. */
  const RequireAlias: string := "require('@/"
  const RequireFixed: string := "require('#@/"

  /** `PATTERNS`, in dictionary order: each regex matches exactly its literal text
      (`\/` and `\(` are escaped literals), and no replacement holds a group
      reference. */
  const Patterns: seq<(string, string)> := [(FromAlias, FromFixed), (RequireAlias, RequireFixed)]

  /** `ROOT_DIR`. */
  const RootDir: string := "src"

  /** Only files with this suffix are rewritten. */
  const JsSuffix: string := ".js"

  /** Every pattern of `ps` is non-empty. */
  predicate NonEmptyPatterns(ps: seq<(string, string)>) {
    forall i | 0 <= i < |ps| :: |ps[i].0| > 0
  }

  /** The substitutions of `ps` applied to `s` one after the other, each to the
      output of the previous one. */
  function ApplyPatterns(s: string, ps: seq<(string, string)>): string
    requires NonEmptyPatterns(ps)
  {
    if ps == [] then s
    else ReplaceAll(ApplyPatterns(s, ps[..|ps| - 1]), ps[|ps| - 1].0, ps[|ps| - 1].1)
  }

  /** The content `update_imports` computes from the content `s` of a file. */
  function Rewrite(s: string): string {
    ApplyPatterns(s, Patterns)
  }

  /** The text holds an old alias of either kind. */
  predicate HasOldAlias(s: string) {
    Contains(s, FromAlias) || Contains(s, RequireAlias)
  }

  /** Rewriting is the `from` substitution followed by the `require` substitution
      on its output. */
  lemma RewriteIsTwoPasses(s: string)
    ensures Rewrite(s) == ReplaceAll(ReplaceAll(s, FromAlias, FromFixed), RequireAlias, RequireFixed)
  {
    var first := Patterns[..1];
    assert first == [(FromAlias, FromFixed)] && first[..0] == [];
    assert ApplyPatterns(s, first) == ReplaceAll(s, FromAlias, FromFixed);
  }

  /** Two strings whose characters differ at a common index are not prefixes of
      each other. */
  lemma DiffersAt(x: string, y: string, m: nat)
    requires m < |x| && m < |y| && x[m] != y[m]
    ensures !Overlaps(x, y)
  {
  }

  /** A suffix of `r` that starts with a character other than the first of `q`
      cannot overlap `q`. */
  lemma FirstCharDiffers(r: string, q: string, k: nat)
    requires k < |r| && |q| > 0 && r[k] != q[0]
    ensures !Overlaps(r[k..], q)
  {
    DiffersAt(r[k..], q, 0);
  }

  /** The `from` alias can neither start inside its replacement nor run into it. */
  lemma FromPatternWellBehaved()
    ensures CannotStartInside(FromAlias, FromFixed) && CannotResumeInto(FromAlias, FromFixed)
  {
    forall k | 0 <= k < |FromFixed| ensures !Overlaps(FromFixed[k..], FromAlias) {
      if k == 0 {
        DiffersAt(FromFixed, FromAlias, 6);
      } else {
        FirstCharDiffers(FromFixed, FromAlias, k);
      }
    }
    forall m | 1 <= m < |FromAlias| ensures !Overlaps(FromAlias[m..], FromFixed) {
      if m == 1 {
        DiffersAt(FromAlias[m..], FromFixed, 0);
      } else {
        FirstCharDiffers(FromAlias, FromFixed, m);
      }
    }
  }

  /** The `require` alias can neither start inside its replacement nor run into
      it. */
  lemma RequirePatternWellBehaved()
    ensures CannotStartInside(RequireAlias, RequireFixed) && CannotResumeInto(RequireAlias, RequireFixed)
  {
    forall k | 0 <= k < |RequireFixed| ensures !Overlaps(RequireFixed[k..], RequireAlias) {
      if k == 0 {
        DiffersAt(RequireFixed, RequireAlias, 9);
      } else if k == 5 {
        DiffersAt(RequireFixed[k..], RequireAlias, 2);
      } else {
        FirstCharDiffers(RequireFixed, RequireAlias, k);
      }
    }
    forall m | 1 <= m < |RequireAlias| ensures !Overlaps(RequireAlias[m..], RequireFixed) {
      if m == 5 {
        DiffersAt(RequireAlias[m..], RequireFixed, 2);
      } else {
        FirstCharDiffers(RequireAlias, RequireFixed, m);
      }
    }
  }

  /** The `from` alias can neither start inside the `require` replacement nor run
      into it, so the second substitution creates no `from` alias. */
  lemma FromAliasSurvivesRequirePass()
    ensures CannotStartInside(FromAlias, RequireFixed) && CannotResumeInto(FromAlias, RequireFixed)
  {
    forall k | 0 <= k < |RequireFixed| ensures !Overlaps(RequireFixed[k..], FromAlias) {
      FirstCharDiffers(RequireFixed, FromAlias, k);
    }
    forall m | 1 <= m < |FromAlias| ensures !Overlaps(FromAlias[m..], RequireFixed) {
      if m == 1 {
        DiffersAt(FromAlias[m..], RequireFixed, 1);
      } else {
        FirstCharDiffers(FromAlias, RequireFixed, m);
      }
    }
  }

  /** After rewriting, no old alias of either kind is left. */
  lemma RewriteLeavesNoOldAlias(s: string)
    ensures !HasOldAlias(Rewrite(s))
  {
    var s1 := ReplaceAll(s, FromAlias, FromFixed);
    RewriteIsTwoPasses(s);
    FromPatternWellBehaved();
    RequirePatternWellBehaved();
    FromAliasSurvivesRequirePass();
    PatternRemoved(s, FromAlias, FromFixed);
    PatternRemoved(s1, RequireAlias, RequireFixed);
    NoNewOccurrence(s1, RequireAlias, RequireFixed, FromAlias);
  }

  /** Text without an old alias is left exactly as it is. */
  lemma RewriteWithoutOldAlias(s: string)
    requires !HasOldAlias(s)
    ensures Rewrite(s) == s
  {
    RewriteIsTwoPasses(s);
    ReplaceAllAbsent(s, FromAlias, FromFixed);
    ReplaceAllAbsent(s, RequireAlias, RequireFixed);
  }

  /** Rewriting twice is rewriting once: a second run finds nothing to change. */
  lemma RewriteIdempotent(s: string)
    ensures Rewrite(Rewrite(s)) == Rewrite(s)
  {
    RewriteLeavesNoOldAlias(s);
    RewriteWithoutOldAlias(Rewrite(s));
  }

  /** Each replacement inserts exactly one `#`: the text grows by the number of
      `from` replacements plus the number of `require` replacements made on the
      output of the first pass. */
  lemma RewriteLength(s: string)
    ensures |Rewrite(s)| == |s| + MatchCount(s, FromAlias)
                              + MatchCount(ReplaceAll(s, FromAlias, FromFixed), RequireAlias)
  {
    RewriteIsTwoPasses(s);
    ReplaceAllLength(s, FromAlias, FromFixed);
    ReplaceAllLength(ReplaceAll(s, FromAlias, FromFixed), RequireAlias, RequireFixed);
  }

  /** Rewriting changes the text exactly when it holds an old alias. */
  lemma RewriteChangesIff(s: string)
    ensures Rewrite(s) != s <==> HasOldAlias(s)
  {
    if HasOldAlias(s) {
      var s1 := ReplaceAll(s, FromAlias, FromFixed);
      RewriteLength(s);
      MatchCountZero(s, FromAlias);
      if !Contains(s, FromAlias) {
        ReplaceAllAbsent(s, FromAlias, FromFixed);
        MatchCountZero(s1, RequireAlias);
      }
    } else {
      RewriteWithoutOldAlias(s);
    }
  }

  /** What `update_imports` reports for one file. */
  datatype Outcome =
    | Updated    // "Updating file": the content changed and was written back
    | Unchanged  // "No changes needed": nothing was written
    | Failed     // "Error processing": the file could not be read

  /** `update_imports(file_path)`: reads the file, applies every pattern in order
      and writes the result back only when it differs from what was read. */
  method UpdateImports(fs: map<string, string>, path: string)
    returns (fs': map<string, string>, outcome: Outcome)
    ensures (fs', outcome) == UpdateResult(fs, path)
  {
    if path !in fs {
      return fs, Failed;
    }
    var content := fs[path];
    var newContent := content;
    var i := 0;
    while i < |Patterns|
      invariant i <= |Patterns|
      invariant newContent == ApplyPatterns(content, Patterns[..i])
    {
      var oldPath, newPath := Patterns[i].0, Patterns[i].1;
      newContent := ReplaceAll(newContent, oldPath, newPath);
      assert Patterns[..i + 1][..i] == Patterns[..i];
      i := i + 1;
    }
    assert Patterns[..i] == Patterns;
    RewriteChangesIff(content);
    if newContent != content {
      fs' := fs[path := newContent];
      outcome := Updated;
    } else {
      fs' := fs;
      outcome := Unchanged;
    }
  }

  /** What `update_imports` does to the file system `fs` for `path`, and what it
      reports. */
  function UpdateResult(fs: map<string, string>, path: string): (r: (map<string, string>, Outcome))
    ensures path !in fs ==> r == (fs, Failed)
    ensures path in fs && HasOldAlias(fs[path]) ==> r == (fs[path := Rewrite(fs[path])], Updated)
    ensures path in fs && !HasOldAlias(fs[path]) ==> r == (fs, Unchanged)
  {
    if path !in fs then (fs, Failed)
    else
      RewriteChangesIff(fs[path]);
      if Rewrite(fs[path]) != fs[path] then (fs[path := Rewrite(fs[path])], Updated)
      else (fs, Unchanged)
  }

  /** `update_imports` called on each of `paths` in turn: the final file system and
      the outcome of every call. */
  function RunAll(fs: map<string, string>, paths: seq<string>): (map<string, string>, seq<Outcome>) {
    if paths == [] then (fs, [])
    else
      var prev := RunAll(fs, paths[..|paths| - 1]);
      var next := UpdateResult(prev.0, paths[|paths| - 1]);
      (next.0, prev.1 + [next.1])
  }

  /** The paths `main` hands to `update_imports` for one walked directory: the join
      of the root with each file name that ends in `.js`, in order. */
  function JsFilesIn(root: string, files: seq<string>): seq<string> {
    if files == [] then []
    else
      var name := files[|files| - 1];
      JsFilesIn(root, files[..|files| - 1]) + (if EndsWith(name, JsSuffix) then [PathJoin(root, name)] else [])
  }

  /** Every path `main` hands to `update_imports`, in walk order. */
  function JsPaths(walk: seq<WalkEntry>): seq<string> {
    if walk == [] then []
    else JsPaths(walk[..|walk| - 1]) + JsFilesIn(walk[|walk| - 1].root, walk[|walk| - 1].files)
  }

  /** `p` is the joined path of a walked file whose name ends in `.js`. */
  predicate IsJsFileOf(walk: seq<WalkEntry>, p: string) {
    exists i, j | 0 <= i < |walk| && 0 <= j < |walk[i].files| ::
      EndsWith(walk[i].files[j], JsSuffix) && p == PathJoin(walk[i].root, walk[i].files[j])
  }

  /** Every path `main` hands over for one directory is the join of the root with
      one of its `.js` file names. */
  lemma {:induction false} JsFilesInSound(root: string, files: seq<string>)
    ensures forall p | p in JsFilesIn(root, files) ::
              exists j | 0 <= j < |files| :: EndsWith(files[j], JsSuffix) && p == PathJoin(root, files[j])
    decreases |files|
  {
    if files != [] {
      var n := |files| - 1;
      var init := files[..n];
      JsFilesInSound(root, init);
      forall p | p in JsFilesIn(root, files)
        ensures exists j | 0 <= j < |files| :: EndsWith(files[j], JsSuffix) && p == PathJoin(root, files[j])
      {
        if p in JsFilesIn(root, init) {
          var j :| 0 <= j < |init| && EndsWith(init[j], JsSuffix) && p == PathJoin(root, init[j]);
          assert files[j] == init[j];
        } else {
          assert EndsWith(files[n], JsSuffix) && p == PathJoin(root, files[n]);
        }
      }
    }
  }

  /** Every `.js` file of a directory is handed over. */
  lemma {:induction false} JsFilesInComplete(root: string, files: seq<string>, j: nat)
    requires j < |files| && EndsWith(files[j], JsSuffix)
    ensures PathJoin(root, files[j]) in JsFilesIn(root, files)
    decreases |files|
  {
    var n := |files| - 1;
    if j < n {
      assert files[..n][j] == files[j];
      JsFilesInComplete(root, files[..n], j);
    }
  }

  /** Every path `main` hands over is the joined path of a walked `.js` file. */
  lemma {:induction false} JsPathsSound(walk: seq<WalkEntry>)
    ensures forall p | p in JsPaths(walk) :: IsJsFileOf(walk, p)
    decreases |walk|
  {
    if walk != [] {
      var n := |walk| - 1;
      var init := walk[..n];
      JsPathsSound(init);
      JsFilesInSound(walk[n].root, walk[n].files);
      forall p | p in JsPaths(walk) ensures IsJsFileOf(walk, p) {
        if p in JsPaths(init) {
          var i, j :| 0 <= i < |init| && 0 <= j < |init[i].files| &&
                      EndsWith(init[i].files[j], JsSuffix) && p == PathJoin(init[i].root, init[i].files[j]);
          assert init[i] == walk[i];
        } else {
          var j :| 0 <= j < |walk[n].files| &&
                   EndsWith(walk[n].files[j], JsSuffix) && p == PathJoin(walk[n].root, walk[n].files[j]);
        }
      }
    }
  }

  /** Every walked `.js` file is handed over. */
  lemma {:induction false} JsPathsComplete(walk: seq<WalkEntry>, i: nat, j: nat)
    requires i < |walk| && j < |walk[i].files| && EndsWith(walk[i].files[j], JsSuffix)
    ensures PathJoin(walk[i].root, walk[i].files[j]) in JsPaths(walk)
    decreases |walk|
  {
    var n := |walk| - 1;
    if i < n {
      assert walk[..n][i] == walk[i];
      JsPathsComplete(walk[..n], i, j);
    } else {
      JsFilesInComplete(walk[n].root, walk[n].files, j);
    }
  }

  /** Only names ending in `.js` pass the filter, and so every path handed over
      ends in `.js`. */
  lemma JsPathsEndInJs(walk: seq<WalkEntry>)
    ensures forall p | p in JsPaths(walk) :: EndsWith(p, JsSuffix)
  {
    JsPathsSound(walk);
    forall p | p in JsPaths(walk) ensures EndsWith(p, JsSuffix) {
      var i, j :| 0 <= i < |walk| && 0 <= j < |walk[i].files| &&
                  EndsWith(walk[i].files[j], JsSuffix) && p == PathJoin(walk[i].root, walk[i].files[j]);
      PathJoinShape(walk[i].root, walk[i].files[j]);
      EndsWithTrans(p, walk[i].files[j], JsSuffix);
    }
  }

  /** Updating files never adds or removes a file. */
  lemma {:induction false} RunAllKeys(fs: map<string, string>, paths: seq<string>)
    ensures RunAll(fs, paths).0.Keys == fs.Keys
    decreases |paths|
  {
    if paths != [] {
      RunAllKeys(fs, paths[..|paths| - 1]);
    }
  }

  /** After the calls, a file named in `paths` holds its rewritten content and any
      other file its old content: a file visited twice is rewritten once, since
      rewriting is idempotent. */
  lemma {:induction false} RunAllContent(fs: map<string, string>, paths: seq<string>, p: string)
    requires p in fs
    ensures p in RunAll(fs, paths).0
    ensures RunAll(fs, paths).0[p] == if p in paths then Rewrite(fs[p]) else fs[p]
    decreases |paths|
  {
    if paths != [] {
      var n := |paths| - 1;
      var init := paths[..n];
      var q := paths[n];
      RunAllKeys(fs, init);
      RunAllContent(fs, init, p);
      assert p in paths <==> p in init || p == q;
      if p == q {
        RewriteIdempotent(fs[p]);
        RewriteChangesIff(Rewrite(fs[p]));
        RewriteChangesIff(fs[p]);
      }
    }
  }

  /** There is one outcome per call. */
  lemma {:induction false} RunAllCount(fs: map<string, string>, paths: seq<string>)
    ensures |RunAll(fs, paths).1| == |paths|
    decreases |paths|
  {
    if paths != [] {
      RunAllCount(fs, paths[..|paths| - 1]);
    }
  }

  /** Call `k` fails exactly when its file cannot be read, and reports an update
      exactly when its file can be read, holds an old alias and was not visited by
      an earlier call. */
  lemma {:induction false} RunAllOutcome(fs: map<string, string>, paths: seq<string>, k: nat)
    requires k < |paths|
    ensures |RunAll(fs, paths).1| == |paths|
    ensures RunAll(fs, paths).1[k] == Failed <==> paths[k] !in fs
    ensures RunAll(fs, paths).1[k] == Updated
            <==> paths[k] in fs && paths[k] !in paths[..k] && HasOldAlias(fs[paths[k]])
    decreases |paths|
  {
    var n := |paths| - 1;
    var init := paths[..n];
    RunAllCount(fs, init);
    RunAllCount(fs, paths);
    if k < n {
      RunAllOutcome(fs, init, k);
      assert init[k] == paths[k] && init[..k] == paths[..k];
    } else {
      var q := paths[n];
      RunAllKeys(fs, init);
      assert paths[..k] == init;
      if q in fs {
        RunAllContent(fs, init, q);
        RewriteIdempotent(fs[q]);
        RewriteChangesIff(Rewrite(fs[q]));
      }
    }
  }

  /** `main()`: when the root is a directory, walks it and calls `update_imports`
      on every file whose name ends in `.js`, in walk order; otherwise does
      nothing. Returns the final file system and the outcome of every call. */
  method UpdateAll(rootIsDir: bool, walk: seq<WalkEntry>, fs: map<string, string>)
    returns (fs': map<string, string>, outcomes: seq<Outcome>)
    ensures !rootIsDir ==> fs' == fs && outcomes == []
    ensures rootIsDir ==> (fs', outcomes) == RunAll(fs, JsPaths(walk))
  {
    if !rootIsDir {
      return fs, [];
    }
    fs', outcomes := fs, [];
    ghost var paths: seq<string> := [];
    var i := 0;
    while i < |walk|
      invariant i <= |walk|
      invariant paths == JsPaths(walk[..i])
      invariant (fs', outcomes) == RunAll(fs, paths)
    {
      var root, files := walk[i].root, walk[i].files;
      ghost var before := paths;
      var j := 0;
      while j < |files|
        invariant j <= |files|
        invariant paths == before + JsFilesIn(root, files[..j])
        invariant (fs', outcomes) == RunAll(fs, paths)
      {
        assert files[..j + 1][..j] == files[..j];
        if EndsWith(files[j], JsSuffix) {
          var filePath := PathJoin(root, files[j]);
          var outcome;
          fs', outcome := UpdateImports(fs', filePath);
          outcomes := outcomes + [outcome];
          assert (paths + [filePath])[..|paths|] == paths;
          ConcatAssoc(before, JsFilesIn(root, files[..j]), [filePath]);
          paths := paths + [filePath];
        } else {
          assert JsFilesIn(root, files[..j + 1]) == JsFilesIn(root, files[..j]) + [];
        }
        j := j + 1;
      }
      assert files[..j] == files;
      assert walk[..i + 1][..i] == walk[..i];
      i := i + 1;
    }
    assert walk[..i] == walk;
  }
}

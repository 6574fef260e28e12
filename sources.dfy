/**
 * The content sources declared in a manifest (`GitHubData`, `FileData`, `TemplateData`),
 * their construction rules and the keyword query `fill` that templates send to them.
 * The filesystem that `fill` inspects is an oracle `Fs`.
 */
module Sources {
  import opened Wrappers
  import opened Strings
  import opened Sorting
  import opened Lists

  const SchemaGitHub: string := "github"
  const SchemaFile: string := "file"
  const SchemaTemplate: string := "template"

  /** The self-reference in a GitHub source's target directory. */
  const RepoRef: string := "${repo}"

  /** The suffix every template file must carry. */
  const TemplateSuffix: string := ".template"

  /** `TemplateKeyword`, the enumeration of keyword kinds. */
  datatype Keyword = GitHubFile

  /** The value of the member `TemplateKeyword.GitHubFile`. */
  const GitHubFileValue: string := "github_file"

  /**
   * What `fill` receives as `key`. `fill` tests `key` against the Enum member
   * `TemplateKeyword.GitHubFile`, while `get_filled` hands it the plain string it cut from
   * the template. A plain Python `Enum` member never equals a `str`, so a `Text` key never
   * selects the GitHub branch: the two sides disagree on the type of the tag.
   */
  datatype Key = Member(tag: Keyword) | Text(text: string)

  /** The exceptions construction can raise. */
  datatype Error =
    | IndexError     // a token the schema needs is missing from the manifest line
    | NotATemplate   // `RuntimeError("Template file should end with .template")`

  /** One manifest record. */
  datatype ConfData =
    | GitHubData(gitRepo: string, targetDir: string, targetFiles: Option<seq<string>>)
    | FileData(app: string, file: string, fileTargetDir: Option<string>)
    | TemplateData(app: string, datas: ConfList, templateFile: string, templateTargetDir: Option<string>)

  /**
   * A Python `list[ConfData]` object. `parse_config` builds one and appends to it, and
   * hands the same object to every `TemplateData` it constructs.
   */
  class ConfList {
    var items: seq<ConfData>

    constructor ()
      ensures items == []
    {
      items := [];
    }

    /** `list.append` */
    method Append(c: ConfData)
      modifies this
      ensures items == old(items) + [c]
    {
      items := items + [c];
    }
  }

  /** The class attribute `name` of each record's class. */
  function SchemaName(c: ConfData): (r: string)
  {
    match c
    case GitHubData(_, _, _) => SchemaGitHub
    case FileData(_, _, _) => SchemaFile
    case TemplateData(_, _, _, _) => SchemaTemplate
  }

  /** `GitHubData(git_repo, target_dir, target_files)` */
  function NewGitHubData(gitRepo: string, targetDir: string, targetFiles: Option<seq<string>>): (r: ConfData)
    ensures r.GitHubData? && r.gitRepo == gitRepo && r.targetFiles == targetFiles
    ensures r.targetDir == Replace(targetDir, RepoRef, gitRepo)
  {
    GitHubData(gitRepo, Replace(targetDir, RepoRef, gitRepo), targetFiles)
  }

  /** A target directory without `${repo}` is stored as given. */
  lemma GitHubTargetDirKept(gitRepo: string, targetDir: string, targetFiles: Option<seq<string>>)
    requires !Contains(targetDir, RepoRef)
    ensures NewGitHubData(gitRepo, targetDir, targetFiles).targetDir == targetDir
  {
    ReplaceAbsent(targetDir, RepoRef, gitRepo);
  }

  /**
   * No `${repo}` is left after construction when every `$` of the target directory
   * begins a `${repo}` and the repository name has no `$`.
   */
  lemma GitHubTargetDirResolved(gitRepo: string, targetDir: string, targetFiles: Option<seq<string>>)
    requires '$' !in gitRepo
    requires forall i :: 0 <= i < |targetDir| && targetDir[i] == '$' ==> OccursAt(targetDir, RepoRef, i)
    ensures !Contains(NewGitHubData(gitRepo, targetDir, targetFiles).targetDir, RepoRef)
  {
    ReplaceClears(targetDir, RepoRef, gitRepo);
  }

  /**
   * A single pass of `str.replace` can assemble a new `${repo}` out of the text around a
   * replaced one: when `a`, the repository name and `b` spell `${repo}`, the directory
   * `a${repo}b` becomes `${repo}`.
   */
  lemma GitHubTargetDirCanKeepRef(a: string, gitRepo: string, b: string)
    requires !Contains(a, RepoRef) && !Contains(b, RepoRef)
    requires a + gitRepo + b == RepoRef
    ensures NewGitHubData(gitRepo, a + RepoRef + b, None).targetDir == RepoRef
  {
    assert RepoRef[1..] == "{repo}";
    ReplaceSingle(a, RepoRef, gitRepo, b);
  }

  /** For instance, repository `ep` with directory `${r${repo}o}` leaves `${repo}` behind. */
  lemma GitHubTargetDirKeepsRefExample()
    ensures NewGitHubData("ep", "${r" + RepoRef + "o}", None).targetDir == RepoRef
  {
    GitHubTargetDirCanKeepRef("${r", "ep", "o}");
  }

  /** `TemplateData(app, datas, template_file, target_dir)`; raises unless the name ends with `.template`. */
  function NewTemplateData(app: string, datas: ConfList, templateFile: string, targetDir: Option<string>): (r: Result<ConfData, Error>)
    ensures r.Err? <==> !EndsWith(templateFile, TemplateSuffix)
    ensures r.Err? ==> r.error == NotATemplate
    ensures r.Ok? ==> r.value == TemplateData(app, datas, templateFile, targetDir)
  {
    if EndsWith(templateFile, TemplateSuffix) then Ok(TemplateData(app, datas, templateFile, targetDir))
    else Err(NotATemplate)
  }

  /** `notes.txt` is refused as a template file. */
  lemma NotesTxtIsNotATemplate(app: string, datas: ConfList)
    ensures NewTemplateData(app, datas, "notes.txt", None) == Err(NotATemplate)
  {
    assert "notes.txt"[0..] != TemplateSuffix;
  }

  /**
   * The filesystem as `fill` sees it: the paths `os.path.isdir` and `os.path.isfile`
   * accept, and `glob.glob(pattern, root_dir=dir)` as a function of `(dir, pattern)`.
   */
  datatype Fs = Fs(dirs: set<string>, files: set<string>, glob: (string, string) -> seq<string>)

  /** Alternative `alt` has at least one match under the existing directory `dir`. */
  predicate Hits(fs: Fs, dir: string, alt: string)
  {
    dir in fs.dirs && fs.glob(dir, alt) != []
  }

  /** `[os.path.join(dir, x) for x in names]` */
  function JoinAll(dir: string, names: seq<string>): (r: seq<string>)
    ensures |r| == |names|
    ensures forall i :: 0 <= i < |names| ==> r[i] == Join(dir, names[i])
  {
    seq(|names|, i requires 0 <= i < |names| => Join(dir, names[i]))
  }

  /** What `fill_dir(d, subdir, alts)` returns. */
  function FillDirSpec(fs: Fs, d: string, subdir: string, alts: seq<string>): (r: seq<string>)
    decreases |alts|
  {
    if alts == [] then []
    else if Hits(fs, Join(d, subdir), alts[0]) then JoinAll(subdir, Sort(fs.glob(Join(d, subdir), alts[0])))
    else FillDirSpec(fs, d, subdir, alts[1..])
  }

  /**
   * The first alternative with a match wins: its sorted matches, joined under `subdir`,
   * are the result, whatever the later alternatives would match.
   */
  lemma {:induction false} FillDirFirstMatchWins(fs: Fs, d: string, subdir: string, alts: seq<string>, k: nat)
    requires k < |alts| && Hits(fs, Join(d, subdir), alts[k])
    requires forall j :: 0 <= j < k ==> !Hits(fs, Join(d, subdir), alts[j])
    ensures FillDirSpec(fs, d, subdir, alts) == JoinAll(subdir, Sort(fs.glob(Join(d, subdir), alts[k])))
    decreases k
  {
    if k > 0 {
      assert !Hits(fs, Join(d, subdir), alts[0]);
      FillDirFirstMatchWins(fs, d, subdir, alts[1..], k - 1);
    }
  }

  /** `fill_dir` returns nothing exactly when the directory is missing or no alternative matches. */
  lemma {:induction false} FillDirEmpty(fs: Fs, d: string, subdir: string, alts: seq<string>)
    ensures FillDirSpec(fs, d, subdir, alts) == [] <==>
            (Join(d, subdir) !in fs.dirs || forall j :: 0 <= j < |alts| ==> fs.glob(Join(d, subdir), alts[j]) == [])
    decreases |alts|
  {
    if alts != [] {
      FillDirEmpty(fs, d, subdir, alts[1..]);
      if Hits(fs, Join(d, subdir), alts[0]) {
        var m := fs.glob(Join(d, subdir), alts[0]);
        assert |Sort(m)| == |multiset(Sort(m))| == |multiset(m)| == |m|;
      } else {
        forall j | 1 <= j < |alts| ensures alts[j] == alts[1..][j - 1] { }
      }
    }
  }

  /** `GitHubData.fill_dir(d, subdir, alts)` */
  method FillDir(fs: Fs, d: string, subdir: string, alts: seq<string>) returns (r: seq<string>)
    ensures r == FillDirSpec(fs, d, subdir, alts)
  {
    var i := 0;
    while i < |alts|
      invariant 0 <= i <= |alts|
      invariant FillDirSpec(fs, d, subdir, alts) == FillDirSpec(fs, d, subdir, alts[i..])
    {
      var finalDir := Join(d, subdir);
      if finalDir in fs.dirs {
        var matches := fs.glob(finalDir, alts[i]);
        if |matches| > 0 {
          matches := Sort(matches);
          return JoinAll(subdir, matches);
        }
      }
      assert alts[i..][1..] == alts[i + 1..];
      i := i + 1;
    }
    return [];
  }

  /** What one entry of `target_files` contributes. */
  function FilePiece(fs: Fs, d: string, targetDir: string, file: string, alts: seq<string>): (r: seq<string>)
  {
    var rel := Join(targetDir, file);
    if Join(d, rel) in fs.files then [rel] else FillDirSpec(fs, d, rel, alts)
  }

  /** What each entry of `files` contributes, in the order of `files`. */
  function Pieces(fs: Fs, d: string, targetDir: string, files: seq<string>, alts: seq<string>): (r: seq<seq<string>>)
    ensures |r| == |files|
    ensures forall i :: 0 <= i < |files| ==> r[i] == FilePiece(fs, d, targetDir, files[i], alts)
  {
    seq(|files|, i requires 0 <= i < |files| => FilePiece(fs, d, targetDir, files[i], alts))
  }

  /** The contributions of `files`, one after another. */
  function GatherFiles(fs: Fs, d: string, targetDir: string, files: seq<string>, alts: seq<string>): (r: seq<string>)
  {
    Concat(Pieces(fs, d, targetDir, files, alts))
  }

  /** What `fill` collects in `res` before removing repeats. */
  function Candidates(fs: Fs, d: string, c: ConfData, alts: seq<string>): (r: seq<string>)
    requires c.GitHubData?
  {
    if c.targetFiles.Some? && c.targetFiles.value != [] then GatherFiles(fs, d, c.targetDir, c.targetFiles.value, alts)
    else FillDirSpec(fs, d, c.targetDir, alts)
  }

  /**
   * What `c.fill(d, key, alts)` returns. Files and templates keep the protocol's default
   * and answer nothing; a GitHub source answers only the Enum member key.
   */
  function FillSpec(c: ConfData, fs: Fs, d: string, key: Key, alts: seq<string>): (r: seq<string>)
  {
    if c.GitHubData? && key == Member(GitHubFile) then Dedup(Candidates(fs, d, c, alts)) else []
  }

  /**
   * Only a GitHub record asked with the Enum member answers; its answer has no repeats
   * and holds exactly the collected paths.
   */
  lemma FillAnswers(c: ConfData, fs: Fs, d: string, key: Key, alts: seq<string>)
    ensures FillSpec(c, fs, d, key, alts) != [] ==> c.GitHubData? && key == Member(GitHubFile)
    ensures NoDups(FillSpec(c, fs, d, key, alts))
    ensures forall x :: x in FillSpec(c, fs, d, key, alts) <==>
              c.GitHubData? && key == Member(GitHubFile) && x in Candidates(fs, d, c, alts)
  {
  }

  /** The answer keeps the first occurrence of each path, in the order collected. */
  lemma FillFirstOccurrenceOrder(c: ConfData, fs: Fs, d: string, alts: seq<string>)
    requires c.GitHubData?
    ensures var r := FillSpec(c, fs, d, Member(GitHubFile), alts);
            forall i, j :: 0 <= i < j < |r| ==>
              FirstIndex(Candidates(fs, d, c, alts), r[i]) < FirstIndex(Candidates(fs, d, c, alts), r[j])
  {
    DedupFirstOrder(Candidates(fs, d, c, alts));
  }

  /** Every path one target file contributes is in the collected list. */
  lemma GatherHasPiece(fs: Fs, d: string, targetDir: string, files: seq<string>, alts: seq<string>, k: nat, x: string)
    requires k < |files| && x in FilePiece(fs, d, targetDir, files[k], alts)
    ensures x in GatherFiles(fs, d, targetDir, files, alts)
  {
    ConcatHas(Pieces(fs, d, targetDir, files, alts), k, x);
  }

  /** A listed target file that exists as a plain file is answered as `join(target_dir, file)`. */
  lemma FillPlainFile(c: ConfData, fs: Fs, d: string, alts: seq<string>, k: nat)
    requires c.GitHubData? && c.targetFiles.Some? && k < |c.targetFiles.value|
    requires Join(d, Join(c.targetDir, c.targetFiles.value[k])) in fs.files
    ensures FilePiece(fs, d, c.targetDir, c.targetFiles.value[k], alts) == [Join(c.targetDir, c.targetFiles.value[k])]
    ensures Join(c.targetDir, c.targetFiles.value[k]) in FillSpec(c, fs, d, Member(GitHubFile), alts)
  {
    GatherHasPiece(fs, d, c.targetDir, c.targetFiles.value, alts, k, Join(c.targetDir, c.targetFiles.value[k]));
    FillAnswers(c, fs, d, Member(GitHubFile), alts);
  }

  /** The body of the loop of `fill` over `target_files`: what one file adds to `res`. */
  method CollectPiece(fs: Fs, d: string, targetDir: string, file: string, alts: seq<string>) returns (piece: seq<string>)
    ensures piece == FilePiece(fs, d, targetDir, file, alts)
  {
    var relativePath := Join(targetDir, file);
    var fullPath := Join(d, relativePath);
    if fullPath in fs.files {
      piece := [relativePath];
    } else {
      piece := FillDir(fs, d, relativePath, alts);
    }
  }

  /** The loop of `fill` over `target_files`, collecting into `res`. */
  method CollectFiles(fs: Fs, d: string, targetDir: string, files: seq<string>, alts: seq<string>) returns (res: seq<string>)
    ensures res == GatherFiles(fs, d, targetDir, files, alts)
  {
    ghost var pieces := Pieces(fs, d, targetDir, files, alts);
    res := [];
    for i := 0 to |files|
      invariant res == Concat(pieces[..i])
    {
      var piece := CollectPiece(fs, d, targetDir, files[i], alts);
      assert piece == pieces[i];
      ConcatStep(pieces, i);
      res := res + piece;
    }
    assert pieces[..|files|] == pieces;
  }

  /** `ConfData.fill(d, key, alts)` as each record class defines it. */
  method Fill(c: ConfData, fs: Fs, d: string, key: Key, alts: seq<string>) returns (r: seq<string>)
    ensures r == FillSpec(c, fs, d, key, alts)
  {
    if !c.GitHubData? {
      return [];
    }
    var res: seq<string> := [];
    if key == Member(GitHubFile) {
      if c.targetFiles.Some? && |c.targetFiles.value| > 0 {
        res := CollectFiles(fs, d, c.targetDir, c.targetFiles.value, alts);
      } else {
        res := FillDir(fs, d, c.targetDir, alts);
      }
    }
    r := Dedup(res);
  }
}

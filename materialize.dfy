/**
 * Where `FileData.save` and `TemplateData.save` read and write: the path of the source
 * file under the application's `files` directory and the path of the target under the
 * output directory.
 */
module Materialize {
  import opened Strings
  import opened Wrappers
  import opened Sources

  /** `FilesName`: the directory under an application that holds its files. */
  const FilesName: string := "files"

  /** `os.path.join(main_dir, app, FilesName, name)`: where a record's file is read from. */
  function SourcePath(mainDir: string, app: string, name: string): (r: string)
    ensures EndsWith(r, name)
  {
    Join(Join(Join(mainDir, app), FilesName), name)
  }

  /** A relative application and file name keep the read inside the main directory. */
  lemma SourceInsideMainDir(mainDir: string, app: string, name: string)
    requires app == [] || app[0] != '/'
    requires name == [] || name[0] != '/'
    ensures StartsWith(SourcePath(mainDir, app, name), mainDir)
    ensures mainDir != [] && mainDir[|mainDir| - 1] != '/' ==> StartsWith(SourcePath(mainDir, app, name), mainDir + "/")
  {
    var a := Join(mainDir, app);
    var b := Join(a, FilesName);
    assert StartsWith(a, mainDir);
    assert StartsWith(b, a);
    assert b[..|mainDir|] == a[..|mainDir|];
    assert StartsWith(Join(b, name), b);
    assert Join(b, name)[..|mainDir|] == b[..|mainDir|];
    if mainDir != [] && mainDir[|mainDir| - 1] != '/' {
      var k := |mainDir| + 1;
      assert StartsWith(a, mainDir + "/");
      assert b[..k] == a[..k];
      assert Join(b, name)[..k] == b[..k];
    }
  }

  /** Python's truth value of an optional string: present and non-empty. */
  predicate Truthy(o: Option<string>)
  {
    o.Some? && o.value != []
  }

  /**
   * The target of both `save` methods: `os.path.join(d, target_dir, name)` when the
   * record has a truthy target directory, `os.path.join(d, name)` otherwise.
   */
  function TargetPath(d: string, targetDir: Option<string>, name: string): (r: string)
    ensures EndsWith(r, name)
  {
    if Truthy(targetDir) then Join(Join(d, targetDir.value), name) else Join(d, name)
  }

  /** An empty target directory writes to the same place as no target directory. */
  lemma EmptyTargetDirIsNone(d: string, name: string)
    ensures Join(Join(d, ""), name) == Join(d, name)
    ensures TargetPath(d, Some(""), name) == TargetPath(d, None, name)
  {
  }

  /** With relative names the target stays inside the output directory `d`. */
  lemma TargetInsideOutputDir(d: string, targetDir: Option<string>, name: string)
    requires targetDir.Some? ==> targetDir.value == [] || targetDir.value[0] != '/'
    requires name == [] || name[0] != '/'
    ensures StartsWith(TargetPath(d, targetDir, name), d)
    ensures d != [] && d[|d| - 1] != '/' ==> StartsWith(TargetPath(d, targetDir, name), d + "/")
  {
    if Truthy(targetDir) {
      var a := Join(d, targetDir.value);
      assert StartsWith(a, d);
      assert StartsWith(Join(a, name), a);
      assert Join(a, name)[..|d|] == a[..|d|];
      if d != [] && d[|d| - 1] != '/' {
        assert StartsWith(a, d + "/");
        assert Join(a, name)[..|d| + 1] == a[..|d| + 1];
      }
    }
  }

  /** An absolute file name replaces the output directory altogether. */
  lemma AbsoluteNameEscapes(d: string, targetDir: Option<string>, name: string)
    requires name != [] && name[0] == '/'
    ensures TargetPath(d, targetDir, name) == name
  {
  }

  /** `FileData.save`: the file is copied to its name under the target directory. */
  function FileTargetPath(d: string, c: ConfData): (r: string)
    requires c.FileData?
    ensures EndsWith(r, c.file)
  {
    TargetPath(d, c.fileTargetDir, c.file)
  }

  /** `template_file.replace(".template", "")`: the name the rendered template is saved under. */
  function ResultFileName(templateFile: string): (r: string)
    ensures |r| <= |templateFile|
  {
    Replace(templateFile, TemplateSuffix, "")
  }

  /** `TemplateData.save`: the rendered template goes to its result name under the target directory. */
  function TemplateTargetPath(d: string, c: ConfData): (r: string)
    requires c.TemplateData?
    ensures EndsWith(r, ResultFileName(c.templateFile))
  {
    TargetPath(d, c.templateTargetDir, ResultFileName(c.templateFile))
  }

  /** A template named `<stem>.template` is saved as `<stem>` when the stem has no `.template` of its own. */
  lemma ResultFileNameStripsSuffix(stem: string)
    requires !Contains(stem, TemplateSuffix)
    ensures ResultFileName(stem + TemplateSuffix) == stem
  {
    var p := TemplateSuffix;
    assert p[1..] == "template";
    ReplaceBeforeOccurrence(stem, p, p, "");
    ReplaceLeading([], p, "");
    assert p + [] == p;
  }

  /**
   * Every `.template` in the name is removed, not only the suffix:
   * `<a>.template<b>.template` is saved as `<a><b>`.
   */
  lemma ResultFileNameDropsInnerOccurrences(a: string, b: string)
    requires !Contains(a, TemplateSuffix) && !Contains(b, TemplateSuffix)
    ensures ResultFileName(a + TemplateSuffix + b + TemplateSuffix) == a + b
  {
    var p := TemplateSuffix;
    assert p[1..] == "template";
    assert a + p + b + p == a + (p + (b + p));
    ReplaceBeforeOccurrence(a, p + (b + p), p, "");
    ReplaceLeading(b + p, p, "");
    ResultFileNameStripsSuffix(b);
  }
}

/**
 * Template expansion: `TemplateData.process_line` and `TemplateData.get_filled`. A
 * directive line `$template(<body>)` is answered by asking every record of the
 * template's `datas` list for paths, one output line per returned path.
 */
module Templates {
  import opened Wrappers
  import opened Strings
  import opened Sources
  import opened Patterns
  import opened Lists

  predicate EndsWithNewline(s: string)
  {
    s != [] && s[|s| - 1] == '\n'
  }

  /** The line one path gives: the body with the path substituted, unless that is empty. */
  function LineFor(toFill: string, path: string): (r: seq<string>)
  {
    var line := SubRefs(toFill, path);
    if line != [] then [line + "\n"] else []
  }

  /** The lines `get_filled` appends for the paths one record returned. */
  function LinesFor(paths: seq<string>, toFill: string): (r: seq<string>)
    decreases |paths|
  {
    if paths == [] then []
    else LineFor(toFill, paths[0]) + LinesFor(paths[1..], toFill)
  }

  /** The answers of the records `sibs` to one query, in the order of the records. */
  function Answers(sibs: seq<ConfData>, fs: Fs, d: string, key: Key, alts: seq<string>): (r: seq<seq<string>>)
    ensures |r| == |sibs|
    ensures forall i :: 0 <= i < |sibs| ==> r[i] == FillSpec(sibs[i], fs, d, key, alts)
  {
    seq(|sibs|, i requires 0 <= i < |sibs| => FillSpec(sibs[i], fs, d, key, alts))
  }

  /** The number of paths in all the answers. */
  function PathCount(answers: seq<seq<string>>): (r: nat)
    decreases |answers|
  {
    if answers == [] then 0
    else |answers[0]| + PathCount(answers[1..])
  }

  /**
   * What `get_filled` returns for the records' answers: each answer's lines, in the
   * order of the records.
   */
  function Expand(answers: seq<seq<string>>, toFill: string): (r: seq<string>)
    decreases |answers|
  {
    if answers == [] then []
    else LinesFor(answers[0], toFill) + Expand(answers[1..], toFill)
  }

  /** At most one line per path, each a whole line ending with a newline. */
  lemma {:induction false} LinesForShape(paths: seq<string>, toFill: string)
    ensures |LinesFor(paths, toFill)| <= |paths|
    ensures forall i :: 0 <= i < |LinesFor(paths, toFill)| ==> EndsWithNewline(LinesFor(paths, toFill)[i])
    decreases |paths|
  {
    if paths != [] {
      LinesForShape(paths[1..], toFill);
    }
  }

  /** At most one line per answered path, each a whole line ending with a newline. */
  lemma {:induction false} ExpandShape(answers: seq<seq<string>>, toFill: string)
    ensures |Expand(answers, toFill)| <= PathCount(answers)
    ensures forall i :: 0 <= i < |Expand(answers, toFill)| ==> EndsWithNewline(Expand(answers, toFill)[i])
    decreases |answers|
  {
    if answers != [] {
      LinesForShape(answers[0], toFill);
      ExpandShape(answers[1..], toFill);
    }
  }

  /** The lines of a longer list of paths are those of its parts, in order. */
  lemma {:induction false} LinesForAppend(p: seq<string>, q: seq<string>, toFill: string)
    ensures LinesFor(p + q, toFill) == LinesFor(p, toFill) + LinesFor(q, toFill)
    decreases |p|
  {
    if p == [] {
      assert p + q == q;
    } else {
      assert (p + q)[1..] == p[1..] + q;
      LinesForAppend(p[1..], q, toFill);
    }
  }

  /** One more path adds its line, if any, at the end. */
  lemma LinesForLast(p: seq<string>, x: string, toFill: string)
    ensures LinesFor(p + [x], toFill) == LinesFor(p, toFill) + LineFor(toFill, x)
  {
    LinesForAppend(p, [x], toFill);
    assert [x][1..] == [];
  }

  /** The lines of the first `j + 1` paths: those of the first `j`, then the line of path `j`. */
  lemma LinesForStep(paths: seq<string>, j: nat, toFill: string)
    requires j < |paths|
    ensures LinesFor(paths[..j + 1], toFill) == LinesFor(paths[..j], toFill) + LineFor(toFill, paths[j])
  {
    assert paths[..j + 1] == paths[..j] + [paths[j]];
    LinesForLast(paths[..j], paths[j], toFill);
  }

  /** Outputs follow the order of the records: those of earlier records come first. */
  lemma {:induction false} ExpandAppend(a: seq<seq<string>>, b: seq<seq<string>>, toFill: string)
    ensures Expand(a + b, toFill) == Expand(a, toFill) + Expand(b, toFill)
    decreases |a|
  {
    if a == [] {
      assert a + b == b;
    } else {
      assert (a + b)[1..] == a[1..] + b;
      ExpandAppend(a[1..], b, toFill);
    }
  }

  /** One more record adds its lines at the end. */
  lemma ExpandLast(a: seq<seq<string>>, x: seq<string>, toFill: string)
    ensures Expand(a + [x], toFill) == Expand(a, toFill) + LinesFor(x, toFill)
  {
    ExpandAppend(a, [x], toFill);
    assert [x][1..] == [];
  }

  /** The lines of the first `i + 1` answers: those of the first `i`, then those of answer `i`. */
  lemma ExpandStep(answers: seq<seq<string>>, i: nat, toFill: string)
    requires i < |answers|
    ensures Expand(answers[..i + 1], toFill) == Expand(answers[..i], toFill) + LinesFor(answers[i], toFill)
  {
    assert answers[..i + 1] == answers[..i] + [answers[i]];
    ExpandLast(answers[..i], answers[i], toFill);
  }

  /** When no substitution comes out empty, every path gives exactly one line, in order. */
  lemma {:induction false} LinesForExact(paths: seq<string>, toFill: string)
    requires forall i :: 0 <= i < |paths| ==> SubRefs(toFill, paths[i]) != []
    ensures |LinesFor(paths, toFill)| == |paths|
    ensures forall i :: 0 <= i < |paths| ==> LinesFor(paths, toFill)[i] == SubRefs(toFill, paths[i]) + "\n"
    decreases |paths|
  {
    if paths != [] {
      var rest := paths[1..];
      forall i | 0 <= i < |rest| ensures SubRefs(toFill, rest[i]) != [] {
        assert rest[i] == paths[i + 1];
      }
      LinesForExact(rest, toFill);
      forall i | 0 <= i < |paths| ensures LinesFor(paths, toFill)[i] == SubRefs(toFill, paths[i]) + "\n" {
        if i > 0 {
          assert paths[i] == rest[i - 1];
        }
      }
    }
  }

  /** A path whose substitution comes out empty costs its line: fewer lines than paths. */
  lemma {:induction false} LinesForDrops(paths: seq<string>, toFill: string, k: nat)
    requires k < |paths| && SubRefs(toFill, paths[k]) == []
    ensures |LinesFor(paths, toFill)| < |paths|
    decreases k
  {
    LinesForShape(paths[1..], toFill);
    if k > 0 {
      assert paths[1..][k - 1] == paths[k];
      LinesForDrops(paths[1..], toFill, k - 1);
    }
  }

  /**
   * When no answered path substitutes to empty, a directive gives exactly one line per
   * answered path, over all the records.
   */
  lemma {:induction false} ExpandExact(answers: seq<seq<string>>, toFill: string)
    requires forall i, p :: 0 <= i < |answers| && p in answers[i] ==> SubRefs(toFill, p) != []
    ensures |Expand(answers, toFill)| == PathCount(answers)
    decreases |answers|
  {
    if answers != [] {
      var rest := answers[1..];
      forall i, p | 0 <= i < |rest| && p in rest[i] ensures SubRefs(toFill, p) != [] {
        assert rest[i] == answers[i + 1];
      }
      ExpandExact(rest, toFill);
      forall j | 0 <= j < |answers[0]| ensures SubRefs(toFill, answers[0][j]) != [] {
        assert answers[0][j] in answers[0];
      }
      LinesForExact(answers[0], toFill);
    }
  }

  /** An answered path whose substitution comes out empty leaves fewer lines than paths. */
  lemma {:induction false} ExpandDrops(answers: seq<seq<string>>, toFill: string, i: nat, k: nat)
    requires i < |answers| && k < |answers[i]| && SubRefs(toFill, answers[i][k]) == []
    ensures |Expand(answers, toFill)| < PathCount(answers)
    decreases i
  {
    if i == 0 {
      LinesForDrops(answers[0], toFill, k);
      ExpandShape(answers[1..], toFill);
    } else {
      assert answers[1..][i - 1] == answers[i];
      ExpandDrops(answers[1..], toFill, i - 1, k);
      LinesForShape(answers[0], toFill);
    }
  }

  /** A non-empty text with a non-empty path substituted in is never empty. */
  lemma SubRefsNonEmpty(toFill: string, path: string)
    requires toFill != [] && path != []
    ensures SubRefs(toFill, path) != []
  {
  }

  /**
   * As written, a string key reaches `fill`, which answers only the Enum member: every
   * record answers nothing, so no directive yields a line, whatever the records and the
   * filesystem.
   */
  lemma {:induction false} ExpandTextKeyIsEmpty(sibs: seq<ConfData>, fs: Fs, d: string, keyword: string, alts: seq<string>, toFill: string)
    ensures Expand(Answers(sibs, fs, d, Text(keyword), alts), toFill) == []
  {
    var ans := Answers(sibs, fs, d, Text(keyword), alts);
    forall i | 0 <= i < |sibs| ensures ans[i] == [] {
      FillAnswers(sibs[i], fs, d, Text(keyword), alts);
    }
    ExpandOfEmpties(ans, toFill);
  }

  lemma {:induction false} ExpandOfEmpties(answers: seq<seq<string>>, toFill: string)
    requires forall i :: 0 <= i < |answers| ==> answers[i] == []
    ensures Expand(answers, toFill) == []
    decreases |answers|
  {
    if answers != [] {
      var rest := answers[1..];
      forall i | 0 <= i < |rest| ensures rest[i] == [] {
        assert rest[i] == answers[i + 1];
      }
      ExpandOfEmpties(rest, toFill);
      assert answers[0] == [];
    }
  }

  /** `key_mat.split(":")`: the keyword and its alternatives. */
  function KeyConf(keyMat: string): (r: (string, seq<string>))
    ensures JoinWith([r.0] + r.1, ':') == keyMat
    ensures ':' !in r.0 && forall i :: 0 <= i < |r.1| ==> ':' !in r.1[i]
  {
    var parts := SplitOn(keyMat, ':');
    SplitOnJoin(keyMat, ':');
    assert parts == [parts[0]] + parts[1..];
    assert forall i :: 0 <= i < |parts| ==> ':' !in parts[i];
    assert forall i :: 0 <= i < |parts| - 1 ==> parts[1..][i] == parts[i + 1];
    (parts[0], parts[1..])
  }

  /** The inner loop of `get_filled`: one record's paths substituted into the body. */
  method AppendLines(before: seq<string>, lines: seq<string>, toFill: string) returns (result: seq<string>)
    ensures result == before + LinesFor(lines, toFill)
  {
    result := before;
    for j := 0 to |lines|
      invariant result == before + LinesFor(lines[..j], toFill)
    {
      var resultLine := SubRefs(toFill, lines[j]);
      if resultLine != [] {
        result := result + [resultLine + "\n"];
      }
      LinesForStep(lines, j, toFill);
    }
    assert lines[..|lines|] == lines;
  }

  /** The outer loop of `get_filled`: every record is asked in turn. */
  method CollectLines(datas: seq<ConfData>, fs: Fs, d: string, key: Key, alts: seq<string>, toFill: string) returns (result: seq<string>)
    ensures result == Expand(Answers(datas, fs, d, key, alts), toFill)
  {
    ghost var ans := Answers(datas, fs, d, key, alts);
    result := [];
    for i := 0 to |datas|
      invariant result == Expand(ans[..i], toFill)
    {
      var lines := Fill(datas[i], fs, d, key, alts);
      assert lines == ans[i];
      ExpandStep(ans, i, toFill);
      result := AppendLines(result, lines, toFill);
    }
    assert ans[..|datas|] == ans;
  }

  /** `TemplateData.get_filled(d, key_mat, to_fill)`: the keyword reaches `fill` as text. */
  method GetFilled(t: ConfData, fs: Fs, d: string, keyMat: string, toFill: string) returns (r: seq<string>)
    requires t.TemplateData?
    ensures r == Expand(Answers(t.datas.items, fs, d, Text(KeyConf(keyMat).0), KeyConf(keyMat).1), toFill)
  {
    var keyConf := KeyConf(keyMat);
    var keyword, alts := keyConf.0, keyConf.1;
    r := CollectLines(t.datas.items, fs, d, Text(keyword), alts, toFill);
  }

  /** What `process_line(d, line)` returns when the template's records are `sibs`. */
  function Expanded(sibs: seq<ConfData>, fs: Fs, d: string, line: string): (r: seq<string>)
  {
    match MatchTemplate(Strip(line))
    case None => [line]
    case Some(body) =>
      match FirstKeyword(body)
      case None => []
      case Some(keyMat) => Expand(Answers(sibs, fs, d, Text(KeyConf(keyMat).0), KeyConf(keyMat).1), body)
  }

  /** `TemplateData.process_line(d, line)`; the "no keyword" message is not modelled. */
  method ProcessLine(t: ConfData, fs: Fs, d: string, line: string) returns (r: seq<string>)
    requires t.TemplateData?
    ensures r == Expanded(t.datas.items, fs, d, line)
  {
    var templateMatch := MatchTemplate(Strip(line));
    if templateMatch.Some? {
      var templateContent := templateMatch.value;
      var keywordMatch := FirstKeyword(templateContent);
      if keywordMatch.Some? {
        r := GetFilled(t, fs, d, keywordMatch.value, templateContent);
        return;
      } else {
        return [];
      }
    }
    return [line];
  }

  /** A line that is not a directive is passed through unchanged, line terminator included. */
  lemma ExpandedPassThrough(sibs: seq<ConfData>, fs: Fs, d: string, line: string)
    requires !StartsWith(Strip(line), TemplateOpen)
    ensures Expanded(sibs, fs, d, line) == [line]
  {
  }

  lemma ExpandedNotDirective(sibs: seq<ConfData>, fs: Fs, d: string, line: string)
    requires MatchTemplate(Strip(line)).None?
    ensures Expanded(sibs, fs, d, line) == [line]
  {
  }

  /** A directive whose body holds no `${…}` produces no line. */
  lemma ExpandedNoKeyword(sibs: seq<ConfData>, fs: Fs, d: string, line: string)
    requires MatchTemplate(Strip(line)).Some? && FirstKeyword(MatchTemplate(Strip(line)).value).None?
    ensures Expanded(sibs, fs, d, line) == []
  {
  }

  /** As written, every directive line disappears from the output. */
  lemma ExpandedDirectiveVanishes(sibs: seq<ConfData>, fs: Fs, d: string, line: string)
    requires MatchTemplate(Strip(line)).Some?
    ensures Expanded(sibs, fs, d, line) == []
  {
    var body := MatchTemplate(Strip(line)).value;
    if FirstKeyword(body).Some? {
      var kc := KeyConf(FirstKeyword(body).value);
      ExpandTextKeyIsEmpty(sibs, fs, d, kc.0, kc.1, body);
    }
  }

  /** What `process_line` returns for each line of the template, in order. */
  function Outputs(sibs: seq<ConfData>, fs: Fs, d: string, lines: seq<string>): (r: seq<seq<string>>)
    ensures |r| == |lines|
    ensures forall i :: 0 <= i < |lines| ==> r[i] == Expanded(sibs, fs, d, lines[i])
  {
    seq(|lines|, i requires 0 <= i < |lines| => Expanded(sibs, fs, d, lines[i]))
  }

  /** The chunks `TemplateData.save` writes, line by line, for the template's lines. */
  function Rendered(sibs: seq<ConfData>, fs: Fs, d: string, lines: seq<string>): (r: seq<string>)
  {
    Concat(Outputs(sibs, fs, d, lines))
  }

  /** A template without directive lines is copied line for line. */
  lemma RenderedPlainCopy(sibs: seq<ConfData>, fs: Fs, d: string, lines: seq<string>)
    requires forall i :: 0 <= i < |lines| ==> MatchTemplate(Strip(lines[i])).None?
    ensures Rendered(sibs, fs, d, lines) == lines
  {
    var outs := Outputs(sibs, fs, d, lines);
    forall i | 0 <= i < |lines| ensures outs[i] == [lines[i]] {
      ExpandedNotDirective(sibs, fs, d, lines[i]);
    }
    ConcatSingletons(outs, lines);
  }

  /** The lines of a template that are not directives, in order. */
  function PlainLines(lines: seq<string>): (r: seq<string>)
    ensures forall x :: x in r <==> x in lines && MatchTemplate(Strip(x)).None?
    decreases |lines|
  {
    if lines == [] then []
    else if MatchTemplate(Strip(lines[0])).None? then [lines[0]] + PlainLines(lines[1..])
    else PlainLines(lines[1..])
  }

  /** The non-directive lines of two pieces of a template keep their order. */
  lemma {:induction false} PlainLinesAppend(a: seq<string>, b: seq<string>)
    ensures PlainLines(a + b) == PlainLines(a) + PlainLines(b)
    decreases |a|
  {
    if a == [] {
      assert a + b == b;
    } else {
      assert (a + b)[0] == a[0];
      assert (a + b)[1..] == a[1..] + b;
      PlainLinesAppend(a[1..], b);
    }
  }

  /**
   * As written, saving a template writes its non-directive lines unchanged and drops every
   * directive line, whatever the records and the filesystem.
   */
  lemma {:induction false} RenderedDropsDirectives(sibs: seq<ConfData>, fs: Fs, d: string, lines: seq<string>)
    ensures Rendered(sibs, fs, d, lines) == PlainLines(lines)
    decreases |lines|
  {
    if lines != [] {
      var outs := Outputs(sibs, fs, d, lines);
      var rest := Outputs(sibs, fs, d, lines[1..]);
      assert outs[1..] == rest by {
        forall i | 0 <= i < |rest| ensures outs[1..][i] == rest[i] {
          assert lines[1..][i] == lines[i + 1];
        }
      }
      RenderedDropsDirectives(sibs, fs, d, lines[1..]);
      if MatchTemplate(Strip(lines[0])).None? {
        ExpandedNotDirective(sibs, fs, d, lines[0]);
      } else {
        ExpandedDirectiveVanishes(sibs, fs, d, lines[0]);
      }
    }
  }

  /** `for content in ...: w.write(content)`: the chunks are written in order. */
  method WriteAll(before: seq<string>, contents: seq<string>) returns (written: seq<string>)
    ensures written == before + contents
  {
    written := before;
    for j := 0 to |contents|
      invariant written == before + contents[..j]
    {
      written := written + [contents[j]];
      assert contents[..j + 1] == contents[..j] + [contents[j]];
    }
    assert contents[..|contents|] == contents;
  }

  /** The write loop of `TemplateData.save`: every chunk `process_line` gives, in order. */
  method WriteTemplate(t: ConfData, fs: Fs, d: string, lines: seq<string>) returns (written: seq<string>)
    requires t.TemplateData?
    ensures written == Rendered(t.datas.items, fs, d, lines)
  {
    ghost var outs := Outputs(t.datas.items, fs, d, lines);
    written := [];
    for i := 0 to |lines|
      invariant written == Concat(outs[..i])
    {
      var contents := ProcessLine(t, fs, d, lines[i]);
      assert contents == outs[i];
      ConcatStep(outs, i);
      written := WriteAll(written, contents);
    }
    assert outs[..|lines|] == outs;
  }

  // The keyword lookup used in place of the comparison `fill` makes (mydot.py:136-137).

  /**
   * The lookup of the keyword text among the Enum members' values: the member whose
   * value the text is, and the text itself when no member has that value.
   */
  function KeyOf(keyword: string): (k: Key)
    ensures k == Member(GitHubFile) <==> keyword == GitHubFileValue
  {
    if keyword == GitHubFileValue then Member(GitHubFile) else Text(keyword)
  }

  /** `get_filled` with the keyword text turned into its Enum member before `fill` sees it. */
  function GetFilledIntended(sibs: seq<ConfData>, fs: Fs, d: string, keyMat: string, toFill: string): (r: seq<string>)
    ensures |r| <= PathCount(Answers(sibs, fs, d, KeyOf(KeyConf(keyMat).0), KeyConf(keyMat).1))
  {
    ExpandShape(Answers(sibs, fs, d, KeyOf(KeyConf(keyMat).0), KeyConf(keyMat).1), toFill);
    Expand(Answers(sibs, fs, d, KeyOf(KeyConf(keyMat).0), KeyConf(keyMat).1), toFill)
  }

  /**
   * With the intended lookup, a directive gives exactly one line per answered path when
   * no substitution comes out empty, and fewer lines when one does.
   */
  lemma GetFilledIntendedCount(sibs: seq<ConfData>, fs: Fs, d: string, keyMat: string, toFill: string)
    ensures var answers := Answers(sibs, fs, d, KeyOf(KeyConf(keyMat).0), KeyConf(keyMat).1);
      (forall i, p :: 0 <= i < |answers| && p in answers[i] ==> SubRefs(toFill, p) != [])
      <==> |GetFilledIntended(sibs, fs, d, keyMat, toFill)| == PathCount(answers)
  {
    var answers := Answers(sibs, fs, d, KeyOf(KeyConf(keyMat).0), KeyConf(keyMat).1);
    if forall i, p :: 0 <= i < |answers| && p in answers[i] ==> SubRefs(toFill, p) != [] {
      ExpandExact(answers, toFill);
    } else {
      var i, p :| 0 <= i < |answers| && p in answers[i] && SubRefs(toFill, p) == [];
      var k :| 0 <= k < |answers[i]| && answers[i][k] == p;
      ExpandDrops(answers, toFill, i, k);
    }
  }

  lemma LinesForHas(paths: seq<string>, toFill: string, k: nat)
    requires k < |paths| && SubRefs(toFill, paths[k]) != []
    ensures SubRefs(toFill, paths[k]) + "\n" in LinesFor(paths, toFill)
  {
    var a, b := paths[..k], paths[k..];
    assert paths == a + b;
    LinesForAppend(a, b, toFill);
    assert b[0] == paths[k];
    assert LinesFor(b, toFill) == [SubRefs(toFill, paths[k]) + "\n"] + LinesFor(b[1..], toFill);
  }

  lemma ExpandHas(answers: seq<seq<string>>, toFill: string, k: nat, line: string)
    requires k < |answers| && line in LinesFor(answers[k], toFill)
    ensures line in Expand(answers, toFill)
  {
    var a, b := answers[..k], answers[k..];
    assert answers == a + b;
    ExpandAppend(a, b, toFill);
    assert b[0] == answers[k];
  }

  /**
   * With the intended lookup, every path a GitHub record answers for `github_file`
   * yields its substituted directive line.
   */
  lemma IntendedFillsEveryPath(sibs: seq<ConfData>, fs: Fs, d: string, keyMat: string, toFill: string, k: nat, p: string)
    requires KeyConf(keyMat).0 == GitHubFileValue
    requires k < |sibs| && p in FillSpec(sibs[k], fs, d, Member(GitHubFile), KeyConf(keyMat).1)
    requires SubRefs(toFill, p) != []
    ensures SubRefs(toFill, p) + "\n" in GetFilledIntended(sibs, fs, d, keyMat, toFill)
  {
    var ans := Answers(sibs, fs, d, Member(GitHubFile), KeyConf(keyMat).1);
    var paths := ans[k];
    var m :| 0 <= m < |paths| && paths[m] == p;
    LinesForHas(paths, toFill, m);
    ExpandHas(ans, toFill, k, SubRefs(toFill, p) + "\n");
  }

  /** `process_line` with the intended lookup. */
  function ExpandedIntended(sibs: seq<ConfData>, fs: Fs, d: string, line: string): (r: seq<string>)
  {
    match MatchTemplate(Strip(line))
    case None => [line]
    case Some(body) =>
      match FirstKeyword(body)
      case None => []
      case Some(keyMat) => GetFilledIntended(sibs, fs, d, keyMat, body)
  }

  /**
   * With the intended lookup, a `github_file` directive yields one line for every path a
   * GitHub record answers, and lines that are not directives still pass through.
   */
  lemma IntendedDirectiveFills(sibs: seq<ConfData>, fs: Fs, d: string, line: string, body: string, k: nat, p: string)
    requires MatchTemplate(Strip(line)) == Some(body) && FirstKeyword(body).Some?
    requires KeyConf(FirstKeyword(body).value).0 == GitHubFileValue
    requires k < |sibs| && p in FillSpec(sibs[k], fs, d, Member(GitHubFile), KeyConf(FirstKeyword(body).value).1)
    requires SubRefs(body, p) != []
    ensures SubRefs(body, p) + "\n" in ExpandedIntended(sibs, fs, d, line)
  {
    IntendedFillsEveryPath(sibs, fs, d, FirstKeyword(body).value, body, k, p);
  }

  /** With the intended lookup too, a directive whose body holds no `${…}` produces no line. */
  lemma ExpandedIntendedNoKeyword(sibs: seq<ConfData>, fs: Fs, d: string, line: string)
    requires MatchTemplate(Strip(line)).Some? && FirstKeyword(MatchTemplate(Strip(line)).value).None?
    ensures ExpandedIntended(sibs, fs, d, line) == []
  {
  }

  lemma IntendedPassThrough(sibs: seq<ConfData>, fs: Fs, d: string, line: string)
    requires MatchTemplate(Strip(line)).None?
    ensures ExpandedIntended(sibs, fs, d, line) == Expanded(sibs, fs, d, line)
  {
  }
}

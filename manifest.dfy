/**
 * Reading an application's manifest (`dotconf`): each line is cut into tokens, the
 * first token names the record's schema, and the records are collected in line order
 * into one list that every template record shares.
 */
module Manifest {
  import opened Wrappers
  import opened Strings
  import opened Sources

  /** `re.split(ConfPattern, line.strip())`: the tokens of one manifest line. */
  function Tokens(line: string): (r: seq<string>)
    ensures |r| >= 1
  {
    SplitWs(Strip(line))
  }

  /**
   * A line made of words without white space, separated by single spaces, has those
   * words as its tokens.
   */
  lemma TokensJoin(ts: seq<string>)
    requires |ts| >= 1
    requires forall i :: 0 <= i < |ts| ==> ts[i] != [] && forall c :: c in ts[i] ==> !IsSpace(c)
    ensures Tokens(JoinWith(ts, ' ')) == ts
  {
    var line := JoinWith(ts, ' ');
    JoinWithEnds(ts, ' ');
    assert ts[0][0] in ts[0] && ts[|ts| - 1][|ts[|ts| - 1]| - 1] in ts[|ts| - 1];
    assert StripLeft(line) == line;
    assert Strip(line) == line;
    SplitWsJoin(ts);
  }

  /** The line `file <name> <dir>` makes the file record for `name` and `dir`. */
  lemma FileLineRecord(app: string, name: string, dir: string, datas: ConfList)
    requires name != [] && dir != []
    requires forall c :: c in name + dir ==> !IsSpace(c)
    ensures PrepareConf(app, Tokens(SchemaFile + " " + name + " " + dir), datas) == Ok(Some(FileData(app, name, Some(dir))))
  {
    var ts := [SchemaFile, name, dir];
    assert JoinWith(ts[2..], ' ') == dir;
    assert JoinWith(ts[1..], ' ') == name + " " + dir by {
      assert ts[1..][1..] == ts[2..];
    }
    assert JoinWith(ts, ' ') == SchemaFile + " " + name + " " + dir;
    forall i | 0 <= i < |ts| ensures ts[i] != [] && forall c :: c in ts[i] ==> !IsSpace(c) {
      if i == 1 {
        forall c | c in name ensures !IsSpace(c) { assert c in name + dir; }
      } else if i == 2 {
        forall c | c in dir ensures !IsSpace(c) { assert c in name + dir; }
      }
    }
    TokensJoin(ts);
  }

  /**
   * A line whose words are separated by runs of spaces and tabs, with any white space
   * before and after it, has those words as its tokens.
   */
  lemma TokensRuns(lead: string, ts: seq<string>, seps: seq<string>, trail: string)
    requires |ts| == |seps| + 1
    requires forall i :: 0 <= i < |ts| ==> ts[i] != [] && forall c :: c in ts[i] ==> !IsBlank(c)
    requires !IsSpace(ts[0][0]) && !IsSpace(ts[|ts| - 1][|ts[|ts| - 1]| - 1])
    requires forall i :: 0 <= i < |seps| ==> seps[i] != [] && forall c :: c in seps[i] ==> IsBlank(c)
    requires forall c :: c in lead + trail ==> IsSpace(c)
    ensures Tokens(lead + JoinRuns(ts, seps) + trail) == ts
  {
    JoinRunsEnds(ts, seps);
    forall c | c in lead ensures IsSpace(c) { assert c in lead + trail; }
    forall c | c in trail ensures IsSpace(c) { assert c in lead + trail; }
    StripPadded(lead, JoinRuns(ts, seps), trail);
    SplitWsJoinRuns(ts, seps);
  }

  /**
   * The line `file <name> <dir>`, its words separated by runs of spaces and tabs and
   * surrounded by any white space (the line terminator included), makes the file record
   * for `name` and `dir`.
   */
  lemma FileLineRunsRecord(app: string, lead: string, s1: string, name: string, s2: string, dir: string, trail: string, datas: ConfList)
    requires name != [] && dir != [] && !IsSpace(dir[|dir| - 1])
    requires forall c :: c in name + dir ==> !IsBlank(c)
    requires s1 != [] && s2 != [] && forall c :: c in s1 + s2 ==> IsBlank(c)
    requires forall c :: c in lead + trail ==> IsSpace(c)
    ensures PrepareConf(app, Tokens(lead + SchemaFile + s1 + name + s2 + dir + trail), datas) == Ok(Some(FileData(app, name, Some(dir))))
  {
    var ts, seps := [SchemaFile, name, dir], [s1, s2];
    assert JoinRuns(ts[2..], seps[2..]) == dir;
    assert JoinRuns(ts[1..], seps[1..]) == name + s2 + dir by {
      assert ts[1..][1..] == ts[2..] && seps[1..][1..] == seps[2..];
    }
    assert lead + JoinRuns(ts, seps) + trail == lead + SchemaFile + s1 + name + s2 + dir + trail;
    forall i | 0 <= i < |ts| ensures ts[i] != [] && forall c :: c in ts[i] ==> !IsBlank(c) {
      if i == 1 {
        forall c | c in name ensures !IsBlank(c) { assert c in name + dir; }
      } else if i == 2 {
        forall c | c in dir ensures !IsBlank(c) { assert c in name + dir; }
      }
    }
    forall i | 0 <= i < |seps| ensures seps[i] != [] && forall c :: c in seps[i] ==> IsBlank(c) {
      if i == 0 {
        forall c | c in s1 ensures IsBlank(c) { assert c in s1 + s2; }
      } else {
        forall c | c in s2 ensures IsBlank(c) { assert c in s1 + s2; }
      }
    }
    TokensRuns(lead, ts, seps, trail);
  }

  /** A tab and a run of two spaces each separate one pair of tokens. */
  lemma TabbedLineTokens()
    ensures Tokens("github\talice/dots  home\n") == ["github", "alice/dots", "home"]
  {
    var ts, seps := ["github", "alice/dots", "home"], ["\t", "  "];
    assert JoinRuns(ts[2..], seps[2..]) == "home";
    assert JoinRuns(ts[1..], seps[1..]) == "alice/dots  home" by {
      assert ts[1..][1..] == ts[2..] && seps[1..][1..] == seps[2..];
    }
    assert "" + JoinRuns(ts, seps) + "\n" == "github\talice/dots  home\n";
    TokensRuns("", ts, seps, "\n");
  }

  /** There is always a first token, and no token holds a space or a tab. */
  lemma TokensShape(line: string)
    ensures |Tokens(line)| >= 1
    ensures forall i, j :: 0 <= i < |Tokens(line)| && 0 <= j < |Tokens(line)[i]| ==> !IsBlank(Tokens(line)[i][j])
  {
    SplitWsNoBlanks(Strip(line));
  }

  /** A line holding only whitespace has the single token `""`. */
  lemma BlankLineTokens(line: string)
    requires forall i :: 0 <= i < |line| ==> IsSpace(line[i])
    ensures Tokens(line) == [""]
  {
  }

  /** A schema word `prepare_conf` knows. */
  predicate KnownSchema(w: string)
  {
    w == SchemaGitHub || w == SchemaFile || w == SchemaTemplate
  }

  /** The optional token at position `k` (`conf[k]` guarded by `len(conf) > k`). */
  function OptionalAt(conf: seq<string>, k: nat): (r: Option<string>)
    ensures r.Some? <==> k < |conf|
    ensures r.Some? ==> r.value == conf[k]
  {
    if k < |conf| then Some(conf[k]) else None
  }

  /**
   * `ConfData.prepare_conf(app, conf, datas)`: the record the tokens `conf` describe,
   * `Ok(None)` for a line whose first token names no schema, or the exception raised.
   */
  function PrepareConf(app: string, conf: seq<string>, datas: ConfList): (r: Result<Option<ConfData>, Error>)
    ensures r == Ok(None) <==> |conf| > 0 && !KnownSchema(conf[0])
    ensures r.Ok? && r.value.Some? ==> |conf| > 0 && SchemaName(r.value.value) == conf[0]
  {
    if |conf| == 0 then Err(IndexError)
    else if conf[0] == SchemaGitHub then
      if |conf| > 3 then Ok(Some(NewGitHubData(conf[1], conf[2], Some(conf[3..]))))
      else if |conf| == 3 then Ok(Some(NewGitHubData(conf[1], conf[2], None)))
      else Err(IndexError)
    else if conf[0] == SchemaFile then
      if |conf| >= 2 then Ok(Some(FileData(app, conf[1], OptionalAt(conf, 2))))
      else Err(IndexError)
    else if conf[0] == SchemaTemplate then
      if |conf| >= 2 then
        match NewTemplateData(app, datas, conf[1], OptionalAt(conf, 2))
        case Ok(t) => Ok(Some(t))
        case Err(e) => Err(e)
      else Err(IndexError)
    else Ok(None)
  }

  /**
   * Which lines `prepare_conf` skips, which records it makes and which exception it
   * raises: a missing token is an `IndexError`, a template file without the suffix the
   * template error, and any other first token is no record at all.
   */
  lemma PrepareConfOutcome(app: string, conf: seq<string>, datas: ConfList)
    ensures var r := PrepareConf(app, conf, datas);
      && (r == Ok(None) <==> |conf| > 0 && !KnownSchema(conf[0]))
      && (r.Ok? && r.value.Some? ==> |conf| > 0 && SchemaName(r.value.value) == conf[0])
      && (r.Err? <==>
        |conf| == 0
        || (conf[0] == SchemaGitHub && |conf| < 3)
        || ((conf[0] == SchemaFile || conf[0] == SchemaTemplate) && |conf| < 2)
        || (conf[0] == SchemaTemplate && |conf| >= 2 && !EndsWith(conf[1], TemplateSuffix)))
      && (r.Err? ==> r.error == (if |conf| >= 2 && conf[0] == SchemaTemplate then NotATemplate else IndexError))
  {
  }

  /** The tokens of a record line map onto the record's fields. */
  lemma PrepareConfFields(app: string, conf: seq<string>, datas: ConfList)
    requires PrepareConf(app, conf, datas).Ok? && PrepareConf(app, conf, datas).value.Some?
    ensures var c := PrepareConf(app, conf, datas).value.value;
      match c
      case GitHubData(repo, _, files) =>
        repo == conf[1] && c.targetDir == Replace(conf[2], RepoRef, conf[1])
        && (files.Some? <==> |conf| > 3) && (files.Some? ==> files.value == conf[3..])
      case FileData(a, file, dir) =>
        a == app && file == conf[1] && (dir.Some? <==> |conf| > 2) && (dir.Some? ==> dir.value == conf[2])
      case TemplateData(a, ds, file, dir) =>
        a == app && ds == datas && file == conf[1] && EndsWith(file, TemplateSuffix)
        && (dir.Some? <==> |conf| > 2) && (dir.Some? ==> dir.value == conf[2])
  {
  }

  /** Tokens after the last one a file or template record reads are ignored. */
  lemma ExtraTokensIgnored(app: string, conf: seq<string>, extra: seq<string>, datas: ConfList)
    requires |conf| >= 3 && (conf[0] == SchemaFile || conf[0] == SchemaTemplate)
    ensures PrepareConf(app, conf + extra, datas) == PrepareConf(app, conf, datas)
  {
    assert (conf + extra)[..3] == conf[..3];
    assert (conf + extra)[0] == conf[0] && (conf + extra)[1] == conf[1] && (conf + extra)[2] == conf[2];
  }

  /** What `prepare_conf` makes of one line: a record, nothing, or an exception. */
  type Outcome = Result<Option<ConfData>, Error>

  /** The outcome of every line of the manifest, each line tokenised and read on its own. */
  function Outcomes(app: string, lines: seq<string>, out: ConfList): (r: seq<Outcome>)
    ensures |r| == |lines|
    decreases |lines|
  {
    if lines == [] then [] else [PrepareConf(app, Tokens(lines[0]), out)] + Outcomes(app, lines[1..], out)
  }

  /** The outcome of line `k` of the manifest. */
  lemma {:induction false} OutcomeAt(app: string, lines: seq<string>, out: ConfList, k: nat)
    requires k < |lines|
    ensures Outcomes(app, lines, out)[k] == PrepareConf(app, Tokens(lines[k]), out)
    decreases k
  {
    if k > 0 {
      OutcomeAt(app, lines[1..], out, k - 1);
      assert lines[1..][k - 1] == lines[k];
    }
  }

  /** The outcomes of a manifest in two pieces are those of each piece, in order. */
  lemma {:induction false} OutcomesAppend(app: string, a: seq<string>, b: seq<string>, out: ConfList)
    ensures Outcomes(app, a + b, out) == Outcomes(app, a, out) + Outcomes(app, b, out)
    decreases |a|
  {
    if a == [] {
      assert a + b == b;
    } else {
      assert (a + b)[0] == a[0];
      assert (a + b)[1..] == a[1..] + b;
      OutcomesAppend(app, a[1..], b, out);
    }
  }

  /** The loop of `parse_config` over the outcomes: records kept in order until an exception. */
  function Collect(rs: seq<Outcome>): (r: Result<seq<ConfData>, Error>)
    decreases |rs|
  {
    if rs == [] then Ok([])
    else
      match rs[0]
      case Err(e) => Err(e)
      case Ok(None) => Collect(rs[1..])
      case Ok(Some(c)) =>
        match Collect(rs[1..])
        case Err(e) => Err(e)
        case Ok(items) => Ok([c] + items)
  }

  /**
   * `parse_config(d, app)` on the manifest's lines: the records in line order, or the
   * first exception raised. `out` is the list the records are appended to.
   */
  function ParseSpec(app: string, lines: seq<string>, out: ConfList): (r: Result<seq<ConfData>, Error>)
  {
    Collect(Outcomes(app, lines, out))
  }

  /** Outcomes read in two pieces: the first piece's records first, its exception first. */
  lemma {:induction false} CollectAppend(a: seq<Outcome>, b: seq<Outcome>)
    ensures Collect(a + b) ==
      match Collect(a)
      case Err(e) => Err(e)
      case Ok(x) =>
        match Collect(b)
        case Err(e) => Err(e)
        case Ok(y) => Ok(x + y)
    decreases |a|
  {
    if a == [] {
      assert a + b == b;
      match Collect(b)
      case Err(e) =>
      case Ok(y) => assert [] + y == y;
    } else {
      assert (a + b)[0] == a[0];
      assert (a + b)[1..] == a[1..] + b;
      CollectAppend(a[1..], b);
      match a[0]
      case Err(e) =>
      case Ok(None) =>
      case Ok(Some(c)) =>
        match Collect(a[1..])
        case Err(e) =>
        case Ok(x) =>
          match Collect(b)
          case Err(e) =>
          case Ok(y) => assert [c] + (x + y) == [c] + x + y;
    }
  }

  /**
   * A manifest read in two pieces: the records of the first piece come first, and an
   * exception in the first piece wins over anything in the second.
   */
  lemma ParseAppend(app: string, a: seq<string>, b: seq<string>, out: ConfList)
    ensures ParseSpec(app, a + b, out) ==
      match ParseSpec(app, a, out)
      case Err(e) => Err(e)
      case Ok(x) =>
        match ParseSpec(app, b, out)
        case Err(e) => Err(e)
        case Ok(y) => Ok(x + y)
  {
    OutcomesAppend(app, a, b, out);
    CollectAppend(Outcomes(app, a, out), Outcomes(app, b, out));
  }

  /** A single outcome read on its own. */
  lemma CollectSingle(x: Outcome)
    ensures Collect([x]) ==
      match x
      case Err(e) => Err(e)
      case Ok(None) => Ok([])
      case Ok(Some(c)) => Ok([c])
  {
    assert [x][0] == x && [x][1..] == [];
    match x
    case Err(e) =>
    case Ok(None) =>
    case Ok(Some(c)) => assert [c] + [] == [c];
  }

  /** One line read on its own. */
  lemma ParseSingle(app: string, line: string, out: ConfList)
    ensures ParseSpec(app, [line], out) ==
      match PrepareConf(app, Tokens(line), out)
      case Err(e) => Err(e)
      case Ok(None) => Ok([])
      case Ok(Some(c)) => Ok([c])
  {
    assert [line][1..] == [];
    CollectSingle(PrepareConf(app, Tokens(line), out));
  }

  /** A blank line, or one whose first token names no schema, leaves the result as it is. */
  lemma SkippedLine(app: string, a: seq<string>, line: string, b: seq<string>, out: ConfList)
    requires !KnownSchema(Tokens(line)[0])
    ensures ParseSpec(app, a + [line] + b, out) == ParseSpec(app, a + b, out)
  {
    var x, y, z := Outcomes(app, a, out), Outcomes(app, [line], out), Outcomes(app, b, out);
    OutcomesAppend(app, a + [line], b, out);
    OutcomesAppend(app, a, [line], out);
    OutcomesAppend(app, a, b, out);
    assert PrepareConf(app, Tokens(line), out) == Ok(None);
    ParseSingle(app, line, out);
    CollectSkips(x, y, z);
  }

  /** Outcomes that give no record and no exception can be dropped from the middle. */
  lemma CollectSkips(x: seq<Outcome>, y: seq<Outcome>, z: seq<Outcome>)
    requires Collect(y) == Ok([])
    ensures Collect(x + y + z) == Collect(x + z)
  {
    CollectAppend(x + y, z);
    CollectAppend(x, y);
    CollectAppend(x, z);
    match Collect(x)
    case Err(e) =>
    case Ok(items) => assert items + [] == items;
  }

  /** In particular a whitespace-only line is skipped. */
  lemma BlankLineSkipped(app: string, a: seq<string>, line: string, b: seq<string>, out: ConfList)
    requires forall i :: 0 <= i < |line| ==> IsSpace(line[i])
    ensures ParseSpec(app, a + [line] + b, out) == ParseSpec(app, a + b, out)
  {
    BlankLineTokens(line);
    SkippedLine(app, a, line, b, out);
  }

  lemma {:induction false} CollectFailsAtFirst(rs: seq<Outcome>)
    ensures Collect(rs).Err? <==> exists k :: 0 <= k < |rs| && rs[k].Err?
    ensures Collect(rs).Err? ==>
      exists k :: 0 <= k < |rs| && rs[k] == Err(Collect(rs).error) && forall j :: 0 <= j < k ==> rs[j].Ok?
    decreases |rs|
  {
    if rs != [] {
      if rs[0].Err? {
        assert rs[0] == Err(Collect(rs).error);
      } else {
        var p := rs[1..];
        CollectFailsAtFirst(p);
        assert Collect(rs).Err? <==> Collect(p).Err?;
        if Collect(p).Err? {
          assert Collect(rs).error == Collect(p).error;
          var k :| 0 <= k < |p| && p[k] == Err(Collect(p).error) && forall j :: 0 <= j < k ==> p[j].Ok?;
          assert rs[k + 1] == p[k];
          forall j | 0 <= j < k + 1 ensures rs[j].Ok? {
            if j > 0 { assert rs[j] == p[j - 1]; }
          }
        } else {
          forall k | 0 <= k < |rs| ensures rs[k].Ok? {
            if k > 0 { assert rs[k] == p[k - 1]; }
          }
        }
      }
    }
  }

  /**
   * Reading fails exactly when some line fails, and then with the exception of the first
   * failing line, all lines before it having been read without one.
   */
  lemma ParseFailsAtFirstBadLine(app: string, lines: seq<string>, out: ConfList)
    ensures ParseSpec(app, lines, out).Err? <==>
      exists k :: 0 <= k < |lines| && PrepareConf(app, Tokens(lines[k]), out).Err?
    ensures ParseSpec(app, lines, out).Err? ==>
      exists k :: 0 <= k < |lines| && PrepareConf(app, Tokens(lines[k]), out) == Err(ParseSpec(app, lines, out).error)
        && forall j :: 0 <= j < k ==> PrepareConf(app, Tokens(lines[j]), out).Ok?
  {
    var rs := Outcomes(app, lines, out);
    CollectFailsAtFirst(rs);
    if Collect(rs).Err? {
      var k :| 0 <= k < |rs| && rs[k] == Err(Collect(rs).error) && forall j :: 0 <= j < k ==> rs[j].Ok?;
      OutcomeAt(app, lines, out, k);
      forall j | 0 <= j < k ensures PrepareConf(app, Tokens(lines[j]), out).Ok? {
        OutcomeAt(app, lines, out, j);
      }
    } else {
      forall k | 0 <= k < |lines| ensures PrepareConf(app, Tokens(lines[k]), out).Ok? {
        OutcomeAt(app, lines, out, k);
      }
    }
  }

  lemma {:induction false} CollectRecords(rs: seq<Outcome>)
    requires Collect(rs).Ok?
    ensures |Collect(rs).value| <= |rs|
    ensures forall c :: c in Collect(rs).value <==> exists k :: 0 <= k < |rs| && rs[k] == Ok(Some(c))
    decreases |rs|
  {
    if rs != [] {
      var p := rs[1..];
      CollectRecords(p);
      var head := if rs[0] == Ok(None) then [] else [rs[0].value.value];
      assert Collect(rs).value == head + Collect(p).value;
      forall c ensures c in Collect(rs).value <==> exists k :: 0 <= k < |rs| && rs[k] == Ok(Some(c)) {
        if exists k :: 0 <= k < |rs| && rs[k] == Ok(Some(c)) {
          var k :| 0 <= k < |rs| && rs[k] == Ok(Some(c));
          if k > 0 { assert p[k - 1] == rs[k]; }
        }
        if c in Collect(p).value {
          var k :| 0 <= k < |p| && p[k] == Ok(Some(c));
          assert p[k] == rs[k + 1];
        }
      }
    }
  }

  /**
   * When reading succeeds, the records are exactly those of the lines that describe
   * one: each record comes from a line, each such line's record is present, and there
   * are at most as many records as lines.
   */
  lemma ParseRecordsFromLines(app: string, lines: seq<string>, out: ConfList)
    requires ParseSpec(app, lines, out).Ok?
    ensures |ParseSpec(app, lines, out).value| <= |lines|
    ensures forall c :: c in ParseSpec(app, lines, out).value <==>
      exists k :: 0 <= k < |lines| && PrepareConf(app, Tokens(lines[k]), out) == Ok(Some(c))
  {
    var rs := Outcomes(app, lines, out);
    forall k | 0 <= k < |lines| ensures rs[k] == PrepareConf(app, Tokens(lines[k]), out) {
      OutcomeAt(app, lines, out, k);
    }
    CollectRecords(rs);
    forall c ensures c in ParseSpec(app, lines, out).value <==>
      exists k :: 0 <= k < |lines| && PrepareConf(app, Tokens(lines[k]), out) == Ok(Some(c))
    {
      if c in ParseSpec(app, lines, out).value {
        var k :| 0 <= k < |rs| && rs[k] == Ok(Some(c));
        assert PrepareConf(app, Tokens(lines[k]), out) == Ok(Some(c));
      }
    }
  }

  lemma CollectRecordOrigin(rs: seq<Outcome>, c: ConfData)
    requires Collect(rs).Ok? && c in Collect(rs).value
    ensures exists k :: 0 <= k < |rs| && rs[k] == Ok(Some(c))
  {
    CollectRecords(rs);
  }

  /** A template record holds the list it was given. */
  lemma OutcomeShares(app: string, conf: seq<string>, out: ConfList, c: ConfData)
    requires PrepareConf(app, conf, out) == Ok(Some(c)) && c.TemplateData?
    ensures c.datas == out
  {
  }

  /** Every template record that reading returns holds the very list the records went into. */
  lemma ParseShares(app: string, lines: seq<string>, out: ConfList)
    requires ParseSpec(app, lines, out).Ok?
    ensures forall c :: c in ParseSpec(app, lines, out).value && c.TemplateData? ==> c.datas == out
  {
    var rs := Outcomes(app, lines, out);
    CollectRecords(rs);
    forall c | c in Collect(rs).value && c.TemplateData? ensures c.datas == out {
      CollectRecordOrigin(rs, c);
      var k :| 0 <= k < |rs| && rs[k] == Ok(Some(c));
      OutcomeAt(app, lines, out, k);
      OutcomeShares(app, Tokens(lines[k]), out, c);
    }
  }

  /** One more outcome without an exception: its record, if any, is appended. */
  lemma CollectStep(rs: seq<Outcome>, i: nat, items: seq<ConfData>)
    requires i < |rs| && Collect(rs[..i]) == Ok(items) && rs[i].Ok?
    ensures Collect(rs[..i + 1]) == Ok(if rs[i].value.Some? then items + [rs[i].value.value] else items)
  {
    assert rs[..i + 1] == rs[..i] + [rs[i]];
    CollectAppend(rs[..i], [rs[i]]);
    CollectSingle(rs[i]);
    assert items + [] == items;
  }

  /** An exception after outcomes without one is the result of the whole reading. */
  lemma CollectStops(rs: seq<Outcome>, i: nat)
    requires i < |rs| && Collect(rs[..i]).Ok? && rs[i].Err?
    ensures Collect(rs) == Err(rs[i].error)
  {
    assert rs[..i] + rs[i..] == rs;
    assert rs[i..][0] == rs[i];
    CollectAppend(rs[..i], rs[i..]);
  }

  /** The body of the loop of `parse_config`: one line cut into tokens and turned into a record. */
  method ReadLine(app: string, lines: seq<string>, i: nat, out: ConfList) returns (data: Outcome)
    requires i < |lines|
    ensures data == Outcomes(app, lines, out)[i]
  {
    var conf := Tokens(lines[i]);
    data := PrepareConf(app, conf, out);
    OutcomeAt(app, lines, out, i);
  }

  /**
   * `parse_config(d, app)` over the lines of the manifest: one new list, appended to
   * line by line; `err` is the exception that ended the reading, if any.
   */
  method ParseConfig(app: string, lines: seq<string>) returns (out: ConfList, err: Option<Error>)
    ensures fresh(out)
    ensures ParseSpec(app, lines, out) == (if err.None? then Ok(out.items) else Err(err.value))
  {
    out := new ConfList();
    ghost var rs := Outcomes(app, lines, out);
    var i := 0;
    while i < |lines|
      invariant 0 <= i <= |lines|
      invariant Collect(rs[..i]) == Ok(out.items)
    {
      var data := ReadLine(app, lines, i, out);
      if data.Err? {
        CollectStops(rs, i);
        return out, Some(data.error);
      }
      CollectStep(rs, i, out.items);
      if data.value.Some? {
        out.Append(data.value.value);
      }
      i := i + 1;
    }
    assert rs[..|lines|] == rs;
    return out, None;
  }
}

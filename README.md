# mydot manifest and template engine in Dafny

`mydot.py` builds a user's dotfiles into a target directory. Each application has a
manifest, `dotconf`. Every line of it declares one content source:

- `github <repo> <dir> [files…]` is a GitHub repository checked out under `<dir>`. A
  `${repo}` in `<dir>` is replaced by the repository name.
- `file <name> [dir]` is a file copied from the application's `files` directory.
- `template <name>.template [dir]` is a template rendered into a file.

In a template, a line whose stripped form is `$template(<body>)` is a directive. Its body
holds a keyword reference `${keyword:alt1:alt2…}`. By design, the engine asks every
record of the manifest for paths that answer the keyword and writes the body once per
answered path, with the path substituted for the reference; a substituted line that comes
out empty is dropped. As written, no record ever answers, so every directive line
disappears from the output (see "## Findings").

This project models that engine, module by module:

- `Sources` (`sources.dfy`) holds the records: the datatype `ConfData`, their
  construction, and the keyword query `fill` with `fill_dir`. `ConfList` is a class
  standing for the Python list that `parse_config` appends to. Every template record
  holds a reference to that same list.
- `Manifest` (`manifest.dfy`) covers tokenising a line, `prepare_conf` and the loop of
  `parse_config`.
- `Templates` (`templates.dfy`) covers `get_filled`, `process_line` and the write loop of
  `TemplateData.save`.
- `Patterns` (`patterns.dfy`) gives the two regular expressions as functions:
  `TemplatePattern.match`, `KeywordPattern.findall` and `re.sub`.
- `Materialize` (`materialize.dfy`) gives the paths that `FileData.save` and
  `TemplateData.save` read from and write to.
- `Strings`, `Sorting` and `Lists` are the parts of Python's library the engine relies
  on:
  - `str.strip`, `re.split("[ \t]+")`, `str.split(":")`, `str.replace`, `str.endswith`
    and `posixpath.join`;
  - `list.sort()` on strings, modelled as an insertion sort. It is proved to be the only
    ascending permutation, so it agrees with any sorting algorithm;
  - `list(dict.fromkeys(…))`.

The filesystem is a parameter, `Fs`, which gives three things:

- the set of paths `os.path.isdir` accepts;
- the set of paths `os.path.isfile` accepts;
- the result of `glob.glob(pattern, root_dir=dir)`, as a function.

A template's lines are a parameter too. The output of saving a template is the sequence
of chunks written.

`FileData.__init__` (`mydot.py:154-157`) is the datatype constructor `FileData`. The
fields it receives are stated by `Manifest.PrepareConfFields`.

## Behaviour worth knowing

These are the places where the code does something other than the obvious reading of
its design. The model follows the code in each case.

- **Templates see the final list.** A template record sees every record of its
  manifest, including those declared after it and itself. `prepare_conf` receives the
  list that `parse_config` goes on appending to (`mydot.py:249-255`), and
  `TemplateData` stores that list, not a copy (`mydot.py:185`). The model states this
  with `Manifest.ParseShares`: every template record's `datas` is the very `ConfList`
  the records went into.
- **`${repo}` can survive construction.** `str.replace` does not rescan its own output.
  For repository `ep` and directory `${r${repo}o}`, the result is `${repo}`
  (`Sources.GitHubTargetDirCanKeepRef`, `Sources.GitHubTargetDirKeepsRefExample`). `Sources.GitHubTargetDirResolved` proves
  sufficient conditions for no reference to remain.
- **Every reference is substituted.** `re.sub` replaces every reference in a directive
  body, not only the first: two references separated by text without a `$` both become
  the path (`Patterns.SubRefsEveryReference`). In general, the text before the
  leftmost reference is copied as it is, a `$` that starts no reference included
  (`$PATH` in `export PATH=$PATH:${github_file}`), that reference becomes the path, and
  the scan goes on after it (`Patterns.SubRefsAtLeftmost`). With `Patterns.SubRefsNoRef`
  this fixes the result for every body.
- **A run of blanks is one separator.** A manifest line is cut at each run of spaces and
  tabs, however long, after `strip` has removed the white space around it, line
  terminator included (`Strings.SplitWsRun`, `Strings.SplitWsJoinRuns`,
  `Manifest.TokensRuns`, `Manifest.FileLineRunsRecord`).
- **One line per path only when the line is non-empty.** A substituted line that comes
  out empty is dropped. Over all the records, a directive gives exactly one line per
  answered path when no substitution is empty (`Templates.ExpandExact`), and fewer lines
  as soon as one is (`Templates.ExpandDrops`). `Templates.GetFilledIntendedCount` states
  both directions for the intended lookup.

## Model

| member | source | states |
|---|---|---|
| Strings.Strip | mydot.py:208 | the result has no leading or trailing white space (Python's `isspace` set); it is empty exactly when the whole line is white space |
| Strings.StripSlice | mydot.py:208 | the stripped line is a slice of the line with only white space before and after it |
| Strings.SplitWs | mydot.py:252 | `re.split("[ \t]+", …)` always yields at least one token |
| Strings.SplitWsNoBlanks | mydot.py:252 | no token holds a space or a tab |
| Strings.DropBlanksRun | mydot.py:20 | a run of spaces and tabs is skipped as a whole, up to the next non-blank character |
| Strings.SplitWsRun | mydot.py:20 | a blank-free word followed by a non-empty run of spaces and tabs is one token, however long the run |
| Strings.SplitWsJoinRuns | mydot.py:20 | non-empty blank-free tokens joined by any non-empty runs of spaces and tabs split back into exactly those tokens |
| Strings.StripPadded | mydot.py:252 | `strip` returns a text whose ends are not white space unchanged, whatever white space surrounds it |
| Strings.SplitWsJoin | mydot.py:252 | non-empty blank-free tokens joined with single spaces split back into exactly those tokens |
| Strings.SplitOn | mydot.py:194 | `split(":")` gives at least one piece and no piece holds `:` |
| Strings.SplitOnJoin | mydot.py:194 | joining the pieces of `split(":")` with `:` gives back the keyword specification |
| Strings.Replace | mydot.py:68 | `str.replace` with a replacement no longer than the pattern never lengthens the text |
| Strings.ReplaceAbsent | mydot.py:68 | a text without the pattern is left unchanged |
| Strings.ReplaceSingle | mydot.py:68 | a lone occurrence between texts free of the pattern is replaced and nothing else changes, when the pattern's first character does not recur in it |
| Strings.ReplaceClears | mydot.py:68 | when every occurrence of the pattern's first character begins an occurrence and the replacement lacks that character, no occurrence is left |
| Strings.EndsWithSplit | mydot.py:187 | a name that ends with the suffix is its stem followed by the suffix |
| Strings.EndsWithAppend | mydot.py:187 | any stem followed by the suffix ends with the suffix |
| Strings.Join | mydot.py:125 | `os.path.join(a, b)` ends with `b`, and starts with `a` when `b` is relative; when `a` is non-empty and does not end with `/`, it starts with `a` followed by `/` |
| Sorting.Sort | mydot.py:129 | `matches.sort()` gives an ascending permutation of the matches |
| Sorting.SortIsUnique | mydot.py:129 | any ascending permutation of the matches equals `Sort`, so the model fixes the order whatever algorithm sorts |
| Sorting.LexLeAntisym | mydot.py:129 | two strings each `<=` the other are equal |
| Lists.Dedup | mydot.py:148 | `dict.fromkeys` keeps no repeats and exactly the elements of the input |
| Lists.DedupFirstOrder | mydot.py:148 | the kept elements follow the order of their first occurrences |
| Patterns.MatchTemplate | mydot.py:21 | a match means the stripped line is `$template(` + body + `)` with a one-line body |
| Patterns.MatchTemplateComplete | mydot.py:21 | every `$template(<body>)` with a one-line body matches, with that body |
| Patterns.RefAt | mydot.py:22 | a reference at the start is `${`, a non-empty run without `}`, then `}` |
| Patterns.RefAtComplete | mydot.py:22 | every such reference is recognised with its full length |
| Patterns.FirstKeyword | mydot.py:211-213 | `findall(...)[0]` is absent exactly when no position starts a reference; a found keyword is non-empty and free of `}` |
| Patterns.FirstKeywordLeftmost | mydot.py:211-213 | when position `i` starts a reference and no earlier position does, the keyword is that reference's group |
| Patterns.SubRefs | mydot.py:201 | every character of the substituted body comes from the body or from the path |
| Patterns.SubRefsLeadingRef | mydot.py:201 | a reference at the front becomes the path and the scan goes on after it |
| Patterns.SubRefsPlainPrefix | mydot.py:201 | text without a `$` is copied and the scan goes on after it |
| Patterns.SubRefsNoRef | mydot.py:201 | a body without a reference is returned unchanged |
| Patterns.SubRefsClears | mydot.py:201 | when every `$` starts a reference and the path has no `$`, no reference is left |
| Patterns.SubRefsAtLeftmost | mydot.py:201 | the text before the leftmost reference is copied unchanged, a `$` that starts no reference included; that reference becomes the path and the scan resumes after it |
| Patterns.SubRefsEveryReference | mydot.py:201 | of two references separated by text without a `$`, both are replaced by the path |
| Sources.NewGitHubData | mydot.py:64-69 | the record keeps the repository and target files, and its directory is the given one with `${repo}` replaced by the repository |
| Sources.GitHubTargetDirKept | mydot.py:68 | a directory without `${repo}` is kept as given |
| Sources.GitHubTargetDirResolved | mydot.py:68 | no `${repo}` remains when the repository has no `$` and every `$` of the directory starts `${repo}` |
| Sources.GitHubTargetDirCanKeepRef | mydot.py:68 | when `a`, the repository and `b` spell `${repo}` and neither `a` nor `b` holds it, the directory `a${repo}b` becomes `${repo}` |
| Sources.GitHubTargetDirKeepsRefExample | mydot.py:68 | repository `ep` with directory `${r${repo}o}` leaves `${repo}` behind |
| Sources.NewTemplateData | mydot.py:177-189 | construction fails, with the template error, exactly when the file name does not end in `.template`; otherwise the record holds the given fields and list |
| Sources.NotesTxtIsNotATemplate | mydot.py:187-188 | `notes.txt` is refused |
| Sources.ConfList.Append | mydot.py:255 | appending adds the record at the end and changes nothing else |
| Sources.JoinAll | mydot.py:130 | every match is joined under the sub-directory, one result per match, in order |
| Sources.FillDir | mydot.py:122-131 | the loop returns what `FillDirSpec` describes |
| Sources.FillDirFirstMatchWins | mydot.py:124-130 | the first alternative with matches decides the result: its sorted matches joined under the sub-directory |
| Sources.FillDirEmpty | mydot.py:122-131 | the result is empty exactly when the directory is missing or no alternative matches |
| Sources.CollectPiece | mydot.py:139-145 | one target file contributes its joined path when it is a plain file, and otherwise what `fill_dir` finds under it |
| Sources.Pieces | mydot.py:138-145 | one contribution per target file, in order, each what that file contributes |
| Lists.ConcatHas | mydot.py:145 | every path of one contribution is in the collected list |
| Sources.CollectFiles | mydot.py:138-145 | the loop over `target_files` collects each file's contribution in order |
| Sources.Fill | mydot.py:133-148 | `fill` returns `FillSpec`: nothing for file and template records, the de-duplicated collected paths for a GitHub record asked with the Enum member |
| Sources.FillAnswers | mydot.py:133-148 | only a GitHub record asked with the Enum member answers; its answer has no repeats and holds exactly the collected paths |
| Sources.FillFirstOccurrenceOrder | mydot.py:148 | the answer keeps paths in the order they were first collected |
| Sources.GatherHasPiece | mydot.py:139-145 | every path one target file contributes is in the collected list |
| Sources.FillPlainFile | mydot.py:139-143 | a target file that exists as a plain file is answered as `join(target_dir, file)` |
| Manifest.Tokens | mydot.py:252 | every line has at least one token |
| Manifest.TokensJoin | mydot.py:252 | a line of non-empty words without white space, separated by single spaces, has exactly those words as tokens |
| Manifest.TokensRuns | mydot.py:252 | a line of blank-free words separated by runs of spaces and tabs, with any white space around it, has exactly those words as tokens |
| Manifest.TabbedLineTokens | mydot.py:252 | `github<TAB>alice/dots  home` followed by a newline has the tokens `github`, `alice/dots` and `home` |
| Manifest.FileLineRunsRecord | mydot.py:49-51 | the line `file <name> <dir>` with runs of spaces and tabs between its words and any white space around it makes the file record of `name` with target directory `dir` |
| Manifest.FileLineRecord | mydot.py:49-51 | the line `file <name> <dir>` makes the file record of `name` with target directory `dir` |
| Manifest.PrepareConf | mydot.py:39-58 | a token list gives no record exactly when its first token names no schema, and a record is of the schema its first token names |
| Manifest.TokensShape | mydot.py:252 | a line has at least one token and no token holds a blank |
| Manifest.BlankLineTokens | mydot.py:252 | a white-space line has the single token `""` |
| Manifest.PrepareConfOutcome | mydot.py:39-58 | which token lists give no record (an unknown first token), which give a record of the named schema, and which raise `IndexError` or the template error |
| Manifest.PrepareConfFields | mydot.py:39-58 | each record's fields are the tokens at their positions: `conf[3:]` as target files when there are more than three tokens, `conf[2]` as target directory when there are more than two |
| Manifest.ExtraTokensIgnored | mydot.py:49-58 | tokens after the third do not change a file or template record |
| Manifest.OutcomeAt | mydot.py:251-253 | the outcome of line `k` is `prepare_conf` of that line's tokens |
| Manifest.OutcomesAppend | mydot.py:251-253 | the outcomes of two pieces of a manifest are those of each piece, in order |
| Manifest.CollectAppend | mydot.py:251-256 | outcomes collected in two pieces give the first piece's records first, and its exception wins |
| Manifest.CollectFailsAtFirst | mydot.py:251-256 | collecting fails exactly when some outcome is an exception, and then with the first one |
| Manifest.CollectRecords | mydot.py:253-255 | collected records are at most one per outcome, and exactly those the outcomes hold |
| Manifest.ReadLine | mydot.py:252-253 | line `i` is tokenised and handed to `prepare_conf`, giving its outcome |
| Manifest.ParseConfig | mydot.py:247-257 | the new list holds the records `ParseSpec` describes, or the exception that ended the reading is returned |
| Manifest.ParseAppend | mydot.py:251-255 | a manifest read in two pieces gives the first piece's records first, and an exception in the first piece wins |
| Manifest.SkippedLine | mydot.py:253-255 | a line whose first token names no schema leaves the result unchanged |
| Manifest.BlankLineSkipped | mydot.py:252-255 | a white-space line leaves the result unchanged |
| Manifest.ParseFailsAtFirstBadLine | mydot.py:251-253 | reading fails exactly when some line fails, and then with the exception of the first failing line |
| Manifest.ParseRecordsFromLines | mydot.py:251-255 | on success there are at most as many records as lines, each record comes from a line, and every line's record is present |
| Manifest.ParseShares | mydot.py:249-256 | every template record returned holds the very list the records were appended to |
| Templates.Answers | mydot.py:197-198 | one answer per record, in the order of the records |
| Templates.LinesForShape | mydot.py:200-203 | a record's paths give at most one line each, each ending with a newline |
| Templates.ExpandShape | mydot.py:191-204 | `get_filled` gives at most one line per answered path, each ending with a newline |
| Templates.LinesForAppend | mydot.py:200-203 | the lines of two lists of paths are those of each, in order |
| Templates.ExpandAppend | mydot.py:197-203 | the lines of earlier records come before those of later ones |
| Templates.LinesForExact | mydot.py:200-203 | when no substitution comes out empty, there is exactly one line per path, and line `i` is path `i` substituted |
| Templates.LinesForDrops | mydot.py:200-203 | a path whose substitution is empty leaves one record with fewer lines than paths |
| Templates.ExpandExact | mydot.py:197-203 | when no answered path substitutes to empty, there is exactly one line per answered path over all the records |
| Templates.ExpandDrops | mydot.py:197-203 | when some answered path substitutes to empty, there are fewer lines than answered paths |
| Templates.SubRefsNonEmpty | mydot.py:201-202 | a non-empty body with a non-empty path substituted is never empty |
| Templates.ExpandTextKeyIsEmpty | mydot.py:191-204 | as written, the keyword text reaches `fill`, which never matches it: no record answers and no line is produced |
| Templates.KeyConf | mydot.py:194-196 | the keyword and its alternatives joined with `:` give back the specification, and none of them holds `:` |
| Templates.AppendLines | mydot.py:200-203 | the inner loop appends the substituted lines of one record |
| Templates.CollectLines | mydot.py:197-203 | the outer loop returns the lines of every record in order |
| Templates.GetFilled | mydot.py:191-204 | `get_filled` returns `Expand` of the records' answers to the keyword text |
| Templates.ProcessLine | mydot.py:206-217 | `process_line` returns `Expanded` of the line |
| Templates.ExpandedPassThrough | mydot.py:217 | a line whose stripped form does not begin with `$template(` is returned unchanged, line terminator included |
| Templates.ExpandedNotDirective | mydot.py:208-209 | a line that does not match the directive pattern is returned unchanged |
| Templates.ExpandedNoKeyword | mydot.py:214-216 | a directive whose body holds no `${…}` reference produces no line |
| Templates.ExpandedDirectiveVanishes | mydot.py:208-213 | as written, every directive line produces no output |
| Templates.Outputs | mydot.py:232-234 | one chunk list per template line, each what `process_line` returns for that line |
| Lists.ConcatAppend | mydot.py:232-234 | writing the chunks of two pieces of a template writes those of each, in order |
| Templates.RenderedPlainCopy | mydot.py:232-234 | a template without directives is written line for line |
| Templates.PlainLines | mydot.py:232-234 | a line is kept exactly when it is a line of the template and not a directive |
| Templates.PlainLinesAppend | mydot.py:232-234 | the kept lines of two pieces of a template are those of each piece, in order |
| Templates.RenderedDropsDirectives | mydot.py:232-234 | as written, the saved file is the template with its directive lines removed |
| Templates.WriteAll | mydot.py:233-234 | the chunks of one line are written in order |
| Templates.WriteTemplate | mydot.py:230-234 | the write loop writes `Rendered`: every line's chunks in order |
| Templates.KeyOf | mydot.py:25-26 | the Enum member is chosen exactly for the text `github_file` |
| Templates.GetFilledIntended | mydot.py:191-204 | with the intended lookup, at most one line per answered path |
| Templates.GetFilledIntendedCount | mydot.py:191-204 | with the intended lookup, the directive gives exactly one line per answered path if and only if no substitution is empty |
| Templates.LinesForHas | mydot.py:200-203 | every path whose substitution is non-empty gives its line |
| Templates.ExpandHas | mydot.py:197-203 | every line of one record's answer appears in the result |
| Templates.IntendedFillsEveryPath | mydot.py:197-203 | with the intended lookup, every path a GitHub record answers for `github_file` gives its substituted line |
| Templates.ExpandedIntendedNoKeyword | mydot.py:214-216 | with the intended lookup too, a directive whose body holds no reference produces no line |
| Templates.IntendedDirectiveFills | mydot.py:206-213 | with the intended lookup, a `github_file` directive gives a line for every path a GitHub record answers |
| Materialize.SourcePath | mydot.py:161 | the file read ends with the record's file name |
| Materialize.SourceInsideMainDir | mydot.py:161 | with a relative application and file name it lies inside the main directory: it starts with the main directory, followed by `/` when that does not already end in `/` |
| Materialize.TargetPath | mydot.py:162-166 | the target ends with the file name |
| Materialize.EmptyTargetDirIsNone | mydot.py:162-166 | an empty target directory writes where no target directory writes |
| Materialize.TargetInsideOutputDir | mydot.py:162-166 | with relative names the target lies inside the output directory: it starts with `d`, followed by `/` when `d` does not already end in `/` |
| Materialize.AbsoluteNameEscapes | mydot.py:162-166 | an absolute file name is the target itself, whatever the output directory |
| Materialize.FileTargetPath | mydot.py:162-166 | a file record's target ends with its file name |
| Materialize.ResultFileName | mydot.py:224 | the saved name is never longer than the template's name |
| Materialize.TemplateTargetPath | mydot.py:224-229 | a template record's target ends with its result name |
| Strings.ReplaceBeforeOccurrence | mydot.py:224 | no `.template` straddles a name free of it and a following `.template` |
| Materialize.ResultFileNameStripsSuffix | mydot.py:224 | `<stem>.template` is saved as `<stem>` when the stem has no `.template` |
| Materialize.ResultFileNameDropsInnerOccurrences | mydot.py:224 | `<a>.template<b>.template` is saved as `<a><b>`: every occurrence is removed, not only the suffix |

## Left out

- The GitHub record's `save`, `checkout`, `clone` and `fetch` (`mydot.py:71-120`). They run `git` and `tar` through `os.system` and create directories. This model does not cover external processes.
- The copy in `FileData.save` (`mydot.py:168-171`). `shutil` is filesystem I/O; only the source and target paths are modelled.
- Opening and reading files (`mydot.py:230-231`, `mydot.py:250`). The lines of a template and of a manifest are parameters, and the written chunks are a result.
- `get_apps`, `parse_args`, the main loop and the progress display (`mydot.py:237-325`). They are I/O and orchestration outside the engine.
- Real glob semantics. `glob.glob` is an arbitrary function of directory and pattern; the model does not depend on what it matches.
- `os.path.isdir` and `os.path.isfile` are set membership. Symbolic links and path normalisation are not modelled.
- The escape handling of `re.sub` replacements. The path is substituted literally, so a backslash or group reference in a path is not interpreted.
- Templates.ProcessLine: does not model the diagnostic printed for a directive without a keyword (`mydot.py:215`), because printing is output only.
- Exceptions other than `IndexError` and the template-suffix `RuntimeError`. There are no I/O errors, and no `fill` or `save` failures.
- `TemplateKeyword` has one member. `Keyword` models exactly that member.

## Findings

| source | as written | input that shows it | evidently intended | confidence | as-written member | corrected member |
|---|---|---|---|---|---|---|
| mydot.py:136-137 | `fill` compares `key` with the Enum member `TemplateKeyword.GitHubFile`. `get_filled` passes the plain string cut from the directive (`mydot.py:195-198`), and a plain `Enum` member never equals a `str`. | A manifest `github alice/dots home` whose checkout has `home/a.sh`, and a template line `$template(${github_file:*.sh})`. The line produces no output. | `get_filled` looks the keyword text up among the values of `TemplateKeyword`'s members and queries with the member it finds, or with the text itself, which no record answers, when no member has that value; so GitHub records answer `github_file` | high (not executed) | Templates.ExpandedDirectiveVanishes | Templates.GetFilledIntended |

/**
 * The parts of Python's `str` and of `posixpath.join` that the engine relies on:
 * `strip`, `split`, `re.split("[ \t]+", …)`, `endswith`, `replace` and `os.path.join`.
 */
module Strings {
  import opened Wrappers

  /** `c.isspace()` for a Python 3 string character. */
  predicate IsSpace(c: char)
  {
    ('\t' <= c <= '\r') || ('\U{1C}' <= c <= '\U{1F}') || c == ' ' || c == '\U{85}' || c == '\U{A0}'
    || c == '\U{1680}' || ('\U{2000}' <= c <= '\U{200A}') || c == '\U{2028}' || c == '\U{2029}'
    || c == '\U{202F}' || c == '\U{205F}' || c == '\U{3000}'
  }

  /** `s.lstrip()`: drops exactly the leading run of white space. */
  function StripLeft(s: string): (r: string)
    ensures |r| <= |s| && r == s[|s| - |r|..]
    ensures forall i :: 0 <= i < |s| - |r| ==> IsSpace(s[i])
    ensures r == [] || !IsSpace(r[0])
  {
    if s != [] && IsSpace(s[0]) then StripLeft(s[1..]) else s
  }

  /** `s.rstrip()`: drops exactly the trailing run of white space. */
  function StripRight(s: string): (r: string)
    ensures |r| <= |s| && r == s[..|r|]
    ensures forall i :: |r| <= i < |s| ==> IsSpace(s[i])
    ensures r == [] || !IsSpace(r[|r| - 1])
  {
    if s != [] && IsSpace(s[|s| - 1]) then StripRight(s[..|s| - 1]) else s
  }

  /** `s.strip()` */
  function Strip(s: string): (r: string)
    ensures r == [] || (!IsSpace(r[0]) && !IsSpace(r[|r| - 1]))
    ensures r == [] <==> forall i :: 0 <= i < |s| ==> IsSpace(s[i])
  {
    StripRight(StripLeft(s))
  }

  /** The stripped line is the slice of `s` left between its leading and trailing white space. */
  lemma StripSlice(s: string)
    ensures exists k :: (0 <= k <= |s| - |Strip(s)| && Strip(s) == s[k..][..|Strip(s)|]
      && (forall i :: 0 <= i < k ==> IsSpace(s[i])) && (forall i :: k + |Strip(s)| <= i < |s| ==> IsSpace(s[i])))
  {
    var t := StripLeft(s);
    var r := StripRight(t);
    var k := |s| - |t|;
    assert t == s[k..];
    forall i | k + |r| <= i < |s| ensures IsSpace(s[i]) {
      assert s[i] == t[i - k];
    }
  }

  /** White space before the text is dropped by `lstrip`. */
  lemma {:induction false} StripLeftLead(lead: string, m: string)
    requires forall c :: c in lead ==> IsSpace(c)
    requires m == [] || !IsSpace(m[0])
    ensures StripLeft(lead + m) == m
    decreases |lead|
  {
    if lead == [] {
      assert lead + m == m;
    } else {
      assert lead[0] in lead;
      assert (lead + m)[1..] == lead[1..] + m;
      StripLeftLead(lead[1..], m);
    }
  }

  /** White space after the text is dropped by `rstrip`. */
  lemma {:induction false} StripRightTrail(m: string, trail: string)
    requires forall c :: c in trail ==> IsSpace(c)
    requires m == [] || !IsSpace(m[|m| - 1])
    ensures StripRight(m + trail) == m
    decreases |trail|
  {
    if trail == [] {
      assert m + trail == m;
    } else {
      var t := trail[..|trail| - 1];
      assert trail[|trail| - 1] in trail;
      assert (m + trail)[..|m + trail| - 1] == m + t;
      forall c | c in t ensures IsSpace(c) { assert c in trail; }
      StripRightTrail(m, t);
    }
  }

  /** `strip` gives back a text whose ends are not white space, whatever white space surrounds it. */
  lemma StripPadded(lead: string, m: string, trail: string)
    requires forall c :: c in lead ==> IsSpace(c)
    requires forall c :: c in trail ==> IsSpace(c)
    requires m == [] || (!IsSpace(m[0]) && !IsSpace(m[|m| - 1]))
    ensures Strip(lead + m + trail) == m
  {
    var s := lead + m + trail;
    if m == [] {
      forall i | 0 <= i < |s| ensures IsSpace(s[i]) {
        if i < |lead| { assert s[i] in lead; } else { assert s[i] in trail; }
      }
    } else {
      assert s == lead + (m + trail);
      assert (m + trail)[0] == m[0];
      StripLeftLead(lead, m + trail);
      StripRightTrail(m, trail);
    }
  }

  /** The character class `[ \t]` of the manifest's token separator. */
  predicate IsBlank(c: char)
  {
    c == ' ' || c == '\t'
  }

  function DropBlanks(s: string): (r: string)
    ensures |r| <= |s| && r == s[|s| - |r|..]
    ensures r == [] || !IsBlank(r[0])
    ensures s != [] && IsBlank(s[0]) ==> |r| < |s|
  {
    if s != [] && IsBlank(s[0]) then DropBlanks(s[1..]) else s
  }

  /**
   * `re.split("[ \t]+", s)`: the pieces between maximal runs of blanks, with an empty
   * piece before a leading run and after a trailing one.
   */
  function SplitWs(s: string): (r: seq<string>)
    ensures |r| >= 1
    decreases |s|
  {
    if s == [] then [""]
    else if IsBlank(s[0]) then [""] + SplitWs(DropBlanks(s))
    else
      var t := SplitWs(s[1..]);
      [[s[0]] + t[0]] + t[1..]
  }

  /** No piece holds a blank. */
  lemma {:induction false} SplitWsNoBlanks(s: string)
    ensures forall i, j :: 0 <= i < |SplitWs(s)| && 0 <= j < |SplitWs(s)[i]| ==> !IsBlank(SplitWs(s)[i][j])
    decreases |s|
  {
    if s != [] {
      if IsBlank(s[0]) {
        SplitWsNoBlanks(DropBlanks(s));
      } else {
        SplitWsNoBlanks(s[1..]);
        var t, r := SplitWs(s[1..]), SplitWs(s);
        forall i, j | 0 <= i < |r| && 0 <= j < |r[i]| ensures !IsBlank(r[i][j]) {
          if i == 0 {
            if j > 0 { assert r[0][j] == t[0][j - 1]; }
          } else {
            assert r[i] == t[i];
          }
        }
      }
    }
  }

  /** Tokens that hold no blank are glued to the piece that follows them. */
  lemma {:induction false} SplitWsPrefix(w: string, rest: string)
    requires forall c :: c in w ==> !IsBlank(c)
    ensures SplitWs(w + rest) == [w + SplitWs(rest)[0]] + SplitWs(rest)[1..]
    decreases |w|
  {
    var u := SplitWs(rest);
    if w == [] {
      assert w + rest == rest && w + u[0] == u[0];
      assert u == [u[0]] + u[1..];
    } else {
      var s := w + rest;
      assert s[0] == w[0] && w[0] in w;
      assert s[1..] == w[1..] + rest;
      SplitWsPrefix(w[1..], rest);
      SplitWsWordStep(s);
      assert [w[0]] + (w[1..] + u[0]) == w + u[0];
    }
  }

  /** A piece that starts with a non-blank character continues the first piece of the rest. */
  lemma SplitWsWordStep(s: string)
    requires s != [] && !IsBlank(s[0])
    ensures SplitWs(s) == [[s[0]] + SplitWs(s[1..])[0]] + SplitWs(s[1..])[1..]
  {
  }

  /**
   * Joining blank-free, non-empty tokens with single spaces and splitting the result
   * gives the tokens back.
   */
  lemma {:induction false} SplitWsJoin(ts: seq<string>)
    requires |ts| >= 1
    requires forall i :: 0 <= i < |ts| ==> ts[i] != [] && forall c :: c in ts[i] ==> !IsBlank(c)
    ensures SplitWs(JoinWith(ts, ' ')) == ts
    decreases |ts|
  {
    if |ts| == 1 {
      SplitWsPrefix(ts[0], []);
      assert ts[0] + [] == ts[0];
    } else {
      var j := JoinWith(ts[1..], ' ');
      SplitWsJoin(ts[1..]);
      assert ts[1..][0] == ts[1] && ts[1][0] in ts[1];
      SplitWsAfterBlank(j);
      SplitWsPrefix(ts[0], [' '] + j);
      JoinWithStep(ts, ' ');
      assert ts[0] + "" == ts[0];
      assert ts == [ts[0]] + ts[1..];
    }
  }

  /** Tokens separated by the given runs of blanks: `ts[0] + seps[0] + ts[1] + … + ts[|ts| - 1]`. */
  function JoinRuns(ts: seq<string>, seps: seq<string>): (r: string)
    requires |ts| == |seps| + 1
    decreases |seps|
  {
    if seps == [] then ts[0] else ts[0] + seps[0] + JoinRuns(ts[1..], seps[1..])
  }

  /** A join of non-empty tokens starts with the first token's first character and ends with the last token's last one. */
  lemma {:induction false} JoinRunsEnds(ts: seq<string>, seps: seq<string>)
    requires |ts| == |seps| + 1 && forall i :: 0 <= i < |ts| ==> ts[i] != []
    ensures JoinRuns(ts, seps) != []
    ensures JoinRuns(ts, seps)[0] == ts[0][0]
    ensures JoinRuns(ts, seps)[|JoinRuns(ts, seps)| - 1] == ts[|ts| - 1][|ts[|ts| - 1]| - 1]
    decreases |seps|
  {
    if seps != [] {
      JoinRunsEnds(ts[1..], seps[1..]);
      assert ts[1..][|ts| - 2] == ts[|ts| - 1];
    }
  }

  /** A run of blanks is skipped up to the next non-blank character. */
  lemma {:induction false} DropBlanksRun(run: string, rest: string)
    requires forall c :: c in run ==> IsBlank(c)
    requires rest == [] || !IsBlank(rest[0])
    ensures DropBlanks(run + rest) == rest
    decreases |run|
  {
    if run == [] {
      assert run + rest == rest;
    } else {
      assert run[0] in run;
      assert (run + rest)[1..] == run[1..] + rest;
      DropBlanksRun(run[1..], rest);
    }
  }

  /** A word followed by a run of blanks is one piece, however long the run. */
  lemma SplitWsRun(w: string, run: string, rest: string)
    requires forall c :: c in w ==> !IsBlank(c)
    requires run != [] && forall c :: c in run ==> IsBlank(c)
    requires rest == [] || !IsBlank(rest[0])
    ensures SplitWs(w + run + rest) == [w] + SplitWs(rest)
  {
    var v := run + rest;
    assert run[0] in run && v[0] == run[0];
    DropBlanksRun(run, rest);
    assert SplitWs(v) == [""] + SplitWs(rest);
    SplitWsPrefix(w, v);
    assert w + run + rest == w + v;
    assert w + "" == w;
  }

  /**
   * Joining blank-free, non-empty tokens with any non-empty runs of blanks and splitting
   * the result gives the tokens back.
   */
  lemma {:induction false} SplitWsJoinRuns(ts: seq<string>, seps: seq<string>)
    requires |ts| == |seps| + 1
    requires forall i :: 0 <= i < |ts| ==> ts[i] != [] && forall c :: c in ts[i] ==> !IsBlank(c)
    requires forall i :: 0 <= i < |seps| ==> seps[i] != [] && forall c :: c in seps[i] ==> IsBlank(c)
    ensures SplitWs(JoinRuns(ts, seps)) == ts
    decreases |seps|
  {
    if seps == [] {
      SplitWsPrefix(ts[0], []);
      assert ts[0] + [] == ts[0];
      assert ts == [ts[0]];
    } else {
      var j := JoinRuns(ts[1..], seps[1..]);
      SplitWsJoinRuns(ts[1..], seps[1..]);
      JoinRunsEnds(ts[1..], seps[1..]);
      assert ts[1..][0] == ts[1] && ts[1][0] in ts[1];
      SplitWsRun(ts[0], seps[0], j);
      assert ts == [ts[0]] + ts[1..];
    }
  }

  lemma JoinWithStep(parts: seq<string>, sep: char)
    requires |parts| >= 2
    ensures JoinWith(parts, sep) == parts[0] + ([sep] + JoinWith(parts[1..], sep))
  {
  }

  /** A single blank before a token starts a new piece. */
  lemma SplitWsAfterBlank(j: string)
    requires j != [] && !IsBlank(j[0])
    ensures SplitWs([' '] + j) == [""] + SplitWs(j)
  {
    var v := [' '] + j;
    assert v[1..] == j;
    assert DropBlanks(j) == j;
    assert DropBlanks(v) == j;
  }

  /** `s.split(sep)` for a one-character separator. */
  function SplitOn(s: string, sep: char): (r: seq<string>)
    ensures |r| >= 1
    ensures forall i, j :: 0 <= i < |r| && 0 <= j < |r[i]| ==> r[i][j] != sep
    decreases |s|
  {
    if s == [] then [""]
    else if s[0] == sep then [""] + SplitOn(s[1..], sep)
    else
      var t := SplitOn(s[1..], sep);
      [[s[0]] + t[0]] + t[1..]
  }

  /** `sep.join(parts)` */
  function JoinWith(parts: seq<string>, sep: char): (r: string)
    decreases |parts|
  {
    if parts == [] then ""
    else if |parts| == 1 then parts[0]
    else parts[0] + [sep] + JoinWith(parts[1..], sep)
  }

  lemma JoinWithCons(x: string, parts: seq<string>, sep: char)
    requires |parts| >= 1
    ensures JoinWith([x + parts[0]] + parts[1..], sep) == x + JoinWith(parts, sep)
  {
    var q := [x + parts[0]] + parts[1..];
    assert q[1..] == parts[1..];
  }

  /** A join of non-empty parts starts with the first part's first character and ends with the last part's last one. */
  lemma {:induction false} JoinWithEnds(parts: seq<string>, sep: char)
    requires |parts| >= 1 && forall i :: 0 <= i < |parts| ==> parts[i] != []
    ensures JoinWith(parts, sep) != []
    ensures JoinWith(parts, sep)[0] == parts[0][0]
    ensures JoinWith(parts, sep)[|JoinWith(parts, sep)| - 1] == parts[|parts| - 1][|parts[|parts| - 1]| - 1]
    decreases |parts|
  {
    if |parts| > 1 {
      JoinWithEnds(parts[1..], sep);
      assert parts[1..][|parts| - 2] == parts[|parts| - 1];
    }
  }

  /** Splitting on a separator and joining the pieces with it gives the string back. */
  lemma {:induction false} SplitOnJoin(s: string, sep: char)
    ensures JoinWith(SplitOn(s, sep), sep) == s
    decreases |s|
  {
    if s == [] {
    } else if s[0] == sep {
      var t := SplitOn(s[1..], sep);
      SplitOnJoin(s[1..], sep);
      assert ([""] + t)[1..] == t;
      assert s == [sep] + s[1..];
    } else {
      var t := SplitOn(s[1..], sep);
      SplitOnJoin(s[1..], sep);
      JoinWithCons([s[0]], t, sep);
      assert s == [s[0]] + s[1..];
    }
  }

  predicate StartsWith(s: string, prefix: string)
  {
    |prefix| <= |s| && s[..|prefix|] == prefix
  }

  /** `s.endswith(suffix)` */
  predicate EndsWith(s: string, suffix: string)
  {
    |suffix| <= |s| && s[|s| - |suffix|..] == suffix
  }

  /** A string that ends with `suffix` is what comes before it followed by `suffix`. */
  lemma EndsWithSplit(s: string, suffix: string)
    requires EndsWith(s, suffix)
    ensures s == s[..|s| - |suffix|] + suffix
  {
  }

  /** Every string ends with what was appended to it. */
  lemma EndsWithAppend(s: string, suffix: string)
    ensures EndsWith(s + suffix, suffix)
  {
    assert (s + suffix)[|s|..] == suffix;
  }

  predicate OccursAt(s: string, p: string, i: int)
  {
    0 <= i && i + |p| <= |s| && s[i..i + |p|] == p
  }

  /** `p in s` */
  predicate Contains(s: string, p: string)
  {
    exists i :: 0 <= i <= |s| && OccursAt(s, p, i)
  }

  /** The first index of `c` in `s`. */
  function IndexOf(s: string, c: char): (r: Option<nat>)
    ensures r.None? ==> c !in s
    ensures r.Some? ==> r.value < |s| && s[r.value] == c && c !in s[..r.value]
    decreases |s|
  {
    if s == [] then None
    else if s[0] == c then Some(0)
    else match IndexOf(s[1..], c)
      case None => None
      case Some(k) => assert s[1..][..k] == s[1..k + 1]; Some(k + 1)
  }

  lemma {:induction false} IndexOfFirst(s: string, c: char, m: nat)
    requires m < |s| && s[m] == c && c !in s[..m]
    ensures IndexOf(s, c) == Some(m)
    decreases m
  {
    if m > 0 {
      assert s[0] == s[..m][0];
      assert s[1..][..m - 1] == s[1..m];
      IndexOfFirst(s[1..], c, m - 1);
    }
  }

  /**
   * `s.replace(p, rep)` for a non-empty `p`: scanning from the left, every occurrence
   * that does not overlap one already replaced becomes `rep`.
   */
  function Replace(s: string, p: string, rep: string): (r: string)
    requires p != []
    ensures |rep| <= |p| ==> |r| <= |s|
    decreases |s|
  {
    if |s| < |p| then s
    else if s[..|p|] == p then rep + Replace(s[|p|..], p, rep)
    else [s[0]] + Replace(s[1..], p, rep)
  }

  lemma OccursAtShift(s: string, p: string, k: nat, i: int)
    requires k <= |s| && 0 <= i
    ensures OccursAt(s[k..], p, i) <==> OccursAt(s, p, i + k)
  {
    if i + |p| <= |s| - k {
      assert s[k..][i..i + |p|] == s[i + k..i + k + |p|];
    }
  }

  /** A string without an occurrence of `p` is left as it is. */
  lemma {:induction false} ReplaceAbsent(s: string, p: string, rep: string)
    requires p != [] && !Contains(s, p)
    ensures Replace(s, p, rep) == s
    decreases |s|
  {
    if |s| >= |p| {
      assert !OccursAt(s, p, 0);
      forall i | 0 <= i <= |s[1..]| ensures !OccursAt(s[1..], p, i) {
        OccursAtShift(s, p, 1, i);
      }
      ReplaceAbsent(s[1..], p, rep);
      assert s == [s[0]] + s[1..];
    }
  }

  /**
   * When every occurrence of `p`'s first character in `s` begins an occurrence of `p`,
   * and `rep` does not contain that character, the result contains neither it nor `p`.
   */
  lemma ReplaceClears(s: string, p: string, rep: string)
    requires p != [] && p[0] !in rep
    requires forall i :: 0 <= i < |s| && s[i] == p[0] ==> OccursAt(s, p, i)
    ensures p[0] !in Replace(s, p, rep)
    ensures !Contains(Replace(s, p, rep), p)
  {
    ReplaceDropsFirstChar(s, p, rep);
    var r := Replace(s, p, rep);
    forall i | 0 <= i <= |r| ensures !OccursAt(r, p, i) {
      if i < |r| { assert r[i] != p[0]; }
    }
  }

  lemma {:induction false} ReplaceDropsFirstChar(s: string, p: string, rep: string)
    requires p != [] && p[0] !in rep
    requires forall i :: 0 <= i < |s| && s[i] == p[0] ==> OccursAt(s, p, i)
    ensures p[0] !in Replace(s, p, rep)
    decreases |s|
  {
    if |s| < |p| {
      forall i | 0 <= i < |s| ensures s[i] != p[0] {
        assert !OccursAt(s, p, i);
      }
    } else if s[..|p|] == p {
      var t := s[|p|..];
      forall i | 0 <= i < |t| && t[i] == p[0] ensures OccursAt(t, p, i) {
        assert s[i + |p|] == t[i];
        OccursAtShift(s, p, |p|, i);
      }
      ReplaceDropsFirstChar(t, p, rep);
    } else {
      var t := s[1..];
      assert !OccursAt(s, p, 0);
      assert s[0] != p[0];
      forall i | 0 <= i < |t| && t[i] == p[0] ensures OccursAt(t, p, i) {
        assert s[i + 1] == t[i];
        OccursAtShift(s, p, 1, i);
      }
      ReplaceDropsFirstChar(t, p, rep);
    }
  }

  /**
   * When `p`'s first character does not recur in it, no occurrence of `p` straddles the
   * end of a string free of `p` and the start of an occurrence: replacing in the whole
   * leaves the first part as it is.
   */
  lemma {:induction false} ReplaceBeforeOccurrence(s: string, x: string, p: string, rep: string)
    requires p != [] && p[0] !in p[1..]
    requires !Contains(s, p) && StartsWith(x, p)
    ensures Replace(s + x, p, rep) == s + Replace(x, p, rep)
    decreases |s|
  {
    if s == [] {
      assert s + x == x;
    } else {
      var t := s + x;
      NoOccurrenceAtFront(s, x, p);
      ReplaceSkips(t, p, rep);
      AbsentFromTail(s, p);
      ReplaceBeforeOccurrence(s[1..], x, p, rep);
      assert t[0] == s[0] && t[1..] == s[1..] + x;
      assert s == [s[0]] + s[1..];
    }
  }

  /** With the conditions above, no occurrence of `p` starts at the front of `s + x`. */
  lemma NoOccurrenceAtFront(s: string, x: string, p: string)
    requires p != [] && p[0] !in p[1..]
    requires s != [] && !Contains(s, p) && StartsWith(x, p)
    ensures |s + x| >= |p| && (s + x)[..|p|] != p
  {
    var t := s + x;
    if |s| >= |p| {
      assert !OccursAt(s, p, 0);
      assert t[..|p|] == s[..|p|];
    } else {
      assert t[|s|] == x[0] == p[0];
      assert p[|s|] == p[1..][|s| - 1];
      assert t[..|p|][|s|] != p[|s|];
    }
  }

  /** Where no occurrence starts, the first character is kept and the scan moves on. */
  lemma ReplaceSkips(t: string, p: string, rep: string)
    requires p != [] && |t| >= |p| && t[..|p|] != p
    ensures Replace(t, p, rep) == [t[0]] + Replace(t[1..], p, rep)
  {
  }

  /** Dropping the first character cannot create an occurrence. */
  lemma AbsentFromTail(s: string, p: string)
    requires s != [] && !Contains(s, p)
    ensures !Contains(s[1..], p)
  {
    forall i | 0 <= i <= |s[1..]| ensures !OccursAt(s[1..], p, i) {
      OccursAtShift(s, p, 1, i);
    }
  }

  /**
   * A single occurrence between two texts free of `p` is the only thing replaced, provided
   * `p`'s first character does not recur in it.
   */
  lemma ReplaceSingle(a: string, p: string, rep: string, b: string)
    requires p != [] && p[0] !in p[1..]
    requires !Contains(a, p) && !Contains(b, p)
    ensures Replace(a + p + b, p, rep) == a + rep + b
  {
    assert a + p + b == a + (p + b);
    ReplaceBeforeOccurrence(a, p + b, p, rep);
    ReplaceLeading(b, p, rep);
    ReplaceAbsent(b, p, rep);
    assert a + (rep + b) == a + rep + b;
  }

  /** An occurrence at the start is replaced and the scan goes on after it. */
  lemma ReplaceLeading(x: string, p: string, rep: string)
    requires p != []
    ensures Replace(p + x, p, rep) == rep + Replace(x, p, rep)
  {
    assert (p + x)[..|p|] == p;
    assert (p + x)[|p|..] == x;
  }

  /** `posixpath.join(a, b)`: an absolute `b` replaces `a`; otherwise one `/` separates them. */
  function Join(a: string, b: string): (r: string)
    ensures EndsWith(r, b)
    ensures (b == [] || b[0] != '/') ==> StartsWith(r, a)
    ensures a != [] && a[|a| - 1] != '/' && (b == [] || b[0] != '/') ==> StartsWith(r, a + "/")
  {
    if b != [] && b[0] == '/' then b
    else if a == [] || a[|a| - 1] == '/' then a + b
    else a + "/" + b
  }
}

/**
 * The two regular expressions of the template engine, `TemplatePattern`
 * (`^\$template\((.*)\)$`) and `KeywordPattern` (`\$\{([^}]+)\}`), written out as
 * functions on strings.
 */
module Patterns {
  import opened Wrappers
  import opened Strings

  const TemplateOpen: string := "$template("

  /**
   * `TemplatePattern.match(t)` with its group 1. `.` does not match a newline, so the
   * body of a directive is everything between `$template(` and the last `)` provided it
   * holds no `\n`.
   */
  function MatchTemplate(t: string): (r: Option<string>)
    ensures r.Some? ==> t == TemplateOpen + r.value + ")" && '\n' !in r.value
  {
    var n := |TemplateOpen|;
    if |t| > n && t[..n] == TemplateOpen && t[|t| - 1] == ')' && '\n' !in t[n..|t| - 1] then
      assert t == t[..n] + t[n..|t| - 1] + [t[|t| - 1]];
      Some(t[n..|t| - 1])
    else None
  }

  /** Every `$template(<body>)` with a one-line body is a directive with that body. */
  lemma MatchTemplateComplete(body: string)
    requires '\n' !in body
    ensures MatchTemplate(TemplateOpen + body + ")") == Some(body)
  {
    var t := TemplateOpen + body + ")";
    assert t[..|TemplateOpen|] == TemplateOpen;
    assert t[|TemplateOpen|..|t| - 1] == body;
  }

  /**
   * `KeywordPattern` anchored at the start of `s`: `Some(n)` when `s` begins with `${`,
   * then `n >= 1` characters other than `}`, then `}`; `n` is the length of the group.
   */
  function RefAt(s: string): (r: Option<nat>)
    ensures r.Some? ==> 0 < r.value && r.value + 3 <= |s| && s[..2] == "${"
                        && s[r.value + 2] == '}' && '}' !in s[2..r.value + 2]
  {
    if |s| >= 2 && s[0] == '$' && s[1] == '{' then
      match IndexOf(s[2..], '}')
      case Some(j) =>
        assert s[2..][..j] == s[2..j + 2];
        if j > 0 then Some(j) else None
      case None => None
    else None
  }

  /** A reference `${k}` with a non-empty `k` free of `}` is recognised with its full length. */
  lemma RefAtComplete(k: string, rest: string)
    requires k != [] && '}' !in k
    ensures RefAt("${" + k + "}" + rest) == Some(|k|)
  {
    var s := "${" + k + "}" + rest;
    assert s[2..] == k + "}" + rest;
    assert s[2..][|k|] == '}';
    assert s[2..][..|k|] == k;
    IndexOfFirst(s[2..], '}', |k|);
  }

  /** `KeywordPattern.findall(s)[0]`: the group of the leftmost reference, if any. */
  function FirstKeyword(s: string): (r: Option<string>)
    ensures r.None? <==> forall i :: 0 <= i < |s| ==> RefAt(s[i..]).None?
    ensures r.Some? ==> r.value != [] && '}' !in r.value
    decreases |s|
  {
    if s == [] then None
    else match RefAt(s)
      case Some(j) => assert s[0..] == s; Some(s[2..j + 2])
      case None =>
        assert s[0..] == s;
        assert forall i :: 1 <= i < |s| ==> s[i..] == s[1..][i - 1..];
        FirstKeyword(s[1..])
  }

  /**
   * The keyword is the group of the leftmost reference: when `s[i..]` begins with a
   * reference and no earlier position does, that reference's group is the keyword.
   */
  lemma FirstKeywordLeftmost(s: string, i: nat, n: nat)
    requires i < |s| && RefAt(s[i..]) == Some(n)
    requires forall k :: 0 <= k < i ==> RefAt(s[k..]).None?
    ensures FirstKeyword(s) == Some(s[i + 2..i + 2 + n])
  {
    FirstKeywordFrom(s, 0, i, n);
    assert s[0..] == s;
  }

  /** The scan from position `p` reaches the reference at `i` and takes its group. */
  lemma {:induction false} FirstKeywordFrom(s: string, p: nat, i: nat, n: nat)
    requires p <= i < |s| && RefAt(s[i..]) == Some(n)
    requires forall k :: p <= k < i ==> RefAt(s[k..]).None?
    ensures FirstKeyword(s[p..]) == Some(s[i + 2..i + 2 + n])
    decreases i - p
  {
    if p == i {
      FirstKeywordAtFront(s[p..]);
      assert s[p..][2..2 + n] == s[i + 2..i + 2 + n];
    } else {
      FirstKeywordSkip(s[p..]);
      assert s[p..][1..] == s[p + 1..];
      FirstKeywordFrom(s, p + 1, i, n);
    }
  }

  lemma FirstKeywordAtFront(s: string)
    requires s != [] && RefAt(s).Some?
    ensures FirstKeyword(s) == Some(s[2..2 + RefAt(s).value])
  {
    assert s[0..] == s;
  }

  lemma FirstKeywordSkip(s: string)
    requires s != [] && RefAt(s).None?
    ensures FirstKeyword(s) == FirstKeyword(s[1..])
  {
    assert s[0..] == s;
  }

  /**
   * `re.sub(KeywordPattern, rep, s)`: every reference, scanning from the left, becomes
   * `rep`; every character of the result comes from `s` or from `rep`.
   */
  function SubRefs(s: string, rep: string): (r: string)
    ensures forall c :: c in r ==> c in s || c in rep
    decreases |s|
  {
    if s == [] then []
    else match RefAt(s)
      case Some(j) =>
        var t := s[j + 3..];
        assert forall c :: c in t ==> c in s;
        rep + SubRefs(t, rep)
      case None =>
        var t := s[1..];
        assert forall c :: c in t ==> c in s;
        [s[0]] + SubRefs(t, rep)
  }

  /**
   * Text before the leftmost reference is copied as it is, a `$` that starts no reference
   * included; that reference becomes `rep`, and the scan goes on after it.
   */
  lemma {:induction false} SubRefsAtLeftmost(s: string, p: nat, i: nat, n: nat, rep: string)
    requires p <= i < |s| && RefAt(s[i..]) == Some(n)
    requires forall k :: p <= k < i ==> RefAt(s[k..]).None?
    ensures SubRefs(s[p..], rep) == s[p..i] + rep + SubRefs(s[i + n + 3..], rep)
    decreases i - p
  {
    if p == i {
      SubRefsRefStep(s, i, n, rep);
      assert s[p..i] == [];
    } else {
      SubRefsAtLeftmost(s, p + 1, i, n, rep);
      SubRefsCharStep(s, p, i, rep, SubRefs(s[i + n + 3..], rep));
    }
  }

  lemma SubRefsRefStep(s: string, i: nat, n: nat, rep: string)
    requires i < |s| && RefAt(s[i..]) == Some(n)
    ensures i + n + 3 <= |s| && SubRefs(s[i..], rep) == rep + SubRefs(s[i + n + 3..], rep)
  {
    assert s[i..][n + 3..] == s[i + n + 3..];
  }

  /** One character that starts no reference is copied in front of the rest of the scan. */
  lemma SubRefsCharStep(s: string, p: nat, i: nat, rep: string, tail: string)
    requires p < i <= |s| && RefAt(s[p..]).None?
    requires SubRefs(s[p + 1..], rep) == s[p + 1..i] + rep + tail
    ensures SubRefs(s[p..], rep) == s[p..i] + rep + tail
  {
    var t := s[p..];
    assert t[1..] == s[p + 1..];
    assert t[0] == s[p];
    assert s[p..i] == [s[p]] + s[p + 1..i];
  }

  /** A body without a reference is not changed by the substitution. */
  lemma {:induction false} SubRefsNoRef(s: string, rep: string)
    requires FirstKeyword(s).None?
    ensures SubRefs(s, rep) == s
    decreases |s|
  {
    if s != [] {
      assert s[0..] == s;
      assert FirstKeyword(s[1..]).None?;
      SubRefsNoRef(s[1..], rep);
      assert s == [s[0]] + s[1..];
    }
  }

  /**
   * Every reference is replaced, not only the first: when each `$` of `s` begins a
   * reference and `rep` has no `$`, no `$` and hence no reference is left.
   */
  lemma {:induction false} SubRefsClears(s: string, rep: string)
    requires '$' !in rep
    requires forall i :: 0 <= i < |s| && s[i] == '$' ==> RefAt(s[i..]).Some?
    ensures '$' !in SubRefs(s, rep)
    ensures FirstKeyword(SubRefs(s, rep)).None?
    decreases |s|
  {
    var r := SubRefs(s, rep);
    if s != [] {
      assert s[0..] == s;
      match RefAt(s)
      case Some(j) =>
        var t := s[j + 3..];
        forall i | 0 <= i < |t| && t[i] == '$' ensures RefAt(t[i..]).Some? {
          assert s[i + j + 3] == '$';
          assert s[i + j + 3..] == t[i..];
        }
        SubRefsClears(t, rep);
      case None =>
        var t := s[1..];
        forall i | 0 <= i < |t| && t[i] == '$' ensures RefAt(t[i..]).Some? {
          assert s[i + 1] == '$';
          assert s[i + 1..] == t[i..];
        }
        SubRefsClears(t, rep);
    }
    forall i | 0 <= i < |r| ensures RefAt(r[i..]).None? {
      assert r[i..][0] == r[i];
    }
  }

  /** A reference at the front is replaced and the scan goes on after it. */
  lemma SubRefsLeadingRef(k: string, rest: string, rep: string)
    requires k != [] && '}' !in k
    ensures SubRefs("${" + k + "}" + rest, rep) == rep + SubRefs(rest, rep)
  {
    RefAtComplete(k, rest);
    assert ("${" + k + "}" + rest)[|k| + 3..] == rest;
  }

  /** Only a `$` can begin a reference. */
  lemma RefAtDollar(s: string)
    requires s != [] && s[0] != '$'
    ensures RefAt(s).None?
  {
  }

  /** Text without a `$` is copied and the scan goes on after it. */
  lemma {:induction false} SubRefsPlainPrefix(m: string, rest: string, rep: string)
    requires '$' !in m
    ensures SubRefs(m + rest, rep) == m + SubRefs(rest, rep)
    decreases |m|
  {
    if m == [] {
      assert m + rest == rest;
    } else {
      var s := m + rest;
      assert s[0] == m[0] && m[0] in m;
      RefAtDollar(s);
      assert s[1..] == m[1..] + rest;
      SubRefsPlainPrefix(m[1..], rest, rep);
      assert m == [m[0]] + m[1..];
    }
  }

  /**
   * Every reference is replaced, not only the first: of two references separated by
   * text without a `$`, both become `rep`.
   */
  lemma SubRefsEveryReference(k1: string, m: string, k2: string, rep: string)
    requires k1 != [] && '}' !in k1 && k2 != [] && '}' !in k2
    requires '$' !in m
    ensures SubRefs("${" + k1 + "}" + m + "${" + k2 + "}", rep) == rep + m + rep
  {
    var s := "${" + k1 + "}" + m + "${" + k2 + "}";
    var second := "${" + k2 + "}";
    assert s == "${" + k1 + "}" + (m + second);
    SubRefsTwo(s, k1, m, k2, rep);
  }

  lemma SubRefsTwo(s: string, k1: string, m: string, k2: string, rep: string)
    requires k1 != [] && '}' !in k1 && k2 != [] && '}' !in k2
    requires '$' !in m
    requires s == "${" + k1 + "}" + (m + ("${" + k2 + "}"))
    ensures SubRefs(s, rep) == rep + m + rep
  {
    var second := "${" + k2 + "}";
    SubRefsLeadingRef(k1, m + second, rep);
    SubRefsPlainPrefix(m, second, rep);
    SubRefsLeadingRef(k2, "", rep);
    assert second + "" == second;
  }
}

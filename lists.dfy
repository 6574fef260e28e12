/**
 * Lists of strings: `list(dict.fromkeys(s))`, the elements of `s` without repeats in
 * first-occurrence order, and the concatenation of a list of lists.
 */
module Lists {

  predicate NoDups(s: seq<string>)
  {
    forall i, j :: 0 <= i < j < |s| ==> s[i] != s[j]
  }

  /** The position of the first occurrence of `x` (`s.index(x)`). */
  function FirstIndex(s: seq<string>, x: string): (k: nat)
    requires x in s
    ensures k < |s| && s[k] == x && x !in s[..k]
    decreases |s|
  {
    if s[0] == x then 0
    else
      var k := FirstIndex(s[1..], x);
      assert s[1..][..k] == s[1..k + 1];
      k + 1
  }

  lemma FirstIndexPrefix(s: seq<string>, n: nat, x: string)
    requires n <= |s| && x in s[..n]
    ensures FirstIndex(s, x) == FirstIndex(s[..n], x)
  {
    var a, b := FirstIndex(s, x), FirstIndex(s[..n], x);
    assert s[..n][b] == s[b];
    forall k | 0 <= k < a ensures s[k] != x {
      assert s[k] == s[..a][k];
    }
    forall k | 0 <= k < b ensures s[k] != x {
      assert s[k] == s[..n][..b][k];
    }
  }

  function Dedup(s: seq<string>): (r: seq<string>)
    ensures NoDups(r)
    ensures forall x :: x in r <==> x in s
    decreases |s|
  {
    if s == [] then []
    else
      var t := Dedup(s[..|s| - 1]);
      var x := s[|s| - 1];
      assert s == s[..|s| - 1] + [x];
      if x in t then t else t + [x]
  }

  /** The kept elements appear in the order of their first occurrences in `s`. */
  lemma {:induction false} DedupFirstOrder(s: seq<string>)
    ensures forall i, j :: 0 <= i < j < |Dedup(s)| ==> FirstIndex(s, Dedup(s)[i]) < FirstIndex(s, Dedup(s)[j])
    decreases |s|
  {
    if s != [] {
      var n := |s| - 1;
      var p, x := s[..n], s[n];
      var t, r := Dedup(p), Dedup(s);
      DedupFirstOrder(p);
      forall y | y in t ensures FirstIndex(s, y) == FirstIndex(p, y) && FirstIndex(p, y) < n {
        FirstIndexPrefix(s, n, y);
      }
      if x !in t {
        assert x !in p;
        assert FirstIndex(s, x) == n;
      }
      forall i, j | 0 <= i < j < |r| ensures FirstIndex(s, r[i]) < FirstIndex(s, r[j]) {
        assert r[i] in t;
        if j < |t| {
          assert r[i] == t[i] && r[j] == t[j];
        }
      }
    }
  }

  /** The chunks in order, one list after another. */
  function Concat(chunks: seq<seq<string>>): (r: seq<string>)
    decreases |chunks|
  {
    if chunks == [] then [] else chunks[0] + Concat(chunks[1..])
  }

  /** Concatenating a longer list is concatenating its parts. */
  lemma {:induction false} ConcatAppend(a: seq<seq<string>>, b: seq<seq<string>>)
    ensures Concat(a + b) == Concat(a) + Concat(b)
    decreases |a|
  {
    if a == [] {
      assert a + b == b;
    } else {
      assert (a + b)[1..] == a[1..] + b;
      ConcatAppend(a[1..], b);
    }
  }

  /** One more chunk goes at the end. */
  lemma ConcatLast(a: seq<seq<string>>, x: seq<string>)
    ensures Concat(a + [x]) == Concat(a) + x
  {
    ConcatAppend(a, [x]);
    assert [x][1..] == [];
  }

  /** The first `i + 1` chunks: the first `i`, then chunk `i`. */
  lemma ConcatStep(chunks: seq<seq<string>>, i: nat)
    requires i < |chunks|
    ensures Concat(chunks[..i + 1]) == Concat(chunks[..i]) + chunks[i]
  {
    assert chunks[..i + 1] == chunks[..i] + [chunks[i]];
    ConcatLast(chunks[..i], chunks[i]);
  }

  /** Singleton chunks concatenate to the lines they hold. */
  lemma {:induction false} ConcatSingletons(chunks: seq<seq<string>>, lines: seq<string>)
    requires |chunks| == |lines|
    requires forall i :: 0 <= i < |lines| ==> chunks[i] == [lines[i]]
    ensures Concat(chunks) == lines
    decreases |lines|
  {
    if lines != [] {
      forall i | 0 <= i < |lines| - 1 ensures chunks[1..][i] == [lines[1..][i]] {
        assert chunks[1..][i] == chunks[i + 1];
      }
      ConcatSingletons(chunks[1..], lines[1..]);
      assert lines == [lines[0]] + lines[1..];
    }
  }

  /** Every element of a chunk is in the concatenation. */
  lemma ConcatHas(chunks: seq<seq<string>>, k: nat, x: string)
    requires k < |chunks| && x in chunks[k]
    ensures x in Concat(chunks)
  {
    var a, b := chunks[..k], chunks[k..];
    assert chunks == a + b;
    assert b[0] == chunks[k];
    ConcatAppend(a, b);
  }
}

/** Python string operations the bursar transfer relies on: `startswith` and `str.replace`. */
module Strings {
  import opened SeqFacts

  predicate StartsWith(s: string, prefix: string)
  {
    |prefix| <= |s| && s[..|prefix|] == prefix
  }

  /** `pat` occurs in `s` starting at position `i`. */
  predicate OccursAt(pat: string, s: string, i: int)
  {
    0 <= i && i + |pat| <= |s| && s[i..i + |pat|] == pat
  }

  /** `pat` occurs somewhere in `s`. */
  predicate Occurs(pat: string, s: string)
  {
    exists i :: 0 <= i <= |s| && OccursAt(pat, s, i)
  }

  /** Python's `s.replace("", rep)`: `rep` before every character and at the end. */
  function InsertEverywhere(s: string, rep: string): (r: string)
    ensures |r| == |s| + (|s| + 1) * |rep|
  {
    if s == [] then rep else rep + [s[0]] + InsertEverywhere(s[1..], rep)
  }

  /** Where the copy of `rep` before the `i`-th character starts in `InsertEverywhere(s, rep)`:
      each earlier character comes with its own copy, so this is `i * (|rep| + 1)`. */
  function Stride(rep: string, i: nat): nat
  {
    if i == 0 then 0 else Stride(rep, i - 1) + |rep| + 1
  }

  lemma {:induction false} StrideIsProduct(rep: string, i: nat)
    ensures Stride(rep, i) == i * (|rep| + 1)
  {
    if i > 0 {
      StrideIsProduct(rep, i - 1);
    }
  }

  /** `InsertEverywhere` keeps the characters of `s` in order, each one right after a copy of `rep`. */
  lemma {:induction false} InsertEverywhereKeeps(s: string, rep: string)
    ensures forall i :: 0 <= i < |s| ==>
              Stride(rep, i) + |rep| < |InsertEverywhere(s, rep)| &&
              InsertEverywhere(s, rep)[Stride(rep, i) + |rep|] == s[i]
  {
    if s != [] {
      var r := InsertEverywhere(s, rep);
      var rest := InsertEverywhere(s[1..], rep);
      InsertEverywhereKeeps(s[1..], rep);
      assert r == (rep + [s[0]]) + rest;
      forall i | 0 < i < |s|
        ensures Stride(rep, i) + |rep| < |r| && r[Stride(rep, i) + |rep|] == s[i]
      {
        assert s[i] == s[1..][i - 1];
        assert r[Stride(rep, i) + |rep|] == rest[Stride(rep, i - 1) + |rep|];
      }
    }
  }

  /** ... and puts a whole copy of `rep` before each of them and one at the end. */
  lemma {:induction false} InsertEverywhereCopies(s: string, rep: string)
    ensures forall i :: 0 <= i <= |s| ==>
              Stride(rep, i) + |rep| <= |InsertEverywhere(s, rep)| &&
              InsertEverywhere(s, rep)[Stride(rep, i)..Stride(rep, i) + |rep|] == rep
  {
    var r := InsertEverywhere(s, rep);
    if s != [] {
      var lead := rep + [s[0]];
      var rest := InsertEverywhere(s[1..], rep);
      InsertEverywhereCopies(s[1..], rep);
      assert r == lead + rest;
      assert r[..|rep|] == rep;
      forall i | 0 < i <= |s|
        ensures Stride(rep, i) + |rep| <= |r| && r[Stride(rep, i)..Stride(rep, i) + |rep|] == rep
      {
        var at := Stride(rep, i - 1);
        SliceOfAppend(lead, rest, |lead| + at, |lead| + at + |rep|);
      }
    }
  }

  /** Python's `s.replace(pat, rep)`: every occurrence of `pat`, scanning left to right
      without overlaps, is replaced by `rep`. */
  function ReplaceAll(s: string, pat: string, rep: string): (r: string)
    ensures pat != [] && |rep| == |pat| ==> |r| == |s|
    decreases |s|
  {
    if pat == [] then InsertEverywhere(s, rep)
    else if |s| < |pat| then s
    else if s[..|pat|] == pat then rep + ReplaceAll(s[|pat|..], pat, rep)
    else [s[0]] + ReplaceAll(s[1..], pat, rep)
  }

  /** A string without an occurrence of `pat` is left as it is. */
  lemma {:induction false} ReplaceAllAbsent(s: string, pat: string, rep: string)
    requires pat != [] && !Occurs(pat, s)
    ensures ReplaceAll(s, pat, rep) == s
    decreases |s|
  {
    if |s| >= |pat| {
      assert !OccursAt(pat, s, 0);
      assert s[0..0 + |pat|] == s[..|pat|];
      forall i | 0 <= i
        ensures !OccursAt(pat, s[1..], i)
      {
        assert !OccursAt(pat, s, i + 1);
        if i + |pat| <= |s[1..]| {
          assert s[1..][i..i + |pat|] == s[i + 1..i + 1 + |pat|];
        }
      }
      ReplaceAllAbsent(s[1..], pat, rep);
    }
  }

  /** Text before the first character of `pat` is copied unchanged. */
  lemma {:induction false} ReplaceAllSkipsLead(a: string, b: string, pat: string, rep: string)
    requires pat != [] && pat[0] !in a
    ensures ReplaceAll(a + b, pat, rep) == a + ReplaceAll(b, pat, rep)
    decreases |a|
  {
    if a != [] {
      var s := a + b;
      ConsAppend(a, b);
      if |s| >= |pat| {
        assert s[..|pat|][0] != pat[0];
      }
      ReplaceAllSkipsLead(a[1..], b, pat, rep);
    } else {
      AppendEmpty(b);
    }
  }

  /** An occurrence of `pat` at the front is replaced, and the scan resumes after it. */
  lemma ReplaceAllAtFront(pat: string, b: string, rep: string)
    requires pat != []
    ensures ReplaceAll(pat + b, pat, rep) == rep + ReplaceAll(b, pat, rep)
  {
    var s := pat + b;
    assert s[..|pat|] == pat && s[|pat|..] == b;
  }
}

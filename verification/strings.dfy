// Library operations on strings and sequences that the bridge relies on.

module Strings {
  datatype Option<+T> = None | Some(value: T)

  datatype Result<+T> = Ok(value: T) | Err(error: string)

  predicate StartsWith(s: string, p: string)
    ensures StartsWith(s, p) && p != "" ==> s != "" && s[0] == p[0]
  {
    |p| <= |s| && s[..|p|] == p
  }

  // The global literal replacement `s.replace(/p/g, rep)`: leftmost, non-overlapping.
  function ReplaceAll(s: string, p: string, rep: string): string
    requires p != ""
    decreases |s|
  {
    if s == "" then ""
    else if StartsWith(s, p) then rep + ReplaceAll(s[|p|..], p, rep)
    else [s[0]] + ReplaceAll(s[1..], p, rep)
  }

  function Reversed<T>(s: seq<T>): (r: seq<T>)
    ensures |r| == |s|
    ensures forall k :: 0 <= k < |s| ==> r[k] == s[|s| - 1 - k]
  {
    if s == [] then [] else Reversed(s[1..]) + [s[0]]
  }

  lemma Associates(a: string, b: string, c: string)
    ensures a + b + c == a + (b + c)
  {
  }

  // A part of the text that does not contain the first character of the pattern is copied.
  lemma ReplaceSkips(a: string, b: string, p: string, rep: string)
    requires p != "" && p[0] !in a
    ensures ReplaceAll(a + b, p, rep) == a + ReplaceAll(b, p, rep)
  {
    ClearText(a, b, p);
    ReplaceAllClear(a, b, p, rep);
  }

  lemma ReplaceAbsent(a: string, p: string, rep: string)
    requires p != "" && p[0] !in a
    ensures ReplaceAll(a, p, rep) == a
  {
  }

  lemma StartsWithConcat(p: string, b: string)
    ensures StartsWith(p + b, p) && (p + b)[|p|..] == b
  {
  }

  // String.prototype.indexOf: the first occurrence at or after i, or -1.
  function IndexOf(s: string, p: string, i: nat): (r: int)
    requires i <= |s|
    ensures r == -1 || (i <= r <= |s| && StartsWith(s[r..], p))
    ensures r == i <==> StartsWith(s[i..], p)
    decreases |s| - i
  {
    if StartsWith(s[i..], p) then i
    else if i == |s| then -1
    else IndexOf(s, p, i + 1)
  }

  lemma {:induction false} IndexOfFirst(s: string, p: string, from: nat, i: nat)
    requires from <= i <= |s| && StartsWith(s[i..], p)
    requires forall k :: from <= k < i ==> !StartsWith(s[k..], p)
    ensures IndexOf(s, p, from) == i
    decreases i - from
  {
    if from < i { IndexOfFirst(s, p, from + 1, i); }
  }

  // s with the len characters at i replaced.
  function Splice(s: string, i: nat, len: nat, rep: string): (r: string)
    requires i + len <= |s|
    ensures |r| == |s| - len + |rep|
  {
    s[..i] + rep + s[i + len..]
  }

  // String.prototype.replace with a string pattern: the first occurrence only.
  function ReplaceFirst(s: string, p: string, rep: string): string {
    var i := IndexOf(s, p, 0);
    if i == -1 then s else Splice(s, i, |p|, rep)
  }

  // The pattern does not start inside a, even with b behind it.
  ghost predicate Clear(a: string, b: string, p: string) {
    forall k :: 0 <= k < |a| ==> !StartsWith((a + b)[k..], p)
  }

  lemma {:induction false} ReplaceAllClear(a: string, b: string, p: string, rep: string)
    requires p != "" && Clear(a, b, p)
    ensures ReplaceAll(a + b, p, rep) == a + ReplaceAll(b, p, rep)
  {
    hide StartsWith;
    if a == "" {
      assert a + b == b;
    } else {
      ClearTail(a, b, p);
      ReplaceAllClear(a[1..], b, p, rep);
      assert (a + b)[0..] == a + b && (a + b)[0] == a[0] && (a + b)[1..] == a[1..] + b;
      Associates([a[0]], a[1..], ReplaceAll(b, p, rep));
      assert [a[0]] + a[1..] == a;
    }
  }

  lemma ClearTail(a: string, b: string, p: string)
    requires a != "" && Clear(a, b, p)
    ensures Clear(a[1..], b, p)
  {
    hide StartsWith;
    forall k | 0 <= k < |a[1..]|
      ensures !StartsWith((a[1..] + b)[k..], p)
    {
      assert (a + b)[k + 1..] == (a[1..] + b)[k..];
    }
  }

  lemma ReplaceAllHere(p: string, b: string, rep: string)
    requires p != ""
    ensures ReplaceAll(p + b, p, rep) == rep + ReplaceAll(b, p, rep)
  {
  }

  // The pattern is found right behind a.
  lemma ReplaceFirstHere(a: string, p: string, b: string, rep: string)
    requires Clear(a, p + b, p)
    ensures ReplaceFirst(a + (p + b), p, rep) == a + (rep + b)
  {
    var s := a + (p + b);
    assert s[|a|..] == p + b && s[..|a|] == a;
    StartsWithConcat(p, b);
    hide StartsWith;
    IndexOfFirst(s, p, 0, |a|);
    assert s[|a| + |p|..] == b;
    Associates(a, rep, b);
  }

  lemma ReplaceFirstAbsent(a: string, p: string, rep: string)
    requires p != "" && Clear(a, "", p)
    ensures ReplaceFirst(a, p, rep) == a
  {
    assert a + "" == a;
    hide StartsWith;
    var i := IndexOf(a, p, 0);
    if i == |a| { NotAtEnd(a, p); }
  }

  lemma NotAtEnd(a: string, p: string)
    requires p != ""
    ensures !StartsWith(a[|a|..], p)
  {
  }

  lemma ClearConcat(a: string, b: string, c: string, p: string)
    requires Clear(a, b + c, p) && Clear(b, c, p)
    ensures Clear(a + b, c, p)
  {
    hide StartsWith;
    Associates(a, b, c);
    var all := a + b + c;
    forall k | 0 <= k < |a + b|
      ensures !StartsWith(all[k..], p)
    {
      if k >= |a| {
        assert all[k..] == (b + c)[k - |a|..];
      }
    }
  }

  // A text without the first character of the pattern.
  lemma ClearText(a: string, b: string, p: string)
    requires p != "" && p[0] !in a
    ensures Clear(a, b, p)
  {
  }

  lemma PrefixAt(s: string, p: string, j: nat)
    requires j < |p|
    ensures StartsWith(s, p) ==> s[j] == p[j]
  {
  }
}

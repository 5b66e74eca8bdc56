/** Byte classes and the text helpers shared by every scanner of the plugin.

A byte is a `char`. Nothing below depends on the code being under 256, so every
statement of the project holds for all character sequences and in particular for
all byte sequences. A C string is the sequence of its bytes before the NUL. */
module Bytes {

  datatype Option<+T> = None | Some(value: T)

  predicate IsSpace(c: char) { c == ' ' || c == '\t' || c == '\r' || c == '\n' }

  predicate IsDigit(c: char) { '0' <= c <= '9' }

  predicate IsUpper(c: char) { 'A' <= c <= 'Z' }

  predicate IsLower(c: char) { 'a' <= c <= 'z' }

  /** Letters, digits and underscore: what a word boundary separates. */
  predicate IsIdent(c: char) { IsLower(c) || IsUpper(c) || IsDigit(c) || c == '_' }

  function ToLower(c: char): char { if IsUpper(c) then c - 'A' + 'a' else c }

  function ToUpper(c: char): char { if IsLower(c) then c - 'a' + 'A' else c }

  function Lower(s: string): (r: string)
    ensures |r| == |s|
  {
    seq(|s|, i requires 0 <= i < |s| => ToLower(s[i]))
  }

  function Upper(s: string): (r: string)
    ensures |r| == |s|
  {
    seq(|s|, i requires 0 <= i < |s| => ToUpper(s[i]))
  }

  lemma LowerConcat(a: string, b: string)
    ensures Lower(a + b) == Lower(a) + Lower(b)
  {
  }

  lemma Concat3(x: string, y: string, z: string)
    ensures x + (y + z) == x + y + z
  {
  }

  lemma Reassociate(a: string, b: string, c: string, d: string)
    ensures a + (b + (c + d)) == (a + b + c) + d
  {
  }

  /** Index of the first `c`, or the length when there is none. */
  function IndexOf(s: string, c: char): (k: nat)
    ensures k <= |s|
    ensures k < |s| ==> s[k] == c
    ensures c !in s[..k]
  {
    if s == [] then 0 else if s[0] == c then 0 else
      var k := 1 + IndexOf(s[1..], c);
      assert s[..k] == [s[0]] + s[1..][..k - 1];
      k
  }

  lemma IndexOfUnique(s: string, c: char, k: nat)
    requires k <= |s| && c !in s[..k] && (k < |s| ==> s[k] == c)
    ensures IndexOf(s, c) == k
  {
    var j := IndexOf(s, c);
    assert forall i :: 0 <= i < j ==> s[..j][i] == s[i];
    assert forall i :: 0 <= i < k ==> s[..k][i] == s[i];
  }

  /** Length of the leading white space. */
  function SpaceLen(s: string): (n: nat)
    ensures n <= |s|
    ensures forall i :: 0 <= i < n ==> IsSpace(s[i])
    ensures n < |s| ==> !IsSpace(s[n])
  {
    if s == [] || !IsSpace(s[0]) then 0
    else
      var n := 1 + SpaceLen(s[1..]);
      assert forall i :: 1 <= i < n ==> s[i] == s[1..][i - 1];
      n
  }

  lemma SpaceLenUnique(s: string, j: nat)
    requires j < |s| && !IsSpace(s[j]) && forall i :: 0 <= i < j ==> IsSpace(s[i])
    ensures SpaceLen(s) == j
  {
  }

  method SkipSpaces(q: string, start: nat) returns (j: nat)
    requires start <= |q|
    ensures j == start + SpaceLen(q[start..])
  {
    j := start;
    while j < |q| && IsSpace(q[j])
      invariant start <= j <= |q|
      invariant SpaceLen(q[start..]) == j - start + SpaceLen(q[j..])
    {
      assert q[j..][1..] == q[j + 1..];
      j := j + 1;
    }
  }

  /** The fields of `s` between separators; there is always at least one. */
  function Split(s: string, c: char): (fields: seq<string>)
    ensures fields != []
    ensures forall f <- fields :: c !in f
    decreases |s|
  {
    var k := IndexOf(s, c);
    if k == |s| then
      assert s[..k] == s;
      [s]
    else [s[..k]] + Split(s[k + 1..], c)
  }

  function Join(fields: seq<string>, c: char): string
  {
    if fields == [] then [] else if |fields| == 1 then fields[0] else fields[0] + [c] + Join(fields[1..], c)
  }

  /** Splitting off the first field. */
  lemma SplitHead(a: string, rest: string, c: char)
    requires c !in a
    ensures Split(a + [c] + rest, c) == [a] + Split(rest, c)
  {
    var s := a + [c] + rest;
    assert s[..|a|] == a;
    IndexOfUnique(s, c, |a|);
    assert s[|a| + 1..] == rest;
  }

  lemma SplitSingle(a: string, c: char)
    requires c !in a
    ensures Split(a, c) == [a]
  {
    assert a[..|a|] == a;
    IndexOfUnique(a, c, |a|);
  }

  lemma {:induction false} SplitJoin(fields: seq<string>, c: char)
    requires fields != [] && forall f <- fields :: c !in f
    ensures Split(Join(fields, c), c) == fields
  {
    if |fields| == 1 {
      SplitSingle(fields[0], c);
    } else {
      SplitJoin(fields[1..], c);
      SplitHead(fields[0], Join(fields[1..], c), c);
    }
  }

  lemma JoinSnoc(fields: seq<string>, last: string, c: char)
    ensures Join(fields + [last], c) == if fields == [] then last else Join(fields, c) + [c] + last
  {
    if |fields| > 1 {
      JoinSnoc(fields[1..], last, c);
      assert (fields + [last])[1..] == fields[1..] + [last];
    }
  }
}

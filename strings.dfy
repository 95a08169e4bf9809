/** The parts of java.lang.String that the crawler relies on, over `string`
    (`seq<char>`), plus the Option and Result wrappers the rest of the model
    uses for Java's null and for exceptions that escape a method. */
module Strings {

  datatype Option<+T> = None | Some(value: T)

  /** `Fail` stands for a Java runtime exception that the source does not
      catch (a substring out of range, a null dereference, an index out of
      bounds); its text names the exception. */
  datatype Result<+T> = Ok(value: T) | Fail(exception: string)

  /** `sub` occurs in `s` starting at index `i`. */
  predicate IsAt(s: string, sub: string, i: int) {
    0 <= i && i + |sub| <= |s| && s[i..i + |sub|] == sub
  }

  /** String.indexOf(sub, from): the first occurrence at or after `from`, or -1. */
  function IndexOfFrom(s: string, sub: string, from: nat): (r: int)
    ensures r == -1 || (from <= r && IsAt(s, sub, r))
    ensures forall j :: from <= j && (r == -1 || j < r) ==> !IsAt(s, sub, j)
    decreases |s| - from
  {
    if from + |sub| > |s| then -1
    else if s[from..from + |sub|] == sub then from
    else IndexOfFrom(s, sub, from + 1)
  }

  /** String.indexOf(sub): the first occurrence of `sub` in `s`, or -1. */
  function IndexOf(s: string, sub: string): (r: int)
    ensures r >= 0 ==> IsAt(s, sub, r) && forall j :: 0 <= j < r ==> !IsAt(s, sub, j)
    ensures r == -1 <==> forall j :: !IsAt(s, sub, j)
    ensures r >= -1
  {
    IndexOfFrom(s, sub, 0)
  }

  /** String.contains: `sub` occurs somewhere in `s` (the empty string occurs in every string). */
  predicate Contains(s: string, sub: string)
    ensures Contains(s, sub) <==> exists j :: IsAt(s, sub, j)
  {
    IndexOf(s, sub) >= 0
  }

  /** String.startsWith. */
  predicate StartsWith(s: string, prefix: string) {
    |prefix| <= |s| && s[..|prefix|] == prefix
  }

  /** String.indexOf(char): the first index holding `c`, or -1. */
  function IndexOfChar(s: string, c: char): (r: int)
    ensures -1 <= r < |s|
    ensures r == -1 <==> c !in s
    ensures r >= 0 ==> r < |s| && s[r] == c && c !in s[..r]
  {
    if s == [] then -1
    else if s[0] == c then 0
    else
      var k := IndexOfChar(s[1..], c);
      assert s == [s[0]] + s[1..];
      if k == -1 then -1 else assert s[k + 1] == s[1..][k]; k + 1
  }

  /** String.lastIndexOf(char): the last index holding `c`, or -1. */
  function LastIndexOfChar(s: string, c: char): (r: int)
    ensures -1 <= r < |s|
    ensures r == -1 <==> c !in s
    ensures r >= 0 ==> r < |s| && s[r] == c && c !in s[r + 1..]
  {
    if s == [] then -1
    else if s[|s| - 1] == c then |s| - 1
    else
      assert s == s[..|s| - 1] + [s[|s| - 1]];
      LastIndexOfChar(s[..|s| - 1], c)
  }

  /** `s.substring(s.lastIndexOf(c) + 1, s.length())`: the text after the
      last `c`, or all of `s` when `c` does not occur. The crawler uses it for
      a file's type (after the last '.') and its name (after the last '/'). */
  function AfterLast(s: string, c: char): (r: string)
    ensures c !in r
    ensures c !in s ==> r == s
    ensures c in s ==> |r| < |s| && s == s[..|s| - |r| - 1] + [c] + r
  {
    var i := LastIndexOfChar(s, c);
    assert c in s ==> s == s[..i] + [c] + s[i + 1..];
    s[i + 1..]
  }

  /** Character.toLowerCase on the ASCII letters; other characters are kept. */
  function LowerChar(c: char): char {
    if 'A' <= c <= 'Z' then (c as int + 32) as char else c
  }

  predicate IsUpper(c: char) {
    'A' <= c <= 'Z'
  }

  /** String.toLowerCase, restricted to ASCII case mapping. */
  function ToLower(s: string): (r: string)
    ensures |r| == |s|
    ensures forall i :: 0 <= i < |s| ==> r[i] == LowerChar(s[i])
    ensures forall i :: 0 <= i < |r| ==> !IsUpper(r[i])
  {
    if s == [] then [] else [LowerChar(s[0])] + ToLower(s[1..])
  }

  /** String.equalsIgnoreCase, restricted to ASCII case mapping. */
  predicate EqualsIgnoreCase(a: string, b: string) {
    ToLower(a) == ToLower(b)
  }

  lemma {:induction false} ToLowerIdempotent(s: string)
    ensures ToLower(ToLower(s)) == ToLower(s)
  {
    var l := ToLower(s);
    var ll := ToLower(l);
    forall i | 0 <= i < |s| ensures ll[i] == l[i] {
      assert !IsUpper(l[i]);
    }
  }

  /** The segments of `s` between occurrences of `c`, empty ones included. */
  function Split(s: string, c: char): (parts: seq<string>)
    ensures |parts| >= 1
    ensures forall k :: 0 <= k < |parts| ==> c !in parts[k]
    decreases |s|
  {
    var i := IndexOfChar(s, c);
    if i == -1 then [s] else [s[..i]] + Split(s[i + 1..], c)
  }

  /** The inverse of Split: the parts with `c` put back between them. */
  function Join(parts: seq<string>, c: char): string
    requires |parts| >= 1
  {
    if |parts| == 1 then parts[0] else parts[0] + [c] + Join(parts[1..], c)
  }

  lemma JoinCons(head: string, rest: seq<string>, c: char)
    requires |rest| >= 1
    ensures Join([head] + rest, c) == head + [c] + Join(rest, c)
  {
    assert ([head] + rest)[1..] == rest;
  }

  lemma {:induction false} JoinSplit(s: string, c: char)
    ensures Join(Split(s, c), c) == s
    decreases |s|
  {
    var i := IndexOfChar(s, c);
    if i != -1 {
      var tail := s[i + 1..];
      JoinCons(s[..i], Split(tail, c), c);
      JoinSplit(tail, c);
      assert s == s[..i] + [c] + tail;
    }
  }

  /** ByteBuffer.getToken(token, delim) into a fresh (empty) token, as
      assumed here (ByteBuffer is not part of this model): the text before
      the first `delim` becomes the token and the buffer moves past that
      `delim`; with no `delim` left the whole remaining text is the token and
      the buffer ends up empty. An exhausted buffer leaves the fresh token
      empty. */
  function NextToken(s: string, delim: char): (r: (string, string))
    ensures delim !in r.0
    ensures |s| > 0 ==> |r.1| < |s|
    ensures delim in s ==> s == r.0 + [delim] + r.1
    ensures delim !in s ==> r == (s, "")
  {
    var i := IndexOfChar(s, delim);
    if i == -1 then (s, "")
    else
      assert s == s[..i] + [delim] + s[i + 1..];
      (s[..i], s[i + 1..])
  }

  /** ByteBuffer.getToken(token, delim) into a token that already holds
      `token`: an exhausted buffer leaves the token as it was; otherwise the
      token is replaced as by `NextToken`. On a fresh token the two agree. */
  function GetToken(s: string, delim: char, token: string): (string, string) {
    if s == [] then (token, s) else NextToken(s, delim)
  }

  /** getToken on `a + delim + b`, where `a` holds no `delim`, takes `a`
      and leaves `b`. */
  lemma NextTokenSplits(a: string, delim: char, b: string)
    requires delim !in a
    ensures NextToken(a + [delim] + b, delim) == (a, b)
  {
    var s := a + [delim] + b;
    assert s[|a|] == delim;
    assert s[..|a|] == a;
    assert s[|a| + 1..] == b;
  }

  /** The first token of `s` is its first comma-separated segment, and
      the rest of the buffer splits into the remaining segments. */
  lemma NextTokenSplit(s: string, c: char)
    ensures NextToken(s, c).0 == Split(s, c)[0]
    ensures c in s ==> Split(NextToken(s, c).1, c) == Split(s, c)[1..]
    ensures c !in s ==> Split(s, c) == [s] && NextToken(s, c).1 == ""
  {
  }
}

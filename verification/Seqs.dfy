/** Small facts about sequences, kept apart so that large proofs can cite them. */
module Seqs {

  lemma TakeStep<T>(s: seq<T>, i: nat)
    requires i < |s|
    ensures s[..i + 1] == s[..i] + [s[i]]
  {
  }

  lemma DropStep<T>(s: seq<T>, i: nat)
    requires i < |s|
    ensures s[i..] == [s[i]] + s[i + 1..]
  {
  }

  lemma TakeAll<T>(s: seq<T>)
    ensures s[..|s|] == s && s[0..] == s
  {
  }

  lemma Assoc<T>(a: seq<T>, b: seq<T>, c: seq<T>)
    ensures (a + b) + c == a + (b + c)
  {
  }

  lemma Halves<T>(s: seq<T>, n: nat)
    requires n <= |s|
    ensures s == s[..n] + s[n..]
  {
  }

  lemma Front<T>(a: seq<T>, b: seq<T>)
    ensures (a + b)[..|a|] == a && (a + b)[|a|..] == b
  {
  }

  lemma ConcatFront<T>(a: seq<T>, b: seq<T>)
    requires b != []
    ensures a + b != [] && (a + b)[..|a + b| - 1] == a + b[..|b| - 1] && (a + b)[|a + b| - 1] == b[|b| - 1]
  {
  }

  lemma Middle<T>(s: seq<T>, a: nat, k: nat)
    requires a + k <= |s|
    ensures s[a..][..k] == s[a..a + k] && s[..a + k] == s[..a] + s[a..a + k]
  {
  }

  /** The pieces of `s` that the element `end` ends; what follows the last one counts if there is any. */
  function LinesOf<T(==)>(s: seq<T>, end: T): seq<seq<T>> {
    if s == [] then []
    else if s[0] == end then [[]] + LinesOf(s[1..], end)
    else
      var rest := LinesOf(s[1..], end);
      if rest == [] then [[s[0]]] else [[s[0]] + rest[0]] + rest[1..]
  }

  lemma {:induction false} LineBreak<T>(line: seq<T>, end: T, rest: seq<T>)
    requires end !in line
    ensures LinesOf(line + [end] + rest, end) == [line] + LinesOf(rest, end)
  {
    var s := line + [end] + rest;
    if line == [] {
      assert s[1..] == rest;
    } else {
      LineBreak(line[1..], end, rest);
      assert s[1..] == line[1..] + [end] + rest;
      assert line == [line[0]] + line[1..];
    }
  }

  lemma {:induction false} LastLine<T>(line: seq<T>, end: T)
    requires end !in line && line != []
    ensures LinesOf(line, end) == [line]
  {
    if |line| > 1 {
      LastLine(line[1..], end);
      assert line == [line[0]] + line[1..];
    } else {
      assert line[1..] == [] && line == [line[0]];
    }
  }
}

/** Text made of newline-terminated lines: joining lines and splitting them apart again. */
module Lines {

  /** A line as the dumps write it: one newline, at its end. */
  predicate IsLine(l: string) {
    |l| >= 1 && l[|l| - 1] == '\n' && '\n' !in l[..|l| - 1]
  }

  /** Text without a newline, ended by one, is a line. */
  lemma EndedLine(body: string)
    requires '\n' !in body
    ensures IsLine(body + "\n")
  {
    assert (body + "\n")[..|body|] == body;
  }

  /** The text of several outputs written one after another. */
  function Concat(ls: seq<string>): (s: string)
    ensures |ls| == 1 ==> s == ls[0]
  {
    if ls == [] then [] else ls[0] + Concat(ls[1..])
  }

  lemma {:induction false} ConcatAppend(a: seq<string>, b: seq<string>)
    ensures Concat(a + b) == Concat(a) + Concat(b)
  {
    if a != [] {
      assert (a + b)[1..] == a[1..] + b;
      ConcatAppend(a[1..], b);
    } else {
      assert a + b == b;
    }
  }

  /** The length of the first line of `s`, its newline included (all of `s` when there is none). */
  function LineEnd(s: string): (n: nat)
    ensures n <= |s|
    ensures s != [] ==> 0 < n
  {
    if s == [] then 0 else if s[0] == '\n' then 1 else 1 + LineEnd(s[1..])
  }

  /** Text cut after each newline; a last piece without a newline is kept as it is. */
  function SplitLines(s: string): (ls: seq<string>)
    decreases |s|
  {
    if s == [] then [] else [s[..LineEnd(s)]] + SplitLines(s[LineEnd(s)..])
  }

  lemma {:induction false} LineEndOfLine(l: string, rest: string)
    requires IsLine(l)
    ensures LineEnd(l + rest) == |l|
  {
    if |l| > 1 {
      assert (l + rest)[1..] == l[1..] + rest;
      assert l[1..][..|l| - 2] == l[1..|l| - 1];
      assert l[1..|l| - 1] == l[..|l| - 1][1..];
      LineEndOfLine(l[1..], rest);
    }
  }

  /** Splitting text written line by line gives back exactly those lines, in order. */
  lemma {:induction false} SplitConcat(ls: seq<string>)
    requires forall i :: 0 <= i < |ls| ==> IsLine(ls[i])
    ensures SplitLines(Concat(ls)) == ls
  {
    if ls != [] {
      var s := Concat(ls);
      LineEndOfLine(ls[0], Concat(ls[1..]));
      assert s[..|ls[0]|] == ls[0];
      assert s[|ls[0]|..] == Concat(ls[1..]);
      SplitConcat(ls[1..]);
    }
  }
}

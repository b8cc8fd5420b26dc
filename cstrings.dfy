/**
 NUL-terminated strings in a char buffer, and the `strlen`, `strcpy` and
 `strcat` steps write_node builds its line with. Every write is bounds-checked,
 so a call whose requires hold cannot overflow the buffer.
 */
module CStrings {

  /** The C string a buffer holds: its chars before the first NUL. */
  function CStr(buf: seq<char>): (s: seq<char>)
    ensures |s| <= |buf| && s == buf[..|s|] && '\0' !in s
    ensures |s| < |buf| ==> buf[|s|] == '\0'
  {
    if buf == [] || buf[0] == '\0' then [] else [buf[0]] + CStr(buf[1..])
  }

  /** A buffer whose first NUL is at `n` holds exactly its first `n` chars. */
  lemma {:induction false} CStrAt(buf: seq<char>, n: nat)
    requires n < |buf| && buf[n] == '\0' && '\0' !in buf[..n]
    ensures CStr(buf) == buf[..n]
  {
    if n > 0 {
      assert buf[1..][..n - 1] == buf[1..n];
      assert buf[1..n] == buf[..n][1..];
      assert '\0' !in buf[1..][..n - 1];
      CStrAt(buf[1..], n - 1);
    }
  }

  /** strlen: the index of the first NUL. */
  method StrLen(buf: array<char>) returns (n: nat)
    requires '\0' in buf[..]
    ensures n < buf.Length && buf[n] == '\0'
    ensures n == |CStr(buf[..])|
  {
    n := 0;
    while buf[n] != '\0'
      invariant n < buf.Length
      invariant '\0' !in buf[..n]
      invariant '\0' in buf[n..]
      decreases buf.Length - n
    {
      assert buf[..n + 1] == buf[..n] + [buf[n]];
      assert buf[n..] == [buf[n]] + buf[n + 1..];
      n := n + 1;
    }
    CStrAt(buf[..], n);
  }

  /** strcpy: `src` and its terminator go to the start of `dst`; nothing after them changes. */
  method StrCpy(dst: array<char>, src: string)
    requires '\0' !in src && |src| < dst.Length
    modifies dst
    ensures CStr(dst[..]) == src
    ensures dst[|src| + 1..] == old(dst[|src| + 1..])
  {
    var i := 0;
    while i < |src|
      invariant 0 <= i <= |src|
      invariant dst[..i] == src[..i]
      invariant dst[|src| + 1..] == old(dst[|src| + 1..])
    {
      dst[i] := src[i];
      i := i + 1;
    }
    dst[|src|] := '\0';
    assert dst[..|src|] == src;
    CStrAt(dst[..], |src|);
  }

  /**
   strcat: `src` is copied over the terminator of the string in `dst`. The
   string then held is the old one followed by `src`, provided it and its
   terminator fit in the buffer.
   */
  method StrCat(dst: array<char>, src: string)
    requires '\0' in dst[..] && '\0' !in src
    requires |CStr(dst[..])| + |src| < dst.Length
    modifies dst
    ensures CStr(dst[..]) == old(CStr(dst[..])) + src
    ensures forall j :: |old(CStr(dst[..]))| + |src| < j < dst.Length ==> dst[j] == old(dst[j])
  {
    ghost var prefix := CStr(dst[..]);
    var n := StrLen(dst);
    var i := 0;
    while i < |src|
      invariant 0 <= i <= |src|
      invariant dst[..n] == prefix
      invariant dst[n..n + i] == src[..i]
      invariant dst[n + |src| + 1..] == old(dst[n + |src| + 1..])
    {
      dst[n + i] := src[i];
      i := i + 1;
    }
    dst[n + |src|] := '\0';
    assert dst[..n + |src|] == prefix + src;
    CStrAt(dst[..], n + |src|);
  }
}

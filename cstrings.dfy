/** NUL-terminated character buffers as the firmware uses them: the C-string
    view of a buffer (what strlen, strcmp and "%s" see) and strncpy. */
module CStrings {

  const NUL: char := '\0'

  /** The C string held by `s`: every character before the first NUL, or all
      of `s` when it holds no NUL. */
  function CStr(s: seq<char>): (r: seq<char>)
    ensures |r| <= |s| && r == s[..|r|]
    ensures NUL !in r
    ensures |r| < |s| ==> s[|r|] == NUL
  {
    if s == [] || s[0] == NUL then [] else [s[0]] + CStr(s[1..])
  }

  /** The three facts CStr ensures pin its result down uniquely. */
  lemma CStrUnique(s: seq<char>, t: seq<char>)
    requires |t| <= |s| && t == s[..|t|] && NUL !in t
    requires |t| < |s| ==> s[|t|] == NUL
    ensures CStr(s) == t
  {
  }

  /** A buffer with no NUL is its own C string. */
  lemma CStrOfUnterminated(s: seq<char>)
    requires NUL !in s
    ensures CStr(s) == s
  {
    CStrUnique(s, s);
  }

  /** A NUL at index n ends the C string no later than n. */
  lemma CStrCut(s: seq<char>, n: nat)
    requires n < |s| && s[n] == NUL
    ensures CStr(s) == CStr(s[..n])
  {
    var t := CStr(s[..n]);
    assert s[..n][..|t|] == s[..|t|];
    CStrUnique(s, t);
  }

  /** Text followed by a NUL reads back as exactly that text. */
  lemma CStrOfTerminated(t: seq<char>, rest: seq<char>)
    requires NUL !in t
    ensures CStr(t + [NUL] + rest) == t
  {
    var s := t + [NUL] + rest;
    assert s[..|t|] == t;
    CStrUnique(s, t);
  }

  /** The first n cells strncpy(dst, src, n) leaves: the C string of `src`,
      cut at n, then NUL padding up to n. */
  function StrncpyPrefix(src: seq<char>, n: nat): (r: seq<char>)
    ensures |r| == n
    ensures forall i :: 0 <= i < n && i < |CStr(src)| ==> r[i] == src[i]
    ensures forall i :: |CStr(src)| <= i < n ==> r[i] == NUL
  {
    var c := CStr(src);
    seq(n, i requires 0 <= i < n => if i < |c| then c[i] else NUL)
  }

  /** strncpy(dst, src, n) leaves a C string equal to the source cut at n
      characters; when the source is at least n long, no NUL is written. */
  lemma StrncpyCStr(src: seq<char>, n: nat)
    ensures |CStr(src)| < n ==> CStr(StrncpyPrefix(src, n)) == CStr(src)
    ensures |CStr(src)| >= n ==> NUL !in StrncpyPrefix(src, n) &&
                                 StrncpyPrefix(src, n) == CStr(src)[..n]
  {
    var c := CStr(src);
    var p := StrncpyPrefix(src, n);
    if |c| < n {
      assert p[..|c|] == c;
      CStrUnique(p, c);
    } else {
      assert p == c[..n];
    }
  }

  /** strncpy on a buffer: the first n cells become StrncpyPrefix(src, n),
      the rest of the buffer is left alone. */
  method Strncpy(dst: array<char>, src: seq<char>, n: nat)
    requires n <= dst.Length
    modifies dst
    ensures dst[..] == StrncpyPrefix(src, n) + old(dst[n..])
  {
    var p := StrncpyPrefix(src, n);
    forall i | 0 <= i < n {
      dst[i] := p[i];
    }
    assert dst[..] == dst[..n] + dst[n..];
  }
}

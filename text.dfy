/** The string operations the server and the Swing client apply to text:
    `toLowerCase` (in a locale without special casing rules, on the ASCII
    letters) and `trim`. */
module Text {
  /** Lower-casing of one character: 'A'..'Z' become 'a'..'z'. */
  function LowerChar(c: char): char
  {
    if 'A' <= c <= 'Z' then (c as int + 32) as char else c
  }

  function Lower(s: string): (r: string)
    ensures |r| == |s|
    ensures forall i :: 0 <= i < |s| ==> r[i] == LowerChar(s[i])
  {
    if s == [] then [] else [LowerChar(s[0])] + Lower(s[1..])
  }

  /** `String.trim`: drop leading characters up to U+0020 ... */
  function TrimStart(s: string): string
  {
    if s != [] && s[0] <= ' ' then TrimStart(s[1..]) else s
  }

  /** ... and trailing ones. */
  function TrimEnd(s: string): string
  {
    if s != [] && s[|s| - 1] <= ' ' then TrimEnd(s[..|s| - 1]) else s
  }

  /** Every character is one `trim` removes. */
  predicate Blank(s: string)
  {
    forall i :: 0 <= i < |s| ==> s[i] <= ' '
  }

  /** Lower-casing works character by character, so it distributes over
      concatenation. */
  lemma LowerAppend(a: string, b: string)
    ensures Lower(a + b) == Lower(a) + Lower(b)
  {
    assert forall i :: 0 <= i < |a + b| ==> Lower(a + b)[i] == (Lower(a) + Lower(b))[i];
  }

  /** Lower-casing leaves blanks alone and is idempotent. */
  lemma LowerFixes(s: string)
    ensures Blank(s) ==> Lower(s) == s
    ensures Lower(Lower(s)) == Lower(s)
  {
    assert forall i :: 0 <= i < |s| ==> Lower(Lower(s))[i] == Lower(s)[i];
  }

  /** `trim` on the left keeps a suffix: all of it when it starts with a
      visible character, nothing of a blank string. */
  lemma {:induction false} TrimStartShape(s: string)
    ensures var t := TrimStart(s);
            && |t| <= |s| && t == s[|s| - |t|..] && Blank(s[..|s| - |t|])
            && (t != [] ==> t[0] > ' ')
    decreases |s|
  {
    if s != [] && s[0] <= ' ' {
      TrimStartShape(s[1..]);
      var t := TrimStart(s);
      assert s[1..][..|s| - 1 - |t|] == s[1..|s| - |t|];
      assert forall i :: 1 <= i < |s| - |t| ==> s[i] == s[1..|s| - |t|][i - 1];
    }
  }

  /** `trim` on the right keeps a prefix: all of it when it ends with a
      visible character, nothing of a blank string. */
  lemma {:induction false} TrimEndShape(s: string)
    ensures var t := TrimEnd(s);
            && |t| <= |s| && t == s[..|t|] && Blank(s[|t|..])
            && (t != [] ==> t[|t| - 1] > ' ')
    decreases |s|
  {
    if s != [] && s[|s| - 1] <= ' ' {
      var u := s[..|s| - 1];
      TrimEndShape(u);
      var t := TrimEnd(s);
      assert u[..|t|] == s[..|t|];
      assert forall i :: |t| <= i < |s| - 1 ==> s[i] == u[|t|..][i - |t|];
    }
  }

  /** A string is blank exactly when trimming it leaves nothing: this is
      `trim().isEmpty()`. */
  lemma BlankIffTrimmedEmpty(s: string)
    ensures Blank(s) <==> TrimEnd(TrimStart(s)) == []
  {
    TrimStartShape(s);
    TrimEndShape(TrimStart(s));
  }

  /** Blanks in front make no difference to the left trim. */
  lemma {:induction false} TrimStartBlank(pre: string, s: string)
    requires Blank(pre)
    ensures TrimStart(pre + s) == TrimStart(s)
    decreases |pre|
  {
    if pre != [] {
      assert (pre + s)[1..] == pre[1..] + s;
      TrimStartBlank(pre[1..], s);
    } else {
      assert pre + s == s;
    }
  }

  /** Blanks behind make no difference to the right trim. */
  lemma {:induction false} TrimEndBlank(s: string, post: string)
    requires Blank(post)
    ensures TrimEnd(s + post) == TrimEnd(s)
    decreases |post|
  {
    if post != [] {
      assert (s + post)[..|s + post| - 1] == s + post[..|post| - 1];
      TrimEndBlank(s, post[..|post| - 1]);
    } else {
      assert s + post == s;
    }
  }

  /** The left trim of a concatenation: it reaches into the second part
      only when the first is blank. */
  lemma {:induction false} TrimStartAppend(a: string, b: string)
    ensures TrimStart(a + b) == if TrimStart(a) == [] then TrimStart(b) else TrimStart(a) + b
    decreases |a|
  {
    if a == [] {
      assert a + b == b;
    } else if a[0] <= ' ' {
      assert (a + b)[1..] == a[1..] + b;
      TrimStartAppend(a[1..], b);
    }
  }

  /** Blanks around a string make no difference to `trim`. */
  lemma TrimIgnoresBlanks(pre: string, s: string, post: string)
    requires Blank(pre) && Blank(post)
    ensures TrimEnd(TrimStart(pre + s + post)) == TrimEnd(TrimStart(s))
  {
    assert pre + s + post == pre + (s + post);
    TrimStartBlank(pre, s + post);
    TrimStartAppend(s, post);
    if TrimStart(s) == [] {
      TrimStartBlank(post, []);
      assert post + [] == post;
    } else {
      TrimEndBlank(TrimStart(s), post);
    }
  }
}

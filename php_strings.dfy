/**
 * The PHP string built-ins that the docker-build command relies on, written out
 * over `seq<char>`: the tag-stripping regular expression, `explode`/`array_pop`
 * and `basename` (text after the last separator), `str_replace` with an empty
 * replacement, `trim`, PHP truthiness of a string, and a lexicographic order
 * used as the scheduler's tie-break.
 */
module PhpStrings {

  /** Index of the last occurrence of `c` in `s`, or -1 when `c` does not occur. */
  function LastIndexOf(s: string, c: char): (i: int)
    ensures -1 <= i < |s|
    ensures i >= 0 ==> s[i] == c
  {
    if s == [] then -1
    else if s[|s| - 1] == c then |s| - 1
    else LastIndexOf(s[..|s| - 1], c)
  }

  /** No occurrence of `c` follows the one `LastIndexOf` finds. */
  lemma {:induction false} LastIndexOfIsLast(s: string, c: char)
    ensures forall j :: LastIndexOf(s, c) < j < |s| ==> s[j] != c
    decreases |s|
  {
    if s != [] && s[|s| - 1] != c {
      LastIndexOfIsLast(s[..|s| - 1], c);
    }
  }

  /**
   * `preg_replace('/:[^:]*$/', '', s)`. The only ':' from which `[^:]*` can
   * reach the end of the subject is the last one, and the greedy class also
   * swallows a trailing newline, so the match always runs from the last ':'
   * to the end of the string.
   */
  function StripTag(s: string): string
  {
    var i := LastIndexOf(s, ':');
    if i < 0 then s else s[..i]
  }

  /** Stripping keeps a prefix: all of an untagged reference, and up to its last ':' otherwise. */
  lemma StripTagShape(s: string)
    ensures StripTag(s) <= s
    ensures ':' !in s ==> StripTag(s) == s
    ensures ':' in s ==> var r := StripTag(s); |r| < |s| && s[|r|] == ':' && ':' !in s[|r| + 1..]
  {
    LastIndexOfIsLast(s, ':');
    var r := StripTag(s);
    if ':' in s {
      var k :| 0 <= k < |s| && s[k] == ':';
      assert LastIndexOf(s, ':') >= 0;
    }
  }

  /** Stripping `name:tag` gives back `name` whenever the tag has no ':'. */
  lemma StripTagOfTagged(name: string, tag: string)
    requires ':' !in tag
    ensures StripTag(name + ":" + tag) == name
  {
    var s := name + ":" + tag;
    assert s[|name|] == ':';
    assert forall j :: |name| < j < |s| ==> s[j] == tag[j - |name| - 1];
    LastIndexOfIsLast(s, ':');
    assert LastIndexOf(s, ':') == |name|;
    assert s[..|name|] == name;
  }

  /** Stripping is idempotent on an untagged reference and stable under re-tagging. */
  lemma StripTagRetag(s: string, tag: string)
    requires ':' !in tag
    ensures StripTag(StripTag(s) + ":" + tag) == StripTag(s)
  {
    StripTagOfTagged(StripTag(s), tag);
  }

  /**
   * `array_pop(explode(sep, s))`: the text after the last `sep`, or all of `s`
   * when `sep` does not occur. This is also what `basename` yields for a path
   * that does not end in a separator.
   */
  function LastSegment(s: string, sep: char): (r: string)
    ensures sep !in r
    ensures |r| <= |s| && r == s[|s| - |r|..]
    ensures |r| < |s| ==> s[|s| - |r| - 1] == sep
  {
    LastIndexOfIsLast(s, sep);
    s[LastIndexOf(s, sep) + 1..]
  }

  /** `pat` occurs in `s` at position `i`. */
  predicate OccursAt(pat: string, s: string, i: int)
  {
    0 <= i && i + |pat| <= |s| && s[i..i + |pat|] == pat
  }

  /**
   * `str_replace(pat, '', s)`: scans left to right and deletes every
   * non-overlapping occurrence of `pat`; the deleted text is not rescanned.
   */
  function RemoveAll(s: string, pat: string): (r: string)
    requires pat != []
    ensures |r| <= |s|
    decreases |s|
  {
    if |s| < |pat| then s
    else if s[..|pat|] == pat then RemoveAll(s[|pat|..], pat)
    else [s[0]] + RemoveAll(s[1..], pat)
  }

  /** Removal only deletes: every character of the result comes from the subject. */
  lemma {:induction false} RemoveAllKeeps(s: string, pat: string)
    requires pat != []
    ensures forall c :: c in RemoveAll(s, pat) ==> c in s
    decreases |s|
  {
    if |s| >= |pat| {
      if s[..|pat|] == pat {
        RemoveAllKeeps(s[|pat|..], pat);
      } else {
        RemoveAllKeeps(s[1..], pat);
      }
    }
  }

  /** Where `s` has no occurrence one position further on, its tail has none. */
  lemma AbsentInTailAt(pat: string, s: string, i: int)
    requires s != [] && !OccursAt(pat, s, i + 1)
    ensures !OccursAt(pat, s[1..], i)
  {
    if 0 <= i && i + |pat| <= |s| - 1 {
      var a, b := s[i + 1..i + 1 + |pat|], s[1..][i..i + |pat|];
      assert |a| == |b|;
      forall k | 0 <= k < |a|
        ensures a[k] == b[k]
      {
        assert a[k] == s[i + 1 + k];
        assert b[k] == s[1..][i + k];
      }
      assert a == b;
    }
  }

  lemma AbsentInTail(pat: string, s: string)
    requires s != [] && forall i :: !OccursAt(pat, s, i)
    ensures forall i :: !OccursAt(pat, s[1..], i)
  {
    forall i
      ensures !OccursAt(pat, s[1..], i)
    {
      AbsentInTailAt(pat, s, i);
    }
  }

  /** A subject without any occurrence of the needle is returned unchanged. */
  lemma {:induction false} RemoveAllAbsent(s: string, pat: string)
    requires pat != []
    requires forall i :: !OccursAt(pat, s, i)
    ensures RemoveAll(s, pat) == s
    decreases |s|
  {
    if |s| >= |pat| {
      assert !OccursAt(pat, s, 0);
      assert s[..|pat|] != pat;
      AbsentInTail(pat, s);
      RemoveAllAbsent(s[1..], pat);
    }
  }

  /**
   * Removing ".git" from `n + ".git"` removes the suffix and treats `n` as on
   * its own: since '.' occurs in ".git" only at its head, no occurrence can
   * straddle the boundary between `n` and the suffix.
   */
  lemma {:induction false} RemoveGitSuffix(n: string)
    ensures RemoveAll(n + ".git", ".git") == RemoveAll(n, ".git")
    decreases |n|
  {
    var s := n + ".git";
    if n == [] {
      assert s == ".git";
      assert s[4..] == [];
    } else if |n| >= 4 && n[..4] == ".git" {
      assert s[..4] == n[..4];
      assert s[4..] == n[4..] + ".git";
      RemoveGitSuffix(n[4..]);
    } else {
      assert s[..4] != ".git" by {
        if |n| < 4 {
          assert s[..4][|n|] == '.';
          assert ".git"[|n|] != '.';
        } else {
          assert s[..4] == n[..4];
        }
      }
      assert s[1..] == n[1..] + ".git";
      assert s[0] == n[0];
      RemoveGitSuffix(n[1..]);
      if |n| < 4 {
        assert RemoveAll(n, ".git") == n;
        assert RemoveAll(n[1..], ".git") == n[1..];
      }
    }
  }

  /** The characters PHP's `trim` removes by default: " \t\n\r\0\x0B". */
  predicate IsTrimmable(c: char)
  {
    c == ' ' || c == '\t' || c == '\n' || c == '\r' || c == '\0' || c == '\U{000B}'
  }

  /** `ltrim`: drop leading trimmable characters. */
  function TrimLeft(s: string): (r: string)
    ensures |r| <= |s| && r == s[|s| - |r|..]
    ensures forall i :: 0 <= i < |s| - |r| ==> IsTrimmable(s[i])
    ensures r == [] || !IsTrimmable(r[0])
  {
    if s != [] && IsTrimmable(s[0]) then TrimLeft(s[1..]) else s
  }

  /** `rtrim`: drop trailing trimmable characters. */
  function TrimRight(s: string): (r: string)
    ensures |r| <= |s| && r == s[..|r|]
    ensures forall i :: |r| <= i < |s| ==> IsTrimmable(s[i])
    ensures r == [] || !IsTrimmable(r[|r| - 1])
  {
    if s != [] && IsTrimmable(s[|s| - 1]) then TrimRight(s[..|s| - 1]) else s
  }

  /** `trim`: a contiguous slice of `s` with no trimmable character at either end. */
  function Trim(s: string): (r: string)
    ensures r == [] || (!IsTrimmable(r[0]) && !IsTrimmable(r[|r| - 1]))
  {
    TrimRight(TrimLeft(s))
  }

  /** Trimming an already trimmed line changes nothing. */
  lemma TrimIdempotent(s: string)
    ensures Trim(Trim(s)) == Trim(s)
  {
    var t := Trim(s);
    assert TrimLeft(t) == t;
    assert TrimRight(t) == t;
  }

  predicate AllTrimmable(s: string)
  {
    forall i :: 0 <= i < |s| ==> IsTrimmable(s[i])
  }

  lemma {:induction false} TrimLeftPadded(pre: string, t: string)
    requires AllTrimmable(pre) && t != [] && !IsTrimmable(t[0])
    ensures TrimLeft(pre + t) == t
    decreases |pre|
  {
    if pre == [] {
      assert pre + t == t;
    } else {
      assert (pre + t)[0] == pre[0];
      assert (pre + t)[1..] == pre[1..] + t;
      TrimLeftPadded(pre[1..], t);
    }
  }

  lemma {:induction false} TrimRightPadded(t: string, post: string)
    requires AllTrimmable(post) && t != [] && !IsTrimmable(t[|t| - 1])
    ensures TrimRight(t + post) == t
    decreases |post|
  {
    if post == [] {
      assert t + post == t;
    } else {
      var u := t + post;
      assert u[|u| - 1] == post[|post| - 1];
      assert u[..|u| - 1] == t + post[..|post| - 1];
      TrimRightPadded(t, post[..|post| - 1]);
    }
  }

  /** `trim` removes the blank padding around a text that is not itself blank at either end. */
  lemma TrimPadded(pre: string, t: string, post: string)
    requires AllTrimmable(pre) && AllTrimmable(post)
    requires t != [] && !IsTrimmable(t[0]) && !IsTrimmable(t[|t| - 1])
    ensures Trim(pre + t + post) == t
  {
    assert pre + t + post == pre + (t + post);
    TrimLeftPadded(pre, t + post);
    TrimRightPadded(t, post);
  }

  /** PHP truthiness of a string: false exactly for "" and "0". */
  predicate Truthy(s: string)
  {
    s != "" && s != "0"
  }

  /** `str_replace('/', '_', name)`: the archive name of an image. */
  function TarName(name: string): (r: string)
    ensures |r| == |name|
    ensures forall i :: 0 <= i < |name| ==> r[i] == (if name[i] == '/' then '_' else name[i])
  {
    if name == [] then [] else [if name[0] == '/' then '_' else name[0]] + TarName(name[1..])
  }

  /** An archive name never contains a directory separator. */
  lemma TarNameFlat(name: string)
    ensures '/' !in TarName(name)
  {
    var r := TarName(name);
    forall i | 0 <= i < |r|
      ensures r[i] != '/'
    {
      assert r[i] == (if name[i] == '/' then '_' else name[i]);
    }
  }

  /** Strict lexicographic order on strings by character code. */
  predicate LexLess(a: string, b: string)
  {
    if a == [] then b != []
    else b != [] && (a[0] < b[0] || (a[0] == b[0] && LexLess(a[1..], b[1..])))
  }

  lemma {:induction false} LexIrreflexive(a: string)
    ensures !LexLess(a, a)
  {
    if a != [] {
      LexIrreflexive(a[1..]);
    }
  }

  /** Strings that agree up to `n` and then differ by a smaller character are in order. */
  lemma {:induction false} LexLessAfterPrefix(a: string, b: string, n: nat)
    requires n < |a| && n < |b| && a[..n] == b[..n] && a[n] < b[n]
    ensures LexLess(a, b)
    decreases n
  {
    if n > 0 {
      assert a[0] == a[..n][0] == b[..n][0] == b[0];
      assert a[1..][..n - 1] == a[..n][1..] == b[..n][1..] == b[1..][..n - 1];
      LexLessAfterPrefix(a[1..], b[1..], n - 1);
    }
  }

  lemma LexAsymmetric(a: string, b: string)
    requires LexLess(a, b)
    ensures !LexLess(b, a)
  {
    if LexLess(b, a) {
      LexTransitive(a, b, a);
      LexIrreflexive(a);
    }
  }

  lemma {:induction false} LexTotal(a: string, b: string)
    ensures a == b || LexLess(a, b) || LexLess(b, a)
  {
    if a != [] && b != [] && a[0] == b[0] {
      LexTotal(a[1..], b[1..]);
      if a[1..] == b[1..] {
        assert a == [a[0]] + a[1..] && b == [b[0]] + b[1..];
      }
    }
  }

  lemma {:induction false} LexTransitive(a: string, b: string, c: string)
    requires LexLess(a, b) && LexLess(b, c)
    ensures LexLess(a, c)
  {
    if a != [] && a[0] == b[0] && b[0] == c[0] {
      LexTransitive(a[1..], b[1..], c[1..]);
    }
  }
}

/** String operations of Python's `str` that the bot relies on, restricted to
    what the model needs: ASCII case folding, prefix and substring tests,
    non-overlapping occurrence counting, replacement of every occurrence,
    joining, and the `*` wildcard of `pathlib.PurePath.match`. */
module Text {

  /** `str.lower()` on one character; only ASCII letters are folded. */
  function LowerChar(c: char): char {
    if 'A' <= c <= 'Z' then (c as int + 32) as char else c
  }

  function Lower(s: string): (r: string)
    ensures |r| == |s|
  {
    if s == [] then [] else [LowerChar(s[0])] + Lower(s[1..])
  }

  predicate IsLower(s: string) {
    forall i :: 0 <= i < |s| ==> !('A' <= s[i] <= 'Z')
  }

  lemma {:induction false} LowerIsLower(s: string)
    ensures IsLower(Lower(s))
    ensures IsLower(s) ==> Lower(s) == s
  {
    if s != [] {
      LowerIsLower(s[1..]);
      assert Lower(s) == [LowerChar(s[0])] + Lower(s[1..]);
    }
  }

  /** `p in s` */
  predicate Contains(s: string, p: string)
    decreases |s|
  {
    p <= s || (s != [] && Contains(s[1..], p))
  }

  lemma {:induction false} ContainsFits(s: string, p: string)
    requires Contains(s, p)
    ensures |p| <= |s|
    decreases |s|
  {
    if !(p <= s) {
      ContainsFits(s[1..], p);
    }
  }

  /** `s.count(p)`: the number of non-overlapping occurrences of `p`,
      scanning left to right; an empty `p` occurs `|s| + 1` times. */
  function Count(s: string, p: string): nat
    decreases |s|
  {
    if p == [] then |s| + 1
    else if |s| < |p| then 0
    else if p <= s then 1 + Count(s[|p|..], p)
    else Count(s[1..], p)
  }

  /** A string occurs at least once exactly when it is a substring. */
  lemma {:induction false} CountPositiveIffContains(s: string, p: string)
    ensures Count(s, p) > 0 <==> Contains(s, p)
    decreases |s|
  {
    if p == [] {
    } else if |s| < |p| {
      if Contains(s, p) { ContainsFits(s, p); }
    } else if p <= s {
    } else {
      CountPositiveIffContains(s[1..], p);
    }
  }

  /** `s.replace(old, new)`: every non-overlapping occurrence, left to right. */
  function ReplaceAll(s: string, target: string, replacement: string): string
    decreases |s|
  {
    if target == [] then
      (if s == [] then replacement else replacement + [s[0]] + ReplaceAll(s[1..], target, replacement))
    else if s == [] then []
    else if target <= s then replacement + ReplaceAll(s[|target|..], target, replacement)
    else [s[0]] + ReplaceAll(s[1..], target, replacement)
  }

  /** Replacing a text that does not occur leaves the string as it was. */
  lemma {:induction false} ReplaceAbsent(s: string, target: string, replacement: string)
    requires target != [] && !Contains(s, target)
    ensures ReplaceAll(s, target, replacement) == s
    decreases |s|
  {
    if s != [] {
      ReplaceAbsent(s[1..], target, replacement);
    }
  }

  /** `sep.join(parts)` */
  function Join(parts: seq<string>, sep: string): string {
    if parts == [] then []
    else if |parts| == 1 then parts[0]
    else parts[0] + sep + Join(parts[1..], sep)
  }

  /** `fnmatch` restricted to the wildcard `*`, which matches any run of
      characters; every other pattern character matches itself. */
  predicate GlobMatch(name: string, pattern: string)
    decreases |pattern|, |name|
  {
    if pattern == [] then name == []
    else if pattern[0] == '*' then
      GlobMatch(name, pattern[1..]) || (name != [] && GlobMatch(name[1..], pattern))
    else name != [] && name[0] == pattern[0] && GlobMatch(name[1..], pattern[1..])
  }

  lemma {:induction false} StarMatchesAll(name: string)
    ensures GlobMatch(name, "*")
    decreases |name|
  {
    if name != [] {
      StarMatchesAll(name[1..]);
    }
  }

  /** A literal followed by `*` (such as `amazon.*`) matches exactly the names
      that start with the literal. */
  lemma {:induction false} PrefixGlob(name: string, lit: string)
    requires forall i :: 0 <= i < |lit| ==> lit[i] != '*'
    ensures GlobMatch(name, lit + "*") <==> lit <= name
    decreases |lit|
  {
    if lit == [] {
      assert lit + "*" == "*";
      StarMatchesAll(name);
    } else {
      assert (lit + "*")[0] == lit[0];
      assert (lit + "*")[1..] == lit[1..] + "*";
      if name != [] {
        PrefixGlob(name[1..], lit[1..]);
      }
    }
  }
}

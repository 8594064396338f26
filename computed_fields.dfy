/**
  The two computed fields whose resolvers the configuration writes itself:

  - `slug`: the source file name after `replace` with the pattern
    `/\.mdx$/` and the empty string;
  - `wordCount`: the length of the raw body split on `/\s+/gu`.

  Both are modelled on strings of Unicode scalar values. `Slug` follows
  String.prototype.replace with a non-global regular expression (the leftmost
  match is replaced, once); `Split` follows RegExp.prototype[@@split] of
  ECMAScript with the greedy matcher of `\s+`. Each is then proved equal to
  a plain description: "remove one final `.mdx`" and "one more than the
  number of maximal whitespace runs".
*/
module ComputedFields {
  import opened Wrappers

  // ---------------------------------------------------------------------
  // slug
  // ---------------------------------------------------------------------

  const MdxSuffix: string := ".mdx"

  /** The suffix test the slug is described by. */
  predicate EndsWithMdx(s: string) {
    |s| >= |MdxSuffix| && s[|s| - |MdxSuffix|..] == MdxSuffix
  }

  /** The regular expression `/\.mdx$/` (no `m` flag, so `$` is only the end
      of the input) matches at index `i` exactly when the characters from `i`
      are `.mdx` and nothing follows them. */
  predicate MdxSuffixAt(s: string, i: nat)
    requires i <= |s|
  {
    s[i..] == MdxSuffix
  }

  /** The leftmost index at or after `from` where `/\.mdx$/` matches: the
      search String.prototype.replace performs for a non-global pattern. */
  function FirstMatchFrom(s: string, from: nat): (r: Option<nat>)
    requires from <= |s|
    decreases |s| - from
    ensures r.Some? ==> from <= r.value <= |s| && MdxSuffixAt(s, r.value)
    ensures r.Some? ==> forall j :: from <= j < r.value ==> !MdxSuffixAt(s, j)
    ensures r.None? ==> forall j :: from <= j <= |s| ==> !MdxSuffixAt(s, j)
  {
    if MdxSuffixAt(s, from) then Some(from)
    else if from == |s| then None
    else FirstMatchFrom(s, from + 1)
  }

  /** `sourceFileName.replace(/\.mdx$/, '')`: the first match, if there is
      one, is replaced by the empty string; otherwise the name is returned
      as it is. */
  function Slug(sourceFileName: string): (slug: string)
    ensures EndsWithMdx(sourceFileName) ==> sourceFileName == slug + MdxSuffix
    ensures !EndsWithMdx(sourceFileName) ==> slug == sourceFileName
  {
    match FirstMatchFrom(sourceFileName, 0)
    case None =>
      assert |sourceFileName| >= |MdxSuffix| ==> !MdxSuffixAt(sourceFileName, |sourceFileName| - |MdxSuffix|);
      sourceFileName
    case Some(i) =>
      assert |sourceFileName[i..]| == |MdxSuffix|;
      assert sourceFileName == sourceFileName[..i] + MdxSuffix;
      sourceFileName[..i] + sourceFileName[i + |MdxSuffix|..]
  }

  /** Round trip: appending `.mdx` to any name and taking the slug gives the
      name back, even when the name itself already ends in `.mdx`. */
  lemma SlugRoundTrip(name: string)
    ensures Slug(name + MdxSuffix) == name
  {
    var file := name + MdxSuffix;
    assert file[|file| - |MdxSuffix|..] == MdxSuffix;
    assert file[..|name|] == name;
    assert Slug(file) + MdxSuffix == file;
    assert Slug(file) == file[..|name|];
  }

  /** A name that does not end in `.mdx` is its own slug. */
  lemma SlugKeepsOtherNames(name: string)
    requires !EndsWithMdx(name)
    ensures Slug(name) == name
  {
  }

  /** The slug is a prefix of the file name, and at most one `.mdx` is
      removed. */
  lemma SlugIsShortPrefix(name: string)
    ensures Slug(name) <= name
    ensures |name| - |MdxSuffix| <= |Slug(name)| <= |name|
  {
    if EndsWithMdx(name) {
      assert name == Slug(name) + MdxSuffix;
      assert name[..|Slug(name)|] == Slug(name);
    }
  }

  /** Concrete cases: a doubled suffix loses only its last copy, and `.mdx`
      that is not at the very end is left in place. */
  lemma SlugExamples()
    ensures Slug("a.mdx.mdx") == "a.mdx"
    ensures Slug("a.mdx.txt") == "a.mdx.txt"
    ensures Slug("my-post.mdx") == "my-post"
  {
    SlugRoundTrip("a.mdx");
    assert "a.mdx" + MdxSuffix == "a.mdx.mdx";
    assert "a.mdx.txt"[9 - 4..] == ".txt";
    SlugRoundTrip("my-post");
    assert "my-post" + MdxSuffix == "my-post.mdx";
  }

  // ---------------------------------------------------------------------
  // wordCount
  // ---------------------------------------------------------------------

  /** `\s` under the `u` flag: WhiteSpace and LineTerminator of ECMAScript,
      i.e. tab, line feed, vertical tab, form feed, carriage return, space,
      no-break space, the byte order mark, the line and paragraph
      separators and the other space separators of Unicode (category Zs). */
  predicate IsSpace(c: char) {
    || c == '\t' || c == '\n' || c == '\U{000B}' || c == '\U{000C}' || c == '\r'
    || c == ' ' || c == '\U{00A0}' || c == '\U{1680}'
    || ('\U{2000}' <= c <= '\U{200A}')
    || c == '\U{2028}' || c == '\U{2029}' || c == '\U{202F}' || c == '\U{205F}'
    || c == '\U{3000}' || c == '\U{FEFF}'
  }

  predicate NoSpace(s: string) {
    forall k :: 0 <= k < |s| ==> !IsSpace(s[k])
  }

  /** The end of the greedy match of `\s+` that starts at `q`. */
  function RunEnd(s: string, q: nat): (e: nat)
    requires q < |s| && IsSpace(s[q])
    decreases |s| - q
    ensures q < e <= |s|
    ensures forall k :: q <= k < e ==> IsSpace(s[k])
    ensures e == |s| || !IsSpace(s[e])
  {
    if q + 1 < |s| && IsSpace(s[q + 1]) then RunEnd(s, q + 1) else q + 1
  }

  /** The loop of RegExp.prototype[@@split]: `p` is where the current piece
      starts and `q` the position tried next. A match of `\s+` at `q` ends the
      piece `s[p..q]` and the next piece starts after the match; otherwise
      `q` moves on by one. At the end the rest `s[p..]` is the last piece. */
  function SplitFrom(s: string, p: nat, q: nat): (pieces: seq<string>)
    requires p <= q <= |s|
    requires NoSpace(s[p..q])
    decreases |s| - q
    ensures |pieces| >= 1
    ensures forall w :: w in pieces ==> NoSpace(w)
  {
    if q == |s| then
      [s[p..]]
    else if IsSpace(s[q]) then
      var e := RunEnd(s, q);
      [s[p..q]] + SplitFrom(s, e, e)
    else
      assert s[p..q + 1] == s[p..q] + [s[q]];
      SplitFrom(s, p, q + 1)
  }

  /** `s.split(/\s+/gu)`. ECMAScript treats the empty string on its own:
      since `\s+` does not match it, the result is the one piece `[""]`. */
  function Split(s: string): (pieces: seq<string>)
    ensures |pieces| >= 1
    ensures forall w :: w in pieces ==> NoSpace(w)
  {
    if |s| == 0 then [s] else SplitFrom(s, 0, 0)
  }

  /** The pieces joined back together. */
  function Concat(pieces: seq<string>): string {
    if pieces == [] then [] else pieces[0] + Concat(pieces[1..])
  }

  /** The characters of `s` that are not whitespace, in order. */
  function NonSpace(s: string): string {
    if s == [] then [] else (if IsSpace(s[0]) then [] else [s[0]]) + NonSpace(s[1..])
  }

  lemma {:induction false} NonSpaceAppend(a: string, b: string)
    ensures NonSpace(a + b) == NonSpace(a) + NonSpace(b)
  {
    if a == [] {
      assert a + b == b;
    } else {
      assert (a + b)[1..] == a[1..] + b;
      NonSpaceAppend(a[1..], b);
    }
  }

  lemma {:induction false} NonSpaceOfWord(w: string)
    requires NoSpace(w)
    ensures NonSpace(w) == w
  {
    if w != [] {
      NonSpaceOfWord(w[1..]);
    }
  }

  lemma {:induction false} NonSpaceOfRun(s: string, q: nat, e: nat)
    requires q <= e <= |s|
    requires forall k :: q <= k < e ==> IsSpace(s[k])
    decreases e - q
    ensures NonSpace(s[q..e]) == []
  {
    if q < e {
      assert s[q..e][1..] == s[q + 1..e];
      NonSpaceOfRun(s, q + 1, e);
    }
  }

  /** Passing a word and then a whitespace run keeps the word and drops
      the run. */
  lemma NonSpaceAcrossRun(s: string, p: nat, q: nat, e: nat)
    requires p <= q <= e <= |s|
    requires NoSpace(s[p..q])
    requires forall k :: q <= k < e ==> IsSpace(s[k])
    ensures NonSpace(s[p..]) == s[p..q] + NonSpace(s[e..])
  {
    assert s[p..] == s[p..q] + s[q..e] + s[e..];
    NonSpaceAppend(s[p..q] + s[q..e], s[e..]);
    NonSpaceAppend(s[p..q], s[q..e]);
    NonSpaceOfWord(s[p..q]);
    NonSpaceOfRun(s, q, e);
  }

  /** The split loop drops the whitespace runs it passes and keeps every
      other character, in order. */
  lemma {:induction false} SplitFromKeepsText(s: string, p: nat, q: nat)
    requires p <= q <= |s|
    requires NoSpace(s[p..q])
    decreases |s| - q
    ensures Concat(SplitFrom(s, p, q)) == NonSpace(s[p..])
  {
    if q == |s| {
      NonSpaceOfWord(s[p..]);
      assert Concat([s[p..]]) == s[p..] + Concat([]);
    } else if IsSpace(s[q]) {
      var e := RunEnd(s, q);
      assert s[e..e] == [];
      SplitFromKeepsText(s, e, e);
      var rest := SplitFrom(s, e, e);
      assert ([s[p..q]] + rest)[1..] == rest;
      NonSpaceAcrossRun(s, p, q, e);
    } else {
      assert s[p..q + 1] == s[p..q] + [s[q]];
      SplitFromKeepsText(s, p, q + 1);
    }
  }

  /** Joining the pieces of `split(/\s+/gu)` gives the body with its
      whitespace removed: only whitespace is lost. */
  lemma SplitKeepsText(s: string)
    ensures Concat(Split(s)) == NonSpace(s)
  {
    if |s| > 0 {
      SplitFromKeepsText(s, 0, 0);
      assert s[0..] == s;
    } else {
      assert Concat([s]) == s + Concat([]);
    }
  }

  /** The number of maximal runs of whitespace in `s`, given whether the
      character just before `s` was whitespace: a run begins at each
      whitespace character that does not follow another one. */
  function RunsAfter(s: string, prevSpace: bool): nat {
    if s == [] then 0
    else (if IsSpace(s[0]) && !prevSpace then 1 else 0) + RunsAfter(s[1..], IsSpace(s[0]))
  }

  function Runs(s: string): nat {
    RunsAfter(s, false)
  }

  /** Inside a whitespace run, the runs still to come are those after it. */
  lemma {:induction false} SkipRun(s: string, k: nat, e: nat)
    requires k <= e <= |s|
    requires forall j :: k <= j < e ==> IsSpace(s[j])
    decreases e - k
    ensures RunsAfter(s[k..], true) == RunsAfter(s[e..], true)
  {
    if k < e {
      assert s[k..][1..] == s[k + 1..];
      SkipRun(s, k + 1, e);
    }
  }

  /** Each step of the split loop accounts for exactly the runs it passes. */
  lemma {:induction false} SplitFromCountsRuns(s: string, p: nat, q: nat)
    requires p <= q <= |s|
    requires NoSpace(s[p..q])
    requires q == 0 || q == |s| || !IsSpace(s[q - 1]) || !IsSpace(s[q])
    decreases |s| - q
    ensures |SplitFrom(s, p, q)| == 1 + RunsAfter(s[q..], q > 0 && IsSpace(s[q - 1]))
  {
    if q == |s| {
    } else if IsSpace(s[q]) {
      var e := RunEnd(s, q);
      assert s[q..][1..] == s[q + 1..];
      SkipRun(s, q + 1, e);
      assert s[e..e] == [];
      SplitFromCountsRuns(s, e, e);
    } else {
      assert s[q..][1..] == s[q + 1..];
      assert s[p..q + 1] == s[p..q] + [s[q]];
      SplitFromCountsRuns(s, p, q + 1);
    }
  }

  /** The split yields one piece more than there are whitespace runs. */
  lemma SplitCountsRuns(s: string)
    ensures |Split(s)| == 1 + Runs(s)
  {
    if |s| > 0 {
      SplitFromCountsRuns(s, 0, 0);
      assert s[0..] == s;
    }
  }

  /** `body.split(/\s+/gu).length`: one more than the number of maximal
      whitespace runs, so leading and trailing whitespace each add an empty
      piece and an empty body counts 1. */
  function WordCount(body: string): (count: nat)
    ensures count == 1 + Runs(body)
  {
    SplitCountsRuns(body);
    |Split(body)|
  }

  lemma {:induction false} RunsAtMostLength(s: string, prevSpace: bool)
    ensures RunsAfter(s, prevSpace) <= |s|
  {
    if s != [] {
      RunsAtMostLength(s[1..], IsSpace(s[0]));
    }
  }

  /** The count is at least 1 and at most one more than the length. */
  lemma WordCountBounds(body: string)
    ensures 1 <= WordCount(body) <= |body| + 1
  {
    RunsAtMostLength(body, false);
  }

  /** Runs of a concatenation: the second part continues from the last
      character of the first. */
  lemma {:induction false} RunsAppend(a: string, b: string, prevSpace: bool)
    ensures RunsAfter(a + b, prevSpace)
         == RunsAfter(a, prevSpace) + RunsAfter(b, if a == [] then prevSpace else IsSpace(a[|a| - 1]))
  {
    if a == [] {
      assert a + b == b;
    } else {
      assert (a + b)[1..] == a[1..] + b;
      RunsAppend(a[1..], b, IsSpace(a[0]));
    }
  }

  predicate AllSpace(s: string) {
    forall k :: 0 <= k < |s| ==> IsSpace(s[k])
  }

  /** A non-empty whitespace string is one run, or none when it continues
      one. */
  lemma {:induction false} RunsOfSpace(w: string, prevSpace: bool)
    requires AllSpace(w) && w != []
    ensures RunsAfter(w, prevSpace) == if prevSpace then 0 else 1
  {
    SkipRun(w, 1, |w|);
    assert w[1..] == w[1..][..];
    assert w[|w|..] == [];
  }

  /** `\s+` collapses runs: exchanging one non-empty whitespace run for any
      other (several spaces for one, a tab for a space) leaves the count
      unchanged. */
  lemma WordCountIgnoresRunWidth(a: string, w1: string, w2: string, b: string)
    requires AllSpace(w1) && w1 != []
    requires AllSpace(w2) && w2 != []
    ensures WordCount(a + w1 + b) == WordCount(a + w2 + b)
  {
    var before := if a == [] then false else IsSpace(a[|a| - 1]);
    RunsAppend(a + w1, b, false);
    RunsAppend(a, w1, false);
    RunsOfSpace(w1, before);
    assert (a + w1)[|a + w1| - 1] == w1[|w1| - 1];
    RunsAppend(a + w2, b, false);
    RunsAppend(a, w2, false);
    RunsOfSpace(w2, before);
    assert (a + w2)[|a + w2| - 1] == w2[|w2| - 1];
  }

  /** A string without whitespace starts no run. */
  lemma {:induction false} RunsOfWord(w: string, prevSpace: bool)
    requires NoSpace(w)
    ensures RunsAfter(w, prevSpace) == 0
  {
    if w != [] {
      RunsOfWord(w[1..], false);
    }
  }

  /** Runs of the example body "hello world  foo", split at its two
      whitespace runs. */
  lemma RunsOfExample()
    ensures RunsAfter("hello" + " " + "world", false) == 1
  {
    assert NoSpace("hello") && NoSpace("world");
    RunsOfWord("hello", false);
    RunsOfSpace(" ", false);
    RunsAppend("hello", " ", false);
    RunsOfWord("world", true);
    RunsAppend("hello" + " ", "world", false);
  }

  /** Concrete cases: the empty body counts 1, and a doubled space between
      words counts once. */
  lemma WordCountExamples()
    ensures WordCount("") == 1
    ensures WordCount("hello world  foo") == 3
  {
    var b := "hello" + " " + "world";
    RunsOfExample();
    assert b[|b| - 1] == 'd';
    RunsOfSpace("  ", false);
    RunsAppend(b, "  ", false);
    assert NoSpace("foo");
    RunsOfWord("foo", true);
    RunsAppend(b + "  ", "foo", false);
    assert b + "  " + "foo" == "hello world  foo";
  }
}

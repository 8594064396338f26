// The file-path patterns of the document types (`articles/*.mdx` and the
// like), read as globs over paths relative to the content directory: `*`
// matches any run of characters other than `/`, and every other character
// matches itself. Only the part of glob syntax the configuration uses is
// modelled.
module Glob {

  /** Does `pattern` match the whole of `path`? */
  predicate Matches(pattern: string, path: string)
    decreases |pattern| + |path|
  {
    if pattern == [] then path == []
    else if pattern[0] == '*' then
      || Matches(pattern[1..], path)
      || (path != [] && path[0] != '/' && Matches(pattern, path[1..]))
    else
      path != [] && path[0] == pattern[0] && Matches(pattern[1..], path[1..])
  }

  /** A pattern without wildcards. */
  predicate Literal(s: string) {
    '*' !in s
  }

  // `path` is `dir/<stem><ext>` with no `/` in the stem: the plain reading
  // of the pattern `dir/*ext`.
  predicate InDirWithExt(path: string, dir: string, ext: string) {
    && |dir| + 1 + |ext| <= |path|
    && path[..|dir| + 1] == dir + "/"
    && path[|path| - |ext|..] == ext
    && '/' !in path[|dir| + 1..|path| - |ext|]
  }

  /** A literal prefix of a pattern must be matched character for
      character. */
  lemma {:induction false} MatchesLiteralPrefix(lit: string, rest: string, path: string)
    requires Literal(lit)
    ensures Matches(lit + rest, path)
        <==> |lit| <= |path| && path[..|lit|] == lit && Matches(rest, path[|lit|..])
  {
    if lit != [] {
      assert (lit + rest)[0] == lit[0];
      assert (lit + rest)[1..] == lit[1..] + rest;
      if path != [] {
        MatchesLiteralPrefix(lit[1..], rest, path[1..]);
        if |lit| <= |path| {
          assert path[1..][|lit| - 1..] == path[|lit|..];
          assert path[..|lit|] == [path[0]] + path[1..][..|lit| - 1];
        }
      }
    } else {
      assert lit + rest == rest;
    }
  }

  /** A literal pattern matches only itself. */
  lemma MatchesLiteral(lit: string, path: string)
    requires Literal(lit)
    ensures Matches(lit, path) <==> path == lit
  {
    MatchesLiteralPrefix(lit, [], path);
    assert lit + [] == lit;
  }

  /** `*ext` matches the paths that end in `ext` after a stem without `/`. */
  lemma {:induction false} MatchesStarSuffix(ext: string, path: string)
    requires Literal(ext)
    decreases |path|
    ensures Matches("*" + ext, path)
        <==> |ext| <= |path| && path[|path| - |ext|..] == ext && '/' !in path[..|path| - |ext|]
  {
    var pattern := "*" + ext;
    assert pattern[0] == '*' && pattern[1..] == ext;
    MatchesLiteral(ext, path);
    if path != [] {
      MatchesStarSuffix(ext, path[1..]);
      if |ext| <= |path| - 1 {
        assert path[1..][|path| - 1 - |ext|..] == path[|path| - |ext|..];
        assert path[..|path| - |ext|] == [path[0]] + path[1..][..|path| - 1 - |ext|];
      }
      if |ext| == |path| {
        assert path[|path| - |ext|..] == path;
      }
    }
  }

  // The pattern `dir/*ext` means exactly `InDirWithExt(_, dir, ext)`.
  lemma DirPattern(dir: string, ext: string, path: string)
    requires Literal(dir) && Literal(ext)
    ensures Matches(dir + "/*" + ext, path) <==> InDirWithExt(path, dir, ext)
  {
    var head := dir + "/";
    assert dir + "/*" + ext == head + ("*" + ext);
    assert Literal(head) by {
      assert forall k :: 0 <= k < |head| ==> head[k] == (if k < |dir| then dir[k] else '/');
    }
    MatchesLiteralPrefix(head, "*" + ext, path);
    if |head| <= |path| {
      var tail := path[|head|..];
      MatchesStarSuffix(ext, tail);
      if |ext| <= |tail| {
        assert tail[|tail| - |ext|..] == path[|path| - |ext|..];
        assert tail[..|tail| - |ext|] == path[|head|..|path| - |ext|];
      }
    }
  }
}

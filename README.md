# Content-layer configuration of the learning-platform site

The site's articles, revision puzzles and reusable content blocks are `.mdx`
files under `data/`. The contentlayer library turns each file into a typed
record. `contentlayer.config.js` supplies the only logic the repository owns:

- the shared **computed fields**: `slug`, which strips a final `.mdx` from the
  file name, and `wordCount`, which splits the raw body on runs of whitespace
  and counts the pieces;
- the three **document types**: `ArticleType` (`articles/*.mdx`), `Puzzle`
  (`2521-revision-practical/*.mdx`) and `BlockContent` (`block-content/*.mdx`).
  Each has its declared fields, their required flags, and the computed fields
  it uses.

The model has four modules:

- `ComputedFields` (`computed_fields.dfy`) holds the two resolvers.
  - `Slug` follows JavaScript's `String.prototype.replace` with the
    non-global regular expression `/\.mdx$/`. It finds the leftmost match
    (`FirstMatchFrom`) and replaces it with the empty string. `Slug` is proved
    to remove exactly one final `.mdx`.
  - `Split` follows ECMAScript's `RegExp.prototype[@@split]` with the greedy
    matcher of `\s+` (`RunEnd`). This includes the rule that splitting an
    empty string gives one empty piece.
  - `Split` is proved to drop exactly the whitespace (`SplitKeepsText`).
  - `WordCount` is the number of pieces. It is proved to equal one more than
    the number of maximal whitespace runs (`Runs`).
  - `IsSpace` is the `\s` class under the `u` flag: ECMAScript WhiteSpace
    and LineTerminator.
- `Glob` (`glob.dfy`) holds the path patterns, read as globs relative to the
  content directory. `*` matches any run of characters other than `/`.
- `DocumentTypes` (`document_types.dfy`) holds the three type declarations as
  constants. It also has:
  - the check that the `required` flags declare (`CheckRequired`);
  - the list of types a path matches (`TypesMatching`);
  - contentlayer's `sourceFileName`, modelled as the last path segment
    (`SourceFileName`).
- `Wrappers` (`wrappers.dfy`) holds `Option`.

The configuration only declares the required fields. Contentlayer itself
enforces them, and contentlayer is not part of this model. `CheckRequired`
therefore states what the declarations ask for.

## Model

| member | source | states |
|---|---|---|
| `ComputedFields.FirstMatchFrom` | contentlayer.config.js:18 | the result is the leftmost index at or after the start where `/\.mdx$/` matches, or none when it matches nowhere |
| `ComputedFields.Slug` | contentlayer.config.js:16-19 | a name ending in `.mdx` is the slug followed by `.mdx`; any other name is its own slug |
| `ComputedFields.SlugRoundTrip` | contentlayer.config.js:18 | `Slug(n + ".mdx") == n` for every `n`, also when `n` already ends in `.mdx` |
| `ComputedFields.SlugKeepsOtherNames` | contentlayer.config.js:18 | a name that does not end in `.mdx` is returned unchanged |
| `ComputedFields.SlugIsShortPrefix` | contentlayer.config.js:18 | the slug is a prefix of the name and at most 4 characters (one `.mdx`) shorter |
| `ComputedFields.SlugExamples` | contentlayer.config.js:18 | `a.mdx.mdx` gives `a.mdx`, `a.mdx.txt` is unchanged, `my-post.mdx` gives `my-post` |
| `ComputedFields.IsSpace` | contentlayer.config.js:14 | `\s` under the `u` flag: ECMAScript WhiteSpace and LineTerminator (tab, line feed, vertical tab, form feed, carriage return, space, U+00A0, U+1680, U+2000 to U+200A, U+2028, U+2029, U+202F, U+205F, U+3000, U+FEFF) and nothing else |
| `ComputedFields.RunEnd` | contentlayer.config.js:14 | the greedy match of `\s+` at a whitespace character ends after a non-empty all-whitespace stretch, at the end of the input or before a non-whitespace character |
| `ComputedFields.SplitFrom` | contentlayer.config.js:14 | the split loop yields at least one piece, and no piece contains whitespace |
| `ComputedFields.Split` | contentlayer.config.js:14 | `split(/\s+/gu)` yields at least one piece (the empty body gives one), and no piece contains whitespace |
| `ComputedFields.SplitFromCountsRuns` | contentlayer.config.js:14 | from any reachable state, the split loop yields one more piece than the whitespace runs still ahead |
| `ComputedFields.SplitFromKeepsText` | contentlayer.config.js:14 | the pieces the split loop yields, joined, are the rest of the body with its whitespace removed |
| `ComputedFields.SplitKeepsText` | contentlayer.config.js:14 | joining the pieces of `split(/\s+/gu)` gives the body with its whitespace removed, so only whitespace is lost |
| `ComputedFields.SplitCountsRuns` | contentlayer.config.js:14 | the number of pieces is 1 + the number of maximal whitespace runs |
| `ComputedFields.WordCount` | contentlayer.config.js:12-15 | `body.split(/\s+/gu).length` equals 1 + the number of maximal whitespace runs, so leading or trailing whitespace adds an empty token |
| `ComputedFields.WordCountBounds` | contentlayer.config.js:14 | the count is at least 1 and at most the length of the body plus 1 |
| `ComputedFields.WordCountIgnoresRunWidth` | contentlayer.config.js:14 | replacing one non-empty whitespace run with any other (wider, narrower, tabs for spaces) leaves the count unchanged |
| `ComputedFields.WordCountExamples` | contentlayer.config.js:14 | the empty body counts 1; `hello world  foo` counts 3 |
| `Glob.Matches` | contentlayer.config.js:24-96 | a `filePathPattern` string matches a whole path, `*` standing for any run of characters other than `/` and every other character for itself |
| `Glob.DirPattern` | contentlayer.config.js:24 | the pattern `dir/*ext` matches exactly the paths `dir/<stem><ext>` whose stem holds no `/` |
| `DocumentTypes.MissingRequired` | contentlayer.config.js:27-60 | the result lists exactly the required fields that are absent, and its first element is the first absent required field in declaration order |
| `DocumentTypes.CheckRequired` | contentlayer.config.js:27-60 | a document is valid iff every required field is present; otherwise it reports the first required field, in declaration order, that is absent |
| `DocumentTypes.ArticleFields` | contentlayer.config.js:27-60 | ArticleType requires `title`, `desc`, `author`, `date` and declares `coverPhoto` and `tags` as optional |
| `DocumentTypes.PuzzleFields` | contentlayer.config.js:70-89 | Puzzle declares `title`, `desc`, `class`, `difficulty`, all required |
| `DocumentTypes.BlockContentFields` | contentlayer.config.js:94-102 | BlockContent declares no fields, so it accepts every document, and it computes only `slug` |
| `DocumentTypes.ArticleRequirements` | contentlayer.config.js:27-46 | an article is valid iff `title`, `desc`, `author` and `date` are present; one lacking only `author` is reported as missing `author` |
| `DocumentTypes.PuzzleRequirements` | contentlayer.config.js:70-89 | a puzzle is valid iff `title`, `desc`, `class` and `difficulty` are present |
| `DocumentTypes.ResultType` | contentlayer.config.js:10-19 | the declared value type of each computed field: `readingTime` is `json`, `wordCount` is `number`, `slug` is `string`, so no two computed fields share a type |
| `DocumentTypes.ComputedNamesAreNotFieldNames` | contentlayer.config.js:10-20 | for each of the three types, no computed field it uses has the name of one of its declared fields |
| `DocumentTypes.TypesMatching` | contentlayer.config.js:106 | the result holds exactly the listed types whose pattern matches the path, and no more of them than are listed |
| `DocumentTypes.PatternDirectories` | contentlayer.config.js:24-96 | each type's pattern matches exactly the `.mdx` files directly inside its own top-level directory |
| `DocumentTypes.PatternsAreDisjoint` | contentlayer.config.js:24-96 | no path matches two of the three patterns |
| `DocumentTypes.AtMostOneType` | contentlayer.config.js:104-106 | every path resolves to at most one type: the one whose directory holds it, or none |
| `DocumentTypes.SourceFileName` | contentlayer.config.js:18 | the file name is the suffix of the path after its last `/` and contains no `/` |
| `DocumentTypes.MatchedFileSlug` | contentlayer.config.js:16-19 | a file that any type matches has a name ending in `.mdx`, and its slug is that name without the suffix, containing no `/` |
| `DocumentTypes.FileInTypeDirectory` | contentlayer.config.js:22-102 | `dir/<stem>.mdx` in a type's directory belongs to that type alone and has slug `<stem>` (for example `block-content/intro.mdx` has slug `intro`) |

## Left out

- `readingTime` (contentlayer.config.js:11) calls the `reading-time` package. That package's rate, rounding and text format are not part of this model.
- The MDX remark and rehype plugins (contentlayer.config.js:3-8, 107-116) are build tooling from other libraries.
- Contentlayer itself is not part of this model. This covers reading files, parsing front matter, coercing values to the declared types, parsing ISO dates, typing lists and enforcing `required`. The model states only what the declarations ask for. It also does not model the order or form in which contentlayer reports errors.
- `Glob.Matches` models only the `*` wildcard that the patterns use. It does not model the glob library's handling of dotfiles, `**`, braces or character classes. Paths are taken relative to `data`.
- `DocumentTypes.SourceFileName` models contentlayer's `_raw.sourceFileName` as the last path segment. Contentlayer's own code for it is not part of this model.
- `ComputedFields.Split` does not model ECMAScript's limit of 2^32 - 1 pieces. No string a JavaScript engine can hold reaches it.
- Strings are sequences of Unicode scalar values, not UTF-16 code units. Every `\s` character lies in the Basic Multilingual Plane, so surrogate pairs never affect the count.
- components/ArticleRow.tsx, components/IconButton.tsx and components/ProblemCard.tsx are presentation only: JSX views and style objects.

/**
  The three document types the configuration declares (ArticleType, Puzzle
  and BlockContent) as plain data: each has a name, a file-path pattern, a
  content type, its declared fields with their required flags, and the
  computed fields it shares.

  What is modelled is what the configuration DECLARES. Reading the files,
  coercing the front matter to the declared types and enforcing `required`
  are done by the contentlayer library, which is not part of this model;
  `CheckRequired` states the rule the declarations ask it to enforce.
*/
module DocumentTypes {
  import Glob
  import ComputedFields

  // ---------------------------------------------------------------------
  // The declarations
  // ---------------------------------------------------------------------

  datatype FieldType = StringType | NumberType | DateType | ListOf(item: FieldType)

  datatype FieldDef = FieldDef(name: string, fieldType: FieldType, description: string, required: bool)

  /** The computed fields of the shared `computedFields` object, in
      declaration order. */
  datatype ComputedField = ReadingTime | WordCount | Slug

  datatype ContentType = Mdx

  datatype DocumentType = DocumentType(
    name: string,
    filePathPattern: string,
    contentType: ContentType,
    fields: seq<FieldDef>,
    computedFields: seq<ComputedField>)

  /** The declared `type` of a computed field's value: `readingTime` is
      JSON, `wordCount` a number and `slug` a string. */
  function ResultType(f: ComputedField): (r: string)
    ensures r == "json" <==> ComputedName(f) == "readingTime"
    ensures r == "number" <==> ComputedName(f) == "wordCount"
    ensures r == "string" <==> ComputedName(f) == "slug"
  {
    match f
    case ReadingTime => "json"
    case WordCount => "number"
    case Slug => "string"
  }

  /** The key under which a computed field appears in a resolved document. */
  function ComputedName(f: ComputedField): string {
    match f
    case ReadingTime => "readingTime"
    case WordCount => "wordCount"
    case Slug => "slug"
  }

  /** Patterns are relative to this directory. */
  const ContentDirPath: string := "data"

  const SharedComputedFields: seq<ComputedField> := [ReadingTime, WordCount, Slug]

  const ArticleType: DocumentType := DocumentType(
    "ArticleType",
    "articles/*.mdx",
    Mdx,
    [ FieldDef("title", StringType, "The title of the article", true),
      FieldDef("desc", StringType, "One sentence that summarises the article objective.", true),
      FieldDef("author", StringType, "The author of the article", true),
      FieldDef("date", DateType, "The date of the article", true),
      FieldDef("coverPhoto", StringType,
               "A cover photo that appears at the top of the article and in meta images", false),
      FieldDef("tags", ListOf(StringType), "List of tags applied to the article", false) ],
    SharedComputedFields)

  const Puzzle: DocumentType := DocumentType(
    "Puzzle",
    "2521-revision-practical/*.mdx",
    Mdx,
    [ FieldDef("title", StringType, "The title of the puzzle", true),
      FieldDef("desc", StringType, "One sentence that summarises the puzzle objective.", true),
      FieldDef("class", StringType, "The class the puzzle relates to", true),
      FieldDef("difficulty", NumberType, "The difficulty of the puzzle", true) ],
    SharedComputedFields)

  /** BlockContent declares no fields and takes only `slug` from the shared
      computed fields. */
  const BlockContent: DocumentType := DocumentType(
    "BlockContent",
    "block-content/*.mdx",
    Mdx,
    [],
    [Slug])

  /** The `documentTypes` list given to `makeSource`. */
  const DocumentTypes: seq<DocumentType> := [ArticleType, Puzzle, BlockContent]

  // ---------------------------------------------------------------------
  // Required fields
  // ---------------------------------------------------------------------

  function FieldNames(fields: seq<FieldDef>): set<string> {
    if fields == [] then {} else {fields[0].name} + FieldNames(fields[1..])
  }

  function RequiredNames(fields: seq<FieldDef>): set<string> {
    if fields == [] then {}
    else (if fields[0].required then {fields[0].name} else {}) + RequiredNames(fields[1..])
  }

  /** The required fields missing from a document that supplies the fields
      in `present`, in declaration order. */
  function MissingRequired(fields: seq<FieldDef>, present: set<string>): (missing: seq<string>)
    ensures forall n :: n in missing <==> n in RequiredNames(fields) && n !in present
    ensures missing != [] ==> FirstMissing(fields, present, missing[0])
  {
    if fields == [] then []
    else
      var rest := MissingRequired(fields[1..], present);
      if fields[0].required && fields[0].name !in present then
        assert FirstMissingAt(fields, present, fields[0].name, 0);
        [fields[0].name] + rest
      else
        assert rest != [] ==> FirstMissing(fields, present, rest[0]) by {
          if rest != [] {
            var k: nat :| FirstMissingAt(fields[1..], present, rest[0], k);
            assert FirstMissingAt(fields, present, rest[0], k + 1);
          }
        }
        rest
  }

  /** `name` is declared at index `k`, required and absent, and every
      required field declared before it is present. */
  predicate FirstMissingAt(fields: seq<FieldDef>, present: set<string>, name: string, k: nat) {
    && k < |fields| && fields[k].name == name && fields[k].required && name !in present
    && forall j :: 0 <= j < k && fields[j].required ==> fields[j].name in present
  }

  /** `name` is the first required field, in declaration order, that is
      absent. */
  ghost predicate FirstMissing(fields: seq<FieldDef>, present: set<string>, name: string) {
    exists k: nat :: FirstMissingAt(fields, present, name, k)
  }

  datatype Validation = Valid | MissingRequiredField(field: string)

  /** What the `required: true` flags ask of a document of type `t`: it is
      valid exactly when every required field is present; otherwise the
      first missing one in declaration order is reported. */
  function CheckRequired(t: DocumentType, present: set<string>): (v: Validation)
    ensures v.Valid? <==> RequiredNames(t.fields) <= present
    ensures v.MissingRequiredField? ==> v.field in RequiredNames(t.fields) && v.field !in present
    ensures v.MissingRequiredField? ==> FirstMissing(t.fields, present, v.field)
  {
    var missing := MissingRequired(t.fields, present);
    if missing == [] then
      Valid
    else
      assert missing[0] in missing;
      MissingRequiredField(missing[0])
  }

  /** ArticleType requires `title`, `desc`, `author` and `date`; `coverPhoto`
      and `tags` are optional. */
  lemma ArticleFields()
    ensures RequiredNames(ArticleType.fields) == {"title", "desc", "author", "date"}
    ensures FieldNames(ArticleType.fields) == {"title", "desc", "author", "date", "coverPhoto", "tags"}
  {
    var a := ArticleType.fields;
    assert a[1..][1..][1..][1..][1..][1..] == [];
  }

  /** Puzzle requires all four of its fields. */
  lemma PuzzleFields()
    ensures RequiredNames(Puzzle.fields) == FieldNames(Puzzle.fields) == {"title", "desc", "class", "difficulty"}
  {
    var p := Puzzle.fields;
    assert p[1..][1..][1..][1..] == [];
  }

  /** BlockContent declares no fields, so every document of it passes the
      required-field check, and it computes only `slug`. */
  lemma BlockContentFields(present: set<string>)
    ensures FieldNames(BlockContent.fields) == {}
    ensures CheckRequired(BlockContent, present) == Valid
    ensures BlockContent.computedFields == [Slug]
  {
  }

  /** No computed field of a type has the name of one of its declared
      fields, so the two never collide in a resolved document. */
  lemma ComputedNamesAreNotFieldNames()
    ensures forall t, f :: t in DocumentTypes && f in t.computedFields ==> ComputedName(f) !in FieldNames(t.fields)
  {
    ArticleFields();
    ComputedNamesAvoid(ArticleType);
    PuzzleFields();
    ComputedNamesAvoid(Puzzle);
    ComputedNamesAvoid(BlockContent);
  }

  // A type none of whose declared fields is named like a computed field.
  lemma ComputedNamesAvoid(t: DocumentType)
    requires "readingTime" !in FieldNames(t.fields)
    requires "wordCount" !in FieldNames(t.fields)
    requires "slug" !in FieldNames(t.fields)
    ensures forall f :: f in t.computedFields ==> ComputedName(f) !in FieldNames(t.fields)
  {
  }

  /** An article is valid exactly when it has a title, a description, an
      author and a date; one with all but the author is reported as missing
      `author`. */
  lemma ArticleRequirements(present: set<string>)
    ensures CheckRequired(ArticleType, present) == Valid
        <==> {"title", "desc", "author", "date"} <= present
    ensures "title" in present && "desc" in present && "date" in present && "author" !in present
        ==> CheckRequired(ArticleType, present) == MissingRequiredField("author")
  {
    ArticleFields();
  }

  /** A puzzle is valid exactly when it has a title, a description, a class
      and a difficulty. */
  lemma PuzzleRequirements(present: set<string>)
    ensures CheckRequired(Puzzle, present) == Valid
        <==> {"title", "desc", "class", "difficulty"} <= present
  {
    PuzzleFields();
  }

  // ---------------------------------------------------------------------
  // Which type a file belongs to
  // ---------------------------------------------------------------------

  /** `path` is relative to `ContentDirPath`. */
  predicate MatchesType(t: DocumentType, path: string) {
    Glob.Matches(t.filePathPattern, path)
  }

  /** The listed types whose pattern matches `path`. */
  function TypesMatching(types: seq<DocumentType>, path: string): (r: seq<DocumentType>)
    ensures forall t :: t in r <==> t in types && MatchesType(t, path)
    ensures |r| <= |types|
  {
    if types == [] then []
    else
      var rest := TypesMatching(types[1..], path);
      assert forall t :: t in types <==> t == types[0] || t in types[1..];
      if MatchesType(types[0], path) then [types[0]] + rest else rest
  }

  /** Each pattern selects the `.mdx` files directly inside one top-level
      directory. */
  lemma PatternDirectories(path: string)
    ensures MatchesType(ArticleType, path) <==> Glob.InDirWithExt(path, "articles", ".mdx")
    ensures MatchesType(Puzzle, path) <==> Glob.InDirWithExt(path, "2521-revision-practical", ".mdx")
    ensures MatchesType(BlockContent, path) <==> Glob.InDirWithExt(path, "block-content", ".mdx")
  {
    TypeDirectory(ArticleType, "articles", path);
    TypeDirectory(Puzzle, "2521-revision-practical", path);
    TypeDirectory(BlockContent, "block-content", path);
  }

  lemma TypeDirectory(t: DocumentType, dir: string, path: string)
    requires Glob.Literal(dir) && t.filePathPattern == dir + "/*.mdx"
    ensures MatchesType(t, path) <==> Glob.InDirWithExt(path, dir, ".mdx")
  {
    assert dir + "/*.mdx" == dir + "/*" + ".mdx";
    Glob.DirPattern(dir, ".mdx", path);
  }

  /** The three directories differ in their first character, so no path
      matches two of the patterns. */
  lemma PatternsAreDisjoint(path: string)
    ensures !(MatchesType(ArticleType, path) && MatchesType(Puzzle, path))
    ensures !(MatchesType(ArticleType, path) && MatchesType(BlockContent, path))
    ensures !(MatchesType(Puzzle, path) && MatchesType(BlockContent, path))
  {
    PatternDirectories(path);
    if MatchesType(ArticleType, path) {
      assert path[0] == path[..9][0] == 'a';
    }
    if MatchesType(Puzzle, path) {
      assert path[0] == path[..24][0] == '2';
    }
    if MatchesType(BlockContent, path) {
      assert path[0] == path[..14][0] == 'b';
    }
  }

  /** Every file resolves to at most one document type: the one whose
      directory holds it, if any. */
  lemma AtMostOneType(path: string)
    ensures TypesMatching(DocumentTypes, path)
         == if MatchesType(ArticleType, path) then [ArticleType]
            else if MatchesType(Puzzle, path) then [Puzzle]
            else if MatchesType(BlockContent, path) then [BlockContent]
            else []
    ensures |TypesMatching(DocumentTypes, path)| <= 1
  {
    PatternsAreDisjoint(path);
    var d := DocumentTypes;
    assert d[1..][1..][1..] == [];
    assert TypesMatching(d[1..][1..][1..], path) == [];
    assert TypesMatching(d[1..][1..], path) == if MatchesType(BlockContent, path) then [BlockContent] else [];
    assert TypesMatching(d[1..], path)
        == (if MatchesType(Puzzle, path) then [Puzzle] else []) + TypesMatching(d[1..][1..], path);
    assert TypesMatching(d, path)
        == (if MatchesType(ArticleType, path) then [ArticleType] else []) + TypesMatching(d[1..], path);
  }

  // ---------------------------------------------------------------------
  // The slug of a matched file
  // ---------------------------------------------------------------------

  /** `doc._raw.sourceFileName` as contentlayer supplies it: the last
      segment of the path. */
  function SourceFileName(path: string): (name: string)
    ensures '/' !in name
    ensures |name| <= |path| && path[|path| - |name|..] == name
    ensures |name| == |path| || path[|path| - |name| - 1] == '/'
  {
    if path == [] || path[|path| - 1] == '/' then []
    else
      var init := path[..|path| - 1];
      var name := SourceFileName(init);
      var last := path[|path| - 1];
      assert path == init + [last];
      SuffixGrows(init, name, last);
      name + [last]
  }

  lemma SuffixGrows(s: string, suffix: string, c: char)
    requires |suffix| <= |s| && s[|s| - |suffix|..] == suffix
    ensures (s + [c])[|s| - |suffix|..] == suffix + [c]
  {
    var k := |s| - |suffix|;
    assert forall i :: 0 <= i <= |suffix| ==> (s + [c])[k + i] == (suffix + [c])[i];
  }

  /** In `dir/<stem><ext>` with no `/` in `ext`, the file name is
      `<stem><ext>`. */
  lemma FileNameInDir(path: string, dir: string, ext: string)
    requires Glob.InDirWithExt(path, dir, ext) && '/' !in ext
    ensures SourceFileName(path) == path[|dir| + 1..]
  {
    var name := SourceFileName(path);
    var start := |dir| + 1;
    assert path[start - 1] == (dir + "/")[start - 1] == '/';
    forall k | start <= k < |path| ensures path[k] != '/' {
      if k < |path| - |ext| {
        assert path[k] in path[start..|path| - |ext|];
      } else {
        assert path[k] == path[|path| - |ext|..][k - (|path| - |ext|)];
      }
    }
  }

  /** Every file a document type takes has a name ending in `.mdx`, and its
      slug is that name without the suffix, a single path segment. */
  lemma MatchedFileSlug(t: DocumentType, path: string)
    requires t in DocumentTypes && MatchesType(t, path)
    ensures SourceFileName(path) == ComputedFields.Slug(SourceFileName(path)) + ".mdx"
    ensures '/' !in ComputedFields.Slug(SourceFileName(path))
  {
    PatternDirectories(path);
    var dir := if t == ArticleType then "articles"
               else if t == Puzzle then "2521-revision-practical"
               else "block-content";
    assert Glob.InDirWithExt(path, dir, ".mdx");
    FileNameInDir(path, dir, ".mdx");
    var name := SourceFileName(path);
    assert name[|name| - 4..] == path[|path| - 4..];
    assert ComputedFields.EndsWithMdx(name);
    var slug := ComputedFields.Slug(name);
    assert forall k :: 0 <= k < |slug| ==> slug[k] == name[k];
  }

  /** `dir/<stem>.mdx` lies in `dir`. */
  lemma StemInDirectory(dir: string, stem: string)
    requires '/' !in stem
    ensures Glob.InDirWithExt(dir + "/" + stem + ".mdx", dir, ".mdx")
  {
    var path := dir + "/" + stem + ".mdx";
    assert path[..|dir| + 1] == dir + "/";
    assert path[|path| - 4..] == ".mdx";
    assert path[|dir| + 1..|path| - 4] == stem;
  }

  /** The file name of `dir/<stem>.mdx` is `<stem>.mdx`. */
  lemma StemFileName(dir: string, stem: string)
    requires '/' !in stem
    ensures SourceFileName(dir + "/" + stem + ".mdx") == stem + ".mdx"
  {
    var head, tail := dir + "/", stem + ".mdx";
    var path := head + tail;
    assert path == dir + "/" + stem + ".mdx";
    StemInDirectory(dir, stem);
    FileNameInDir(path, dir, ".mdx");
    assert path[|head|..] == tail;
  }

  /** A file `<stem>.mdx` directly inside a type's directory belongs to
      that type alone, and its slug is `<stem>`: `block-content/intro.mdx`
      is a BlockContent document with slug `intro`. */
  lemma FileInTypeDirectory(dir: string, stem: string)
    requires dir in {"articles", "2521-revision-practical", "block-content"}
    requires '/' !in stem
    ensures var t := if dir == "articles" then ArticleType
                     else if dir == "2521-revision-practical" then Puzzle
                     else BlockContent;
            TypesMatching(DocumentTypes, dir + "/" + stem + ".mdx") == [t]
    ensures ComputedFields.Slug(SourceFileName(dir + "/" + stem + ".mdx")) == stem
  {
    var path := dir + "/" + stem + ".mdx";
    StemInDirectory(dir, stem);
    StemFileName(dir, stem);
    PatternDirectories(path);
    AtMostOneType(path);
    ComputedFields.SlugRoundTrip(stem);
  }
}

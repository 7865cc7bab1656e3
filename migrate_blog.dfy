/**
 * The blog migration (`scripts/migrate-blog.ts`): the frontmatter rewrite
 * for posts, and the flat loop that copies every Markdown post of the
 * source directory into the blog collection and counts them.
 */
module MigrateBlog {
  import opened Wrappers
  import opened Strings
  import opened Frontmatter
  import opened FileTree

  /** The fields a post keeps. */
  datatype BlogFields = BlogFields(title: string, author: string, description: string, image: string)

  /** Title (outer quotes stripped, default `Untitled`), author (default
      `nick`), description and image (default empty). */
  function ReadBlogFields(block: string): (f: BlogFields)
    ensures NoLineTerminator(f.title) && NoLineTerminator(f.author)
    ensures NoLineTerminator(f.description) && NoLineTerminator(f.image)
  {
    assert "nick"[0] == 'n' && "nick"[3] == 'k';
    var author := FieldOr(block, "author", "nick");
    assert NoLineTerminator(author);
    var description := FieldOr(block, "description", "");
    assert NoLineTerminator(description);
    var image := FieldOr(block, "image", "");
    assert NoLineTerminator(image);
    BlogFields(StrippedTitle(block), author, description, image)
  }

  /** The defaults of a post: `Untitled`, `nick` and empty description and image. */
  lemma AbsentBlogFields(block: string)
    ensures Absent(block, "title") ==> ReadBlogFields(block).title == "Untitled"
    ensures Absent(block, "author") ==> ReadBlogFields(block).author == "nick"
    ensures Absent(block, "description") ==> ReadBlogFields(block).description == ""
    ensures Absent(block, "image") ==> ReadBlogFields(block).image == ""
  {
    if Absent(block, "title") {
      StrippedTitleAbsent(block);
    }
    if Absent(block, "author") {
      FieldAbsent(block, "author", "nick");
    }
    if Absent(block, "description") {
      FieldAbsent(block, "description", "");
    }
    if Absent(block, "image") {
      FieldAbsent(block, "image", "");
    }
  }

  function BlogTitleLine(f: BlogFields): string {
    QuotedLine("title", Escape(f.title))
  }

  function AuthorLine(f: BlogFields): string {
    QuotedLine("author", f.author)
  }

  function BlogDescriptionPart(f: BlogFields): string {
    if f.description != "" then "\n" + QuotedLine("description", Escape(f.description)) else ""
  }

  function ImagePart(f: BlogFields): string {
    if f.image != "" then "\n" + QuotedLine("image", f.image) else ""
  }

  /** The new block: title (escaped), author (verbatim), then description
      (escaped) and image (verbatim) when they are not empty. */
  function RenderBlogBlock(f: BlogFields): string {
    BlogTitleLine(f) + "\n" + AuthorLine(f) + BlogDescriptionPart(f) + ImagePart(f)
  }

  lemma RenderedBlogShape(f: BlogFields)
    requires NoLineTerminator(f.title) && NoLineTerminator(f.author)
    requires NoLineTerminator(f.description) && NoLineTerminator(f.image)
    ensures NewlinesNotBeforeDash(RenderBlogBlock(f))
  {
    EscapeKeepsNoLineTerminator(f.title);
    EscapeKeepsNoLineTerminator(f.description);
    QuotedLineShape("title", Escape(f.title));
    QuotedLineShape("author", f.author);
    QuotedLineShape("description", Escape(f.description));
    QuotedLineShape("image", f.image);
    var a := BlogTitleLine(f);
    var b := "\n" + AuthorLine(f);
    NewlinesNotBeforeDashConcat(a, b);
    NewlinesNotBeforeDashConcat(a + b, BlogDescriptionPart(f));
    NewlinesNotBeforeDashConcat(a + b + BlogDescriptionPart(f), ImagePart(f));
  }

  /** `transformBlogFrontmatter`: content without a leading block is
      returned as it is; otherwise the block is replaced by the rendered
      one, which a later reading finds again in front of the same body. */
  function TransformBlogFrontmatter(content: string, filename: string): (r: string)
    ensures MatchBlock(content).None? ==> r == content
    ensures MatchBlock(content).Some? ==>
      MatchBlock(r) == Some((RenderBlogBlock(ReadBlogFields(MatchBlock(content).value.0)), MatchBlock(content).value.1))
  {
    match MatchBlock(content)
    case None => content
    case Some((block, body)) =>
      var f := ReadBlogFields(block);
      RenderedBlogShape(f);
      RebuildFinds(RenderBlogBlock(f), body);
      Open + RenderBlogBlock(f) + Close + body
  }

  /** A rendered post block has a `title` and an `author` the field pattern finds. */
  lemma RenderedHasRequiredFields(f: BlogFields)
    ensures FieldValue(RenderBlogBlock(f), "title").Some? && FieldValue(RenderBlogBlock(f), "author").Some?
  {
    RenderedHasTitle(f);
    RenderedHasAuthor(f);
  }

  /** Everything the block holds after the title line. */
  function AfterTitle(f: BlogFields): string {
    "\n" + AuthorLine(f) + BlogDescriptionPart(f) + ImagePart(f)
  }

  lemma TitleFirst(f: BlogFields)
    ensures RenderBlogBlock(f) == BlogTitleLine(f) + AfterTitle(f)
  {
    var t, a, d, i := BlogTitleLine(f), AuthorLine(f), BlogDescriptionPart(f), ImagePart(f);
    ConcatAssociates(t, "\n", a);
    ConcatAssociates(t, "\n" + a, d);
    ConcatAssociates(t, "\n" + a + d, i);
  }

  lemma RenderedHasTitle(f: BlogFields)
    ensures FieldValue(RenderBlogBlock(f), "title").Some?
  {
    TitleFirst(f);
    FirstFieldPresent("title", Escape(f.title), AfterTitle(f));
  }

  lemma RenderedHasAuthor(f: BlogFields)
    ensures FieldValue(RenderBlogBlock(f), "author").Some?
  {
    var pre := BlogTitleLine(f) + "\n";
    ConcatAssociates(pre + AuthorLine(f), BlogDescriptionPart(f), ImagePart(f));
    QuotedFieldPresent(pre, "author", f.author, BlogDescriptionPart(f) + ImagePart(f));
  }

  /** The blog collection requires `title` and `author`: every rewritten
      block provides both, whatever the original held. */
  lemma RequiredFieldsPresent(content: string, filename: string)
    requires MatchBlock(content).Some?
    ensures var inner := MatchBlock(TransformBlogFrontmatter(content, filename)).value.0;
            FieldValue(inner, "title").Some? && FieldValue(inner, "author").Some?
  {
    RenderedHasRequiredFields(ReadBlogFields(MatchBlock(content).value.0));
  }

  /** The author is read back verbatim when it is not empty and the escaped
      title holds no `author:`. */
  lemma ReadBackAuthor(f: BlogFields)
    requires f.author != "" && Trimmed(f.author) && NoLineTerminator(f.author)
    requires !Contains(Escape(f.title), "author:")
    ensures FieldValue(RenderBlogBlock(f), "author") == Some(f.author)
  {
    LongerNotContained("title:", "author:");
    QuotedLineLacks("title", Escape(f.title), "author:");
    assert "author" + ":" == "author:";
    var tail := BlogDescriptionPart(f) + ImagePart(f);
    assert tail == [] || tail[0] == '\n';
    ConcatAssociates(BlogTitleLine(f) + "\n" + AuthorLine(f), BlogDescriptionPart(f), ImagePart(f));
    ReadLaterQuotedField(BlogTitleLine(f), "author", f.author, tail);
  }

  /** The title is read back with its escapes; the outer-quote strip then
      gives the title again when it neither starts nor ends with a quote. */
  lemma ReadBackBlogTitle(f: BlogFields)
    requires f.title != "" && Trimmed(f.title) && NoLineTerminator(f.title)
    requires !IsQuote(f.title[0]) && !IsQuote(f.title[|f.title| - 1]) && '"' !in f.title
    ensures FieldValue(RenderBlogBlock(f), "title") == Some(f.title)
    ensures StripOuterQuote(FieldValue(RenderBlogBlock(f), "title").value) == f.title
  {
    EscapeWithoutQuotes(f.title);
    var s := RenderBlogBlock(f);
    var tl := BlogTitleLine(f);
    TitleFirst(f);
    assert s[..|tl|] == tl;
    ReadQuotedField(s, "title", 0, f.title);
  }

  /* ---------------------------------------------------------------------- */
  /* The migration loop                                                      */
  /* ---------------------------------------------------------------------- */

  /** `readFileSync` is only called on `.md` entries, and fails on a directory. */
  predicate NoMarkdownDirectory(entries: seq<Node>) {
    forall i | 0 <= i < |entries| :: entries[i].Dir? ==> !IsMarkdown(entries[i].name)
  }

  /** `readdirSync` never lists a name twice. */
  predicate DistinctNames(entries: seq<Node>) {
    forall i, j | 0 <= i < j < |entries| :: entries[i].name != entries[j].name
  }

  /** The file written for one entry, if any. */
  function PostWrite(e: Node, destDir: Path): map<Path, string> {
    if e.File? && IsMarkdown(e.name) then map[destDir + [e.name] := TransformBlogFrontmatter(e.content, e.name)]
    else map[]
  }

  /** The files the loop writes over `entries`, a later write of a path replacing an earlier one. */
  function PostWrites(entries: seq<Node>, destDir: Path): map<Path, string> {
    if entries == [] then map[]
    else PostWrites(entries[..|entries| - 1], destDir) + PostWrite(entries[|entries| - 1], destDir)
  }

  /** Every written file is a `.md` entry of the source directory, placed directly in `destDir`. */
  lemma {:induction false} PostWritesFromEntries(entries: seq<Node>, destDir: Path, p: Path)
    requires p in PostWrites(entries, destDir)
    ensures exists i :: 0 <= i < |entries| && entries[i].File? && IsMarkdown(entries[i].name) && p == destDir + [entries[i].name]
    decreases |entries|
  {
    var n := |entries|;
    var init := entries[..n - 1];
    if p in PostWrite(entries[n - 1], destDir) {
      assert entries[n - 1].File? && IsMarkdown(entries[n - 1].name) && p == destDir + [entries[n - 1].name];
    } else {
      PostWritesFromEntries(init, destDir, p);
      var i :| 0 <= i < |init| && init[i].File? && IsMarkdown(init[i].name) && p == destDir + [init[i].name];
      assert entries[i] == init[i];
    }
  }

  /** The number of entries the loop migrates. */
  function PostCount(entries: seq<Node>): nat {
    if entries == [] then 0
    else PostCount(entries[..|entries| - 1]) + (if entries[|entries| - 1].File? && IsMarkdown(entries[|entries| - 1].name) then 1 else 0)
  }

  /** One turn of the loop: a `.md` entry is rewritten into `destDir`, anything else is skipped. */
  method MigrateEntry(dest: Destination, e: Node, destDir: Path) returns (migrated: nat)
    requires dest.Valid() && |destDir| >= 1 && destDir in dest.dirs
    requires e.Dir? ==> !IsMarkdown(e.name)
    modifies dest
    ensures dest.Valid()
    ensures dest.dirs == old(dest.dirs) && dest.files == old(dest.files) + PostWrite(e, destDir)
    ensures migrated == if e.File? && IsMarkdown(e.name) then 1 else 0
  {
    if !IsMarkdown(e.name) {
      return 0;
    }
    var transformed := TransformBlogFrontmatter(e.content, e.name);
    var p := destDir + [e.name];
    assert p[..|p| - 1] == destDir;
    assert PostWrite(e, destDir) == map[p := transformed];
    dest.WriteFile(p, transformed);
    UpdateIsUnion(old(dest.files), p, transformed);
    return 1;
  }

  /** The top-level loop of the blog migration: the destination directory is
      made, each `.md` post is rewritten into it under the same name, other
      entries are skipped, and the posts are counted. */
  method MigratePosts(dest: Destination, entries: seq<Node>, destDir: Path) returns (count: nat)
    requires dest.Valid() && |destDir| >= 1
    requires NoMarkdownDirectory(entries)
    modifies dest
    ensures dest.Valid()
    ensures dest.dirs == old(dest.dirs) + Prefixes(destDir)
    ensures dest.files == old(dest.files) + PostWrites(entries, destDir)
    ensures count == PostCount(entries)
  {
    dest.MakeDirectory(destDir);
    assert destDir[..|destDir|] == destDir;
    count := 0;
    for i := 0 to |entries|
      invariant dest.Valid() && destDir in dest.dirs
      invariant dest.dirs == old(dest.dirs) + Prefixes(destDir)
      invariant dest.files == old(dest.files) + PostWrites(entries[..i], destDir)
      invariant count == PostCount(entries[..i])
    {
      var e := entries[i];
      StepPrefix(entries, i, destDir);
      ghost var before := dest.files;
      var migrated := MigrateEntry(dest, e, destDir);
      assert dest.files == before + PostWrite(e, destDir);
      UnionAssociates(old(dest.files), PostWrites(entries[..i], destDir), PostWrite(e, destDir));
      count := count + migrated;
    }
    assert entries[..|entries|] == entries;
  }

  /** With distinct names, each `.md` post lands in its own file, holding its rewritten content. */
  lemma {:induction false} EachPostWritten(entries: seq<Node>, destDir: Path, i: nat)
    requires DistinctNames(entries) && i < |entries|
    requires entries[i].File? && IsMarkdown(entries[i].name)
    ensures destDir + [entries[i].name] in PostWrites(entries, destDir)
    ensures PostWrites(entries, destDir)[destDir + [entries[i].name]]
            == TransformBlogFrontmatter(entries[i].content, entries[i].name)
    decreases |entries|
  {
    var n := |entries|;
    var init := entries[..n - 1];
    var p := destDir + [entries[i].name];
    if i < n - 1 {
      assert init[i] == entries[i];
      EachPostWritten(init, destDir, i);
      assert entries[n - 1].name != entries[i].name;
      assert (destDir + [entries[n - 1].name])[|destDir|] == entries[n - 1].name;
      assert p !in PostWrite(entries[n - 1], destDir);
    }
  }

  /** A name no entry has is never written. */
  lemma {:induction false} NameNotWritten(entries: seq<Node>, destDir: Path, name: string)
    requires forall i | 0 <= i < |entries| :: entries[i].name != name
    ensures destDir + [name] !in PostWrites(entries, destDir)
    decreases |entries|
  {
    if entries != [] {
      var n := |entries|;
      var init := entries[..n - 1];
      assert forall i | 0 <= i < |init| :: init[i] == entries[i];
      NameNotWritten(init, destDir, name);
      assert (destDir + [entries[n - 1].name])[|destDir|] == entries[n - 1].name;
    }
  }

  /** One more entry adds its own write, and one to the count when it is a post. */
  lemma StepWrites(init: seq<Node>, last: Node, destDir: Path)
    ensures PostWrites(init + [last], destDir) == PostWrites(init, destDir) + PostWrite(last, destDir)
    ensures PostCount(init + [last]) == PostCount(init) + (if last.File? && IsMarkdown(last.name) then 1 else 0)
  {
    var s := init + [last];
    assert s[..|s| - 1] == init && s[|s| - 1] == last;
  }

  /** The loop's step from `entries[..i]` to `entries[..i + 1]`. */
  lemma StepPrefix(entries: seq<Node>, i: nat, destDir: Path)
    requires i < |entries|
    ensures PostWrites(entries[..i + 1], destDir) == PostWrites(entries[..i], destDir) + PostWrite(entries[i], destDir)
    ensures PostCount(entries[..i + 1]) == PostCount(entries[..i]) + (if entries[i].File? && IsMarkdown(entries[i].name) then 1 else 0)
  {
    assert entries[..i + 1] == entries[..i] + [entries[i]];
    StepWrites(entries[..i], entries[i], destDir);
  }

  /** A write to a new path adds one file. */
  lemma StepKeys(m0: map<Path, string>, last: Node, destDir: Path)
    requires destDir + [last.name] !in m0
    ensures |(m0 + PostWrite(last, destDir)).Keys| == |m0.Keys| + (if last.File? && IsMarkdown(last.name) then 1 else 0)
  {
    if last.File? && IsMarkdown(last.name) {
      assert (m0 + PostWrite(last, destDir)).Keys == m0.Keys + {destDir + [last.name]};
    } else {
      assert m0 + PostWrite(last, destDir) == m0;
    }
  }

  /** With distinct names, the count is the number of files written. */
  lemma {:induction false} CountIsFilesWritten(entries: seq<Node>, destDir: Path)
    requires DistinctNames(entries)
    ensures |PostWrites(entries, destDir).Keys| == PostCount(entries)
    decreases |entries|
  {
    if entries != [] {
      var n := |entries|;
      var init, last := entries[..n - 1], entries[n - 1];
      assert entries == init + [last];
      assert forall i | 0 <= i < |init| :: init[i] == entries[i];
      CountIsFilesWritten(init, destDir);
      NameNotWritten(init, destDir, last.name);
      StepWrites(init, last, destDir);
      StepKeys(PostWrites(init, destDir), last, destDir);
    }
  }
}

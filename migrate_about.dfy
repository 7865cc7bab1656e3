/**
 * The about-pages migration (`scripts/migrate-about.ts`): the frontmatter
 * rewrite for about pages. The directory walk is in module `Walker`.
 */
module MigrateAbout {
  import opened Wrappers
  import opened Strings
  import opened Frontmatter

  /** The fields an about page keeps. */
  datatype AboutFields = AboutFields(title: string, description: string, layout: string)

  /** Title (outer quotes stripped, default `Untitled`), description and
      layout (default empty). */
  function ReadAboutFields(block: string): (f: AboutFields)
    ensures NoLineTerminator(f.title) && NoLineTerminator(f.description) && NoLineTerminator(f.layout)
  {
    var description := FieldOr(block, "description", "");
    assert NoLineTerminator(description);
    var layout := FieldOr(block, "layout", "");
    assert NoLineTerminator(layout);
    AboutFields(StrippedTitle(block), description, layout)
  }

  /** The defaults of an about page: `Untitled` and empty description and layout. */
  lemma AbsentAboutFields(block: string)
    ensures Absent(block, "title") ==> ReadAboutFields(block).title == "Untitled"
    ensures Absent(block, "description") ==> ReadAboutFields(block).description == ""
    ensures Absent(block, "layout") ==> ReadAboutFields(block).layout == ""
  {
    if Absent(block, "title") {
      StrippedTitleAbsent(block);
    }
    if Absent(block, "description") {
      FieldAbsent(block, "description", "");
    }
    if Absent(block, "layout") {
      FieldAbsent(block, "layout", "");
    }
  }

  function AboutTitleLine(f: AboutFields): string {
    QuotedLine("title", Escape(f.title))
  }

  function AboutDescriptionPart(f: AboutFields): string {
    if f.description != "" then "\n" + QuotedLine("description", Escape(f.description)) else ""
  }

  function LayoutPart(f: AboutFields): string {
    if f.layout != "" then "\n" + QuotedLine("layout", f.layout) else ""
  }

  /** The new block: title (escaped), then description (escaped) and layout
      (verbatim) when they are not empty. */
  function RenderAboutBlock(f: AboutFields): string {
    AboutTitleLine(f) + AboutDescriptionPart(f) + LayoutPart(f)
  }

  lemma RenderedAboutShape(f: AboutFields)
    requires NoLineTerminator(f.title) && NoLineTerminator(f.description) && NoLineTerminator(f.layout)
    ensures NewlinesNotBeforeDash(RenderAboutBlock(f))
  {
    EscapeKeepsNoLineTerminator(f.title);
    EscapeKeepsNoLineTerminator(f.description);
    QuotedLineShape("title", Escape(f.title));
    QuotedLineShape("description", Escape(f.description));
    QuotedLineShape("layout", f.layout);
    NewlinesNotBeforeDashConcat(AboutTitleLine(f), AboutDescriptionPart(f));
    NewlinesNotBeforeDashConcat(AboutTitleLine(f) + AboutDescriptionPart(f), LayoutPart(f));
  }

  /** `transformAboutFrontmatter`: content without a leading block is
      returned as it is; otherwise the block is replaced by the rendered
      one, which a later reading finds again in front of the same body. */
  function TransformAboutFrontmatter(content: string, relativePath: string): (r: string)
    ensures MatchBlock(content).None? ==> r == content
    ensures MatchBlock(content).Some? ==>
      MatchBlock(r) == Some((RenderAboutBlock(ReadAboutFields(MatchBlock(content).value.0)), MatchBlock(content).value.1))
  {
    match MatchBlock(content)
    case None => content
    case Some((block, body)) =>
      var f := ReadAboutFields(block);
      RenderedAboutShape(f);
      RebuildFinds(RenderAboutBlock(f), body);
      Open + RenderAboutBlock(f) + Close + body
  }

  /** The about collection requires a `title`: every rewritten block has one. */
  lemma RenderedHasTitle(f: AboutFields)
    ensures FieldValue(RenderAboutBlock(f), "title").Some?
  {
    ConcatAssociates(AboutTitleLine(f), AboutDescriptionPart(f), LayoutPart(f));
    FirstFieldPresent("title", Escape(f.title), AboutDescriptionPart(f) + LayoutPart(f));
  }

  lemma RequiredFieldPresent(content: string, relativePath: string)
    requires MatchBlock(content).Some?
    ensures FieldValue(MatchBlock(TransformAboutFrontmatter(content, relativePath)).value.0, "title").Some?
  {
    RenderedHasTitle(ReadAboutFields(MatchBlock(content).value.0));
  }

  /** The title is read back with its escapes; the outer-quote strip then
      gives the title again when it neither starts nor ends with a quote. */
  lemma ReadBackAboutTitle(f: AboutFields)
    requires f.title != "" && Trimmed(f.title) && NoLineTerminator(f.title)
    requires !IsQuote(f.title[0]) && !IsQuote(f.title[|f.title| - 1]) && '"' !in f.title
    ensures FieldValue(RenderAboutBlock(f), "title") == Some(f.title)
    ensures StrippedTitle(RenderAboutBlock(f)) == f.title
  {
    EscapeWithoutQuotes(f.title);
    var s := RenderAboutBlock(f);
    var tl := AboutTitleLine(f);
    var tail := AboutDescriptionPart(f) + LayoutPart(f);
    ConcatAssociates(tl, AboutDescriptionPart(f), LayoutPart(f));
    assert s[..|tl|] == tl;
    assert tail == [] || tail[0] == '\n';
    ReadQuotedField(s, "title", 0, f.title);
  }

  /** The layout is read back verbatim when it is not empty and neither the
      escaped title nor the escaped description holds `layout:`. */
  lemma ReadBackLayout(f: AboutFields)
    requires f.layout != "" && Trimmed(f.layout) && NoLineTerminator(f.layout)
    requires !Contains(Escape(f.title), "layout:") && !Contains(Escape(f.description), "layout:")
    ensures FieldValue(RenderAboutBlock(f), "layout") == Some(f.layout)
  {
    var first := AboutTitleLine(f) + AboutDescriptionPart(f);
    FirstLinesLackLayout(f);
    assert "layout" + ":" == "layout:";
    ConcatAssociates(first, "\n", QuotedLine("layout", f.layout));
    assert RenderAboutBlock(f) == first + "\n" + QuotedLine("layout", f.layout) + "";
    ReadLaterQuotedField(first, "layout", f.layout, "");
  }

  /** The title and description lines hold no `layout:` when their values do not. */
  lemma FirstLinesLackLayout(f: AboutFields)
    requires !Contains(Escape(f.title), "layout:") && !Contains(Escape(f.description), "layout:")
    ensures !Contains(AboutTitleLine(f) + AboutDescriptionPart(f), "layout:")
  {
    var first := AboutTitleLine(f) + AboutDescriptionPart(f);
    LongerNotContained("title:", "layout:");
    QuotedLineLacks("title", Escape(f.title), "layout:");
    if f.description != "" {
      assert "description" + ":" == "description:";
      assert "layout:"[0] == 'l';
      NotContainsMissingChar("description:", "layout:", 'l');
      QuotedLineLacks("description", Escape(f.description), "layout:");
      var dl := QuotedLine("description", Escape(f.description));
      NotContainsMissingChar("\n", "layout:", 'l');
      NotContainsConcat("\n", dl, "layout:");
      NotContainsConcat(AboutTitleLine(f), "\n" + dl, "layout:");
    } else {
      assert first == AboutTitleLine(f);
    }
  }
}

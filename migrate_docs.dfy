/**
 * The documentation migration (`scripts/migrate-docs.ts`): the sidebar
 * order table, its lookup, and the frontmatter rewrite applied to every
 * Markdown page. The directory walk is in module `Walker`.
 */
module MigrateDocs {
  import opened Wrappers
  import opened Strings
  import opened Frontmatter

  /** Sidebar positions, per section (first path segment), per page name. */
  const SectionOrders: map<string, map<string, nat> > := map[
    "getting-started" := GettingStartedOrders,
    "user-guide" := map["index" := 0, "concepts" := 1],
    "creating-nodes" := CreatingNodesOrders,
    "developing" := map["index" := 0],
    "api" := map["index" := 0],
    "tutorials" := map["index" := 0]
  ]

  const GettingStartedOrders: map<string, nat> := map[
    "index" := 0, "local" := 1, "docker" := 2, "raspberrypi" := 3,
    "beaglebone" := 4, "android" := 5, "docker-custom" := 6, "aws" := 7,
    "azure" := 8, "ibmcloud" := 9, "flowfuse" := 10, "node-red-admin" := 11,
    "updating" := 12, "faq" := 13]

  const CreatingNodesOrders: map<string, nat> := map[
    "index" := 0, "first-node" := 1, "node-js" := 2, "node-html" := 3,
    "node-context" := 4, "config-nodes" := 5, "properties" := 6,
    "credentials" := 7, "appearance" := 8, "status" := 9,
    "edit-dialog" := 10, "context-menu" := 11, "help-style-guide" := 12,
    "i18n" := 13, "packaging" := 14, "subflow-modules" := 15]

  /** The key `getOrder` looks up: the first `.md` and then the first `/index` removed. */
  function PageName(file: string): string {
    ReplaceFirst(ReplaceFirst(file, ".md", ""), "/index", "")
  }

  /** `getOrder`: the table entry, or `None` when the section or the page is
      not in the table. An order of `0` is a present entry, not an absent one.
      The ensures are the lookup itself; what it means for a page is stated by
      `MarkdownPageOrder`, `RootPageHasNoOrder` and `NestedPageOrder`. */
  function GetOrder(section: string, file: string): (r: Option<nat>)
    ensures r.Some? <==> section in SectionOrders && PageName(file) in SectionOrders[section]
    ensures r.Some? ==> r.value == SectionOrders[section][PageName(file)]
  {
    if section in SectionOrders && PageName(file) in SectionOrders[section] then
      Some(SectionOrders[section][PageName(file)])
    else None
  }

  /** The fields the rewrite carries over. */
  datatype DocFields = DocFields(title: string, description: string, order: Option<nat>)

  /** Title (default `Untitled`), description (default empty) and the
      sidebar order of the page at `relativePath`, found by its first and
      last path segments. */
  function ReadDocFields(block: string, relativePath: string): (f: DocFields)
    ensures Trimmed(f.title) && NoLineTerminator(f.title)
    ensures Trimmed(f.description) && NoLineTerminator(f.description)
    ensures f.order == GetOrder(FirstSegment(relativePath), LastSegment(relativePath))
  {
    DefaultTitlePlain();
    DocFields(FieldOr(block, "title", DefaultTitle), FieldOr(block, "description", ""), GetOrder(FirstSegment(relativePath), LastSegment(relativePath)))
  }

  /** A block without `title:` gets `Untitled`, one without `description:` an
      empty description, which then renders no description line. */
  lemma AbsentDocFields(block: string, relativePath: string)
    ensures Absent(block, "title") ==> ReadDocFields(block, relativePath).title == "Untitled"
    ensures Absent(block, "description") ==> ReadDocFields(block, relativePath).description == ""
  {
    if Absent(block, "title") {
      FieldAbsent(block, "title", DefaultTitle);
    }
    if Absent(block, "description") {
      FieldAbsent(block, "description", "");
    }
  }

  /** A top-level page whose block holds only a description is rewritten
      with the title `Untitled` in front of that description. */
  lemma DescriptionOnlyBlock(v: string, name: string)
    requires v != "" && Trimmed(v) && NoLineTerminator(v) && '"' !in v && !Contains(v, "title:")
    requires '/' !in name && EndsWith(name, ".md")
    ensures ReadDocFields(QuotedLine("description", v), name) == DocFields(DefaultTitle, v, None)
    ensures RenderDocBlock(DocFields(DefaultTitle, v, None))
            == QuotedLine("title", DefaultTitle) + "\n" + QuotedLine("description", v)
  {
    var block := QuotedLine("description", v);
    DescriptionLineLacksTitle(v);
    AbsentDocFields(block, name);
    DescriptionLineRead(v);
    RootPageHasNoOrder(block, name);
    DefaultTitleLine(v);
  }

  lemma DescriptionLineLacksTitle(v: string)
    requires !Contains(v, "title:")
    ensures Absent(QuotedLine("description", v), "title")
  {
    assert "description" + ":" == "description:" && "title" + ":" == "title:";
    NotContainsMissingChar("description:", "title:", 'l');
    QuotedLineLacks("description", v, "title:");
    NotContainedAbsent(QuotedLine("description", v), "title");
  }

  lemma DescriptionLineRead(v: string)
    requires v != "" && Trimmed(v) && NoLineTerminator(v)
    ensures FieldValue(QuotedLine("description", v), "description") == Some(v)
  {
    ReadQuotedField(QuotedLine("description", v), "description", 0, v);
  }

  lemma DefaultTitleLine(v: string)
    requires v != "" && '"' !in v
    ensures RenderDocBlock(DocFields(DefaultTitle, v, None))
            == QuotedLine("title", DefaultTitle) + "\n" + QuotedLine("description", v)
  {
    var f := DocFields(DefaultTitle, v, None);
    var tl, dl := QuotedLine("title", DefaultTitle), QuotedLine("description", v);
    assert '"' !in DefaultTitle by {
      assert DefaultTitle == ['U', 'n', 't', 'i', 't', 'l', 'e', 'd'];
    }
    EscapeWithoutQuotes(DefaultTitle);
    EscapeWithoutQuotes(v);
    assert TitleLine(f) == tl && DescriptionPart(f) == "\n" + dl && SidebarPart(f) == "";
    ConcatAssociates(tl, "\n", dl);
    assert tl + ("\n" + dl) + "" == tl + ("\n" + dl);
  }

  /** `relativePath.split('/')[0]`: the section. */
  function FirstSegment(relativePath: string): string {
    Split(relativePath, '/')[0]
  }

  /** `relativePath.split('/').pop()`: the file name. */
  function LastSegment(relativePath: string): string {
    var parts := Split(relativePath, '/');
    parts[|parts| - 1]
  }

  function TitleLine(f: DocFields): string {
    QuotedLine("title", Escape(f.title))
  }

  function DescriptionPart(f: DocFields): string {
    if f.description != "" then "\n" + QuotedLine("description", Escape(f.description)) else ""
  }

  function SidebarPart(f: DocFields): string {
    if f.order.Some? then "\nsidebar:\n  order: " + NatToString(f.order.value) else ""
  }

  /** The new block, between the delimiters: the title line, the
      description line when there is a description, and the sidebar order
      when there is one (`0` included). */
  function RenderDocBlock(f: DocFields): string {
    TitleLine(f) + DescriptionPart(f) + SidebarPart(f)
  }

  lemma SidebarShape(n: nat)
    ensures NewlinesNotBeforeDash("\nsidebar:\n  order: " + NatToString(n))
    ensures 'p' !in "\nsidebar:\n  order: " + NatToString(n)
  {
    var d := NatToString(n);
    var s := "\nsidebar:\n  order: " + d;
    forall i | 19 <= i < |s| ensures IsDigit(s[i]) {
      assert s[i] == d[i - 19];
    }
  }

  /** The rendered block never holds an early `\n---`. */
  lemma RenderedShape(f: DocFields)
    requires NoLineTerminator(f.title) && NoLineTerminator(f.description)
    ensures NewlinesNotBeforeDash(RenderDocBlock(f))
  {
    EscapeKeepsNoLineTerminator(f.title);
    EscapeKeepsNoLineTerminator(f.description);
    QuotedLineShape("title", Escape(f.title));
    QuotedLineShape("description", Escape(f.description));
    if f.order.Some? {
      SidebarShape(f.order.value);
    }
    NewlinesNotBeforeDashConcat(TitleLine(f), DescriptionPart(f));
    NewlinesNotBeforeDashConcat(TitleLine(f) + DescriptionPart(f), SidebarPart(f));
  }

  /** `transformFrontmatter`: content without a leading block is returned as
      it is; otherwise the block is replaced by the rendered one, which a
      later reading finds again in front of the same body. */
  function TransformFrontmatter(content: string, relativePath: string): (r: string)
    ensures MatchBlock(content).None? ==> r == content
    ensures MatchBlock(content).Some? ==>
      MatchBlock(r) == Some((RenderDocBlock(ReadDocFields(MatchBlock(content).value.0, relativePath)), MatchBlock(content).value.1))
  {
    match MatchBlock(content)
    case None => content
    case Some((block, body)) =>
      var f := ReadDocFields(block, relativePath);
      RenderedShape(f);
      RebuildFinds(RenderDocBlock(f), body);
      Open + RenderDocBlock(f) + Close + body
  }

  /** Removing a trailing `.md` from a name without a dot, then the absent `/index`. */
  lemma PageNameOfMarkdown(a: string)
    requires '.' !in a && '/' !in a
    ensures PageName(a + ".md") == a
  {
    var s := a + ".md";
    assert OccursAt(s, ".md", |a|);
    forall k: nat | k < |a| ensures !OccursAt(s, ".md", k) {
      assert s[k] == a[k];
      assert a[k] in a;
      if k + 3 <= |s| {
        assert s[k..k + 3][0] == a[k] != '.';
      }
    }
    ReplaceFirstAt(s, ".md", "", |a|);
    assert ReplaceFirst(s, ".md", "") == a;
    NotContainsMissingChar(a, "/index", '/');
  }

  /** The order of `a.md` in a section is the table's entry for `a`, when
      the table has one. */
  lemma MarkdownPageOrder(section: string, a: string)
    requires '.' !in a && '/' !in a
    ensures GetOrder(section, a + ".md")
            == if section in SectionOrders && a in SectionOrders[section] then Some(SectionOrders[section][a]) else None
  {
    PageNameOfMarkdown(a);
  }

  /** Three lookups: a page in its section, the section index at order `0`,
      and an unknown section. */
  lemma GetOrderExamples()
    ensures GetOrder("getting-started", "docker.md") == Some(2)
  {
    assert "docker" + ".md" == "docker.md";
    PageNameOfMarkdown("docker");
    GettingStartedSection();
    DockerOrder();
  }

  lemma GetOrderExample2()
    ensures GetOrder("getting-started", "index.md") == Some(0)
  {
    assert "index" + ".md" == "index.md";
    PageNameOfMarkdown("index");
    GettingStartedSection();
    IndexOrder();
  }

  lemma GettingStartedSection()
    ensures "getting-started" in SectionOrders && SectionOrders["getting-started"] == GettingStartedOrders
  {
  }

  lemma DockerOrder()
    ensures "docker" in GettingStartedOrders && GettingStartedOrders["docker"] == 2
  {
  }

  lemma IndexOrder()
    ensures "index" in GettingStartedOrders && GettingStartedOrders["index"] == 0
  {
  }

  lemma GetOrderExample3()
    ensures GetOrder("unknown", "foo.md") == None
  {
  }

  /** A page directly under the root is its own section, and no section
      name ends in `.md`, so it gets no sidebar order. */
  lemma RootPageHasNoOrder(block: string, name: string)
    requires '/' !in name && EndsWith(name, ".md")
    ensures ReadDocFields(block, name).order == None
  {
    SplitWithoutSeparator(name, '/');
    assert name !in SectionOrders by {
      assert forall k | k in SectionOrders :: !EndsWith(k, ".md");
    }
  }

  /** A nested page takes its order from its section and its file name,
      whatever the directories between them. */
  lemma NestedPageOrder(block: string, section: string, rest: string)
    requires '/' !in section
    ensures ReadDocFields(block, section + "/" + rest).order == GetOrder(section, LastSegment(rest))
  {
    NestedSegments(section, rest);
  }

  /** The first segment of `section/rest` is `section`, its last is the last of `rest`. */
  lemma NestedSegments(section: string, rest: string)
    requires '/' !in section
    ensures FirstSegment(section + "/" + rest) == section
    ensures LastSegment(section + "/" + rest) == LastSegment(rest)
  {
    var parts := Split(rest, '/');
    assert section + "/" + rest == section + ['/'] + rest;
    SplitAfterFirst(section, rest, '/');
    ConsEnds(Split(section + "/" + rest, '/'), section, parts);
  }

  lemma ConsEnds(all: seq<string>, x: string, xs: seq<string>)
    requires all == [x] + xs && |xs| >= 1
    ensures all[0] == x && all[|all| - 1] == xs[|xs| - 1]
  {
  }

  /** The title line comes first, so the title is read back, escaped. */
  lemma ReadBackDocTitle(f: DocFields)
    requires f.title != "" && Trimmed(f.title) && NoLineTerminator(f.title)
    ensures FieldValue(RenderDocBlock(f), "title") == Some(Escape(f.title))
  {
    var s := RenderDocBlock(f);
    var t := Escape(f.title);
    EscapeKeepsNoLineTerminator(f.title);
    EscapeKeepsTrimmed(f.title);
    var tl := TitleLine(f);
    var rest := DescriptionPart(f) + SidebarPart(f);
    ConcatAssociates(tl, DescriptionPart(f), SidebarPart(f));
    assert s[..|tl|] == tl;
    assert rest == [] || rest[0] == '\n';
    ReadQuotedField(s, "title", 0, t);
  }

  /** A description line follows the title line, and is read back, escaped,
      when the title holds no `description:`. */
  lemma ReadBackDocDescription(f: DocFields)
    requires f.description != "" && Trimmed(f.description) && NoLineTerminator(f.description)
    requires !Contains(Escape(f.title), "description:")
    ensures FieldValue(RenderDocBlock(f), "description") == Some(Escape(f.description))
  {
    EscapeKeepsNoLineTerminator(f.description);
    EscapeKeepsTrimmed(f.description);
    LongerNotContained("title:", "description:");
    QuotedLineLacks("title", Escape(f.title), "description:");
    assert "description" + ":" == "description:";
    var sp := SidebarPart(f);
    assert sp == [] || sp[0] == '\n';
    var dl := QuotedLine("description", Escape(f.description));
    assert DescriptionPart(f) == "\n" + dl;
    ConcatAssociates(TitleLine(f), "\n", dl);
    assert RenderDocBlock(f) == TitleLine(f) + "\n" + dl + sp;
    ReadLaterQuotedField(TitleLine(f), "description", Escape(f.description), sp);
  }

  /** Without a description line, and without `description:` in the title,
      the description pattern finds nothing. */
  lemma ReadBackDocNoDescription(f: DocFields)
    requires f.description == ""
    requires !Contains(Escape(f.title), "description:")
    ensures FieldValue(RenderDocBlock(f), "description") == None
  {
    var s := RenderDocBlock(f);
    var tl := TitleLine(f);
    LongerNotContained("title:", "description:");
    QuotedLineLacks("title", Escape(f.title), "description:");
    assert s == tl + SidebarPart(f);
    if f.order.Some? {
      SidebarShape(f.order.value);
      assert "description:"[6] == 'p';
      NotContainsMissingChar(SidebarPart(f), "description:", 'p');
    } else {
      assert s == tl;
    }
    assert tl[|tl| - 1] == '"';
    NotContainsConcat(tl, SidebarPart(f), "description:");
    assert "description" + ":" == "description:";
    assert forall m: nat :: !OccursAt(s, "description:", m) by {
      forall m: nat ensures !OccursAt(s, "description:", m) {
        if m <= |s| {
          assert !OccursAt(s, "description:", m);
        }
      }
    }
    SearchAbsent(s, "description", 0);
  }

  /** Running the migration on its own output changes nothing when the
      escape has nothing to do (no `"` in title or description), the title
      is not empty and does not hold `description:`. */
  lemma TransformIdempotent(content: string, relativePath: string)
    requires MatchBlock(content).Some?
    requires var f := ReadDocFields(MatchBlock(content).value.0, relativePath);
             f.title != "" && '"' !in f.title && '"' !in f.description && !Contains(f.title, "description:")
    ensures TransformFrontmatter(TransformFrontmatter(content, relativePath), relativePath)
            == TransformFrontmatter(content, relativePath)
  {
    var (block, body) := MatchBlock(content).value;
    var f := ReadDocFields(block, relativePath);
    EscapeWithoutQuotes(f.title);
    EscapeWithoutQuotes(f.description);
    ReadBackDocTitle(f);
    if f.description != "" {
      ReadBackDocDescription(f);
    } else {
      ReadBackDocNoDescription(f);
    }
    var g := ReadDocFields(RenderDocBlock(f), relativePath);
    assert g == f;
  }
}

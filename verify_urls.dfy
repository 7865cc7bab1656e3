/**
 * `scripts/verify-urls.ts`: after a build, the HTML pages under each
 * section of `./dist` are counted as URLs, each section is checked against
 * its expected minimum, and the run passes when the overall percentage
 * reaches 100.
 */
module VerifyUrls {
  import opened Wrappers
  import opened Strings
  import opened FileTree

  const DistDir := "./dist"

  /* ---------------------------------------------------------------------- */
  /* From file paths to URLs                                                 */
  /* ---------------------------------------------------------------------- */

  predicate IsHtml(name: string) {
    EndsWith(name, ".html")
  }

  /** `fullPath.replace(DIST_DIR, '').replace('/index.html', '/')`, then a
      `/` appended unless the URL ends with one already. */
  function UrlOf(fullPath: string): (url: string)
    ensures EndsWith(url, "/")
  {
    var u := ReplaceFirst(ReplaceFirst(fullPath, DistDir, ""), "/index.html", "/");
    if EndsWith(u, "/") then u else u + "/"
  }

  lemma DistPrefixRemoved(rest: string)
    ensures ReplaceFirst(DistDir + rest, DistDir, "") == rest
  {
    var s := DistDir + rest;
    assert s[..|DistDir|] == DistDir;
    ReplaceFirstAt(s, DistDir, "", 0);
    assert s[|DistDir|..] == rest;
  }

  /** `/index.html` has no `/` after its first character, so it cannot
      start inside a path that lacks it and end in a suffix that starts it. */
  lemma IndexHtmlFirstAt(sub: string)
    requires !Contains(sub, "/index.html")
    ensures forall m: nat :: m < |sub| ==> !OccursAt(sub + "/index.html", "/index.html", m)
  {
    var pat := "/index.html";
    var s := sub + pat;
    forall m: nat | m < |sub| ensures !OccursAt(s, pat, m) {
      if m + |pat| <= |sub| {
        assert s[m..m + |pat|] == sub[m..m + |pat|];
        assert !OccursAt(sub, pat, m);
      } else if m + |pat| <= |s| {
        var j := |sub| - m;
        assert s[m..m + |pat|][j] == s[|sub|] == '/';
        assert pat[j] != '/';
      }
    }
  }

  lemma IndexReplaced(sub: string)
    requires !Contains(sub, "/index.html")
    ensures ReplaceFirst(sub + "/index.html", "/index.html", "/") == sub + "/"
  {
    var pat := "/index.html";
    var s := sub + pat;
    IndexHtmlFirstAt(sub);
    assert s[|sub|..|sub| + |pat|] == pat;
    ReplaceFirstAt(s, pat, "/", |sub|);
    assert s[..|sub|] == sub && s[|sub| + |pat|..] == [];
  }

  /** The page `index.html` of a directory has the directory as its URL. */
  lemma IndexPageUrl(sub: string)
    requires !Contains(sub, "/index.html")
    ensures UrlOf(DistDir + sub + "/index.html") == sub + "/"
  {
    assert DistDir + sub + "/index.html" == DistDir + (sub + "/index.html");
    DistPrefixRemoved(sub + "/index.html");
    IndexReplaced(sub);
    var u := sub + "/";
    assert u[|u| - 1..] == "/";
  }

  /** Any other page has its path plus `/` as its URL. */
  lemma OtherPageUrl(sub: string)
    requires IsHtml(sub) && !Contains(sub, "/index.html")
    ensures UrlOf(DistDir + sub) == sub + "/"
  {
    DistPrefixRemoved(sub);
    assert sub[|sub| - 1] == 'l';
  }

  /* ---------------------------------------------------------------------- */
  /* The walk                                                                */
  /* ---------------------------------------------------------------------- */

  /** The URLs `walk` pushes for `entries` of the directory `currentDir`, in order. */
  function HtmlUrls(entries: seq<Node>, currentDir: string): seq<string>
    decreases entries
  {
    if entries == [] then []
    else HtmlUrls(entries[..|entries| - 1], currentDir) + EntryUrls(entries[|entries| - 1], currentDir)
  }

  function EntryUrls(e: Node, currentDir: string): seq<string>
    decreases e
  {
    match e
    case File(name, _) => if IsHtml(name) then [UrlOf(Join(currentDir, name))] else []
    case Dir(name, children) => HtmlUrls(children, Join(currentDir, name))
  }

  lemma StepUrls(entries: seq<Node>, i: nat, currentDir: string)
    requires i < |entries|
    ensures HtmlUrls(entries[..i + 1], currentDir) == HtmlUrls(entries[..i], currentDir) + EntryUrls(entries[i], currentDir)
  {
    var prefix := entries[..i + 1];
    assert prefix[..|prefix| - 1] == entries[..i] && prefix[|prefix| - 1] == entries[i];
  }

  /** The number of `.html` files in a tree. */
  function HtmlCount(entries: seq<Node>): nat
    decreases entries
  {
    if entries == [] then 0 else EntryHtmlCount(entries[0]) + HtmlCount(entries[1..])
  }

  function EntryHtmlCount(e: Node): nat
    decreases e
  {
    match e
    case File(name, _) => if IsHtml(name) then 1 else 0
    case Dir(_, children) => HtmlCount(children)
  }

  /** The `files` array that `walk` pushes into. */
  class UrlCollector {
    var files: seq<string>

    constructor ()
      ensures files == []
    {
      files := [];
    }

    /** `walk(currentDir)` on an existing directory. */
    method Walk(entries: seq<Node>, currentDir: string)
      modifies this
      ensures files == old(files) + HtmlUrls(entries, currentDir)
      decreases entries
    {
      for i := 0 to |entries|
        invariant files == old(files) + HtmlUrls(entries[..i], currentDir)
      {
        StepUrls(entries, i, currentDir);
        ghost var done := HtmlUrls(entries[..i], currentDir);
        Visit(entries[i], currentDir);
        assert (old(files) + done) + EntryUrls(entries[i], currentDir) == old(files) + (done + EntryUrls(entries[i], currentDir));
      }
      assert entries[..|entries|] == entries;
    }

    /** One entry of the loop: a directory is walked, an `.html` file pushed. */
    method Visit(e: Node, currentDir: string)
      modifies this
      ensures files == old(files) + EntryUrls(e, currentDir)
      decreases e
    {
      match e
      case Dir(name, children) =>
        Walk(children, Join(currentDir, name));
      case File(name, _) =>
        if IsHtml(name) {
          var url := UrlOf(Join(currentDir, name));
          files := files + [url];
        }
    }
  }

  /** `countHtmlFiles(dir)`; `root` is `None` when the directory does not exist. */
  method CountHtmlFiles(root: Option<seq<Node>>, dir: string) returns (files: seq<string>)
    ensures files == match root case None => [] case Some(entries) => HtmlUrls(entries, dir)
  {
    var collector := new UrlCollector();
    if root.Some? {
      collector.Walk(root.value, dir);
    }
    files := collector.files;
  }

  lemma {:induction false} HtmlUrlsCount(entries: seq<Node>, currentDir: string)
    ensures |HtmlUrls(entries, currentDir)| == HtmlCount(entries)
    decreases entries
  {
    if entries != [] {
      var init := entries[..|entries| - 1];
      var last := entries[|entries| - 1];
      assert init + [last] == entries;
      assert |HtmlUrls(entries, currentDir)| == |HtmlUrls(init, currentDir)| + |EntryUrls(last, currentDir)|;
      HtmlCountSplit(init, last);
      HtmlUrlsCount(init, currentDir);
      EntryUrlsCount(last, currentDir);
    }
  }

  lemma {:induction false} EntryUrlsCount(e: Node, currentDir: string)
    ensures |EntryUrls(e, currentDir)| == EntryHtmlCount(e)
    decreases e
  {
    match e
    case File(_, _) =>
    case Dir(name, children) => HtmlUrlsCount(children, Join(currentDir, name));
  }

  lemma {:induction false} HtmlCountSplit(init: seq<Node>, last: Node)
    ensures HtmlCount(init + [last]) == HtmlCount(init) + EntryHtmlCount(last)
  {
    if init == [] {
      assert ([] + [last])[1..] == [];
    } else {
      assert (init + [last])[1..] == init[1..] + [last];
      HtmlCountSplit(init[1..], last);
    }
  }

  /* ---------------------------------------------------------------------- */
  /* Sections and the summary                                                */
  /* ---------------------------------------------------------------------- */

  datatype VerificationResult = VerificationResult(category: string, total: nat, found: nat, missing: seq<string>)

  function ShortfallMessage(expectedMin: nat, found: nat): string {
    "Expected at least " + NatToString(expectedMin) + ", found " + NatToString(found)
  }

  /** `verifySection(name, dir, expectedMin)`. */
  method VerifySection(name: string, root: Option<seq<Node>>, dir: string, expectedMin: nat) returns (r: VerificationResult)
    ensures r.category == name && r.total == expectedMin
    ensures r.found == match root case None => 0 case Some(entries) => HtmlCount(entries)
    ensures r.missing == [] <==> r.found >= expectedMin
    ensures r.found < expectedMin ==> r.missing == [ShortfallMessage(expectedMin, r.found)]
  {
    var files := CountHtmlFiles(root, dir);
    if root.Some? {
      HtmlUrlsCount(root.value, dir);
    }
    var missing := if |files| < expectedMin then [ShortfallMessage(expectedMin, |files|)] else [];
    r := VerificationResult(name, expectedMin, |files|, missing);
  }

  const DocsMinimum := 138
  const BlogMinimum := 52
  const AboutMinimum := 11
  const ExpectedTotal := DocsMinimum + BlogMinimum + AboutMinimum

  /** `percentComplete` times ten: `Math.round(found / expected * 1000)`. */
  function RoundedTenths(found: nat, expected: nat): (r: nat)
    requires expected > 0
    ensures 2 * expected * r <= 2000 * found + expected < 2 * expected * (r + 1)
  {
    (2000 * found + expected) / (2 * expected)
  }

  datatype Summary = Summary(totalPages: nat, pagesComplete: nat, pagesFailed: nat, percentTenths: nat)

  datatype MigrationStatus = MigrationStatus(summary: Summary, docs: VerificationResult, blog: VerificationResult, about: VerificationResult)

  function Summarize(docs: VerificationResult, blog: VerificationResult, about: VerificationResult): (s: Summary)
    ensures s.totalPages == ExpectedTotal && s.pagesComplete == docs.found + blog.found + about.found
    ensures s.pagesFailed == 0 <==> s.pagesComplete >= ExpectedTotal
    ensures s.pagesFailed > 0 ==> s.pagesComplete + s.pagesFailed == ExpectedTotal
    ensures 2 * ExpectedTotal * s.percentTenths <= 2000 * s.pagesComplete + ExpectedTotal < 2 * ExpectedTotal * (s.percentTenths + 1)
  {
    var found := docs.found + blog.found + about.found;
    Summary(ExpectedTotal, found, if ExpectedTotal - found > 0 then ExpectedTotal - found else 0, RoundedTenths(found, ExpectedTotal))
  }

  /** `process.exit(0)` when `percentComplete >= 100`, `process.exit(1)` otherwise. */
  function ExitCode(s: Summary): (code: int)
    ensures code == 0 <==> s.percentTenths >= 1000
    ensures code == 0 || code == 1
  {
    if s.percentTenths >= 1000 then 0 else 1
  }

  /** The run passes exactly when at least 201 pages were found, which is
      when no page is reported failed. */
  lemma PassIff(docs: VerificationResult, blog: VerificationResult, about: VerificationResult)
    ensures var s := Summarize(docs, blog, about);
            (ExitCode(s) == 0 <==> docs.found + blog.found + about.found >= 201)
            && (ExitCode(s) == 0 <==> s.pagesFailed == 0)
  {
    var s := Summarize(docs, blog, about);
    if s.pagesComplete >= 201 {
      assert 2000 * s.pagesComplete + 201 >= 402000 + 201;
    } else {
      assert 2000 * s.pagesComplete + 201 < 402000;
    }
  }

  lemma PercentExample(docs: VerificationResult, blog: VerificationResult, about: VerificationResult)
    requires docs.found + blog.found + about.found == 190
    ensures Summarize(docs, blog, about).percentTenths == 945
    ensures Summarize(docs, blog, about).pagesFailed == 11
  {
  }

  /** Only the total decides: a section below its minimum does not fail a run whose total is reached. */
  lemma ShortSectionCanPass()
    ensures var docs := VerificationResult("docs", DocsMinimum, 0, [ShortfallMessage(DocsMinimum, 0)]);
            var blog := VerificationResult("blog", BlogMinimum, 201, []);
            var about := VerificationResult("about", AboutMinimum, 0, [ShortfallMessage(AboutMinimum, 0)]);
            docs.missing != [] && ExitCode(Summarize(docs, blog, about)) == 0
  {
  }

  /** The script: three sections, the summary (without `lastRun`) and the exit code. */
  method Run(docsRoot: Option<seq<Node>>, blogRoot: Option<seq<Node>>, aboutRoot: Option<seq<Node>>)
    returns (status: MigrationStatus, exitCode: int)
    ensures status.docs.found == (match docsRoot case None => 0 case Some(e) => HtmlCount(e))
    ensures status.blog.found == (match blogRoot case None => 0 case Some(e) => HtmlCount(e))
    ensures status.about.found == (match aboutRoot case None => 0 case Some(e) => HtmlCount(e))
    ensures status.docs.category == "docs" && status.docs.total == DocsMinimum
    ensures status.blog.category == "blog" && status.blog.total == BlogMinimum
    ensures status.about.category == "about" && status.about.total == AboutMinimum
    ensures status.docs.missing == (if status.docs.found < DocsMinimum then [ShortfallMessage(DocsMinimum, status.docs.found)] else [])
    ensures status.blog.missing == (if status.blog.found < BlogMinimum then [ShortfallMessage(BlogMinimum, status.blog.found)] else [])
    ensures status.about.missing == (if status.about.found < AboutMinimum then [ShortfallMessage(AboutMinimum, status.about.found)] else [])
    ensures status.summary == Summarize(status.docs, status.blog, status.about)
    ensures exitCode == ExitCode(status.summary) && (exitCode == 0 || exitCode == 1)
    ensures exitCode == 0 <==> status.docs.found + status.blog.found + status.about.found >= 201
  {
    var docs := VerifySection("docs", docsRoot, Join(DistDir, "docs"), DocsMinimum);
    var blog := VerifySection("blog", blogRoot, Join(DistDir, "blog"), BlogMinimum);
    var about := VerifySection("about", aboutRoot, Join(DistDir, "about"), AboutMinimum);
    var summary := Summarize(docs, blog, about);
    status := MigrationStatus(summary, docs, blog, about);
    exitCode := ExitCode(summary);
    PassIff(docs, blog, about);
  }
}

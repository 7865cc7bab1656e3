/**
 * `tests/unit/blog-url.test.ts`: the test's own `parseBlogFilename`, which
 * answers `null` for an identifier without a date, and the examples the
 * test asserts, each stated as a lemma.
 */
module BlogUrlTest {
  import opened Wrappers
  import opened Strings
  import opened Calendar
  import opened Blog

  datatype FilenameParts = FilenameParts(year: string, month: string, day: string, slug: string, date: Option<int>)

  /** `parseBlogFilename(filename)`; `None` is `null`. */
  function ParseBlogFilename(filename: string): (r: Option<FilenameParts>)
    ensures r.Some? <==> IsDatedId(filename)
    ensures r.Some? ==>
              && IsIdParts(r.value.year, r.value.month, r.value.day, r.value.slug)
              && filename == DatedId(r.value.year, r.value.month, r.value.day, r.value.slug)
              && r.value.date == IsoDateValue(r.value.year, r.value.month, r.value.day)
  {
    if IsDatedId(filename) then
      var r := FilenameParts(filename[..4], filename[5..7], filename[8..10], filename[11..],
                             IsoDateValue(filename[..4], filename[5..7], filename[8..10]));
      assert filename == DatedId(r.year, r.month, r.day, r.slug);
      Some(r)
    else
      None
  }

  /** On a dated identifier the test helper and `parseBlogDate` agree field for field. */
  lemma AgreesWithParseBlogDate(filename: string, now: int)
    requires IsDatedId(filename)
    ensures var p := ParseBlogFilename(filename).value;
            var d := ParseBlogDate(filename, now);
            p.year == d.year && p.month == d.month && p.day == d.day && p.slug == d.slug && p.date == d.date
  {
  }

  /** Both answers for identifiers without a date: `null` here, the 2024/01/01 fallback in `parseBlogDate`. */
  lemma UndatedDiffers(filename: string, now: int)
    requires !IsDatedId(filename)
    ensures ParseBlogFilename(filename) == None
    ensures ParseBlogDate(filename, now) == BlogDate(Some(now), "2024", "01", "01", filename)
  {
  }

  /** A dated identifier is parsed into its parts. */
  lemma ParseParts(year: string, month: string, day: string, slug: string)
    requires IsIdParts(year, month, day, slug)
    ensures ParseBlogFilename(DatedId(year, month, day, slug))
            == Some(FilenameParts(year, month, day, slug, IsoDateValue(year, month, day)))
  {
    ParseDatedId(year, month, day, slug, 0);
  }

  /** 'should parse standard blog filename' */
  lemma StandardFilename()
    ensures ParseBlogFilename("2024-06-20-version-4-0-released")
            == Some(FilenameParts("2024", "06", "20", "version-4-0-released", Some(1718841600000)))
  {
    ExampleParts();
    ExampleId();
    RecentExample();
    ParseParts("2024", "06", "20", "version-4-0-released");
  }

  /** 'should generate correct URL path' */
  lemma UrlPath()
    ensures var r := ParseBlogFilename("2024-06-20-version-4-0-released");
            r.Some? && "/blog/" + r.value.year + "/" + r.value.month + "/" + r.value.day + "/" + r.value.slug + "/"
                       == "/blog/2024/06/20/version-4-0-released/"
  {
    StandardFilename();
    ExampleUrl();
  }

  lemma OlderParts()
    ensures IsIdParts("2013", "10", "16", "version-0-2-0-released")
  {
    var slug := "version-0-2-0-released";
    assert forall i | 0 <= i < |slug| :: !IsLineTerminator(slug[i]);
  }

  lemma OlderId()
    ensures DatedId("2013", "10", "16", "version-0-2-0-released") == "2013-10-16-version-0-2-0-released"
  {
  }

  /** 'should handle older blog posts' */
  lemma OlderFilename()
    ensures ParseBlogFilename("2013-10-16-version-0-2-0-released")
            == Some(FilenameParts("2013", "10", "16", "version-0-2-0-released", Some(1381881600000)))
  {
    OlderParts();
    OlderId();
    OlderExample();
    ParseParts("2013", "10", "16", "version-0-2-0-released");
  }

  /** 'should return null for invalid filename' */
  lemma InvalidFilename()
    ensures ParseBlogFilename("invalid-filename") == None
  {
    var f := "invalid-filename";
    assert f[..4][0] == 'i' && !IsDigit('i');
  }
}

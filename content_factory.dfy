/**
 * The two pure pieces of the page-generation pipeline: the title validators
 * of the `BoxCardItem` and `TabItem` schema records, and the name of the JSON
 * file a generated page is written to.
 */
module ContentFactory {
  import opened PyStrings

  /** The word limit of a box card's title. */
  const BoxCardTitleWords: nat := 5
  /** The word limit of a tab's title. */
  const TabTitleWords: nat := 3

  function Min(a: nat, b: nat): nat { if a <= b then a else b }

  /** The rule both validators follow: a title that `split()` cuts into more
      than `limit` words becomes its first `limit` words joined by single
      spaces; any other title is returned exactly as given. */
  function TruncateTitle(v: string, limit: nat): (r: string)
    ensures |Words(r)| <= limit
    ensures |Words(v)| <= limit ==> r == v
    ensures Words(r) == Words(v)[..Min(limit, |Words(v)|)]
    ensures |Words(v)| > limit ==> r == Join(Words(r), " ")
  {
    var words := Words(v);
    if |words| > limit then
      WordsOfJoin(words[..limit]);
      Join(words[..limit], " ")
    else
      v
  }

  /** `BoxCardItem.check_title_length`. */
  function BoxCardCheckTitleLength(v: string): (r: string)
    ensures |Words(r)| <= 5
    ensures |Words(v)| <= 5 ==> r == v
    ensures Words(r) <= Words(v)
    ensures |Words(v)| > 5 ==> Words(r) == Words(v)[..5] && r == Join(Words(r), " ")
  {
    TruncateTitle(v, BoxCardTitleWords)
  }

  /** `TabItem.check_title_length`. */
  function TabCheckTitleLength(v: string): (r: string)
    ensures |Words(r)| <= 3
    ensures |Words(v)| <= 3 ==> r == v
    ensures Words(r) <= Words(v)
    ensures |Words(v)| > 3 ==> Words(r) == Words(v)[..3] && r == Join(Words(r), " ")
  {
    TruncateTitle(v, TabTitleWords)
  }

  /** Validating a title that has already been validated changes nothing. */
  lemma TruncateTitleIdempotent(v: string, limit: nat)
    ensures TruncateTitle(TruncateTitle(v, limit), limit) == TruncateTitle(v, limit)
  {
    var r := TruncateTitle(v, limit);
    assert |Words(r)| <= limit;
  }

  /** Both schema validators are idempotent. */
  lemma CheckTitleLengthIdempotent(v: string)
    ensures BoxCardCheckTitleLength(BoxCardCheckTitleLength(v)) == BoxCardCheckTitleLength(v)
    ensures TabCheckTitleLength(TabCheckTitleLength(v)) == TabCheckTitleLength(v)
  {
    TruncateTitleIdempotent(v, BoxCardTitleWords);
    TruncateTitleIdempotent(v, TabTitleWords);
  }

  /** The name of the file a page with this slug is saved as:
      `slug.replace('/', '-') + ".json"`. */
  function PageFileName(slug: string): (f: string)
    ensures |f| == |slug| + 5
    ensures forall i :: 0 <= i < |f| ==> f[i] != '/'
    ensures f[|slug|..] == ".json"
    ensures forall i :: 0 <= i < |slug| && slug[i] != '/' ==> f[i] == slug[i]
    ensures forall i :: 0 <= i < |slug| && slug[i] == '/' ==> f[i] == '-'
  {
    ReplaceChar(slug, '/', '-') + ".json"
  }

  /** A slug without '/' is kept verbatim in its file name. */
  lemma PlainSlugFileName(slug: string)
    requires forall i :: 0 <= i < |slug| ==> slug[i] != '/'
    ensures PageFileName(slug) == slug + ".json"
  {
    var f := PageFileName(slug);
    assert f[..|slug|] == slug;
    assert f == f[..|slug|] + f[|slug|..];
  }

  /** Distinct slugs can share a file: a slug with '/' and the same slug with
      '-' in that place are written to one file, the later page replacing
      the earlier. */
  lemma SlugsCanCollide()
    ensures "a/b" != "a-b" && PageFileName("a/b") == PageFileName("a-b")
  {
    PlainSlugFileName("a-b");
    var f := PageFileName("a/b");
    assert f[..3] == "a-b";
    assert f == f[..3] + f[3..];
  }
}

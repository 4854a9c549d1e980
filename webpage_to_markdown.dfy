/**
 * The content-mapping heuristics of the page scraper: after a page has been
 * fetched and cleaned, the hero block is taken from the first `<h1>`, one
 * section block is gathered under every `<h2>` (or every `<h3>` when there is
 * no `<h2>`), each section is classified as a candidate site component,
 * small sections are dropped, and a name is chosen for the output file. The
 * command line is split into URLs and an optional output file.
 *
 * The HTML tree is abstracted to what the walks read: a heading is given
 * with the sequence of its following siblings, and every sibling element
 * carries its tag name, its stripped text, its own `src`/`alt` attributes,
 * the `<img>` elements below it and the stripped texts of the `<li>`
 * elements below it.
 */
module WebpageToMarkdown {
  import opened Wrappers
  import opened PyStrings

  /** Sections whose word estimate is below this are not kept. */
  const MinSectionWords: nat := 20

  /** The `src` and `alt` attributes of an element. */
  datatype ImgAttrs = ImgAttrs(src: Option<string>, alt: Option<string>)

  /** A sibling node: text or a comment (skipped by every walk), or an element. */
  datatype Node =
    | TextNode
    | Tag(name: string, text: string, attrs: ImgAttrs, imgs: seq<ImgAttrs>, listItems: seq<string>)

  /** A heading element: its stripped text and its following siblings, in order. */
  datatype Anchor = Anchor(heading: string, siblings: seq<Node>)

  /** A fetched and cleaned page: its first `<h1>`, all `<h2>`, all `<h3>`. */
  datatype Soup = Soup(h1: Option<Anchor>, h2s: seq<Anchor>, h3s: seq<Anchor>)

  /** The `type` field of a block. */
  datatype Kind = Hero | Section | GridCandidate

  /** The `suggested_component` values. */
  datatype Component = HeroMultiTemplate | BodyCopyImage | CardGrid | TextOnlySection

  /** An image entry `{'src': urljoin(base, src), 'alt': alt}`; the URL join
      itself is kept symbolic. */
  datatype Image = Image(base: string, src: string, alt: string)

  /** `ContentBlock`. */
  datatype ContentBlock = ContentBlock(
    kind: Kind,
    heading: Option<string>,
    content: seq<string>,
    images: seq<Image>,
    suggested: Option<Component>,
    wordCount: int,
    sourceUrl: Option<string>)

  /** `el.get('alt', '')`. */
  function AltOf(a: ImgAttrs): string {
    if a.alt.Some? then a.alt.value else ""
  }

  // ---------------------------------------------------------------------
  // The section walk
  // ---------------------------------------------------------------------

  /** A sibling the section walk stops at. */
  predicate IsSectionStop(n: Node) {
    n.Tag? && n.name in ["h1", "h2", "header", "footer"]
  }

  /** A sibling whose own text may become a content entry. */
  predicate IsTextTag(n: Node) {
    n.Tag? && n.name in ["p", "div", "span"]
  }

  /** A sibling whose list items may become content entries. */
  predicate IsListTag(n: Node) {
    n.Tag? && n.name in ["ul", "ol"]
  }

  /** `[t for t in items if t]`. */
  function NonEmpty(items: seq<string>): (r: seq<string>)
    ensures forall i :: 0 <= i < |r| ==> r[i] != "" && r[i] in items
    ensures forall t :: t in items && t != "" ==> t in r
  {
    if items == [] then []
    else (if items[0] != "" then [items[0]] else []) + NonEmpty(items[1..])
  }

  /** The filter keeps every non-empty item as often as it occurs, and
      nothing else. */
  lemma {:induction false} NonEmptyCounts(items: seq<string>)
    ensures multiset(NonEmpty(items)) == multiset(items)["" := 0]
  {
    if items != [] {
      assert items == [items[0]] + items[1..];
      NonEmptyCounts(items[1..]);
    }
  }

  /** The filter keeps document order: it works item by item, left to right. */
  lemma {:induction false} NonEmptyAppend(a: seq<string>, b: seq<string>)
    ensures NonEmpty(a + b) == NonEmpty(a) + NonEmpty(b)
  {
    if a == [] {
      assert a + b == b;
    } else {
      assert (a + b)[0] == a[0] && (a + b)[1..] == a[1..] + b;
      NonEmptyAppend(a[1..], b);
    }
  }

  /** A list with more than two non-empty items: a grid candidate. */
  predicate IsGridList(n: Node) {
    IsListTag(n) && |NonEmpty(n.listItems)| > 2
  }

  /** The content entries one sibling contributes. */
  function NodeContent(n: Node): seq<string> {
    (if IsTextTag(n) && |n.text| > 10 then [n.text] else [])
    + (if IsGridList(n) then NonEmpty(n.listItems) else [])
  }

  /** The image entry of one element with a non-empty `src`, if any. */
  function ImageOf(a: ImgAttrs, url: string): seq<Image> {
    if Truthy(a.src) then [Image(url, a.src.value, AltOf(a))] else []
  }

  /** The image entries of the `<img>` elements below a sibling, in order. */
  function ImagesBelow(imgs: seq<ImgAttrs>, url: string): seq<Image> {
    if imgs == [] then []
    else ImagesBelow(imgs[..|imgs| - 1], url) + ImageOf(imgs[|imgs| - 1], url)
  }

  /** The image entries one sibling contributes: itself if it is an `<img>`,
      then the images below it. */
  function NodeImages(n: Node, url: string): seq<Image> {
    if n.TextNode? then []
    else (if n.name == "img" then ImageOf(n.attrs, url) else []) + ImagesBelow(n.imgs, url)
  }

  /** What a walk has gathered: content entries, image entries, and whether
      a grid candidate was seen. */
  datatype Gathered = Gathered(content: seq<string>, images: seq<Image>, grid: bool)

  function Nothing(): Gathered { Gathered([], [], false) }

  /** What is gathered from one stretch followed by another. */
  function Then(a: Gathered, b: Gathered): Gathered {
    Gathered(a.content + b.content, a.images + b.images, a.grid || b.grid)
  }

  /** What one sibling contributes. */
  function Gather(n: Node, url: string): Gathered {
    if n.TextNode? then Nothing()
    else Gathered(NodeContent(n), NodeImages(n, url), IsGridList(n))
  }

  /** The section walk: every sibling up to (not including) the first stop
      tag, contributing in document order. */
  function Walk(sibs: seq<Node>, url: string): Gathered
    decreases |sibs|
  {
    if sibs == [] || IsSectionStop(sibs[0]) then Nothing()
    else Then(Gather(sibs[0], url), Walk(sibs[1..], url))
  }

  /** `sum(len(s) for s in content)`: no entry is longer than the total,
      and no entries make no text. */
  function TextLength(content: seq<string>): (r: nat)
    ensures forall i :: 0 <= i < |content| ==> |content[i]| <= r
    ensures content == [] ==> r == 0
  {
    if content == [] then 0 else |content[0]| + TextLength(content[1..])
  }

  /** The component suggestion, in the order the heuristics test it. */
  function Suggest(hasImages: bool, textLength: nat, kind: Kind): Option<Component> {
    if hasImages && textLength > 100 then Some(BodyCopyImage)
    else if kind == GridCandidate then Some(CardGrid)
    else if textLength > 0 then Some(TextOnlySection)
    else None
  }

  /** The block `get_section_content` builds for a heading. */
  function SectionBlock(start: Anchor, url: string): ContentBlock {
    var g := Walk(start.siblings, url);
    var kind := if g.grid then GridCandidate else Section;
    var len := TextLength(g.content);
    ContentBlock(kind, Some(start.heading), g.content, g.images,
                 Suggest(g.images != [], len, kind), len / 5, Some(url))
  }

  /** What a partly built section block has gathered so far. */
  function Collected(b: ContentBlock): Gathered {
    Gathered(b.content, b.images, b.kind == GridCandidate)
  }

  /** Gathering is associative, so a walk can be split anywhere. */
  lemma ThenAssoc(a: Gathered, b: Gathered, c: Gathered)
    ensures Then(Then(a, b), c) == Then(a, Then(b, c))
  {
    assert (a.content + b.content) + c.content == a.content + (b.content + c.content);
    assert (a.images + b.images) + c.images == a.images + (b.images + c.images);
  }

  /** The fields of a section block the walk does not touch. */
  predicate SameFrame(a: ContentBlock, b: ContentBlock) {
    a.heading == b.heading && a.sourceUrl == b.sourceUrl
    && a.suggested == b.suggested && a.wordCount == b.wordCount
    && a.kind != Hero && b.kind != Hero
  }

  /** The `for img in current.find_all('img')` loop of the section walk. */
  method AppendImagesBelow(block: ContentBlock, imgs: seq<ImgAttrs>, url: string)
    returns (next: ContentBlock)
    ensures next == block.(images := block.images + ImagesBelow(imgs, url))
  {
    next := block;
    var j := 0;
    while j < |imgs|
      invariant 0 <= j <= |imgs|
      invariant next == block.(images := block.images + ImagesBelow(imgs[..j], url))
    {
      var img := imgs[j];
      assert imgs[..j + 1][..j] == imgs[..j];
      if img.src.Some? && img.src.value != "" {
        next := next.(images := next.images + [Image(url, img.src.value, AltOf(img))]);
      }
      j := j + 1;
    }
    assert imgs[..j] == imgs;
  }

  /** The images of one element: itself if it is an `<img>` with a
      non-empty `src`, then the `<img>` elements below it. */
  method AppendElementImages(block: ContentBlock, current: Node, url: string)
    returns (next: ContentBlock)
    requires current.Tag?
    ensures next == block.(images := block.images + NodeImages(current, url))
  {
    ghost var own := if current.name == "img" then ImageOf(current.attrs, url) else [];
    ghost var below := ImagesBelow(current.imgs, url);
    next := block;
    if current.name == "img" {
      var src := current.attrs.src;
      if src.Some? && src.value != "" {
        next := block.(images := block.images + [Image(url, src.value, AltOf(current.attrs))]);
      }
    }
    assert next == block.(images := block.images + own);
    next := AppendImagesBelow(next, current.imgs, url);
    assert (block.images + own) + below == block.images + (own + below);
  }

  /** One step of the section walk, for an element that is not a stop tag:
      its text, then its images, then its list items. */
  method VisitSectionElement(block: ContentBlock, current: Node, url: string)
    returns (next: ContentBlock)
    requires current.Tag? && !IsSectionStop(current)
    requires block.kind != Hero
    ensures SameFrame(block, next)
    ensures Collected(next) == Then(Collected(block), Gather(current, url))
  {
    var content, kind := block.content, block.kind;
    if current.name in ["p", "div", "span"] {
      var text := current.text;
      if |text| > 10 {
        content := content + [text];
      }
    }
    var withImages := AppendElementImages(block, current, url);
    var images := withImages.images;
    if current.name in ["ul", "ol"] {
      var items := NonEmpty(current.listItems);
      if |items| > 2 {
        kind := GridCandidate;
        content := content + items;
      }
    }
    assert content == block.content + NodeContent(current);
    next := block.(kind := kind, content := content, images := images);
  }

  /** The `while current: … current = current.next_sibling` loop of
      `get_section_content`: visits the sibling nodes in order, text nodes
      included (they add nothing), up to the first stop tag, adding what
      each element contributes. */
  method WalkSiblings(block: ContentBlock, sibs: seq<Node>, url: string) returns (next: ContentBlock)
    requires block.kind != Hero
    ensures SameFrame(block, next)
    ensures Collected(next) == Then(Collected(block), Walk(sibs, url))
  {
    next := block;
    var i := 0;
    while i < |sibs|
      invariant 0 <= i <= |sibs|
      invariant SameFrame(block, next)
      invariant Then(Collected(next), Walk(sibs[i..], url)) == Then(Collected(block), Walk(sibs, url))
    {
      var current := sibs[i];
      assert sibs[i..][1..] == sibs[i + 1..];
      if current.Tag? {
        if current.name in ["h1", "h2", "header", "footer"] {
          break;
        }
        ghost var before := Collected(next);
        next := VisitSectionElement(next, current, url);
        ThenAssoc(before, Gather(current, url), Walk(sibs[i + 1..], url));
      } else {
        assert Walk(sibs[i..], url) == Walk(sibs[i + 1..], url);
      }
      i := i + 1;
    }
    if i == |sibs| {
      assert sibs[i..] == [];
    }
  }

  /** `get_section_content`: walks the heading's siblings, appending to the
      block as it goes, then estimates the word count and suggests a
      component. */
  method GetSectionContent(start: Anchor, url: string) returns (block: ContentBlock)
    ensures block == SectionBlock(start, url)
  {
    var empty := ContentBlock(Section, Some(start.heading), [], [], None, 0, Some(url));
    block := WalkSiblings(empty, start.siblings, url);
    ghost var g := Walk(start.siblings, url);
    assert Collected(block) == g by {
      assert Collected(empty) == Nothing();
    }
    var textLength := TextLength(block.content);
    block := block.(wordCount := textLength / 5);
    if block.images != [] && textLength > 100 {
      block := block.(suggested := Some(BodyCopyImage));
    } else if block.kind == GridCandidate {
      block := block.(suggested := Some(CardGrid));
    } else if textLength > 0 {
      block := block.(suggested := Some(TextOnlySection));
    }
  }

  // ---------------------------------------------------------------------
  // Properties of the section walk and the classifier
  // ---------------------------------------------------------------------

  /** The walk ends at the first stop tag: whatever follows any stop tag
      contributes nothing. */
  lemma {:induction false} WalkStopsAt(sibs: seq<Node>, k: nat, url: string)
    requires k < |sibs| && IsSectionStop(sibs[k])
    ensures Walk(sibs, url) == Walk(sibs[..k], url)
  {
    if k == 0 {
    } else if IsSectionStop(sibs[0]) {
    } else {
      assert sibs[..k][1..] == sibs[1..][..k - 1];
      WalkStopsAt(sibs[1..], k - 1, url);
    }
  }

  /** Across a stretch with no stop tag, the walk gathers in document order:
      first the stretch, then what follows it. */
  lemma {:induction false} WalkInOrder(a: seq<Node>, b: seq<Node>, url: string)
    requires forall i :: 0 <= i < |a| ==> !IsSectionStop(a[i])
    ensures Walk(a + b, url) == Then(Walk(a, url), Walk(b, url))
  {
    if a == [] {
      assert a + b == b;
    } else {
      assert (a + b)[1..] == a[1..] + b;
      WalkInOrder(a[1..], b, url);
      ThenAssoc(Gather(a[0], url), Walk(a[1..], url), Walk(b, url));
    }
  }

  /** A sibling after a stretch with no stop tag adds what it gathers
      between what the stretch and the rest gather. */
  lemma WalkAround(a: seq<Node>, n: Node, b: seq<Node>, url: string)
    requires forall i :: 0 <= i < |a| ==> !IsSectionStop(a[i])
    requires !IsSectionStop(n)
    ensures Walk(a + [n] + b, url) == Then(Walk(a, url), Then(Gather(n, url), Walk(b, url)))
  {
    assert a + [n] + b == a + ([n] + b);
    assert ([n] + b)[0] == n && ([n] + b)[1..] == b;
    WalkInOrder(a, [n] + b, url);
  }

  /** A `<ul>` or `<ol>` with more than two non-empty items that comes
      before the first stop tag makes the block a grid candidate, and its
      non-empty items are added, in order, at its place in the content. */
  lemma GridListAdded(a: seq<Node>, n: Node, b: seq<Node>, url: string)
    requires forall i :: 0 <= i < |a| ==> !IsSectionStop(a[i])
    requires IsGridList(n)
    ensures Walk(a + [n] + b, url).grid
    ensures Walk(a + [n] + b, url).content
            == Walk(a, url).content + NonEmpty(n.listItems) + Walk(b, url).content
  {
    var g := Gather(n, url);
    assert !IsTextTag(n);
    assert g.content == NonEmpty(n.listItems) && g.grid;
    WalkAround(a, n, b, url);
    var wa, wb := Walk(a, url), Walk(b, url);
    assert Walk(a + [n] + b, url).content == wa.content + (g.content + wb.content);
  }

  /** A `<p>`, `<div>` or `<span>` with more than 10 characters of text that
      comes before the first stop tag adds its text at its place in the
      content, and does not change the block type. */
  lemma LongTextAdded(a: seq<Node>, n: Node, b: seq<Node>, url: string)
    requires forall i :: 0 <= i < |a| ==> !IsSectionStop(a[i])
    requires IsTextTag(n) && |n.text| > 10
    ensures Walk(a + [n] + b, url).content == Walk(a, url).content + [n.text] + Walk(b, url).content
    ensures Walk(a + [n] + b, url).grid == (Walk(a, url).grid || Walk(b, url).grid)
  {
    var g := Gather(n, url);
    assert !IsGridList(n);
    assert g.content == [n.text] && !g.grid;
    WalkAround(a, n, b, url);
    var wa, wb := Walk(a, url), Walk(b, url);
    assert Walk(a + [n] + b, url).content == wa.content + (g.content + wb.content);
  }

  /** A short list as the first sibling contributes nothing. */
  lemma ShortListAtFront(n: Node, b: seq<Node>, url: string)
    requires IsListTag(n) && |NonEmpty(n.listItems)| <= 2
    ensures Walk([n] + b, url).content == Walk(b, url).content
    ensures Walk([n] + b, url).grid == Walk(b, url).grid
  {
    assert ([n] + b)[0] == n && ([n] + b)[1..] == b;
    assert Gather(n, url).content == [] && !Gather(n, url).grid;
  }

  /** A `<ul>` or `<ol>` with at most two non-empty items changes neither the
      content nor the block type, wherever it stands. */
  lemma {:induction false} ShortListIgnored(a: seq<Node>, n: Node, b: seq<Node>, url: string)
    requires IsListTag(n) && |NonEmpty(n.listItems)| <= 2
    ensures Walk(a + [n] + b, url).content == Walk(a + b, url).content
    ensures Walk(a + [n] + b, url).grid == Walk(a + b, url).grid
  {
    if a == [] {
      assert a + [n] + b == [n] + b;
      assert a + b == b;
      ShortListAtFront(n, b, url);
    } else {
      assert (a + [n] + b)[0] == a[0] && (a + b)[0] == a[0];
      assert (a + [n] + b)[1..] == a[1..] + [n] + b;
      assert (a + b)[1..] == a[1..] + b;
      ShortListIgnored(a[1..], n, b, url);
    }
  }

  /** Where a content entry comes from: the text (over 10 characters) of a
      `<p>`, `<div>` or `<span>`, or a non-empty item of a list with more
      than two of them. */
  predicate Contributes(n: Node, x: string) {
    (IsTextTag(n) && x == n.text && |x| > 10) || (IsGridList(n) && x in n.listItems && x != "")
  }

  /** Every content entry of one sibling comes from that sibling. */
  lemma GatherContentOrigin(n: Node, url: string, x: string)
    requires x in Gather(n, url).content
    ensures Contributes(n, x)
  {
  }

  /** Every content entry comes from a sibling before the first stop tag. */
  lemma {:induction false} WalkContentOrigin(sibs: seq<Node>, url: string, x: string)
    requires x in Walk(sibs, url).content
    ensures exists j :: 0 <= j < |sibs| && Contributes(sibs[j], x)
                        && forall i :: 0 <= i <= j ==> !IsSectionStop(sibs[i])
  {
    assert sibs != [] && !IsSectionStop(sibs[0]);
    var g, rest := Gather(sibs[0], url), Walk(sibs[1..], url);
    assert Walk(sibs, url).content == g.content + rest.content;
    if x in g.content {
      GatherContentOrigin(sibs[0], url, x);
      assert forall i :: 0 <= i <= 0 ==> !IsSectionStop(sibs[i]);
    } else {
      WalkContentOrigin(sibs[1..], url, x);
      var j :| 0 <= j < |sibs| - 1 && Contributes(sibs[1..][j], x)
               && forall i :: 0 <= i <= j ==> !IsSectionStop(sibs[1..][i]);
      forall i | 0 <= i <= j + 1
        ensures !IsSectionStop(sibs[i])
      {
        if i > 0 {
          assert sibs[i] == sibs[1..][i - 1];
        }
      }
      assert sibs[1..][j] == sibs[j + 1];
    }
  }

  /** Every content entry of a walk is non-empty. */
  lemma {:induction false} WalkContentNonEmpty(sibs: seq<Node>, url: string)
    ensures forall i :: 0 <= i < |Walk(sibs, url).content| ==> Walk(sibs, url).content[i] != ""
  {
    forall i | 0 <= i < |Walk(sibs, url).content|
      ensures Walk(sibs, url).content[i] != ""
    {
      var x := Walk(sibs, url).content[i];
      WalkContentOrigin(sibs, url, x);
    }
  }

  /** A grid candidate was seen only if at least three list items were added. */
  lemma {:induction false} GridHasItems(sibs: seq<Node>, url: string)
    ensures Walk(sibs, url).grid ==> |Walk(sibs, url).content| >= 3
  {
    if sibs == [] || IsSectionStop(sibs[0]) {
    } else {
      GridHasItems(sibs[1..], url);
    }
  }

  /** The text length is zero exactly when there is no entry, given that no
      entry is empty. */
  lemma {:induction false} TextLengthZero(content: seq<string>)
    requires forall i :: 0 <= i < |content| ==> content[i] != ""
    ensures (TextLength(content) == 0) == (content == [])
  {
    if content != [] {
      assert |content[0]| > 0;
    }
  }

  /** The classifier of a section block: an image-bearing block with more
      than 100 characters of text is a body-copy-with-image, otherwise a grid
      candidate is a card grid, otherwise any text makes a text-only section;
      no suggestion is made exactly when nothing was gathered as content. */
  lemma SectionSuggestion(start: Anchor, url: string)
    ensures var b := SectionBlock(start, url);
      var len := TextLength(b.content);
      && (b.suggested == Some(BodyCopyImage) <==> b.images != [] && len > 100)
      && (b.suggested == Some(CardGrid) <==> !(b.images != [] && len > 100) && b.kind == GridCandidate)
      && (b.suggested == Some(TextOnlySection) <==>
            !(b.images != [] && len > 100) && b.kind != GridCandidate && len > 0)
      && (b.suggested == None <==> b.content == [])
      && b.suggested != Some(HeroMultiTemplate)
  {
    var g := Walk(start.siblings, url);
    WalkContentNonEmpty(start.siblings, url);
    TextLengthZero(g.content);
    GridHasItems(start.siblings, url);
  }

  /** A section block is never a hero, and its word count is its text
      length divided by five, rounded down. */
  lemma SectionWordCount(start: Anchor, url: string)
    ensures var b := SectionBlock(start, url);
      && b.kind != Hero && b.heading == Some(start.heading) && b.sourceUrl == Some(url)
      && 5 * b.wordCount <= TextLength(b.content) < 5 * b.wordCount + 5
      && (b.kind == GridCandidate ==> |b.content| >= 3)
  {
    GridHasItems(start.siblings, url);
  }

  // ---------------------------------------------------------------------
  // The hero walk
  // ---------------------------------------------------------------------

  /** A sibling taken as the hero's introduction. */
  predicate IsIntro(n: Node) {
    n.Tag? && n.name in ["p", "div"] && n.text != ""
  }

  /** A sibling the hero walk stops at. */
  predicate IsHeroStop(n: Node) {
    n.Tag? && n.name in ["h2", "section"]
  }

  /** The hero's content: the text of the first introduction among the
      siblings, unless a stop tag comes first. */
  function HeroIntro(sibs: seq<Node>): seq<string>
    decreases |sibs|
  {
    if sibs == [] then []
    else if IsIntro(sibs[0]) then [sibs[0].text]
    else if IsHeroStop(sibs[0]) then []
    else HeroIntro(sibs[1..])
  }

  /** The hero block of a page whose first `<h1>` is `h1`. */
  function HeroBlock(h1: Anchor, url: string): ContentBlock {
    ContentBlock(Hero, Some(h1.heading), HeroIntro(h1.siblings), [], Some(HeroMultiTemplate), 0, Some(url))
  }

  /** The hero of a page, if the page has an `<h1>`. */
  function HeroOf(soup: Soup, url: string): (r: Option<ContentBlock>)
    ensures r.None? <==> soup.h1.None?
    ensures r.Some? ==> r.value.kind == Hero && r.value.suggested == Some(HeroMultiTemplate)
                        && r.value.heading == Some(soup.h1.value.heading)
  {
    if soup.h1.None? then None else Some(HeroBlock(soup.h1.value, url))
  }

  /** `extract_hero`: takes siblings after the `<h1>` until one introduction
      has been found or a stop tag is met. */
  method ExtractHero(soup: Soup, url: string) returns (hero: Option<ContentBlock>)
    ensures hero == HeroOf(soup, url)
  {
    if soup.h1.None? {
      return None;
    }
    var h1 := soup.h1.value;
    var block := ContentBlock(Hero, Some(h1.heading), [], [], None, 0, Some(url));
    var sibs := h1.siblings;
    var i := 0;
    while i < |sibs| && |block.content| < 1
      invariant 0 <= i <= |sibs|
      invariant block == ContentBlock(Hero, Some(h1.heading), block.content, [], None, 0, Some(url))
      invariant block.content == [] ==> HeroIntro(sibs[i..]) == HeroIntro(sibs)
      invariant block.content != [] ==> block.content == HeroIntro(sibs)
    {
      var current := sibs[i];
      assert sibs[i..][1..] == sibs[i + 1..];
      if current.Tag? {
        if current.name in ["p", "div"] && current.text != "" {
          block := block.(content := block.content + [current.text]);
        } else if current.name in ["h2", "section"] {
          break;
        }
      }
      i := i + 1;
    }
    if i == |sibs| {
      assert sibs[i..] == [];
    }
    block := block.(suggested := Some(HeroMultiTemplate));
    hero := Some(block);
  }

  /** The hero holds at most one content entry. */
  lemma {:induction false} HeroIntroAtMostOne(sibs: seq<Node>)
    ensures |HeroIntro(sibs)| <= 1
  {
    if sibs != [] && !IsIntro(sibs[0]) && !IsHeroStop(sibs[0]) {
      HeroIntroAtMostOne(sibs[1..]);
    }
  }

  /** Nothing after a `<h2>` or `<section>` sibling reaches the hero. */
  lemma {:induction false} HeroIntroStopsAt(sibs: seq<Node>, k: nat)
    requires k < |sibs| && IsHeroStop(sibs[k])
    ensures HeroIntro(sibs) == HeroIntro(sibs[..k])
  {
    if k == 0 {
    } else if IsIntro(sibs[0]) || IsHeroStop(sibs[0]) {
    } else {
      assert sibs[..k][1..] == sibs[1..][..k - 1];
      HeroIntroStopsAt(sibs[1..], k - 1);
    }
  }

  /** The hero's introduction is the first non-empty `<p>` or `<div>`, when
      no stop tag precedes it. */
  lemma {:induction false} HeroIntroIsFirst(sibs: seq<Node>, j: nat)
    requires j < |sibs| && IsIntro(sibs[j])
    requires forall i :: 0 <= i < j ==> !IsIntro(sibs[i]) && !IsHeroStop(sibs[i])
    ensures HeroIntro(sibs) == [sibs[j].text]
  {
    if j > 0 {
      HeroIntroIsFirst(sibs[1..], j - 1);
    }
  }

  /** Without any introduction before a stop tag, the hero has no content. */
  lemma {:induction false} HeroIntroNone(sibs: seq<Node>)
    requires forall i :: 0 <= i < |sibs| ==> !IsIntro(sibs[i])
    ensures HeroIntro(sibs) == []
  {
    if sibs != [] && !IsHeroStop(sibs[0]) {
      HeroIntroNone(sibs[1..]);
    }
  }

  // ---------------------------------------------------------------------
  // process_urls: gathering the blocks of every page
  // ---------------------------------------------------------------------

  /** The headings sections are built for: every `<h2>`, or every `<h3>`
      when the page has no `<h2>`. */
  function Headings(soup: Soup): seq<Anchor> {
    if soup.h2s != [] then soup.h2s else soup.h3s
  }

  /** A block on its own, when it is large enough to keep
      (`word_count >= MIN_SECTION_WORDS`). */
  function KeepOne(b: ContentBlock): seq<ContentBlock> {
    if b.wordCount >= MinSectionWords then [b] else []
  }

  /** The block `f` builds for each of the first `h` headings, in order. */
  function MapUpTo(f: Anchor -> ContentBlock, hs: seq<Anchor>, h: nat): seq<ContentBlock>
    requires h <= |hs|
  {
    if h == 0 then [] else MapUpTo(f, hs, h - 1) + [f(hs[h - 1])]
  }

  /** The section blocks of the first `h` headings, in heading order. */
  function BlocksUpTo(hs: seq<Anchor>, h: nat, url: string): seq<ContentBlock>
    requires h <= |hs|
  {
    MapUpTo(a => SectionBlock(a, url), hs, h)
  }

  /** The blocks large enough to keep, in order. */
  function Keep(bs: seq<ContentBlock>): seq<ContentBlock> {
    if bs == [] then [] else Keep(bs[..|bs| - 1]) + KeepOne(bs[|bs| - 1])
  }

  /** Keeping is done block by block. */
  lemma KeepSnoc(bs: seq<ContentBlock>, b: ContentBlock)
    ensures Keep(bs + [b]) == Keep(bs) + KeepOne(b)
  {
    assert (bs + [b])[..|bs|] == bs;
  }

  /** The section blocks of these headings that are large enough to keep. */
  function KeptSections(hs: seq<Anchor>, url: string): seq<ContentBlock> {
    Keep(BlocksUpTo(hs, |hs|, url))
  }

  /** The blocks one page contributes: its hero, if found, then its kept sections. */
  function PageBlocks(url: string, soup: Soup): seq<ContentBlock> {
    (if HeroOf(soup, url).Some? then [HeroOf(soup, url).value] else [])
    + KeptSections(Headings(soup), url)
  }

  /** The blocks of all pages, in URL order; a page that could not be
      fetched (`None`) contributes nothing. */
  function AllBlocks(urls: seq<string>, pages: seq<Option<Soup>>): seq<ContentBlock>
    requires |urls| == |pages|
  {
    if urls == [] then []
    else
      var n := |urls| - 1;
      AllBlocks(urls[..n], pages[..n]) + (if pages[n].Some? then PageBlocks(urls[n], pages[n].value) else [])
  }

  /** How many pages were fetched. */
  function FetchedCount(pages: seq<Option<Soup>>): nat {
    if pages == [] then 0
    else FetchedCount(pages[..|pages| - 1]) + (if pages[|pages| - 1].Some? then 1 else 0)
  }

  /** What `process_urls` produces besides writing the file: the blocks, the
      number of pages processed, and the output file name (or the error that
      deriving it raised). */
  datatype Report = Report(blocks: seq<ContentBlock>, processed: nat, outputFile: Result<string, FileNameError>)

  /** One iteration of the `for h2 in headings` loop: the heading's section
      block is appended when it is large enough. */
  method KeepSection(kept: seq<ContentBlock>, headings: seq<Anchor>, h: nat, url: string)
    returns (next: seq<ContentBlock>)
    requires h < |headings| && kept == Keep(BlocksUpTo(headings, h, url))
    ensures next == Keep(BlocksUpTo(headings, h + 1, url))
  {
    var block := GetSectionContent(headings[h], url);
    KeepSnoc(BlocksUpTo(headings, h, url), block);
    next := kept;
    if block.wordCount >= MinSectionWords {
      next := next + [block];
    }
  }

  /** The `for h2 in headings` loop of `process_urls`: the sections large
      enough to keep, in order. */
  method KeepSections(headings: seq<Anchor>, url: string) returns (kept: seq<ContentBlock>)
    ensures kept == KeptSections(headings, url)
  {
    kept := [];
    var h := 0;
    while h < |headings|
      invariant 0 <= h <= |headings|
      invariant kept == Keep(BlocksUpTo(headings, h, url))
    {
      kept := KeepSection(kept, headings, h, url);
      h := h + 1;
    }
  }

  /** The blocks one fetched page contributes, as the body of the
      `for url in urls` loop gathers them. */
  method ScrapePage(soup: Soup, url: string) returns (blocks: seq<ContentBlock>)
    ensures blocks == PageBlocks(url, soup)
  {
    blocks := [];
    var hero := ExtractHero(soup, url);
    if hero.Some? {
      blocks := blocks + [hero.value];
    }
    var sections := KeepSections(Headings(soup), url);
    blocks := blocks + sections;
  }

  /** One more page of the `for url in urls` loop: its blocks follow those
      of the pages before it, and it counts when it was fetched. */
  lemma AllBlocksStep(urls: seq<string>, pages: seq<Option<Soup>>, k: nat)
    requires |urls| == |pages| && k < |urls|
    ensures AllBlocks(urls[..k + 1], pages[..k + 1])
            == AllBlocks(urls[..k], pages[..k]) + (if pages[k].Some? then PageBlocks(urls[k], pages[k].value) else [])
    ensures FetchedCount(pages[..k + 1]) == FetchedCount(pages[..k]) + (if pages[k].Some? then 1 else 0)
  {
    assert urls[..k + 1][..k] == urls[..k] && pages[..k + 1][..k] == pages[..k];
  }

  /** `process_urls`. Fetching is not modelled: `pages[i]` is the cleaned
      page of `urls[i]`, or `None` when the request failed. */
  method ProcessUrls(urls: seq<string>, pages: seq<Option<Soup>>, outputFile: Option<string>)
    returns (report: Report)
    requires |pages| == |urls|
    ensures report.blocks == AllBlocks(urls, pages)
    ensures report.processed == FetchedCount(pages)
    ensures report.outputFile == OutputFileName(urls, outputFile)
  {
    var allBlocks: seq<ContentBlock> := [];
    var processedCount := 0;
    var k := 0;
    while k < |urls|
      invariant 0 <= k <= |urls|
      invariant allBlocks == AllBlocks(urls[..k], pages[..k])
      invariant processedCount == FetchedCount(pages[..k])
    {
      var url := urls[k];
      AllBlocksStep(urls, pages, k);
      var soup := pages[k];
      if soup.None? {
        k := k + 1;
        continue;
      }
      var blocks := ScrapePage(soup.value, url);
      allBlocks := allBlocks + blocks;
      processedCount := processedCount + 1;
      k := k + 1;
    }
    assert urls[..k] == urls && pages[..k] == pages;
    var output := OutputFileName(urls, outputFile);
    report := Report(allBlocks, processedCount, output);
  }

  /** Of the blocks built for the first `h` headings, only those that
      reach the word minimum are kept. */
  lemma {:induction false} MapUpToOnlyLarge(f: Anchor -> ContentBlock, hs: seq<Anchor>, h: nat)
    requires h <= |hs|
    ensures forall b :: b in Keep(MapUpTo(f, hs, h)) ==>
      b.wordCount >= MinSectionWords && exists j :: 0 <= j < h && b == f(hs[j])
  {
    if h > 0 {
      var before, last := MapUpTo(f, hs, h - 1), f(hs[h - 1]);
      MapUpToOnlyLarge(f, hs, h - 1);
      KeepSnoc(before, last);
      forall b | b in Keep(before) + KeepOne(last)
        ensures b.wordCount >= MinSectionWords && exists j :: 0 <= j < h && b == f(hs[j])
      {
        if b in Keep(before) {
          var j :| 0 <= j < h - 1 && b == f(hs[j]);
          assert 0 <= j < h && b == f(hs[j]);
        } else {
          assert 0 <= h - 1 < h && b == f(hs[h - 1]);
        }
      }
    }
  }

  /** Of the blocks built for the first `h` headings, every one that
      reaches the word minimum is kept. */
  lemma {:induction false} MapUpToLargeKept(f: Anchor -> ContentBlock, hs: seq<Anchor>, h: nat)
    requires h <= |hs|
    ensures forall k :: 0 <= k < h && f(hs[k]).wordCount >= MinSectionWords ==>
      f(hs[k]) in Keep(MapUpTo(f, hs, h))
  {
    if h > 0 {
      var before, last := MapUpTo(f, hs, h - 1), f(hs[h - 1]);
      MapUpToLargeKept(f, hs, h - 1);
      KeepSnoc(before, last);
    }
  }

  /** A section block is kept exactly when it reaches the word minimum:
      every kept block is the block of one of the headings and reaches the
      minimum, and every heading's block that reaches it is kept. */
  lemma KeptSectionsExactly(hs: seq<Anchor>, url: string)
    ensures forall b :: b in KeptSections(hs, url) ==>
      b.wordCount >= MinSectionWords && exists j :: 0 <= j < |hs| && b == SectionBlock(hs[j], url)
    ensures forall k :: 0 <= k < |hs| && SectionBlock(hs[k], url).wordCount >= MinSectionWords ==>
      SectionBlock(hs[k], url) in KeptSections(hs, url)
  {
    MapUpToOnlyLarge(a => SectionBlock(a, url), hs, |hs|);
    MapUpToLargeKept(a => SectionBlock(a, url), hs, |hs|);
  }

  /** Every kept section block reaches the word minimum: it has a word
      count of at least 20, hence at least 100 characters of text and a
      component suggestion. */
  lemma KeptSectionsLargeEnough(hs: seq<Anchor>, url: string)
    ensures forall b :: b in KeptSections(hs, url) ==>
      b.kind != Hero && b.wordCount >= MinSectionWords
      && TextLength(b.content) >= 100 && b.suggested.Some?
  {
    KeptSectionsExactly(hs, url);
    forall b | b in KeptSections(hs, url)
      ensures b.kind != Hero && TextLength(b.content) >= 100 && b.suggested.Some?
    {
      var j :| 0 <= j < |hs| && b == SectionBlock(hs[j], url);
      SectionWordCount(hs[j], url);
      SectionSuggestion(hs[j], url);
    }
  }

  /** Every block is a hero, or a section that reached the word minimum. */
  predicate Filtered(bs: seq<ContentBlock>) {
    forall b :: b in bs ==> b.kind == Hero || b.wordCount >= MinSectionWords
  }

  /** The blocks of one fetched page pass the filter. */
  lemma PageBlocksFiltered(url: string, soup: Soup)
    ensures Filtered(PageBlocks(url, soup))
  {
    KeptSectionsExactly(Headings(soup), url);
  }

  /** The blocks of the whole run: every block is a hero, or a section that
      reached the word minimum. */
  lemma {:induction false} AllBlocksFiltered(urls: seq<string>, pages: seq<Option<Soup>>)
    requires |urls| == |pages|
    ensures Filtered(AllBlocks(urls, pages))
  {
    if urls != [] {
      var n := |urls| - 1;
      AllBlocksFiltered(urls[..n], pages[..n]);
      if pages[n].Some? {
        PageBlocksFiltered(urls[n], pages[n].value);
      }
    }
  }

  /** A page with an `<h1>` leads its blocks with its hero block. */
  lemma HeroLeadsPage(url: string, soup: Soup)
    requires soup.h1.Some?
    ensures PageBlocks(url, soup) == [HeroBlock(soup.h1.value, url)] + KeptSections(Headings(soup), url)
  {
  }

  /** The blocks of the last page follow those of the pages before it. */
  lemma AllBlocksSnoc(urls: seq<string>, pages: seq<Option<Soup>>)
    requires |urls| == |pages| && urls != []
    ensures var n := |urls| - 1;
      AllBlocks(urls, pages) == AllBlocks(urls[..n], pages[..n])
        + (if pages[n].Some? then PageBlocks(urls[n], pages[n].value) else [])
  {
  }

  /** A found hero is always kept, whatever its size. */
  lemma {:induction false} HeroAlwaysKept(urls: seq<string>, pages: seq<Option<Soup>>, k: nat)
    requires |urls| == |pages| && k < |urls|
    requires pages[k].Some? && pages[k].value.h1.Some?
    ensures HeroBlock(pages[k].value.h1.value, urls[k]) in AllBlocks(urls, pages)
    decreases |urls|, 1
  {
    if k < |urls| - 1 {
      EarlierHeroKept(urls, pages, k);
    } else {
      LastHeroKept(urls, pages);
    }
  }

  /** The hero of an earlier page stays among the blocks. */
  lemma {:induction false} EarlierHeroKept(urls: seq<string>, pages: seq<Option<Soup>>, k: nat)
    requires |urls| == |pages| && k < |urls| - 1
    requires pages[k].Some? && pages[k].value.h1.Some?
    ensures HeroBlock(pages[k].value.h1.value, urls[k]) in AllBlocks(urls, pages)
    decreases |urls|, 0
  {
    var n := |urls| - 1;
    var hero := HeroBlock(pages[k].value.h1.value, urls[k]);
    var before := AllBlocks(urls[..n], pages[..n]);
    var last := if pages[n].Some? then PageBlocks(urls[n], pages[n].value) else [];
    AllBlocksSnoc(urls, pages);
    assert urls[..n][k] == urls[k] && pages[..n][k] == pages[k];
    HeroAlwaysKept(urls[..n], pages[..n], k);
    var i :| 0 <= i < |before| && before[i] == hero;
    assert (before + last)[i] == hero;
  }

  /** The hero of the last page is among the blocks. */
  lemma LastHeroKept(urls: seq<string>, pages: seq<Option<Soup>>)
    requires |urls| == |pages| && urls != []
    requires pages[|urls| - 1].Some? && pages[|urls| - 1].value.h1.Some?
    ensures HeroBlock(pages[|urls| - 1].value.h1.value, urls[|urls| - 1]) in AllBlocks(urls, pages)
  {
    var n := |urls| - 1;
    var hero := HeroBlock(pages[n].value.h1.value, urls[n]);
    var before := AllBlocks(urls[..n], pages[..n]);
    var last := PageBlocks(urls[n], pages[n].value);
    AllBlocksSnoc(urls, pages);
    HeroLeadsPage(urls[n], pages[n].value);
    assert (before + last)[|before|] == hero;
  }

  // ---------------------------------------------------------------------
  // The output file name
  // ---------------------------------------------------------------------

  /** The `IndexError` raised when the URL has no path segment to name the
      file after. */
  datatype FileNameError = NoPathSegment

  /** `url.split('//')[1].split('/')[1]`: the first path segment after the
      host, or `None` where an index is out of range. */
  function PathSegment(url: string): Option<string> {
    var parts := SplitOn(url, "//");
    if |parts| < 2 then None
    else
      var segs := SplitOn(parts[1], "/");
      if |segs| < 2 then None else Some(segs[1])
  }

  /** A character `[a-z0-9]` keeps. */
  predicate IsSlugChar(c: char) {
    ('a' <= c <= 'z') || ('0' <= c <= '9')
  }

  /** What the `[^a-z0-9]` substitution leaves of `c.lower()`: an ASCII
      capital lowers to its small letter; the Kelvin sign lowers to 'k'; the
      capital I with dot above lowers to 'i' and a combining dot; any other
      character lowers to itself or to characters outside `[a-z0-9]`. */
  function SlugPiece(c: char): (r: string)
    ensures |r| >= 1
    ensures forall i :: 0 <= i < |r| ==> IsSlugChar(r[i]) || r[i] == '-'
    ensures c != '\U{0130}' ==> |r| == 1
  {
    if c == '\U{0130}' then "i-"
    else if c == '\U{212A}' then "k"
    else [if IsSlugChar(LowerChar(c)) then LowerChar(c) else '-']
  }

  /** `re.sub(r'[^a-z0-9]', '-', s.lower())`: only `[a-z0-9]` and '-'
      remain, and the slug is one character per input character except
      that a capital I with dot above becomes two. */
  function Slugify(s: string): (slug: string)
    ensures |slug| >= |s|
    ensures forall i :: 0 <= i < |slug| ==> IsSlugChar(slug[i]) || slug[i] == '-'
    ensures (forall i :: 0 <= i < |s| ==> s[i] != '\U{0130}') ==>
              |slug| == |s| && forall i :: 0 <= i < |s| ==> slug[i] == SlugPiece(s[i])[0]
  {
    if s == [] then [] else SlugPiece(s[0]) + Slugify(s[1..])
  }

  /** On ASCII text the slug lowers the letters, keeps the digits and
      replaces every other character by '-'. */
  lemma SlugifyAscii(s: string)
    requires forall i :: 0 <= i < |s| ==> s[i] < '\U{80}'
    ensures |Slugify(s)| == |s|
    ensures forall i :: 0 <= i < |s| ==>
      Slugify(s)[i] == if IsSlugChar(LowerChar(s[i])) then LowerChar(s[i]) else '-'
  {
  }

  /** The file a single scraped URL is saved to: its slug, or
      `scraped_content` when the slug is empty, plus `.json`. */
  function SingleUrlFileName(url: string): (r: Result<string, FileNameError>)
    ensures r.Failure? <==> PathSegment(url).None?
    ensures r.Success? ==>
      var seg := PathSegment(url).value;
      (seg == [] ==> r.value == "scraped_content.json")
      && (seg != [] ==> r.value == Slugify(seg) + ".json"
                        && forall i :: 0 <= i < |Slugify(seg)| ==> IsSlugChar(r.value[i]) || r.value[i] == '-')
  {
    match PathSegment(url)
    case None => Failure(NoPathSegment)
    case Some(seg) =>
      var slug := Slugify(seg);
      if slug == [] then Success("scraped_content.json") else Success(slug + ".json")
  }

  /** The output file name: the one given (when not empty); otherwise the
      single URL's slug; otherwise `merged_scraped_content.json`. */
  function OutputFileName(urls: seq<string>, outputFile: Option<string>): (r: Result<string, FileNameError>)
    ensures Truthy(outputFile) ==> r == Success(outputFile.value)
    ensures !Truthy(outputFile) && |urls| != 1 ==> r == Success("merged_scraped_content.json")
    ensures !Truthy(outputFile) && |urls| == 1 ==> r == SingleUrlFileName(urls[0])
    ensures r.Failure? ==> !Truthy(outputFile) && |urls| == 1 && PathSegment(urls[0]).None?
  {
    if Truthy(outputFile) then Success(outputFile.value)
    else if |urls| == 1 then SingleUrlFileName(urls[0])
    else Success("merged_scraped_content.json")
  }

  /** No character of `s` is '/'. */
  predicate NoSlash(s: string) {
    forall i :: 0 <= i < |s| ==> s[i] != '/'
  }

  /** Splitting at the "//" after a scheme: the second piece is the first
      piece of the rest. */
  lemma SplitAfterScheme(scheme: string, rest: string)
    requires NoSlash(scheme)
    ensures |SplitOn(scheme + "//" + rest, "//")| >= 2
    ensures SplitOn(scheme + "//" + rest, "//")[1] == SplitOn(rest, "//")[0]
  {
    assert scheme + "//" + rest == scheme + ("//" + rest);
    SplitAfterPlain(scheme, "//" + rest, "//");
    SplitAtSeparator(rest, "//");
  }

  /** A '/' followed by a segment does not start a "//": the first piece
      runs through the segment. */
  lemma SlashThenSegment(seg: string, tail: string)
    requires NoSlash(seg) && seg != []
    ensures SplitOn("/" + (seg + tail), "//")[0] == "/" + (seg + SplitOn(tail, "//")[0])
  {
    var q := "/" + (seg + tail);
    assert q[..2] != "//" by { assert q[..2][1] == seg[0]; }
    assert q[1..] == seg + tail;
    SplitAfterPlain(seg, tail, "//");
  }

  /** A single '/' before a segment does not end a "//"-piece. */
  lemma FirstPieceThroughSegment(host: string, seg: string, tail: string)
    requires NoSlash(host) && NoSlash(seg) && seg != []
    ensures SplitOn(host + "/" + seg + tail, "//")[0] == host + "/" + seg + SplitOn(tail, "//")[0]
  {
    var q := "/" + (seg + tail);
    assert host + "/" + seg + tail == host + q;
    SplitAfterPlain(host, q, "//");
    SlashThenSegment(seg, tail);
    var x := SplitOn(tail, "//")[0];
    assert host + ("/" + (seg + x)) == host + "/" + seg + x;
  }

  /** A segment followed by nothing or by '/' is a whole '/'-piece. */
  lemma SegmentPiece(seg: string, x: string)
    requires NoSlash(seg)
    requires x == [] || x[0] == '/'
    ensures SplitOn(seg + x, "/")[0] == seg
  {
    SplitAfterPlain(seg, x, "/");
    if x == [] {
      assert SplitOn(x, "/") == [x];
    } else {
      assert x == "/" + x[1..];
      SplitAtSeparator(x[1..], "/");
    }
    assert seg + SplitOn(x, "/")[0] == seg;
  }

  /** The second '/'-piece of `host/rest` is the first piece of `rest`. */
  lemma SecondPieceAfterHost(host: string, rest: string)
    requires NoSlash(host)
    ensures |SplitOn(host + ("/" + rest), "/")| >= 2
    ensures SplitOn(host + ("/" + rest), "/")[1] == SplitOn(rest, "/")[0]
  {
    SplitAfterPlain(host, "/" + rest, "/");
    SplitAtSeparator(rest, "/");
  }

  /** The second '/'-piece of `host/seg…` is `seg` when what follows the
      segment is empty or starts with '/'. */
  lemma SecondSlashPiece(host: string, seg: string, x: string)
    requires NoSlash(host) && NoSlash(seg)
    requires x == [] || x[0] == '/'
    ensures |SplitOn(host + "/" + seg + x, "/")| >= 2
    ensures SplitOn(host + "/" + seg + x, "/")[1] == seg
  {
    assert host + "/" + seg + x == host + ("/" + (seg + x));
    SecondPieceAfterHost(host, seg + x);
    SegmentPiece(seg, x);
  }

  /** For an address `scheme://host/segment…`, the file is named after the
      first path segment. */
  lemma PathSegmentOfAddress(scheme: string, host: string, seg: string, tail: string)
    requires NoSlash(scheme) && NoSlash(host) && NoSlash(seg) && seg != []
    requires tail == [] || tail[0] == '/'
    ensures PathSegment(scheme + "//" + host + "/" + seg + tail) == Some(seg)
  {
    var rest := host + "/" + seg + tail;
    var url := scheme + "//" + rest;
    assert scheme + "//" + host + "/" + seg + tail == url;
    var x := SplitOn(tail, "//")[0];
    SplitAfterScheme(scheme, rest);
    FirstPieceThroughSegment(host, seg, tail);
    var parts := SplitOn(url, "//");
    assert |parts| >= 2 && parts[1] == host + "/" + seg + x;
    FirstPieceIsPrefix(tail, "//");
    assert x == [] || x[0] == '/';
    SecondSlashPiece(host, seg, x);
    var segs := SplitOn(parts[1], "/");
    assert |segs| >= 2 && segs[1] == seg;
  }

  /** A bare `scheme://host` has no path segment: deriving the file name
      from it fails. */
  lemma BareHostHasNoSegment(scheme: string, host: string)
    requires NoSlash(scheme) && NoSlash(host)
    ensures SingleUrlFileName(scheme + "//" + host) == Failure(NoPathSegment)
  {
    SplitAfterScheme(scheme, host);
    assert host + [] == host;
    SplitAfterPlain(host, [], "//");
    assert SplitOn(host, "//")[0] == host;
    SplitAfterPlain(host, [], "/");
    assert SplitOn(host, "/") == [host];
  }

  // ---------------------------------------------------------------------
  // The command line
  // ---------------------------------------------------------------------

  /** What the script was asked to do. */
  datatype Invocation = Invocation(urls: seq<string>, outputFile: Option<string>)

  /** The two ways the script exits with status 1 before scraping. */
  datatype ArgsError = Usage | NoUrls

  /** The output file as a list of zero or one argument. */
  function OptionalArg(o: Option<string>): seq<string> {
    if o.Some? then [o.value] else []
  }

  /** The `__main__` argument split: the last argument is the output file
      when it does not start with "http", and every other argument is a URL. */
  function ParseArgs(argv: seq<string>): (r: Result<Invocation, ArgsError>)
    ensures r == Failure(Usage) <==> |argv| < 2
    ensures r == Failure(NoUrls) <==> |argv| == 2 && !StartsWith(argv[1], "http")
    ensures r.Success? ==>
      && r.value.urls != []
      && r.value.urls + OptionalArg(r.value.outputFile) == argv[1..]
      && (r.value.outputFile.Some? <==> !StartsWith(argv[|argv| - 1], "http"))
  {
    if |argv| < 2 then Failure(Usage)
    else
      var args := argv[1..];
      var last := args[|args| - 1];
      var urls := if !StartsWith(last, "http") then args[..|args| - 1] else args;
      var outfile := if !StartsWith(last, "http") then Some(last) else None;
      if urls == [] then Failure(NoUrls)
      else Success(Invocation(urls, outfile))
  }
}

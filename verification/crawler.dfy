/** The lecture spider: which links of a cohort's listing page are followed,
    and how one lecture page becomes a document record.

    The HTML parser is not modelled: a page is given as the texts of the
    h1-h6, li, p and pre elements inside the first element with id
    `page-content` that lies within a `div` (the selector
    `div #page-content`), in document order. */
module Crawler {
  import opened Base

  // ---------------------------------------------------------------------
  // Link filter of the listing page
  // ---------------------------------------------------------------------

  /** An `<a>` element of the listing page, reduced to its attributes. */
  datatype Anchor = Anchor(attrib: map<string, string>)

  /** `link.attrib.get('href')`. */
  function Href(a: Anchor): Option<string>
  {
    if "href" in a.attrib then Some(a.attrib["href"]) else None
  }

  /** Python `str.endswith`: case-sensitive comparison of the tail. */
  predicate EndsWith(s: string, suffix: string)
  {
    |suffix| <= |s| && s[|s| - |suffix|..] == suffix
  }

  /** The parent-directory link of the listing, rejected by exact equality. */
  const ParentLink: string := "../"

  /** Archive downloads are skipped by this suffix. */
  const ArchiveSuffix: string := ".zip"

  /** A link is followed iff it has an href that is not exactly the parent
      link and does not end with the archive suffix. */
  predicate IsValidNotesPage(href: Option<string>)
  {
    href.Some? && href.value != ParentLink && !EndsWith(href.value, ArchiveSuffix)
  }

  /** Concrete consequences of the filter: the parent link is matched only
      exactly, and the archive check is case-sensitive. */
  lemma LinkFilterExamples()
    ensures !IsValidNotesPage(None)
    ensures !IsValidNotesPage(Some("../"))
    ensures !IsValidNotesPage(Some("week1.zip"))
    ensures IsValidNotesPage(Some("week1.ZIP"))
    ensures IsValidNotesPage(Some("../x"))
    ensures IsValidNotesPage(Some("./"))
    ensures IsValidNotesPage(Some("loops.html"))
  {
    assert "week1.zip"[5..] == ".zip";
    assert "week1.ZIP"[5..] != ".zip" by { assert "week1.ZIP"[5..][1] == 'Z'; }
    assert "../x"[0..] != ".zip" by { assert "../x"[0..][1] == '.'; }
    assert "loops.html"[6..] != ".zip" by { assert "loops.html"[6..][0] == 'h'; }
  }

  /** A follow-up request for `response.urljoin(href)` whose callback builds
      a document. URL joining is not modelled: the request keeps both parts. */
  datatype PageRequest = PageRequest(base: string, href: string)

  /** Reference definition: the hrefs of the accepted anchors, in anchor order. */
  function AcceptedHrefs(anchors: seq<Anchor>): (hrefs: seq<string>)
  {
    if |anchors| == 0 then []
    else
      var h := Href(anchors[|anchors| - 1]);
      AcceptedHrefs(anchors[..|anchors| - 1]) + (if IsValidNotesPage(h) then [h.value] else [])
  }

  /** The accepted hrefs of a concatenation are those of each part, in order:
      together with the one-anchor case this says every accepted anchor
      contributes exactly one href at its position and no rejected one does. */
  lemma {:induction false} AcceptedHrefsAppend(a: seq<Anchor>, b: seq<Anchor>)
    ensures AcceptedHrefs(a + b) == AcceptedHrefs(a) + AcceptedHrefs(b)
    decreases |b|
  {
    if |b| == 0 {
      assert a + b == a;
    } else {
      var b' := b[..|b| - 1];
      assert (a + b)[..|a + b| - 1] == a + b';
      assert (a + b)[|a + b| - 1] == b[|b| - 1];
      AcceptedHrefsAppend(a, b');
    }
  }

  /** For one anchor: its href iff the filter accepts it, otherwise nothing. */
  lemma AcceptedHrefsSingle(a: Anchor)
    ensures AcceptedHrefs([a]) == (if IsValidNotesPage(Href(a)) then [Href(a).value] else [])
  {
    assert [a][..0] == [];
  }

  /** Every emitted href comes from an accepted anchor, and every accepted
      anchor's href is emitted. */
  lemma {:induction false} AcceptedHrefsMembership(anchors: seq<Anchor>, h: string)
    ensures h in AcceptedHrefs(anchors) <==>
      exists k :: 0 <= k < |anchors| && Href(anchors[k]) == Some(h) && IsValidNotesPage(Some(h))
    decreases |anchors|
  {
    if |anchors| > 0 {
      var init := anchors[..|anchors| - 1];
      AcceptedHrefsMembership(init, h);
      if exists k :: 0 <= k < |anchors| && Href(anchors[k]) == Some(h) && IsValidNotesPage(Some(h)) {
        var k :| 0 <= k < |anchors| && Href(anchors[k]) == Some(h) && IsValidNotesPage(Some(h));
        if k < |anchors| - 1 {
          assert init[k] == anchors[k];
        }
      }
      if exists k :: 0 <= k < |init| && Href(init[k]) == Some(h) && IsValidNotesPage(Some(h)) {
        var k :| 0 <= k < |init| && Href(init[k]) == Some(h) && IsValidNotesPage(Some(h));
        assert anchors[k] == init[k];
      }
    }
  }

  /** `parse`: one request per accepted anchor of the listing page, in
      anchor order, none for the rejected ones. */
  method Parse(responseUrl: string, anchors: seq<Anchor>) returns (requests: seq<PageRequest>)
    ensures |requests| == |AcceptedHrefs(anchors)|
    ensures forall k :: 0 <= k < |requests| ==>
      requests[k] == PageRequest(responseUrl, AcceptedHrefs(anchors)[k])
    ensures forall k :: 0 <= k < |requests| ==> IsValidNotesPage(Some(requests[k].href))
  {
    requests := [];
    var i := 0;
    while i < |anchors|
      invariant 0 <= i <= |anchors|
      invariant |requests| == |AcceptedHrefs(anchors[..i])|
      invariant forall k :: 0 <= k < |requests| ==>
        requests[k] == PageRequest(responseUrl, AcceptedHrefs(anchors[..i])[k])
      invariant forall k :: 0 <= k < |requests| ==> IsValidNotesPage(Some(requests[k].href))
    {
      var href := Href(anchors[i]);
      assert anchors[..i + 1][..i] == anchors[..i];
      if IsValidNotesPage(href) {
        requests := requests + [PageRequest(responseUrl, href.value)];
      }
      i := i + 1;
    }
    assert anchors[..|anchors|] == anchors;
  }

  // ---------------------------------------------------------------------
  // Text shaping
  // ---------------------------------------------------------------------

  /** `clean`: every newline of an element's text becomes one space. */
  function Clean(s: string): (r: string)
    ensures |r| == |s|
    ensures '\n' !in r
    ensures forall i :: 0 <= i < |s| && s[i] != '\n' ==> r[i] == s[i]
    ensures forall i :: 0 <= i < |s| && s[i] == '\n' ==> r[i] == ' '
  {
    if |s| == 0 then ""
    else [if s[0] == '\n' then ' ' else s[0]] + Clean(s[1..])
  }

  /** `clean` is idempotent, and a text is left as it is exactly when it
      holds no newline. */
  lemma {:induction false} CleanFixpoints(s: string)
    ensures Clean(Clean(s)) == Clean(s)
    ensures Clean(s) == s <==> '\n' !in s
  {
    var c := Clean(s);
    assert Clean(c) == c by {
      assert forall i :: 0 <= i < |c| ==> Clean(c)[i] == c[i];
    }
    if '\n' in s {
      var i :| 0 <= i < |s| && s[i] == '\n';
      assert c[i] != s[i];
    } else {
      assert forall i :: 0 <= i < |s| ==> c[i] == s[i];
    }
  }

  /** Other whitespace, such as carriage returns and tabs, is not touched. */
  lemma CleanKeepsOtherWhitespace(s: string, i: int)
    requires 0 <= i < |s| && (s[i] == '\r' || s[i] == '\t')
    ensures Clean(s)[i] == s[i]
  {
  }

  /** Python's `str.isspace` for one character: the characters `str.strip()`
      removes when called without arguments. */
  predicate IsSpace(c: char)
  {
    || c == ' '
    || ('\t' <= c <= '\r')
    || ('\U{1C}' <= c <= '\U{1F}')
    || c == '\U{85}' || c == '\U{A0}' || c == '\U{1680}'
    || ('\U{2000}' <= c <= '\U{200A}')
    || c == '\U{2028}' || c == '\U{2029}' || c == '\U{202F}'
    || c == '\U{205F}' || c == '\U{3000}'
  }

  /** Length of the whitespace run at the start of `s`. */
  function LeadingSpace(s: string): (n: nat)
    ensures n <= |s|
    ensures forall k :: 0 <= k < n ==> IsSpace(s[k])
    ensures n < |s| ==> !IsSpace(s[n])
  {
    if |s| == 0 || !IsSpace(s[0]) then 0 else 1 + LeadingSpace(s[1..])
  }

  /** Length of the whitespace run at the end of `s`. */
  function TrailingSpace(s: string): (n: nat)
    ensures n <= |s|
    ensures forall k :: |s| - n <= k < |s| ==> IsSpace(s[k])
    ensures n < |s| ==> !IsSpace(s[|s| - 1 - n])
  {
    if |s| == 0 || !IsSpace(s[|s| - 1]) then 0 else 1 + TrailingSpace(s[..|s| - 1])
  }

  /** `str.strip()`: the slice of `s` left after removing whitespace at both
      ends; it neither starts nor ends with whitespace, and everything cut
      off is whitespace. Interior characters, newlines included, stay. */
  function Strip(s: string): (r: string)
    ensures |r| == 0 || (!IsSpace(r[0]) && !IsSpace(r[|r| - 1]))
    ensures |r| == 0 ==> forall k :: 0 <= k < |s| ==> IsSpace(s[k])
    ensures LeadingSpace(s) + |r| <= |s|
    ensures r == s[LeadingSpace(s)..LeadingSpace(s) + |r|]
    ensures forall k :: 0 <= k < LeadingSpace(s) ==> IsSpace(s[k])
    ensures forall k :: LeadingSpace(s) + |r| <= k < |s| ==> IsSpace(s[k])
  {
    var lead := LeadingSpace(s);
    var trail := TrailingSpace(s[lead..]);
    StripBounds(s, lead, trail);
    s[lead..|s| - trail]
  }

  /** The cut points of `Strip`: whitespace is cut at both ends, and the
      characters kept at either end are not whitespace. */
  lemma StripBounds(s: string, lead: nat, trail: nat)
    requires lead <= |s| && (lead < |s| ==> !IsSpace(s[lead]))
    requires trail <= |s| - lead
    requires forall k :: |s| - lead - trail <= k < |s| - lead ==> IsSpace(s[lead..][k])
    requires trail < |s| - lead ==> !IsSpace(s[lead..][|s| - lead - 1 - trail])
    ensures lead + trail < |s| ==> !IsSpace(s[|s| - 1 - trail])
    ensures lead + trail == |s| ==> lead == |s|
    ensures forall k :: |s| - trail <= k < |s| ==> IsSpace(s[k])
  {
    var rest := s[lead..];
    if lead < |s| {
      assert rest[0] == s[lead];
    }
    forall k | |s| - trail <= k < |s| ensures IsSpace(s[k]) {
      assert s[k] == rest[k - lead];
    }
    if lead + trail < |s| {
      assert rest[|rest| - 1 - trail] == s[|s| - 1 - trail];
    }
  }

  /** `strip` is idempotent. */
  lemma StripIdempotent(s: string)
    ensures Strip(Strip(s)) == Strip(s)
  {
    var r := Strip(s);
    if |r| > 0 {
      assert LeadingSpace(r) == 0;
      assert TrailingSpace(r) == 0;
    }
  }

  /** Headers are only stripped: an interior newline survives. */
  lemma StripKeepsInteriorNewline()
    ensures Strip(" a\nb\t") == "a\nb"
  {
    var s := " a\nb\t";
    assert LeadingSpace(s[1..]) == 0;
    assert LeadingSpace(s) == 1;
    var rest := s[1..];
    assert rest == "a\nb\t";
    assert TrailingSpace(rest[..3]) == 0;
    assert TrailingSpace(rest) == 1;
  }

  // ---------------------------------------------------------------------
  // Page fields and the document record
  // ---------------------------------------------------------------------

  /** What the HTML parser yields for the page content: the text of every
      h1-h6, li, p and pre element, each kind in document order. */
  datatype ElementTexts = ElementTexts(
    headings: seq<string>,
    listItems: seq<string>,
    paragraphs: seq<string>,
    preformatted: seq<string>)

  /** The four body fields of a document. */
  datatype Fields = Fields(
    headers: seq<string>,
    bullets: seq<string>,
    text: seq<string>,
    code: seq<string>)

  /** No entry of any of the given texts contains a newline. */
  predicate NewlineFree(texts: seq<string>)
  {
    forall i :: 0 <= i < |texts| ==> '\n' !in texts[i]
  }

  /** `bs_parse` over the parser's output: headers are stripped; bullets,
      paragraphs and code blocks are cleaned; count and order are kept. */
  function BsParse(e: ElementTexts): (f: Fields)
    ensures |f.headers| == |e.headings|
    ensures forall i :: 0 <= i < |e.headings| ==> f.headers[i] == Strip(e.headings[i])
    ensures |f.bullets| == |e.listItems|
    ensures forall i :: 0 <= i < |e.listItems| ==> f.bullets[i] == Clean(e.listItems[i])
    ensures |f.text| == |e.paragraphs|
    ensures forall i :: 0 <= i < |e.paragraphs| ==> f.text[i] == Clean(e.paragraphs[i])
    ensures |f.code| == |e.preformatted|
    ensures forall i :: 0 <= i < |e.preformatted| ==> f.code[i] == Clean(e.preformatted[i])
    ensures NewlineFree(f.bullets) && NewlineFree(f.text) && NewlineFree(f.code)
  {
    Fields(
      MapSeq(Strip, e.headings),
      MapSeq(Clean, e.listItems),
      MapSeq(Clean, e.paragraphs),
      MapSeq(Clean, e.preformatted))
  }

  /** One crawled page as the feed records it (a JSON object); `title` is
      absent when the page has no head title. */
  datatype Page = Page(
    url: string,
    title: Option<string>,
    headers: seq<string>,
    bullets: seq<string>,
    text: seq<string>,
    code: seq<string>)

  /** `create_document`: merges the response URL and head title with the
      parsed fields. Without an element matching `div #page-content` (one
      with id `page-content` inside a `div`) the parser is handed nothing,
      the callback raises and no record is produced (`None`). */
  function CreateDocument(responseUrl: string, headTitle: Option<string>, pageContent: Option<ElementTexts>)
    : (r: Option<Page>)
    ensures r.Some? <==> pageContent.Some?
    ensures r.Some? ==> r.value.url == responseUrl && r.value.title == headTitle
    ensures r.Some? ==>
      var f := BsParse(pageContent.value);
      r.value.headers == f.headers && r.value.bullets == f.bullets
      && r.value.text == f.text && r.value.code == f.code
    ensures r.Some? ==>
      NewlineFree(r.value.bullets) && NewlineFree(r.value.text) && NewlineFree(r.value.code)
  {
    match pageContent
    case None => None
    case Some(e) =>
      var f := BsParse(e);
      Some(Page(responseUrl, headTitle, f.headers, f.bullets, f.text, f.code))
  }
}

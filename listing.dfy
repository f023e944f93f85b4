/** listing.py: the listing record of the page-scraping variant, its validation,
    the message it renders, and the cached photo lookup with bounded retries.
    The page fetch and HTML parsing are an oracle passed in by the caller. */
module Listing {
  import opened Wrappers
  import opened Text

  const MaxHttpRequests := 2
  const TitleLimit := 30
  const DescriptionLimit := 60

  /** TitleRequiredException and UrlRequiredException. */
  datatype ValidationError = TitleRequired | UrlRequired

  /** `validate`: the title is checked first, then the URL. */
  function Validate(title: Option<string>, url: Option<string>): (r: Outcome<ValidationError>)
    ensures r == Fail(TitleRequired) <==> !Truthy(title)
    ensures r == Fail(UrlRequired) <==> Truthy(title) && !Truthy(url)
    ensures r == Pass <==> Truthy(title) && Truthy(url)
  {
    if !Truthy(title) then Fail(TitleRequired)
    else if !Truthy(url) then Fail(UrlRequired)
    else Pass
  }

  /** The description rule: the joined text is kept when it is at most `limit`
      long; otherwise its first `limit` characters are stripped and "..." appended. */
  function ShortDescription(d: string, limit: nat): (r: string)
    ensures |d| <= limit ==> r == d
    ensures |d| > limit ==> |r| >= 3 && r[|r| - 3..] == "..." && r[..|r| - 3] == Strip(d[..limit])
    ensures |r| <= limit + 3
  {
    if |d| > limit then Strip(d[..limit]) + "..." else d
  }

  /** `self.price or "No price indicated"`, and likewise for the size. */
  function OrPlaceholder(value: Option<string>, placeholder: string): (r: string)
    ensures !Truthy(value) ==> r == placeholder
    ensures Truthy(value) ==> r == value.value
  {
    if Truthy(value) then value.value else placeholder
  }

  /** The message for a valid listing: a leading newline, the anchor line, the
      price line, the size line, and the emphasised description. */
  function Layout(url: string, title: string, priceLine: string, sizeLine: string, description: string): (r: string)
    ensures r == JoinLines(["", "<a href=\"" + url + "\">" + title + "</a>", priceLine, sizeLine, "<i>" + description + "</i>"])
  {
    var anchor := "<a href=\"" + url + "\">" + title + "</a>";
    var emphasis := "<i>" + description + "</i>";
    assert [sizeLine, emphasis] == [sizeLine] + [emphasis];
    assert [priceLine, sizeLine, emphasis] == [priceLine] + [sizeLine, emphasis];
    assert [anchor, priceLine, sizeLine, emphasis] == [anchor] + [priceLine, sizeLine, emphasis];
    assert ["", anchor, priceLine, sizeLine, emphasis] == [""] + [anchor, priceLine, sizeLine, emphasis];
    JoinLinesCons(sizeLine, [emphasis]);
    JoinLinesCons(priceLine, [sizeLine, emphasis]);
    JoinLinesCons(anchor, [priceLine, sizeLine, emphasis]);
    JoinLinesCons("", [anchor, priceLine, sizeLine, emphasis]);
    "" + "\n" + (anchor + "\n" + (priceLine + "\n" + (sizeLine + "\n" + emphasis)))
  }

  /** When no field holds a newline, the message has exactly five lines: an
      empty one, the anchor, the price line, the size line and the description. */
  lemma LayoutLines(url: string, title: string, priceLine: string, sizeLine: string, description: string)
    requires '\n' !in url && '\n' !in title && '\n' !in priceLine && '\n' !in sizeLine && '\n' !in description
    ensures SplitLines(Layout(url, title, priceLine, sizeLine, description)) ==
      ["", "<a href=\"" + url + "\">" + title + "</a>", priceLine, sizeLine, "<i>" + description + "</i>"]
  {
    var lines := ["", "<a href=\"" + url + "\">" + title + "</a>", priceLine, sizeLine, "<i>" + description + "</i>"];
    assert '\n' !in lines[1] && '\n' !in lines[4];
    SplitJoinLines(lines);
  }

  /** `generate_message`: validates first and fails with the validation error;
      otherwise renders the truncated, title-cased title, the placeholders for a
      missing price or size, and the joined, truncated description. */
  function GenerateMessage(title: Option<string>, url: Option<string>, price: Option<string>,
                           size: Option<string>, description: seq<string>): (r: Result<string, ValidationError>)
    ensures r.Failure? <==> Validate(title, url).Fail?
    ensures r.Failure? ==> r.error == Validate(title, url).error
    ensures r.Success? ==> r.value == Layout(url.value, TitleCase(ShortTitle(title.value, TitleLimit)),
      OrPlaceholder(price, "No price indicated"), OrPlaceholder(size, "No size indicated"),
      ShortDescription(JoinLines(description), DescriptionLimit))
  {
    match Validate(title, url)
    case Fail(e) => Failure(e)
    case Pass =>
      var t := ShortTitle(title.value, TitleLimit);
      var d := ShortDescription(JoinLines(description), DescriptionLimit);
      Success(Layout(url.value, TitleCase(t), OrPlaceholder(price, "No price indicated"),
                     OrPlaceholder(size, "No size indicated"), d))
  }

  /** A rendered message is bounded by its inputs: at most 33 characters of
      title and 63 of description besides the URL, the price and size lines and
      the fixed markup. */
  lemma MessageLengthBound(title: Option<string>, url: Option<string>, price: Option<string>,
                           size: Option<string>, description: seq<string>)
    requires GenerateMessage(title, url, price, size, description).Success?
    ensures var priceLine := OrPlaceholder(price, "No price indicated");
      var sizeLine := OrPlaceholder(size, "No size indicated");
      |GenerateMessage(title, url, price, size, description).value| <=
        |url.value| + |priceLine| + |sizeLine| + (TitleLimit + 3) + (DescriptionLimit + 3) + 26
  {
  }

  /** A listing with a title but no price, a URL and an empty description renders
      the price placeholder on the second line and an empty emphasis block. */
  lemma MissingPriceScenario(title: string, url: string)
    requires title != "" && url != ""
    ensures var m := GenerateMessage(Some(title), Some(url), None, None, []);
      m.Success? &&
      m.value == Layout(url, TitleCase(ShortTitle(title, TitleLimit)), "No price indicated", "No size indicated", "")
  {
  }

  /** A 53-character title is cut to its first 30 characters, stripped, with
      "..." appended; title-casing then applies to that text. */
  lemma LongTitleScenario()
    ensures ShortTitle("A very long designer jacket from the 1990s collection", TitleLimit)
      == "A very long designer jacket fr..."
  {
    var t := "A very long designer jacket from the 1990s collection";
    var cut := t[..TitleLimit];
    assert cut == "A very long designer jacket fr";
    assert !IsSpace(cut[0]) && !IsSpace(cut[|cut| - 1]);
    StripKeeps(cut);
    assert ShortTitle(t, TitleLimit) == cut + "...";
  }

  /** An image element on the listing page: its `title` and `src` attributes. */
  datatype Img = Img(title: Option<string>, src: Option<string>)

  /** The outcome of one fetch-and-parse attempt: a RequestException, or the page's images. */
  datatype PageFetch = RequestFailed | Page(images: seq<Img>)

  /** `soup.find_all("img", title=title)`: the images whose title equals `title`, in page order. */
  function MatchingImages(images: seq<Img>, title: string): (r: seq<Img>)
    ensures forall x :: x in r <==> x in images && x.title == Some(title)
    decreases |images|
  {
    if images == [] then []
    else
      var last := images[|images| - 1];
      MatchingImages(images[..|images| - 1], title) + (if last.title == Some(title) then [last] else [])
  }

  /** The position of the last image whose title equals `title`. */
  function LastMatch(images: seq<Img>, title: string): (k: Option<nat>)
    ensures k.Some? ==> (k.value < |images| && images[k.value].title == Some(title) &&
                         forall j :: k.value < j < |images| ==> images[j].title != Some(title))
    ensures k.None? ==> forall j :: 0 <= j < |images| ==> images[j].title != Some(title)
    decreases |images|
  {
    if images == [] then None
    else if images[|images| - 1].title == Some(title) then Some(|images| - 1)
    else LastMatch(images[..|images| - 1], title)
  }

  /** `imgs[-1]` is the last matching image of the page, and `imgs` is empty exactly when none matches. */
  lemma {:induction false} LastOfMatchingIsLastMatch(images: seq<Img>, title: string)
    ensures var m := MatchingImages(images, title);
      (m == [] <==> LastMatch(images, title).None?) &&
      (m != [] ==> m[|m| - 1] == images[LastMatch(images, title).value])
    decreases |images|
  {
    if images != [] {
      LastOfMatchingIsLastMatch(images[..|images| - 1], title);
    }
  }

  /** The first attempt, among the first `attempts`, that did not raise, with its page's images. */
  function FirstPage(fetch: nat -> PageFetch, attempts: nat): (r: Option<(nat, seq<Img>)>)
    ensures r.Some? ==> (r.value.0 < attempts && fetch(r.value.0) == Page(r.value.1) &&
                         forall i :: 0 <= i < r.value.0 ==> fetch(i).RequestFailed?)
    ensures r.None? ==> forall i :: 0 <= i < attempts ==> fetch(i).RequestFailed?
  {
    if attempts == 0 then None
    else
      match FirstPage(fetch, attempts - 1)
      case Some(p) => Some(p)
      case None => if fetch(attempts - 1).Page? then Some((attempts - 1, fetch(attempts - 1).images)) else None
  }

  /** The number of fetches the loop makes: up to and including the first that
      does not raise, and never more than `attempts`. */
  function AttemptsMade(fetch: nat -> PageFetch, attempts: nat): (n: nat)
    ensures n <= attempts
    ensures forall i :: 0 <= i < n - 1 ==> fetch(i).RequestFailed?
    ensures n < attempts ==> n > 0 && fetch(n - 1).Page?
  {
    match FirstPage(fetch, attempts)
    case Some((i, _)) => i + 1
    case None => attempts
  }

  /** The value the lookup stores: the `src` of the last image titled like the
      listing on the first page that loaded, or None when every attempt failed
      or no image matched. */
  function ResolvePhoto(title: string, fetch: nat -> PageFetch): (r: Option<string>)
    ensures r.Some? ==> (exists i, k :: 0 <= i < MaxHttpRequests && fetch(i).Page? && 0 <= k < |fetch(i).images| &&
                                      fetch(i).images[k] == Img(Some(title), r))
  {
    match FirstPage(fetch, MaxHttpRequests)
    case None => None
    case Some((i, images)) =>
      match LastMatch(images, title)
      case None => None
      case Some(k) => images[k].src
  }

  /** The lookup ignores pages after the first that loads, and takes the last
      match on that page: any later image with the listing's title is not one. */
  lemma ResolvePhotoIsLastMatch(title: string, fetch: nat -> PageFetch)
    requires ResolvePhoto(title, fetch).Some?
    ensures var p := FirstPage(fetch, MaxHttpRequests);
      p.Some? && LastMatch(p.value.1, title).Some? &&
      p.value.1[LastMatch(p.value.1, title).value].src == ResolvePhoto(title, fetch) &&
      (forall i :: 0 <= i < p.value.0 ==> fetch(i).RequestFailed?) &&
      (forall j :: LastMatch(p.value.1, title).value < j < |p.value.1| ==> p.value.1[j].title != Some(title))
  {
  }

  /** The converse: when attempt `i` is the first whose page loads, and image `k`
      is the last on that page with the listing's title, the lookup yields that
      image's `src`. */
  lemma ResolvePhotoOfLastMatch(title: string, fetch: nat -> PageFetch, i: nat, k: nat)
    requires i < MaxHttpRequests && fetch(i).Page?
    requires forall j :: 0 <= j < i ==> fetch(j).RequestFailed?
    requires k < |fetch(i).images| && fetch(i).images[k].title == Some(title)
    requires forall j :: k < j < |fetch(i).images| ==> fetch(i).images[j].title != Some(title)
    ensures ResolvePhoto(title, fetch) == fetch(i).images[k].src
  {
    var images := fetch(i).images;
    var p := FirstPage(fetch, MaxHttpRequests);
    assert p.Some? && p.value.0 == i && p.value.1 == images;
    var m := LastMatch(images, title);
    assert m.Some? && m.value == k;
  }

  /** When every attempt raises the lookup yields None, and so it does when the
      first page that loads has no image with the listing's title. */
  lemma ResolvePhotoNone(title: string, fetch: nat -> PageFetch)
    ensures (forall i :: 0 <= i < MaxHttpRequests ==> fetch(i).RequestFailed?) ==> ResolvePhoto(title, fetch).None?
    ensures (exists i :: 0 <= i < MaxHttpRequests && fetch(i).Page? &&
               (forall j :: 0 <= j < i ==> fetch(j).RequestFailed?) &&
               (forall k :: 0 <= k < |fetch(i).images| ==> fetch(i).images[k].title != Some(title))) ==>
      ResolvePhoto(title, fetch).None?
  {
  }

  /** listing.py's CarousellListing. Only the cached photo URL changes after construction. */
  class CarousellListing {
    const title: Option<string>
    const url: Option<string>
    const price: Option<string>
    const size: Option<string>
    const description: seq<string>
    var photoCache: Option<string>

    constructor (title: Option<string>, url: Option<string>, price: Option<string>, size: Option<string>, description: seq<string>)
      ensures this.title == title && this.url == url && this.price == price && this.size == size
      ensures this.description == description && photoCache == None
    {
      this.title := title;
      this.url := url;
      this.price := price;
      this.size := size;
      this.description := description;
      photoCache := None;
    }

    /** The `photo_url` property. A truthy cached value is returned with no
        fetch and no validation. Otherwise the listing is validated, at most
        MaxHttpRequests fetches are made (stopping at the first that does not
        raise), and the result is stored even when it is None, so a falsy result
        is looked up again next time. `attempts` counts the fetches made. */
    method PhotoUrl(fetch: nat -> PageFetch) returns (r: Result<Option<string>, ValidationError>, attempts: nat)
      modifies this
      ensures Truthy(old(photoCache)) ==> r == Success(old(photoCache)) && attempts == 0 && photoCache == old(photoCache)
      ensures !Truthy(old(photoCache)) && Validate(title, url).Fail? ==>
        r == Failure(Validate(title, url).error) && attempts == 0 && photoCache == old(photoCache)
      ensures !Truthy(old(photoCache)) && Validate(title, url).Pass? ==>
        photoCache == ResolvePhoto(title.value, fetch) && r == Success(photoCache) &&
        attempts == AttemptsMade(fetch, MaxHttpRequests)
      ensures attempts <= MaxHttpRequests
    {
      attempts := 0;
      if !Truthy(photoCache) {
        var v := Validate(title, url);
        if v.Fail? {
          return Failure(v.error), 0;
        }
        var imgs: Option<seq<Img>> := None;
        var i := 0;
        while i < MaxHttpRequests && imgs.None?
          invariant 0 <= i <= MaxHttpRequests && attempts == i
          invariant imgs.None? ==> FirstPage(fetch, i).None?
          invariant imgs.Some? ==> (i > 0 && fetch(i - 1).Page? &&
                                    FirstPage(fetch, i) == Some((i - 1, fetch(i - 1).images)) &&
                                    imgs.value == MatchingImages(fetch(i - 1).images, title.value))
        {
          attempts := attempts + 1;
          var outcome := fetch(i);
          if outcome.Page? {
            imgs := Some(MatchingImages(outcome.images, title.value));
          }
          i := i + 1;
        }
        if imgs.Some? {
          assert FirstPage(fetch, MaxHttpRequests) == FirstPage(fetch, i) by {
            FirstPageStable(fetch, i, MaxHttpRequests);
          }
          LastOfMatchingIsLastMatch(fetch(i - 1).images, title.value);
        }
        photoCache := if imgs.None? || imgs.value == [] then None else imgs.value[|imgs.value| - 1].src;
      }
      r := Success(photoCache);
    }
  }

  /** Once an attempt has loaded, later attempts do not change the first page. */
  lemma {:induction false} FirstPageStable(fetch: nat -> PageFetch, n: nat, m: nat)
    requires n <= m && FirstPage(fetch, n).Some?
    ensures FirstPage(fetch, m) == FirstPage(fetch, n)
    decreases m - n
  {
    if n < m {
      FirstPageStable(fetch, n, m - 1);
    }
  }
}

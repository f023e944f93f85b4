/** search.py, CarousellSearch.execute: turning the decoded listing cards of a
    search response into listings. The HTTP request and the JSON decoding are
    outside the model; the cards arrive already decoded. */
module Extract {
  import opened Wrappers
  import opened Search

  /** One `aboveFold` component; `secondsLow` is timestampContent.seconds.low, or
      None when any step of that path is missing. */
  datatype AboveFold = AboveFold(component: string, secondsLow: Option<int>)

  /** One `belowFold` component: its name and its `stringContent`. */
  datatype BelowFold = BelowFold(component: string, stringContent: string)

  /** One `media` entry; `photoUrl` is photoItem.url, or None when missing. */
  datatype Media = Media(photoUrl: Option<string>)

  /** A decoded `listingCard`. */
  datatype ListingCard = ListingCard(id: string, aboveFold: seq<AboveFold>, belowFold: seq<BelowFold>, media: seq<Media>)

  const TimeCreated := "time_created"

  /** `created_at`: the seconds of the first "time_created" component, or `now`
      (the model's stand-in for time()) when there is none or it lacks the field. */
  function CreatedAt(above: seq<AboveFold>, now: int): (t: int)
    ensures (forall i :: 0 <= i < |above| ==> above[i].component != TimeCreated) ==> t == now
    ensures forall i :: (0 <= i < |above| && above[i].component == TimeCreated &&
                         (forall j :: 0 <= j < i ==> above[j].component != TimeCreated)) ==>
      t == (if above[i].secondsLow.Some? then above[i].secondsLow.value else now)
  {
    if above == [] then now
    else if above[0].component == TimeCreated then
      (if above[0].secondsLow.Some? then above[0].secondsLow.value else now)
    else
      var t := CreatedAt(above[1..], now);
      assert forall i :: 1 <= i < |above| ==> above[i] == above[1..][i - 1];
      t
  }

  /** `photo_url`: the first media entry's photo URL; unset when `media` is empty. */
  function PhotoOf(media: seq<Media>): (r: Option<string>)
    ensures media == [] ==> r.None?
    ensures media != [] ==> r == media[0].photoUrl
  {
    if media != [] then media[0].photoUrl else None
  }

  /** The kwargs key a component's content is stored under. */
  datatype Key = TitleKey | PriceKey | DescriptionKey | OthersKey

  /** The component names the branch chain recognises. */
  predicate IsKnown(name: string)
  {
    name == "header_1" || name == "header_2" || name == "paragraph"
  }

  /** The branch chain: a known name picks the key; an unrecognised name binds
      nothing, so `key` keeps what an earlier iteration stored (None if unbound). */
  function SelectKey(name: string, prev: Option<Key>, hasDescription: bool): Option<Key>
  {
    if name == "header_1" then Some(TitleKey)
    else if name == "header_2" then Some(PriceKey)
    else if name == "paragraph" then Some(if hasDescription then OthersKey else DescriptionKey)
    else prev
  }

  /** The extracted part of kwargs; `description` is Some once the key is present. */
  datatype Fields = Fields(title: Option<string>, price: Option<string>, description: Option<string>, others: seq<string>)

  const NoFields := Fields(None, None, None, [])

  /** Storing one component: "others" gets the content appended when it is
      non-empty; every other key is overwritten, empty content included. */
  function Store(f: Fields, key: Key, content: string): Fields
  {
    match key
    case TitleKey => f.(title := Some(content))
    case PriceKey => f.(price := Some(content))
    case DescriptionKey => f.(description := Some(content))
    case OthersKey => if content != "" then f.(others := f.others + [content]) else f
  }

  /** Reading `key` before any branch bound it (Python's UnboundLocalError). */
  datatype ExtractError = UnboundKey

  /** The state of the inner loop: the current `key` and the fields so far. */
  datatype Scan = Scan(key: Option<Key>, fields: Fields)

  /** The inner loop over `belowFold`, starting from the `key` left by earlier cards. */
  function ScanBelowFold(prev: Option<Key>, comps: seq<BelowFold>): (r: Result<Scan, ExtractError>)
    ensures prev.Some? ==> r.Success? && r.value.key.Some?
    ensures r.Success? ==> |r.value.fields.others| <= |comps|
    decreases |comps|
  {
    if comps == [] then Success(Scan(prev, NoFields))
    else
      match ScanBelowFold(prev, comps[..|comps| - 1])
      case Failure(e) => Failure(e)
      case Success(sc) =>
        var c := comps[|comps| - 1];
        var key := SelectKey(c.component, sc.key, sc.fields.description.Some?);
        if key.None? then Failure(UnboundKey)
        else Success(Scan(key, Store(sc.fields, key.value, c.stringContent)))
  }

  /** The loop fails exactly when `key` is still unbound and the first component
      has an unrecognised name; after any component `key` is bound. */
  lemma {:induction false} ScanFailsIff(prev: Option<Key>, comps: seq<BelowFold>)
    ensures ScanBelowFold(prev, comps).Failure? <==> prev.None? && comps != [] && !IsKnown(comps[0].component)
    ensures ScanBelowFold(prev, comps).Success? ==>
      (ScanBelowFold(prev, comps).value.key.None? <==> prev.None? && comps == [])
    decreases |comps|
  {
    if comps != [] {
      var init := comps[..|comps| - 1];
      ScanFailsIff(prev, init);
      if init != [] {
        assert init[0] == comps[0];
      }
    }
  }

  /** The contents of the components named `name`, in encounter order. */
  function ContentsNamed(comps: seq<BelowFold>, name: string): seq<string>
    decreases |comps|
  {
    if comps == [] then []
    else
      var c := comps[|comps| - 1];
      ContentsNamed(comps[..|comps| - 1], name) + (if c.component == name then [c.stringContent] else [])
  }

  /** The non-empty strings of `xs`, in order. */
  function NonEmpty(xs: seq<string>): (r: seq<string>)
    ensures forall i :: 0 <= i < |r| ==> r[i] != ""
    decreases |xs|
  {
    if xs == [] then []
    else NonEmpty(xs[..|xs| - 1]) + (if xs[|xs| - 1] != "" then [xs[|xs| - 1]] else [])
  }

  function FirstOf(xs: seq<string>): Option<string>
  {
    if xs == [] then None else Some(xs[0])
  }

  function LastOf(xs: seq<string>): Option<string>
  {
    if xs == [] then None else Some(xs[|xs| - 1])
  }

  predicate AllKnown(comps: seq<BelowFold>)
  {
    forall i :: 0 <= i < |comps| ==> IsKnown(comps[i].component)
  }

  /** The fields a scan of `comps` should hold when every name is recognised:
      the last header_1 is the title, the last header_2 the price, the first
      paragraph the description whatever its content, and every later non-empty
      paragraph is in `others`, in order. */
  ghost predicate Characterized(f: Fields, comps: seq<BelowFold>)
  {
    var ps := ContentsNamed(comps, "paragraph");
    f.title == LastOf(ContentsNamed(comps, "header_1")) &&
    f.price == LastOf(ContentsNamed(comps, "header_2")) &&
    f.description == FirstOf(ps) &&
    f.others == (if ps == [] then [] else NonEmpty(ps[1..]))
  }

  /** One recognised component keeps the fields characterized. */
  lemma KnownStep(f: Fields, init: seq<BelowFold>, c: BelowFold, key: Option<Key>)
    requires Characterized(f, init)
    requires IsKnown(c.component)
    requires SelectKey(c.component, key, f.description.Some?).Some?
    ensures Characterized(Store(f, SelectKey(c.component, key, f.description.Some?).value, c.stringContent), init + [c])
  {
    var comps := init + [c];
    assert comps[..|comps| - 1] == init;
    var ps := ContentsNamed(init, "paragraph");
    var x := c.stringContent;
    if c.component == "paragraph" {
      assert ContentsNamed(comps, "paragraph") == ps + [x];
      if ps != [] {
        assert f.description.Some?;
        assert (ps + [x])[0] == ps[0];
        assert (ps + [x])[1..] == ps[1..] + [x];
        var ys := ps[1..] + [x];
        assert ys[..|ys| - 1] == ps[1..];
        assert NonEmpty(ys) == NonEmpty(ps[1..]) + (if x != "" then [x] else []);
      } else {
        assert f.description.None?;
        assert (ps + [x])[1..] == [];
      }
    } else {
      assert ContentsNamed(comps, "paragraph") == ps;
    }
  }

  /** When every name is recognised the scan succeeds with the characterized
      fields, whatever key earlier cards left behind. */
  lemma {:induction false} ScanKnownNames(prev: Option<Key>, comps: seq<BelowFold>)
    requires AllKnown(comps)
    ensures ScanBelowFold(prev, comps).Success?
    ensures Characterized(ScanBelowFold(prev, comps).value.fields, comps)
    decreases |comps|
  {
    if comps != [] {
      var init := comps[..|comps| - 1];
      var c := comps[|comps| - 1];
      assert AllKnown(init) by {
        forall i | 0 <= i < |init| ensures IsKnown(init[i].component) {
          assert init[i] == comps[i];
        }
      }
      ScanKnownNames(prev, init);
      var sc := ScanBelowFold(prev, init).value;
      assert IsKnown(c.component);
      var key := SelectKey(c.component, sc.key, sc.fields.description.Some?);
      assert ScanBelowFold(prev, comps) == Success(Scan(key, Store(sc.fields, key.value, c.stringContent)));
      KnownStep(sc.fields, init, c, sc.key);
      assert init + [c] == comps;
    }
  }

  /** Two characterized field sets for the same components are equal. */
  lemma CharacterizedUnique(f: Fields, g: Fields, comps: seq<BelowFold>)
    requires Characterized(f, comps) && Characterized(g, comps)
    ensures f == g
  {
  }

  /** The listing for one card, and the `key` the next card starts from. */
  function ExtractSpec(card: ListingCard, now: int, prev: Option<Key>): (r: Result<(CarousellListing, Option<Key>), ExtractError>)
    ensures r.Failure? <==> prev.None? && card.belowFold != [] && !IsKnown(card.belowFold[0].component)
    ensures r.Success? ==>
      r.value.0.id == card.id && r.value.0.createdAt == CreatedAt(card.aboveFold, now) &&
      r.value.0.photoUrl == PhotoOf(card.media) && |r.value.0.others| <= |card.belowFold|
  {
    ScanFailsIff(prev, card.belowFold);
    match ScanBelowFold(prev, card.belowFold)
    case Failure(e) => Failure(e)
    case Success(sc) =>
      Success((CarousellListing(card.id, CreatedAt(card.aboveFold, now), sc.fields.title, sc.fields.price,
                                sc.fields.description, sc.fields.others, PhotoOf(card.media)), sc.key))
  }

  /** The body of the outer loop for one card: a fresh kwargs with a fresh
      `others` list, filled by a loop over `belowFold`. */
  method ExtractCard(card: ListingCard, now: int, prev: Option<Key>) returns (r: Result<(CarousellListing, Option<Key>), ExtractError>)
    ensures r == ExtractSpec(card, now, prev)
  {
    var createdAt := CreatedAt(card.aboveFold, now);
    var key := prev;
    var title, price, description: Option<string> := None, None, None;
    var others: seq<string> := [];
    var i := 0;
    while i < |card.belowFold|
      invariant 0 <= i <= |card.belowFold|
      invariant ScanBelowFold(prev, card.belowFold[..i]) == Success(Scan(key, Fields(title, price, description, others)))
    {
      var c := card.belowFold[i];
      assert card.belowFold[..i + 1][..i] == card.belowFold[..i];
      var name := c.component;
      if name == "header_1" {
        key := Some(TitleKey);
      } else if name == "header_2" {
        key := Some(PriceKey);
      } else if name == "paragraph" {
        if description.None? {
          key := Some(DescriptionKey);
        } else {
          key := Some(OthersKey);
        }
      }
      if key.None? {
        ScanFailsIff(prev, card.belowFold[..i]);
        assert i == 0 && prev.None?;
        assert !IsKnown(card.belowFold[0].component);
        ScanFailsIff(prev, card.belowFold);
        assert ScanBelowFold(prev, card.belowFold).error.UnboundKey?;
        assert ExtractSpec(card, now, prev) == Failure(UnboundKey);
        return Failure(UnboundKey);
      }
      var content := c.stringContent;
      match key.value {
        case OthersKey =>
          if content != "" {
            others := others + [content];
          }
        case TitleKey =>
          title := Some(content);
        case PriceKey =>
          price := Some(content);
        case DescriptionKey =>
          description := Some(content);
      }
      i := i + 1;
    }
    assert card.belowFold[..i] == card.belowFold;
    var listing := CarousellListing(card.id, createdAt, title, price, description, others, PhotoOf(card.media));
    r := Success((listing, key));
  }

  /** The outer loop of execute: `key` is a local of the whole call, so it starts
      unbound and carries from one card to the next. */
  function ExecuteFrom(cards: seq<ListingCard>, now: int): (r: Result<(seq<CarousellListing>, Option<Key>), ExtractError>)
    ensures r.Success? ==> |r.value.0| == |cards|
    ensures r.Success? ==>
      forall i :: 0 <= i < |cards| ==> r.value.0[i].id == cards[i].id && r.value.0[i].photoUrl == PhotoOf(cards[i].media)
    decreases |cards|
  {
    if cards == [] then Success(([], None))
    else
      match ExecuteFrom(cards[..|cards| - 1], now)
      case Failure(e) => Failure(e)
      case Success((listings, key)) =>
        match ExtractSpec(cards[|cards| - 1], now, key)
        case Failure(e) => Failure(e)
        case Success((listing, next)) => Success((listings + [listing], next))
  }

  /** CarousellSearch.execute, from the decoded cards on. */
  method Execute(cards: seq<ListingCard>, now: int) returns (r: Result<seq<CarousellListing>, ExtractError>)
    ensures r.Success? <==> ExecuteFrom(cards, now).Success?
    ensures r.Success? ==> r.value == ExecuteFrom(cards, now).value.0
  {
    var listings: seq<CarousellListing> := [];
    var key: Option<Key> := None;
    var i := 0;
    while i < |cards|
      invariant 0 <= i <= |cards|
      invariant ExecuteFrom(cards[..i], now) == Success((listings, key))
    {
      assert cards[..i + 1][..i] == cards[..i];
      var res := ExtractCard(cards[i], now, key);
      if res.Failure? {
        ExecuteFailureSticks(cards, i + 1, now);
        return Failure(res.error);
      }
      listings := listings + [res.value.0];
      key := res.value.1;
      i := i + 1;
    }
    assert cards[..i] == cards;
    r := Success(listings);
  }

  /** A failure on a prefix of the cards is a failure of the whole call. */
  lemma {:induction false} ExecuteFailureSticks(cards: seq<ListingCard>, n: nat, now: int)
    requires n <= |cards|
    requires ExecuteFrom(cards[..n], now).Failure?
    ensures ExecuteFrom(cards, now).Failure?
    decreases |cards| - n
  {
    if n < |cards| {
      assert cards[..n + 1][..n] == cards[..n];
      ExecuteFailureSticks(cards, n + 1, now);
    } else {
      assert cards[..n] == cards;
    }
  }

  /** Once `key` is bound it stays bound; it is unbound after the cards exactly
      when none of them had a below-fold component. */
  lemma {:induction false} ExecuteKeyUnbound(cards: seq<ListingCard>, now: int)
    requires ExecuteFrom(cards, now).Success?
    ensures ExecuteFrom(cards, now).value.1.None? <==> forall j :: 0 <= j < |cards| ==> cards[j].belowFold == []
    ensures |ExecuteFrom(cards, now).value.0| == |cards|
    decreases |cards|
  {
    if cards != [] {
      var init := cards[..|cards| - 1];
      ExecuteKeyUnbound(init, now);
      var key := ExecuteFrom(init, now).value.1;
      ScanFailsIff(key, cards[|cards| - 1].belowFold);
      assert forall j :: 0 <= j < |init| ==> init[j] == cards[j];
    }
  }

  /** execute raises exactly when the first card with any below-fold component
      starts with an unrecognised name (the key is then still unbound). */
  lemma {:induction false} ExecuteFailsIff(cards: seq<ListingCard>, now: int)
    ensures ExecuteFrom(cards, now).Failure? <==>
      exists i :: 0 <= i < |cards| && cards[i].belowFold != [] && !IsKnown(cards[i].belowFold[0].component) &&
        (forall j :: 0 <= j < i ==> cards[j].belowFold == [])
    decreases |cards|
  {
    if cards != [] {
      var init := cards[..|cards| - 1];
      var last := cards[|cards| - 1];
      ExecuteFailsIff(init, now);
      assert forall j :: 0 <= j < |init| ==> init[j] == cards[j];
      if ExecuteFrom(init, now).Success? {
        ExecuteKeyUnbound(init, now);
        ScanFailsIff(ExecuteFrom(init, now).value.1, last.belowFold);
      }
    }
  }

  /** The listing a card yields when it is extracted on its own. */
  function CardListing(card: ListingCard, now: int): CarousellListing
    requires AllKnown(card.belowFold)
  {
    ScanKnownNames(None, card.belowFold);
    ExtractSpec(card, now, None).value.0
  }

  /** With every name recognised, the key left by earlier cards does not change the listing. */
  lemma ExtractIgnoresKey(card: ListingCard, now: int, key: Option<Key>)
    requires AllKnown(card.belowFold)
    ensures ExtractSpec(card, now, key).Success?
    ensures ExtractSpec(card, now, key).value.0 == CardListing(card, now)
  {
    ScanKnownNames(key, card.belowFold);
    ScanKnownNames(None, card.belowFold);
    CharacterizedUnique(ScanBelowFold(key, card.belowFold).value.fields,
                        ScanBelowFold(None, card.belowFold).value.fields, card.belowFold);
  }

  /** When every component name is recognised, execute succeeds with one listing
      per card, in card order, each built from its own card only: its id, its
      timestamp, its photo and its own fresh `others`. */
  lemma {:induction false} ExecuteKnownNames(cards: seq<ListingCard>, now: int)
    requires forall i :: 0 <= i < |cards| ==> AllKnown(cards[i].belowFold)
    ensures ExecuteFrom(cards, now).Success?
    ensures var ls := ExecuteFrom(cards, now).value.0;
      |ls| == |cards| &&
      forall i :: 0 <= i < |cards| ==> ls[i] == CardListing(cards[i], now)
    decreases |cards|
  {
    if cards != [] {
      var init := cards[..|cards| - 1];
      var last := cards[|cards| - 1];
      assert forall j :: 0 <= j < |init| ==> init[j] == cards[j];
      ExecuteKnownNames(init, now);
      var prior := ExecuteFrom(init, now).value;
      ExtractIgnoresKey(last, now, prior.1);
      var l := ExtractSpec(last, now, prior.1).value.0;
      var ls := ExecuteFrom(cards, now).value.0;
      assert ls == prior.0 + [l];
      forall i | 0 <= i < |cards|
        ensures ls[i] == CardListing(cards[i], now)
      {
        if i < |init| {
          assert ls[i] == prior.0[i];
        }
      }
    }
  }

  /** An unrecognised component reuses the key of the previous iteration, even
      one set by the previous card: here the second card's badge becomes its title. */
  lemma KeyCarriesAcrossCards(now: int)
    ensures var cards := [ListingCard("1", [], [BelowFold("header_1", "Jacket")], []),
                          ListingCard("2", [], [BelowFold("badge", "Bumped")], [])];
      ExecuteFrom(cards, now).Success? &&
      ExecuteFrom(cards, now).value.0[1].title == Some("Bumped")
  {
    var cards := [ListingCard("1", [], [BelowFold("header_1", "Jacket")], []),
                  ListingCard("2", [], [BelowFold("badge", "Bumped")], [])];
    assert cards[..1] == [cards[0]];
    assert [cards[0]][..0] == [];
    assert cards[0].belowFold[..0] == [];
    assert cards[1].belowFold[..0] == [];
  }
}

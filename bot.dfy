/** main.py: the older message renderer and the run that searches each brand,
    keeps the recent listings, skips those already in the seen-set, and sends
    the rest, recording each delivered id. The bot, the Redis store, the clock
    and the HTTP search are parameters: `outcomes` says how each send ends and
    `fetch` answers each search request with decoded listing cards. */
module Bot {
  import opened Wrappers
  import opened Seqs
  import opened Text
  import opened Search
  import opened Extract

  /** `len(None)` raising TypeError when the listing has no title or no description. */
  datatype RenderError = NoTitle | NoDescription

  /** main.py's description rule as written: a non-empty description is used
      unchanged, however long; an empty one becomes "...". The limit never matters. */
  function MainDescription(d: string, limit: nat): (r: string)
    ensures d != "" ==> r == d
    ensures d == "" ==> r == "..."
  {
    if |d| > 0 then d
    else
      var cut := d[..if limit < |d| then limit else |d|];
      assert |Strip(cut)| <= |cut| == 0;
      Strip(cut) + "..."
  }

  /** `f"{listing.price}"`: Python prints None as "None". */
  function PriceText(price: Option<string>): (r: string)
    ensures price.Some? ==> r == price.value
    ensures price.None? ==> r == "None"
  {
    if price.Some? then price.value else "None"
  }

  /** The optional line of other paragraphs, present only when there are some. */
  function OthersBlock(others: seq<string>): (r: string)
    ensures r == "" <==> others == []
    ensures others != [] ==> r[0] == '\n' && r[1..] == JoinLines(others)
  {
    if |others| > 0 then "\n" + JoinLines(others) else ""
  }

  /** The listing has the two fields main.py's renderer takes the length of. */
  predicate Renders(listing: CarousellListing)
  {
    listing.title.Some? && listing.description.Some?
  }

  /** main.py's `generate_message`. It fails when the title or the description is
      None (the title is looked at first); otherwise the anchor to the listing's
      URL with the truncated, title-cased title, then the price, the others line
      when there are others, and the emphasised description. */
  function GenerateMessage(listing: CarousellListing, titleLimit: nat, descriptionLimit: nat): (r: Result<string, RenderError>)
    ensures r.Success? <==> Renders(listing)
    ensures r.Failure? ==> r.error == (if listing.title.None? then NoTitle else NoDescription)
    ensures r.Success? ==>
      var head := "<a href=\"" + Url(listing) + "\">" + TitleCase(ShortTitle(listing.title.value, titleLimit)) + "</a>\n" + PriceText(listing.price);
      var tail := "\n<i>" + MainDescription(listing.description.value, descriptionLimit) + "</i>";
      r.value == head + OthersBlock(listing.others) + tail
  {
    if listing.title.None? then Failure(NoTitle)
    else if listing.description.None? then Failure(NoDescription)
    else
      var title := ShortTitle(listing.title.value, titleLimit);
      var description := MainDescription(listing.description.value, descriptionLimit);
      var message := "<a href=\"" + Url(listing) + "\">" + TitleCase(title) + "</a>";
      var message := message + "\n" + PriceText(listing.price);
      var message := message + OthersBlock(listing.others);
      Success(message + "\n<i>" + description + "</i>")
  }

  /** A non-empty description reaches the message whole, whatever its length and
      whatever the description limit: the message ends with it. */
  lemma DescriptionNeverTruncated(listing: CarousellListing, titleLimit: nat, descriptionLimit: nat)
    requires listing.title.Some? && listing.description.Some? && listing.description.value != ""
    ensures var m := GenerateMessage(listing, titleLimit, descriptionLimit).value;
      var tail := "\n<i>" + listing.description.value + "</i>";
      |m| >= |tail| && m[|m| - |tail|..] == tail
  {
  }

  /** How a send ends: a message object comes back, a falsy value comes back, or
      TimedOut, NetworkError or TelegramError is raised. */
  datatype SendOutcome = Sent | NoMessage | Raised

  /** A photo send with the message as caption, or a text send. */
  datatype Send = PhotoSend(photo: string, caption: string) | TextSend(text: string)

  /** One send the run made, for the listing `id`. */
  datatype Attempt = Attempt(id: string, send: Send, outcome: SendOutcome)

  /** The run's state: the seen-set, the sends made so far, and whether an
      uncaught error has ended the run. */
  datatype RunState = RunState(seen: set<string>, log: seq<Attempt>, crashed: bool)

  /** The ids the sends in `log` delivered. */
  ghost function Delivered(log: seq<Attempt>): set<string>
  {
    set a | a in log && a.outcome == Sent :: a.id
  }

  lemma DeliveredAppend(a: seq<Attempt>, b: seq<Attempt>)
    ensures Delivered(a + b) == Delivered(a) + Delivered(b)
  {
  }

  /** One pass of the loop body for `listing`. Its `n`-th send of the run ends as
      `outcomes(n)`. The description limit is the title limit, since main.py reads
      both from the same setting. */
  function GateStep(st: RunState, listing: CarousellListing, dryRun: bool, titleLimit: nat,
                    outcomes: nat -> SendOutcome): (r: RunState)
    ensures |r.log| == |st.log| || |r.log| == |st.log| + 1
    ensures r.log[..|st.log|] == st.log
    ensures |r.log| == |st.log| + 1 <==>
      !st.crashed && listing.id !in st.seen && !dryRun && Renders(listing)
    ensures |r.log| == |st.log| + 1 ==>
      r.log[|st.log|].id == listing.id && r.log[|st.log|].outcome == outcomes(|st.log|) &&
      (r.log[|st.log|].send.PhotoSend? <==> Truthy(listing.photoUrl))
    ensures r.seen == if |r.log| == |st.log| + 1 && outcomes(|st.log|) == Sent then st.seen + {listing.id} else st.seen
    ensures r.crashed <==>
      st.crashed || (listing.id !in st.seen && !dryRun && !Renders(listing))
  {
    if st.crashed || listing.id in st.seen || dryRun then st
    else
      match GenerateMessage(listing, titleLimit, titleLimit)
      case Failure(_) => st.(crashed := true)
      case Success(message) =>
        var send := if Truthy(listing.photoUrl) then PhotoSend(listing.photoUrl.value, message) else TextSend(message);
        var outcome := outcomes(|st.log|);
        RunState(if outcome == Sent then st.seen + {listing.id} else st.seen,
                 st.log + [Attempt(listing.id, send, outcome)], false)
  }

  /** What one pass sends: the rendered message, as the caption of the listing's
      photo when it has a truthy photo URL and as a text message otherwise. */
  lemma StepSendsMessage(st: RunState, listing: CarousellListing, dryRun: bool, titleLimit: nat,
                         outcomes: nat -> SendOutcome)
    ensures var r := GateStep(st, listing, dryRun, titleLimit, outcomes);
      |r.log| == |st.log| + 1 ==>
        var message := GenerateMessage(listing, titleLimit, titleLimit).value;
        r.log[|st.log|].send ==
          if Truthy(listing.photoUrl) then PhotoSend(listing.photoUrl.value, message) else TextSend(message)
  {
  }

  /** The loop over one brand's recent listings. */
  function Gate(st: RunState, listings: seq<CarousellListing>, dryRun: bool, titleLimit: nat,
                outcomes: nat -> SendOutcome): (r: RunState)
    ensures st.crashed ==> r == st
    decreases |listings|
  {
    if listings == [] then st
    else GateStep(Gate(st, listings[..|listings| - 1], dryRun, titleLimit, outcomes),
                  listings[|listings| - 1], dryRun, titleLimit, outcomes)
  }

  /** No id is sent again after a send of it was delivered, and every delivered
      id is in the seen-set. */
  ghost predicate Consistent(st: RunState)
  {
    Delivered(st.log) <= st.seen &&
    forall i, j :: 0 <= i < j < |st.log| && st.log[i].outcome == Sent ==> st.log[j].id != st.log[i].id
  }

  function AttemptIds(log: seq<Attempt>): (r: seq<string>)
    ensures |r| == |log| && forall i :: 0 <= i < |log| ==> r[i] == log[i].id
  {
    if log == [] then [] else AttemptIds(log[..|log| - 1]) + [log[|log| - 1].id]
  }

  /** The loop only appends to the log, and leaves a crashed run, or any run in
      dry-run mode, as it was. */
  lemma {:induction false} GateAppends(st: RunState, listings: seq<CarousellListing>, dryRun: bool, titleLimit: nat,
                                       outcomes: nat -> SendOutcome)
    ensures var r := Gate(st, listings, dryRun, titleLimit, outcomes);
      |r.log| >= |st.log| && r.log[..|st.log|] == st.log &&
      (dryRun || st.crashed ==> r == st)
    decreases |listings|
  {
    if listings != [] {
      GateAppends(st, listings[..|listings| - 1], dryRun, titleLimit, outcomes);
    }
  }

  /** One pass: the send it may add is for an id not in the seen-set, and the
      seen-set grows by the id it delivered, if any. */
  lemma StepSeen(p: RunState, l: CarousellListing, dryRun: bool, titleLimit: nat, outcomes: nat -> SendOutcome)
    ensures var r := GateStep(p, l, dryRun, titleLimit, outcomes);
      r.seen == p.seen + Delivered(r.log[|p.log|..]) &&
      (forall k :: |p.log| <= k < |r.log| ==> r.log[k].id !in p.seen)
  {
    var r := GateStep(p, l, dryRun, titleLimit, outcomes);
    if |r.log| == |p.log| + 1 {
      assert r.log[|p.log|..] == [r.log[|p.log|]];
    } else {
      assert r.log[|p.log|..] == [];
    }
  }

  /** Splitting the new part of a log at an intermediate point. */
  lemma NewPartSplit(a: seq<Attempt>, b: seq<Attempt>, c: seq<Attempt>)
    requires |a| <= |b| <= |c| && b[..|a|] == a && c[..|b|] == b
    ensures c[..|a|] == a && c[|a|..] == b[|a|..] + c[|b|..]
    ensures Delivered(c[|a|..]) == Delivered(b[|a|..]) + Delivered(c[|b|..])
  {
    assert c[|a|..] == b[|a|..] + c[|b|..];
    DeliveredAppend(b[|a|..], c[|b|..]);
  }

  /** The sends the loop makes skip every id already in the seen-set, and the
      seen-set grows by exactly the ids they delivered. */
  lemma {:induction false} GateSeen(st: RunState, listings: seq<CarousellListing>, dryRun: bool, titleLimit: nat,
                                    outcomes: nat -> SendOutcome)
    ensures var r := Gate(st, listings, dryRun, titleLimit, outcomes);
      |r.log| >= |st.log| &&
      r.seen == st.seen + Delivered(r.log[|st.log|..]) &&
      (forall k :: |st.log| <= k < |r.log| ==> r.log[k].id !in st.seen)
    decreases |listings|
  {
    if listings == [] {
      assert st.log[|st.log|..] == [];
    } else {
      var init := listings[..|listings| - 1];
      var l := listings[|listings| - 1];
      GateSeen(st, init, dryRun, titleLimit, outcomes);
      GateAppends(st, init, dryRun, titleLimit, outcomes);
      var p := Gate(st, init, dryRun, titleLimit, outcomes);
      var r := GateStep(p, l, dryRun, titleLimit, outcomes);
      assert r == Gate(st, listings, dryRun, titleLimit, outcomes);
      StepSeen(p, l, dryRun, titleLimit, outcomes);
      NewPartSplit(st.log, p.log, r.log);
    }
  }

  /** One pass appends the listing's id to the ids sent, or nothing. */
  lemma StepInOrder(p: RunState, l: CarousellListing, dryRun: bool, titleLimit: nat, outcomes: nat -> SendOutcome,
                    sent: seq<string>, ids: seq<string>)
    requires IsSubsequence(sent, ids)
    ensures var r := GateStep(p, l, dryRun, titleLimit, outcomes);
      IsSubsequence(sent + AttemptIds(r.log[|p.log|..]), ids + [l.id])
  {
    var r := GateStep(p, l, dryRun, titleLimit, outcomes);
    SubsequenceSnoc(sent, ids, l.id);
    if |r.log| == |p.log| + 1 {
      assert r.log[|p.log|..] == [r.log[|p.log|]];
      assert AttemptIds([r.log[|p.log|]]) == [l.id];
    } else {
      assert r.log[|p.log|..] == [];
      assert sent + [] == sent;
    }
  }

  lemma AttemptIdsAppend(a: seq<Attempt>, b: seq<Attempt>)
    ensures AttemptIds(a + b) == AttemptIds(a) + AttemptIds(b)
  {
  }

  /** The ids sent in two consecutive stretches of the log, in order. */
  lemma InOrderJoin(a: seq<Attempt>, b: seq<Attempt>, c: seq<Attempt>, ids: seq<string>)
    requires |a| <= |b| <= |c| && b[..|a|] == a && c[..|b|] == b
    requires IsSubsequence(AttemptIds(b[|a|..]) + AttemptIds(c[|b|..]), ids)
    ensures IsSubsequence(AttemptIds(c[|a|..]), ids)
  {
    NewPartSplit(a, b, c);
    AttemptIdsAppend(b[|a|..], c[|b|..]);
  }

  /** One pass extends the ids sent since the log was `a` in the order of the
      listings' ids. */
  lemma StepInOrderFrom(p: RunState, l: CarousellListing, dryRun: bool, titleLimit: nat, outcomes: nat -> SendOutcome,
                        a: seq<Attempt>, ids: seq<string>)
    requires |a| <= |p.log| && p.log[..|a|] == a
    requires IsSubsequence(AttemptIds(p.log[|a|..]), ids)
    ensures var r := GateStep(p, l, dryRun, titleLimit, outcomes);
      |r.log| >= |a| && IsSubsequence(AttemptIds(r.log[|a|..]), ids + [l.id])
  {
    var r := GateStep(p, l, dryRun, titleLimit, outcomes);
    StepInOrder(p, l, dryRun, titleLimit, outcomes, AttemptIds(p.log[|a|..]), ids);
    InOrderJoin(a, p.log, r.log, ids + [l.id]);
  }

  /** Dropping the last listing drops the last id. */
  lemma IdsSnoc(listings: seq<CarousellListing>, ids: seq<string>)
    requires |ids| == |listings| > 0 && forall i :: 0 <= i < |listings| ==> ids[i] == listings[i].id
    ensures var init := listings[..|listings| - 1];
      forall i :: 0 <= i < |init| ==> ids[..|ids| - 1][i] == init[i].id
    ensures ids == ids[..|ids| - 1] + [listings[|listings| - 1].id]
  {
  }

  /** The sends follow the order of the listings: the ids sent are a subsequence
      of `ids`, the listings' ids in order. */
  lemma {:induction false} GateInOrder(st: RunState, listings: seq<CarousellListing>, dryRun: bool, titleLimit: nat,
                                       outcomes: nat -> SendOutcome, ids: seq<string>)
    requires |ids| == |listings| && forall i :: 0 <= i < |listings| ==> ids[i] == listings[i].id
    ensures var r := Gate(st, listings, dryRun, titleLimit, outcomes);
      |r.log| >= |st.log| && IsSubsequence(AttemptIds(r.log[|st.log|..]), ids)
    decreases |listings|
  {
    if listings == [] {
      assert st.log[|st.log|..] == [];
    } else {
      var init := listings[..|listings| - 1];
      var l := listings[|listings| - 1];
      var initIds := ids[..|ids| - 1];
      IdsSnoc(listings, ids);
      GateInOrder(st, init, dryRun, titleLimit, outcomes, initIds);
      GateAppends(st, init, dryRun, titleLimit, outcomes);
      var p := Gate(st, init, dryRun, titleLimit, outcomes);
      assert GateStep(p, l, dryRun, titleLimit, outcomes) == Gate(st, listings, dryRun, titleLimit, outcomes);
      StepInOrderFrom(p, l, dryRun, titleLimit, outcomes, st.log, initIds);
    }
  }

  /** One pass keeps the run consistent. */
  lemma StepConsistent(p: RunState, l: CarousellListing, dryRun: bool, titleLimit: nat, outcomes: nat -> SendOutcome)
    requires Consistent(p)
    ensures Consistent(GateStep(p, l, dryRun, titleLimit, outcomes))
  {
    var r := GateStep(p, l, dryRun, titleLimit, outcomes);
    if |r.log| == |p.log| + 1 {
      var a := r.log[|p.log|];
      assert r.log == p.log + [a];
      DeliveredAppend(p.log, [a]);
      forall i, j | 0 <= i < j < |r.log| && r.log[i].outcome == Sent
        ensures r.log[j].id != r.log[i].id
      {
        if j == |p.log| {
          assert r.log[i] in p.log;
        } else {
          assert r.log[i] == p.log[i] && r.log[j] == p.log[j];
        }
      }
    } else {
      assert r.log == p.log;
    }
  }

  /** The loop keeps the run consistent: no id is sent after it was delivered. */
  lemma {:induction false} GateConsistent(st: RunState, listings: seq<CarousellListing>, dryRun: bool, titleLimit: nat,
                                          outcomes: nat -> SendOutcome)
    requires Consistent(st)
    ensures Consistent(Gate(st, listings, dryRun, titleLimit, outcomes))
    decreases |listings|
  {
    if listings != [] {
      GateConsistent(st, listings[..|listings| - 1], dryRun, titleLimit, outcomes);
      StepConsistent(Gate(st, listings[..|listings| - 1], dryRun, titleLimit, outcomes),
                     listings[|listings| - 1], dryRun, titleLimit, outcomes);
    }
  }

  /** The loop at main.py:52-80 for one brand: skip ids in the seen-set, skip
      everything in a dry run, otherwise render (an error here ends the run),
      send as photo when the listing has a photo URL and as text otherwise, and
      record the id only when the send returned a message. A raised send error
      is caught and the loop goes on. */
  method DeliverListings(st0: RunState, listings: seq<CarousellListing>, dryRun: bool, titleLimit: nat,
                         outcomes: nat -> SendOutcome) returns (st: RunState)
    ensures st == Gate(st0, listings, dryRun, titleLimit, outcomes)
  {
    var seen, log, crashed := st0.seen, st0.log, st0.crashed;
    var i := 0;
    while i < |listings| && !crashed
      invariant 0 <= i <= |listings|
      invariant RunState(seen, log, crashed) == Gate(st0, listings[..i], dryRun, titleLimit, outcomes)
    {
      assert listings[..i + 1][..i] == listings[..i];
      ghost var before := RunState(seen, log, crashed);
      var listing := listings[i];
      if listing.id !in seen && !dryRun {
        var message := GenerateMessage(listing, titleLimit, titleLimit);
        if message.Failure? {
          crashed := true;
        } else {
          var send: Send;
          if Truthy(listing.photoUrl) {
            send := PhotoSend(listing.photoUrl.value, message.value);
          } else {
            send := TextSend(message.value);
          }
          var outcome := outcomes(|log|);
          if outcome == Sent {
            seen := seen + {listing.id};
          }
          log := log + [Attempt(listing.id, send, outcome)];
        }
      }
      assert RunState(seen, log, crashed) == GateStep(before, listing, dryRun, titleLimit, outcomes);
      i := i + 1;
    }
    if i < |listings| {
      GateCrashedStays(st0, listings, i, dryRun, titleLimit, outcomes);
    } else {
      assert listings[..i] == listings;
    }
    st := RunState(seen, log, crashed);
  }

  /** After an uncaught error the remaining listings change nothing. */
  lemma {:induction false} GateCrashedStays(st: RunState, listings: seq<CarousellListing>, n: nat, dryRun: bool,
                                            titleLimit: nat, outcomes: nat -> SendOutcome)
    requires n <= |listings|
    requires Gate(st, listings[..n], dryRun, titleLimit, outcomes).crashed
    ensures Gate(st, listings, dryRun, titleLimit, outcomes) == Gate(st, listings[..n], dryRun, titleLimit, outcomes)
    decreases |listings| - n
  {
    if n < |listings| {
      assert listings[..n + 1][..n] == listings[..n];
      GateCrashedStays(st, listings, n + 1, dryRun, titleLimit, outcomes);
    } else {
      assert listings[..n] == listings;
    }
  }

  const SecondsPerDay := 86400

  /** What holds of the run after every brand: the seen-set is the initial one
      plus the ids delivered, no send was for an id initially in it, the run is
      consistent, and a dry run has sent and recorded nothing. */
  ghost predicate RunInvariant(st: RunState, seen0: set<string>, dryRun: bool)
  {
    st.seen == seen0 + Delivered(st.log) &&
    (forall k :: 0 <= k < |st.log| ==> st.log[k].id !in seen0) &&
    Consistent(st) &&
    (dryRun ==> st.seen == seen0 && st.log == [])
  }

  /** One brand's delivery loop keeps the run invariant. */
  lemma GateKeepsRunInvariant(st: RunState, listings: seq<CarousellListing>, dryRun: bool, titleLimit: nat,
                              outcomes: nat -> SendOutcome, seen0: set<string>)
    requires RunInvariant(st, seen0, dryRun)
    ensures RunInvariant(Gate(st, listings, dryRun, titleLimit, outcomes), seen0, dryRun)
  {
    var r := Gate(st, listings, dryRun, titleLimit, outcomes);
    GateAppends(st, listings, dryRun, titleLimit, outcomes);
    GateSeen(st, listings, dryRun, titleLimit, outcomes);
    GateConsistent(st, listings, dryRun, titleLimit, outcomes);
    LogExtends(st.log, r.log, seen0, st.seen);
  }

  /** A log extended by sends for ids outside `seen` (which holds `seen0`) still
      has no send for an id in `seen0`, and delivers what the old log did plus
      what the new sends did. */
  lemma LogExtends(a: seq<Attempt>, c: seq<Attempt>, seen0: set<string>, seen: set<string>)
    requires |a| <= |c| && c[..|a|] == a && seen0 <= seen
    requires forall k :: 0 <= k < |a| ==> a[k].id !in seen0
    requires forall k :: |a| <= k < |c| ==> c[k].id !in seen
    ensures forall k :: 0 <= k < |c| ==> c[k].id !in seen0
    ensures Delivered(c) == Delivered(a) + Delivered(c[|a|..])
  {
    assert c == a + c[|a|..];
    DeliveredAppend(a, c[|a|..]);
    forall k | 0 <= k < |c|
      ensures c[k].id !in seen0
    {
      if k < |a| {
        assert c[k] == a[k];
      }
    }
  }

  /** One brand of `run_script`: the brand's request is answered by `fetch`, the
      cards are extracted, the listings at most `recencyDays` old are kept and
      passed through the delivery loop. An extraction error ends the run. */
  function BrandStep(st: RunState, brand: string, fetch: SearchParams -> seq<ListingCard>, now: int,
                     recencyDays: int, dryRun: bool, titleLimit: nat, outcomes: nat -> SendOutcome): (r: RunState)
    ensures |r.log| >= |st.log| && r.log[..|st.log|] == st.log
    ensures dryRun ==> r.seen == st.seen && r.log == st.log
    ensures var cards := ExecuteFrom(fetch(BrandRequest(brand)), now);
      r.crashed <==>
        (cards.Failure? ||
         Gate(st, FilterRecent(cards.value.0, now, recencyDays * SecondsPerDay), dryRun, titleLimit, outcomes).crashed)
  {
    match ExecuteFrom(fetch(BrandRequest(brand)), now)
    case Failure(_) => st.(crashed := true)
    case Success(res) =>
      var recent := FilterRecent(res.0, now, recencyDays * SecondsPerDay);
      GateAppends(st, recent, dryRun, titleLimit, outcomes);
      Gate(st, recent, dryRun, titleLimit, outcomes)
  }

  /** `run_script` over the brands in the order they are searched, starting from
      the seen-set `seen0`; once the run has crashed, later brands are not searched. */
  function RunSpec(brands: seq<string>, fetch: SearchParams -> seq<ListingCard>, now: int, recencyDays: int,
                   seen0: set<string>, dryRun: bool, titleLimit: nat, outcomes: nat -> SendOutcome): (r: RunState)
    ensures dryRun ==> r.seen == seen0 && r.log == []
    decreases |brands|
  {
    if brands == [] then RunState(seen0, [], false)
    else
      var st := RunSpec(brands[..|brands| - 1], fetch, now, recencyDays, seen0, dryRun, titleLimit, outcomes);
      if st.crashed then st
      else BrandStep(st, brands[|brands| - 1], fetch, now, recencyDays, dryRun, titleLimit, outcomes)
  }

  /** The whole run keeps the run invariant: the seen-set is the initial one plus
      exactly the ids delivered, nothing is sent for an id seen at the start, no
      id is delivered twice, and a dry run sends and records nothing. */
  lemma {:induction false} RunSpecInvariant(brands: seq<string>, fetch: SearchParams -> seq<ListingCard>, now: int,
                                            recencyDays: int, seen0: set<string>, dryRun: bool, titleLimit: nat,
                                            outcomes: nat -> SendOutcome)
    ensures RunInvariant(RunSpec(brands, fetch, now, recencyDays, seen0, dryRun, titleLimit, outcomes), seen0, dryRun)
    decreases |brands|
  {
    if brands == [] {
      assert Delivered([]) == {};
    } else {
      var init := brands[..|brands| - 1];
      RunSpecInvariant(init, fetch, now, recencyDays, seen0, dryRun, titleLimit, outcomes);
      var st := RunSpec(init, fetch, now, recencyDays, seen0, dryRun, titleLimit, outcomes);
      var brand := brands[|brands| - 1];
      match ExecuteFrom(fetch(BrandRequest(brand)), now)
      case Failure(_) =>
      case Success(res) =>
        GateKeepsRunInvariant(st, FilterRecent(res.0, now, recencyDays * SecondsPerDay), dryRun, titleLimit, outcomes, seen0);
    }
  }

  /** Once the run has crashed, the remaining brands change nothing. */
  lemma {:induction false} RunSpecCrashedStays(brands: seq<string>, n: nat, fetch: SearchParams -> seq<ListingCard>,
                                               now: int, recencyDays: int, seen0: set<string>, dryRun: bool,
                                               titleLimit: nat, outcomes: nat -> SendOutcome)
    requires n <= |brands|
    requires RunSpec(brands[..n], fetch, now, recencyDays, seen0, dryRun, titleLimit, outcomes).crashed
    ensures RunSpec(brands, fetch, now, recencyDays, seen0, dryRun, titleLimit, outcomes) ==
      RunSpec(brands[..n], fetch, now, recencyDays, seen0, dryRun, titleLimit, outcomes)
    decreases |brands| - n
  {
    if n < |brands| {
      assert brands[..n + 1][..n] == brands[..n];
      RunSpecCrashedStays(brands, n + 1, fetch, now, recencyDays, seen0, dryRun, titleLimit, outcomes);
    } else {
      assert brands[..n] == brands;
    }
  }

  /** `run_script`: for each brand in turn, build the search, fetch and extract
      its cards, keep the recent listings, and run the delivery loop; an
      extraction error ends the run. The result is the run `RunSpec` describes,
      so afterwards the seen-set is the initial one plus exactly the ids
      delivered, no send was for an id that was in it at the start, no id is
      sent after it was delivered, and a dry run sends and records nothing. */
  method RunScript(brands: seq<string>, fetch: SearchParams -> seq<ListingCard>, now: int, recencyDays: int,
                   seen0: set<string>, dryRun: bool, titleLimit: nat, outcomes: nat -> SendOutcome)
    returns (st: RunState)
    ensures st == RunSpec(brands, fetch, now, recencyDays, seen0, dryRun, titleLimit, outcomes)
    ensures st.seen == seen0 + Delivered(st.log)
    ensures forall k :: 0 <= k < |st.log| ==> st.log[k].id !in seen0
    ensures Consistent(st)
    ensures dryRun ==> st.seen == seen0 && st.log == []
  {
    st := RunState(seen0, [], false);
    var b := 0;
    while b < |brands| && !st.crashed
      invariant 0 <= b <= |brands|
      invariant st == RunSpec(brands[..b], fetch, now, recencyDays, seen0, dryRun, titleLimit, outcomes)
    {
      assert brands[..b + 1][..b] == brands[..b];
      var search := Filter(NewSearch(Some(brands[b])), [("collections", AllMensFashion)]);
      assert search == BrandSearch(brands[b]);
      var params := Json(search);
      var extracted := Execute(fetch(params), now);
      if extracted.Failure? {
        st := st.(crashed := true);
      } else {
        var recent := FilterRecent(extracted.value, now, recencyDays * SecondsPerDay);
        st := DeliverListings(st, recent, dryRun, titleLimit, outcomes);
      }
      b := b + 1;
    }
    if b < |brands| {
      RunSpecCrashedStays(brands, b, fetch, now, recencyDays, seen0, dryRun, titleLimit, outcomes);
    } else {
      assert brands[..b] == brands;
    }
    RunSpecInvariant(brands, fetch, now, recencyDays, seen0, dryRun, titleLimit, outcomes);
  }
}

/** The oldest-first read of a mailbox: a listing paged up to a cap, a budget of client messages a poll, a memo
    of what has been downloaded and a quarantine of what could not be parsed. Neither may change what is
    returned. */
module Gmail {
  import opened Prelude

  type GmailId = string

  datatype Raw = Raw(messageId: string, isInternal: bool)

  /** What downloading an id gives: nothing any more, our own sent or draft mail, a malformed
      message, or a readable one. */
  datatype Download = Vanished | OwnOutbound | Malformed | Readable(raw: Raw)

  datatype Mailbox = Mailbox(mail: map<GmailId, Download>, sentByUs: set<GmailId>) {
    function Get(id: GmailId): Download {
      if id in mail then mail[id] else Vanished
    }
  }

  /** Of these ids, the later mailbox has lost some and changed none. */
  ghost predicate OnlyDeleted(box: Mailbox, later: Mailbox, ids: set<GmailId>) {
    forall id :: id in ids ==> later.Get(id) == box.Get(id) || later.Get(id).Vanished?
  }

  /** A page of ids, newest first; a slice without matches lists none at all. */
  datatype Page = Page(refs: Option<seq<GmailId>>, more: bool)

  const LIST_ID_CAP: nat := 2000

  const LIST_PAGE_SIZE: nat := 100

  // ----- the reference: reverse, keep unseen client mail, take the budget ----

  /** Mail of a client that `seen` does not hold. */
  predicate Wanted(id: GmailId, box: Mailbox, seen: set<string>) {
    && id !in box.sentByUs && box.Get(id).Readable?
    && box.Get(id).raw.messageId !in seen && !box.Get(id).raw.isInternal
  }

  function Clients(ids: seq<GmailId>, box: Mailbox, seen: set<string>): seq<Raw> {
    if ids == [] then []
    else
      var last := ids[|ids| - 1];
      Clients(ids[..|ids| - 1], box, seen) + if Wanted(last, box, seen) then [box.Get(last).raw] else []
  }

  function Reverse<T>(s: seq<T>): (r: seq<T>)
    ensures |r| == |s| && forall i :: 0 <= i < |s| ==> r[i] == s[|s| - 1 - i]
  {
    seq(|s|, i requires 0 <= i < |s| => s[|s| - 1 - i])
  }

  function Take<T>(s: seq<T>, n: int): seq<T> {
    if n <= 0 then [] else if n < |s| then s[..n] else s
  }

  /** One poll of a window, oldest first. */
  function Poll(window: seq<GmailId>, box: Mailbox, seen: set<string>, budget: int): seq<Raw> {
    Take(Clients(window, box, seen), budget)
  }

  /** Readable mail of somebody else's, from outside, that was not returned before. */
  ghost predicate IsClients(raw: Raw, id: GmailId, box: Mailbox, seen: set<string>) {
    && box.Get(id) == Readable(raw) && id !in box.sentByUs && !raw.isInternal && raw.messageId !in seen
  }

  lemma {:induction false} OnlyClientsAreKept(ids: seq<GmailId>, box: Mailbox, seen: set<string>, raw: Raw)
    ensures raw in Clients(ids, box, seen) <==> exists id :: id in ids && IsClients(raw, id, box, seen)
    ensures |Clients(ids, box, seen)| <= |ids|
  {
    if ids == [] {
    } else {
      var init, last := ids[..|ids| - 1], ids[|ids| - 1];
      OnlyClientsAreKept(init, box, seen, raw);
      assert forall id :: id in ids <==> id in init || id == last;
      assert IsClients(raw, last, box, seen) <==> Wanted(last, box, seen) && box.Get(last).raw == raw;
      assert (exists id :: id in ids && IsClients(raw, id, box, seen))
             <==> IsClients(raw, last, box, seen) || exists id :: id in init && IsClients(raw, id, box, seen);
    }
  }

  /** No poll returns our own mail, internal mail, what could not be read or what was seen; and one whose budget covers
      the window returns all the rest. */
  lemma WhatAPollReturns(window: seq<GmailId>, box: Mailbox, seen: set<string>, budget: int, raw: Raw)
    ensures raw in Poll(window, box, seen, budget) ==> exists id :: id in window && IsClients(raw, id, box, seen)
    ensures budget >= |window| ==>
              (raw in Poll(window, box, seen, budget) <==> exists id :: id in window && IsClients(raw, id, box, seen))
    ensures |Poll(window, box, seen, budget)| <= if budget > 0 then budget else 0
  {
    OnlyClientsAreKept(window, box, seen, raw);
  }

  lemma {:induction false} ClientsOfAPrefix(ids: seq<GmailId>, n: nat, box: Mailbox, seen: set<string>)
    requires n <= |ids|
    ensures Clients(ids[..n], box, seen) <= Clients(ids, box, seen)
    decreases |ids|
  {
    if n == |ids| {
      assert ids[..n] == ids;
    } else {
      assert ids[..|ids| - 1][..n] == ids[..n];
      ClientsOfAPrefix(ids[..|ids| - 1], n, box, seen);
    }
  }

  // ----- the listing --------------------------------------------------------

  /** `pages` are a listing of `all`: every page but the last says there is more. */
  ghost predicate Lists(pages: seq<Page>, all: seq<GmailId>)
    decreases |pages|
  {
    if pages == [] then false
    else if pages[0].refs.None? then all == []
    else if !pages[0].more then all == pages[0].refs.value
    else pages[0].refs.value <= all && Lists(pages[1..], all[|pages[0].refs.value|..])
  }

  /** What is listed, with `got` ids listed already: pages until the cap is reached, a slice is empty or there is
      no next page. */
  function Listed(pages: seq<Page>, got: nat): seq<GmailId> {
    if got >= LIST_ID_CAP || pages == [] || pages[0].refs.None? then []
    else
      var refs := pages[0].refs.value;
      refs + if pages[0].more then Listed(pages[1..], got + |refs|) else []
  }

  /** `_list_ids`. */
  method ListIds(pages: seq<Page>, ghost all: seq<GmailId>) returns (ids: seq<GmailId>)
    requires Lists(pages, all)
    ensures ids == Listed(pages, 0)
  {
    ids := [];
    var n := 0;
    ghost var last := ListingsEnd(pages, all);
    ghost var left := pages;
    while |ids| < LIST_ID_CAP
      invariant n <= last && left == pages[n..]
      invariant Listed(pages, 0) == ids + Listed(left, |ids|)
      decreases last - n
    {
      OnePage(left, ids);
      var page := pages[n];
      if page.refs.None? {
        break;
      }
      ids := ids + page.refs.value;
      if !page.more {
        return;
      }
      left := left[1..];
      n := n + 1;
    }
  }

  /** Some page of a listing is its last. */
  lemma {:induction false} ListingsEnd(pages: seq<Page>, all: seq<GmailId>) returns (last: nat)
    requires Lists(pages, all)
    ensures last < |pages| && (pages[last].refs.None? || !pages[last].more)
    decreases |pages|
  {
    last := 0;
    if pages[0].refs.Some? && pages[0].more {
      var rest := ListingsEnd(pages[1..], all[|pages[0].refs.value|..]);
      last := rest + 1;
    }
  }

  /** What one page adds to the ids. */
  lemma OnePage(pages: seq<Page>, ids: seq<GmailId>)
    requires pages != [] && |ids| < LIST_ID_CAP
    ensures pages[0].refs.None? ==> ids + Listed(pages, |ids|) == ids
    ensures pages[0].refs.Some? && !pages[0].more ==> ids + Listed(pages, |ids|) == ids + pages[0].refs.value
    ensures pages[0].refs.Some? && pages[0].more ==>
              ids + Listed(pages, |ids|)
                  == (ids + pages[0].refs.value) + Listed(pages[1..], |ids + pages[0].refs.value|)
  {
    if pages[0].refs.Some? && pages[0].more {
      Associative(ids, pages[0].refs.value, Listed(pages[1..], |ids + pages[0].refs.value|));
    }
  }

  lemma Associative<T>(a: seq<T>, b: seq<T>, c: seq<T>)
    ensures a + (b + c) == (a + b) + c
  {
  }

  /** The ids listed begin the listing, and are all of it unless the cap was reached. */
  lemma {:induction false} ListedBeginsTheListing(pages: seq<Page>, all: seq<GmailId>, got: nat)
    requires Lists(pages, all)
    ensures Listed(pages, got) <= all
    ensures got + |Listed(pages, got)| < LIST_ID_CAP ==> Listed(pages, got) == all
    decreases |pages|
  {
    if got < LIST_ID_CAP && pages[0].refs.Some? && pages[0].more {
      var refs := pages[0].refs.value;
      var more := Listed(pages[1..], got + |refs|);
      ListedBeginsTheListing(pages[1..], all[|refs|..], got + |refs|);
      assert all == refs + all[|refs|..] && Listed(pages, got) == refs + more;
    }
  }

  predicate HasMail(pages: seq<Page>) {
    pages != [] && pages[0].refs.Some? && (pages[0].refs.value != [] || (pages[0].more && HasMail(pages[1..])))
  }

  /** How many ids are listed ahead of the last page that holds any. */
  function AheadOfTheLastMail(pages: seq<Page>): nat {
    if pages == [] || pages[0].refs.None? || !pages[0].more || !HasMail(pages[1..]) then 0
    else |pages[0].refs.value| + AheadOfTheLastMail(pages[1..])
  }

  lemma {:induction false} WithoutMailNothingIsListed(pages: seq<Page>, all: seq<GmailId>)
    requires Lists(pages, all)
    ensures HasMail(pages) <==> all != []
    decreases |pages|
  {
    if pages[0].refs.Some? && pages[0].more {
      var refs := pages[0].refs.value;
      WithoutMailNothingIsListed(pages[1..], all[|refs|..]);
      assert all == refs + all[|refs|..];
    }
  }

  /** A listing is read whole if and only if the pages ahead of the last one that holds mail hold fewer ids than
      the cap. */
  lemma {:induction false} ReadWholeIffTheCapComesLast(pages: seq<Page>, all: seq<GmailId>, got: nat)
    requires Lists(pages, all)
    ensures Listed(pages, got) == all <==> all == [] || got + AheadOfTheLastMail(pages) < LIST_ID_CAP
    decreases |pages|
  {
    ListedBeginsTheListing(pages, all, got);
    WithoutMailNothingIsListed(pages, all);
    if pages[0].refs.Some? && pages[0].more && got < LIST_ID_CAP {
      var refs := pages[0].refs.value;
      var rest := Listed(pages[1..], got + |refs|);
      WithoutMailNothingIsListed(pages[1..], all[|refs|..]);
      ReadWholeIffTheCapComesLast(pages[1..], all[|refs|..], got + |refs|);
      SameRest(refs, rest, all);
    }
  }

  lemma SameRest<T>(head: seq<T>, rest: seq<T>, all: seq<T>)
    requires head <= all
    ensures head + rest == all <==> rest == all[|head|..]
  {
    assert all == head + all[|head|..];
    assert (head + rest)[|head|..] == rest;
  }

  /** A listing served in full pages. */
  function PagesOf(all: seq<GmailId>): seq<Page> {
    if all == [] then [Page(None, false)]
    else if |all| <= LIST_PAGE_SIZE then [Page(Some(all), false)]
    else [Page(Some(all[..LIST_PAGE_SIZE]), true)] + PagesOf(all[LIST_PAGE_SIZE..])
  }

  lemma {:induction false} FullPagesList(all: seq<GmailId>, got: nat)
    requires got % LIST_PAGE_SIZE == 0
    ensures Lists(PagesOf(all), all)
    ensures all != [] ==> HasMail(PagesOf(all))
                          && (got + AheadOfTheLastMail(PagesOf(all)) < LIST_ID_CAP <==> got + |all| <= LIST_ID_CAP)
  {
    if |all| > LIST_PAGE_SIZE {
      var rest := all[LIST_PAGE_SIZE..];
      FullPagesList(rest, got + LIST_PAGE_SIZE);
      assert PagesOf(all)[1..] == PagesOf(rest);
    }
  }

  /** With full pages, a listing is read whole if and only if it is within the cap. */
  lemma ReadWholeIffWithinTheCap(all: seq<GmailId>)
    ensures Lists(PagesOf(all), all)
    ensures Listed(PagesOf(all), 0) == all <==> |all| <= 2000
  {
    FullPagesList(all, 0);
    ReadWholeIffTheCapComesLast(PagesOf(all), all, 0);
  }

  /** Of a listing past the cap, newest first, what is dropped is the oldest mail. */
  lemma PastTheCapTheOldestIsDropped(all: seq<GmailId>)
    requires |all| > LIST_ID_CAP && Distinct(all)
    ensures all[|all| - 1] !in Listed(PagesOf(all), 0)
  {
    var ids := Listed(PagesOf(all), 0);
    ReadWholeIffWithinTheCap(all);
    ListedBeginsTheListing(PagesOf(all), all, 0);
    ABeginningMissesTheLast(ids, all);
  }

  lemma ABeginningMissesTheLast<T>(ids: seq<T>, all: seq<T>)
    requires ids <= all && ids != all && Distinct(all)
    ensures all[|all| - 1] !in ids
  {
    assert |ids| < |all| && forall i :: 0 <= i < |ids| ==> ids[i] == all[i];
  }

  /** Ids told apart by their length. */
  function NthId(n: nat): (id: GmailId)
    ensures |id| == n
  {
    seq(n, i => 'x')
  }

  /** Such a listing: one message more than the cap. */
  lemma AListingPastTheCap() returns (all: seq<GmailId>)
    ensures |all| == LIST_ID_CAP + 1 && Distinct(all) && NthId(LIST_ID_CAP) == all[LIST_ID_CAP]
    ensures NthId(LIST_ID_CAP) !in Listed(PagesOf(all), 0)
  {
    all := seq(LIST_ID_CAP + 1, i requires 0 <= i => NthId(i));
    PastTheCapTheOldestIsDropped(all);
  }

  // ----- the source as an object --------------------------------------------

  class GmailEmailSource {
    const budget: int
    /** Gmail id to the Message-ID its download carried. */
    var memo: map<GmailId, string>
    var unparseable: set<GmailId>
    /** Message-ID to Gmail id, of what was returned. */
    var metadata: map<string, GmailId>

    constructor (budget: int)
      ensures this.budget == budget && memo == map[] && unparseable == {} && metadata == map[]
    {
      this.budget := budget;
      memo, unparseable, metadata := map[], {}, map[];
    }

    /** What is remembered is still true of the mailbox, or the message has since been deleted. */
    ghost predicate Sound(box: Mailbox)
      reads this
    {
      && (forall id :: id in memo ==>
            box.Get(id).Vanished? || (box.Get(id).Readable? && box.Get(id).raw.messageId == memo[id]))
      && (forall id :: id in unparseable ==> box.Get(id).Vanished? || box.Get(id).Malformed?)
    }

    /** Mail that is deleted after it was remembered leaves what is remembered true; so does any other mail. */
    lemma StaysSound(box: Mailbox, later: Mailbox)
      requires Sound(box) && OnlyDeleted(box, later, memo.Keys + unparseable)
      ensures Sound(later)
    {
    }

    /** `_ingest`: fully fetch one id, and append it if it is a client's. `seen` is None when no check of what was
        handled is wired in. */
    method Ingest(
      id: GmailId, box: Mailbox, skipSeen: bool, seen: Option<set<string>>, emails: seq<Raw>) returns (r: seq<Raw>)
      requires Sound(box)
      modifies this
      ensures Sound(box) && memo.Keys <= old(memo).Keys + {id} && unparseable <= old(unparseable) + {id}
      ensures var held := if skipSeen && seen.Some? then seen.value else {};
              r == emails + if Wanted(id, box, held) then [box.Get(id).raw] else []
      ensures r == emails ==> metadata == old(metadata)
      ensures r != emails ==> box.Get(id).Readable? && metadata == old(metadata)[box.Get(id).raw.messageId := id]
    {
      r := emails;
      if skipSeen && id in unparseable {
        return;
      }
      if skipSeen && seen.Some? && id in memo && memo[id] in seen.value {
        return;
      }
      var full := box.Get(id);
      if full.Vanished? || full.OwnOutbound? || id in box.sentByUs {
        return;
      }
      if full.Malformed? {
        unparseable := unparseable + {id};
        return;
      }
      memo := memo[id := full.raw.messageId];
      if skipSeen && seen.Some? && full.raw.messageId in seen.value {
        return;
      }
      if full.raw.isInternal {
        return;
      }
      metadata := metadata[full.raw.messageId := id];
      r := emails + [full.raw];
    }

    /** The loop of `_fetch_since` over the window, oldest first, until the budget is spent. */
    method IngestInTurn(window: seq<GmailId>, box: Mailbox, seen: Option<set<string>>) returns (emails: seq<Raw>)
      requires Sound(box) && forall id :: id in memo ==> id in window
      modifies this
      ensures emails == Poll(window, box, if seen.Some? then seen.value else {}, budget)
      ensures Sound(box) && forall id :: id in memo ==> id in window
    {
      ghost var held := if seen.Some? then seen.value else {};
      emails := [];
      var n := 0;
      while n < |window| && |emails| < budget
        invariant n <= |window| && Sound(box)
        invariant forall id :: id in memo ==> id in window
        invariant emails == Clients(window[..n], box, held)
        invariant if budget > 0 then |emails| <= budget else n == 0
      {
        assert window[..n + 1][..n] == window[..n];
        emails := Ingest(window[n], box, true, seen, emails);
        n := n + 1;
      }
      assert n == |window| ==> window[..n] == window;
      ClientsOfAPrefix(window, n, box, held);
    }

    /** `_fetch_since`: whatever the memo and the quarantine hold, a poll returns the unseen client mail of the
        window, oldest first, up to the budget. The memo stays within the window, and both stay true of the
        mailbox, also when mail is deleted from it or arrives before the next poll. */
    method FetchSince(
      pages: seq<Page>, box: Mailbox, seen: Option<set<string>>, ghost all: seq<GmailId>) returns (emails: seq<Raw>)
      requires Lists(pages, all) && Sound(box)
      modifies this
      ensures emails == Poll(Reverse(Listed(pages, 0)), box, if seen.Some? then seen.value else {}, budget)
      ensures forall id :: id in memo ==> id in Listed(pages, 0)
      ensures forall later: Mailbox :: OnlyDeleted(box, later, memo.Keys + unparseable) ==> Sound(later)
    {
      var listed := ListIds(pages, all);
      var window := Reverse(listed);
      memo := map id | id in memo && id in window :: memo[id];
      emails := IngestInTurn(window, box, seen);
      forall later: Mailbox | OnlyDeleted(box, later, memo.Keys + unparseable) ensures Sound(later) {
        StaysSound(box, later);
      }
    }

    /** `_fetch_newest_slice`: one page, newest first, whatever was seen. */
    method FetchNewestSlice(page: Page, box: Mailbox, seen: Option<set<string>>) returns (emails: seq<Raw>)
      requires Sound(box) && budget >= 0
      modifies this
      ensures Sound(box)
      ensures emails == if page.refs.None? then [] else Clients(Take(page.refs.value, budget), box, {})
    {
      emails := [];
      if page.refs.None? {
        return;
      }
      var refs := Take(page.refs.value, budget);
      for n := 0 to |refs|
        invariant Sound(box) && emails == Clients(refs[..n], box, {})
      {
        assert refs[..n + 1][..n] == refs[..n];
        emails := Ingest(refs[n], box, false, seen, emails);
      }
      assert refs[..|refs|] == refs;
    }
  }

  // ----- successive polls ---------------------------------------------------

  function MessageIds(rs: seq<Raw>): (ids: set<string>)
    ensures forall m :: m in ids <==> exists r :: r in rs && r.messageId == m
  {
    set r | r in rs :: r.messageId
  }

  /** No two of these messages carry the same Message-ID. */
  ghost predicate IdsApart(rs: seq<Raw>) {
    forall i, j :: 0 <= i < j < |rs| ==> rs[i].messageId != rs[j].messageId
  }

  /** One poll: the window it lists, oldest first, and the mailbox as it is then. */
  datatype Look = Look(window: seq<GmailId>, box: Mailbox)

  /** All that has been returned by these polls in turn, when what is returned is marked as seen. */
  ghost function Returned(looks: seq<Look>, seen: set<string>, budget: int): seq<Raw> {
    if looks == [] then []
    else
      var before, last := Returned(looks[..|looks| - 1], seen, budget), looks[|looks| - 1];
      before + Poll(last.window, last.box, seen + MessageIds(before), budget)
  }

  /** How many that is, when nothing is deleted. */
  ghost function HowMany(looks: seq<Look>, seen: set<string>, budget: nat): nat {
    if looks == [] then 0
    else
      var upTo, last := HowMany(looks[..|looks| - 1], seen, budget) + budget, looks[|looks| - 1];
      var there := |Clients(last.window, last.box, seen)|;
      if upTo < there then upTo else there
  }

  /** New mail is listed at the newest end, and nothing else changes. */
  ghost predicate Growing(looks: seq<Look>) {
    forall i :: 0 < i < |looks| ==> looks[i - 1].window <= looks[i].window && looks[i - 1].box == looks[i].box
  }

  /** The messages whose Message-ID is not in `gone`. */
  function Unseen(rs: seq<Raw>, gone: set<string>): seq<Raw> {
    if rs == [] then []
    else Unseen(rs[..|rs| - 1], gone) + if rs[|rs| - 1].messageId in gone then [] else [rs[|rs| - 1]]
  }

  lemma {:induction false} SeenAreLeftOut(ids: seq<GmailId>, box: Mailbox, seen: set<string>, gone: set<string>)
    ensures Clients(ids, box, seen + gone) == Unseen(Clients(ids, box, seen), gone)
  {
    if ids == [] {
    } else {
      var init, last := ids[..|ids| - 1], ids[|ids| - 1];
      SeenAreLeftOut(init, box, seen, gone);
      if Wanted(last, box, seen) {
        var c := Clients(init, box, seen);
        var x := box.Get(last).raw;
        assert Clients(ids, box, seen) == c + [x];
        assert (c + [x])[..|c|] == c && (c + [x])[|c|] == x;
      } else {
        assert Clients(ids, box, seen) == Clients(init, box, seen);
        assert Clients(ids, box, seen + gone) == Clients(init, box, seen + gone);
      }
    }
  }

  lemma {:induction false} AllGone(rs: seq<Raw>, gone: set<string>)
    requires forall r :: r in rs ==> r.messageId in gone
    ensures Unseen(rs, gone) == []
  {
    if rs == [] {
    } else {
      AllGone(rs[..|rs| - 1], gone);
    }
  }

  lemma {:induction false} NoneGone(rs: seq<Raw>, n: nat, gone: set<string>)
    requires n <= |rs| && gone == MessageIds(rs[..n]) && IdsApart(rs)
    ensures Unseen(rs, gone) == rs[n..]
    decreases |rs|
  {
    if n == |rs| {
      assert rs[..n] == rs && rs[n..] == [];
      AllGone(rs, gone);
    } else {
      var init, last := rs[..|rs| - 1], rs[|rs| - 1];
      assert init[..n] == rs[..n];
      NoneGone(init, n, gone);
      assert forall i :: 0 <= i < n ==> rs[i].messageId != rs[|rs| - 1].messageId;
      assert last.messageId !in gone;
      assert rs[n..] == init[n..] + [last];
    }
  }

  lemma TakingOn<T>(all: seq<T>, n: nat, budget: nat)
    requires n <= |all|
    ensures all[..n] + Take(all[n..], budget) == all[..if n + budget < |all| then n + budget else |all|]
  {
  }

  /** What one more poll adds when the first `n` messages have been returned. */
  lemma OneMorePoll(look: Look, seen: set<string>, budget: nat, before: seq<Raw>, n: nat)
    requires var all := Clients(look.window, look.box, seen); IdsApart(all) && n <= |all| && before == all[..n]
    ensures var all := Clients(look.window, look.box, seen); var upTo := n + budget;
            before + Poll(look.window, look.box, seen + MessageIds(before), budget)
                == all[..if upTo < |all| then upTo else |all|]
  {
    var all := Clients(look.window, look.box, seen);
    SeenAreLeftOut(look.window, look.box, seen, MessageIds(before));
    NoneGone(all, n, MessageIds(before));
    TakingOn(all, n, budget);
  }

  lemma GrowthKeepsTheOldest(before: Look, last: Look, seen: set<string>, n: nat)
    requires before.window <= last.window && before.box == last.box && n <= |Clients(before.window, before.box, seen)|
    ensures var old', all := Clients(before.window, before.box, seen), Clients(last.window, last.box, seen);
            n <= |all| && old'[..n] == all[..n]
  {
    var all := Clients(last.window, last.box, seen);
    assert before.window == last.window[..|before.window|];
    ClientsOfAPrefix(last.window, |before.window|, last.box, seen);
    var old' := Clients(before.window, before.box, seen);
    assert forall i :: 0 <= i < |old'| ==> old'[i] == all[i];
  }

  lemma GrowthKeepsThemApart(before: Look, last: Look, seen: set<string>)
    requires before.window <= last.window && before.box == last.box && IdsApart(Clients(last.window, last.box, seen))
    ensures IdsApart(Clients(before.window, before.box, seen))
  {
    GrowthKeepsTheOldest(before, last, seen, |Clients(before.window, before.box, seen)|);
    var old', all := Clients(before.window, before.box, seen), Clients(last.window, last.box, seen);
    assert forall i :: 0 <= i < |old'| ==> old'[i] == all[..|old'|][i];
  }

  /** Whatever arrives between polls, what has been returned is the oldest client mail of the window, each message
      exactly once and in order. */
  lemma {:induction false} PollsReturnTheOldestOnce(looks: seq<Look>, seen: set<string>, budget: nat)
    requires looks != [] && Growing(looks)
    requires var last := looks[|looks| - 1]; IdsApart(Clients(last.window, last.box, seen))
    ensures var last := looks[|looks| - 1]; var all := Clients(last.window, last.box, seen);
            HowMany(looks, seen, budget) <= |all|
                && Returned(looks, seen, budget) == all[..HowMany(looks, seen, budget)]
    decreases |looks|
  {
    var init, last := looks[..|looks| - 1], looks[|looks| - 1];
    var n := HowMany(init, seen, budget);
    if init != [] {
      var before := init[|init| - 1];
      GrowthKeepsThemApart(before, last, seen);
      PollsReturnTheOldestOnce(init, seen, budget);
      GrowthKeepsTheOldest(before, last, seen, n);
    }
    var all := Clients(last.window, last.box, seen);
    assert n <= |all| && Returned(init, seen, budget) == all[..n];
    OneMorePoll(last, seen, budget, Returned(init, seen, budget), n);
  }

  /** `n` polls that list the same window of the same mailbox. */
  function Repeat(look: Look, n: nat): (looks: seq<Look>)
    ensures |looks| == n && forall i :: 0 <= i < n ==> looks[i] == look
  {
    seq(n, i => look)
  }

  lemma {:induction false} HowManyOfOneWindow(look: Look, seen: set<string>, budget: nat, n: nat)
    ensures var all := |Clients(look.window, look.box, seen)|;
            HowMany(Repeat(look, n), seen, budget) == if n * budget < all then n * budget else all
  {
    if n > 0 {
      assert Repeat(look, n)[..n - 1] == Repeat(look, n - 1);
      HowManyOfOneWindow(look, seen, budget, n - 1);
      assert n * budget == (n - 1) * budget + budget;
    }
  }

  /** A window that does not change is drained, oldest first and each message once, by `n` polls if and only if
      `n` budgets cover it: after the number of messages over the budget, rounded up, and not before. Malformed,
      outbound, vanished and internal mail in between costs no budget. */
  lemma AWindowDrains(look: Look, seen: set<string>, budget: nat, n: nat)
    requires IdsApart(Clients(look.window, look.box, seen)) && n > 0
    ensures var all := Clients(look.window, look.box, seen);
            && Returned(Repeat(look, n), seen, budget) <= all
            && (Returned(Repeat(look, n), seen, budget) == all <==> |all| <= n * budget)
  {
    PollsReturnTheOldestOnce(Repeat(look, n), seen, budget);
    HowManyOfOneWindow(look, seen, budget, n);
  }

  // ----- polls between which anything may happen ------------------------------

  lemma {:induction false} ClientsAreWanted(ids: seq<GmailId>, box: Mailbox, seen: set<string>, r: Raw)
    ensures r in Clients(ids, box, seen) <==> exists id :: id in ids && Wanted(id, box, seen) && box.Get(id).raw == r
  {
    if ids == [] {
    } else {
      ClientsAreWanted(ids[..|ids| - 1], box, seen, r);
      assert ids == ids[..|ids| - 1] + [ids[|ids| - 1]];
    }
  }

  lemma {:induction false} UnseenAreApart(rs: seq<Raw>, gone: set<string>)
    requires IdsApart(rs)
    ensures IdsApart(Unseen(rs, gone))
    ensures forall r :: r in Unseen(rs, gone) <==> r in rs && r.messageId !in gone
  {
    if rs == [] {
    } else {
      var init, last := rs[..|rs| - 1], rs[|rs| - 1];
      UnseenAreApart(init, gone);
      assert rs == init + [last];
      forall i | 0 <= i < |Unseen(init, gone)| ensures Unseen(init, gone)[i].messageId != last.messageId {
        assert Unseen(init, gone)[i] in init;
      }
    }
  }

  lemma AppendApart(before: seq<Raw>, more: seq<Raw>)
    requires IdsApart(before) && IdsApart(more)
    requires forall r :: r in more ==> r.messageId !in MessageIds(before)
    ensures IdsApart(before + more)
  {
    var all := before + more;
    forall i, j | 0 <= i < j < |all| ensures all[i].messageId != all[j].messageId {
      if i < |before| && |before| <= j {
        assert more[j - |before|] in more && before[i] in before;
      }
    }
  }

  lemma APollIsApart(look: Look, seen: set<string>, gone: set<string>, budget: int)
    requires IdsApart(Clients(look.window, look.box, seen))
    ensures var poll := Poll(look.window, look.box, seen + gone, budget);
            IdsApart(poll) && forall r :: r in poll ==> r.messageId !in gone
  {
    SeenAreLeftOut(look.window, look.box, seen, gone);
    UnseenAreApart(Clients(look.window, look.box, seen), gone);
  }

  /** Whatever is listed, deleted, delivered or dropped from the window between polls, no message is returned
      twice. */
  lemma {:induction false} NoMessageIsReturnedTwice(looks: seq<Look>, seen: set<string>, budget: int)
    requires forall look :: look in looks ==> IdsApart(Clients(look.window, look.box, seen))
    ensures IdsApart(Returned(looks, seen, budget))
  {
    if looks == [] {
    } else {
      var init, last := looks[..|looks| - 1], looks[|looks| - 1];
      var before := Returned(init, seen, budget);
      assert last in looks && forall look :: look in init ==> look in looks;
      NoMessageIsReturnedTwice(init, seen, budget);
      APollIsApart(last, seen, MessageIds(before), budget);
      AppendApart(before, Poll(last.window, last.box, seen + MessageIds(before), budget));
    }
  }

  /** No two messages of the window carry the same Message-ID, and none is listed twice. */
  ghost predicate Apart(look: Look) {
    && Distinct(look.window)
    && forall x, y ::
         x in look.window && y in look.window && x != y && look.box.Get(x).Readable? && look.box.Get(y).Readable? ==>
           look.box.Get(x).raw.messageId != look.box.Get(y).raw.messageId
  }

  /** `id` is listed at `i`, and is client mail with these contents. */
  ghost predicate Shows(look: Look, i: nat, id: GmailId, raw: Raw) {
    && i < |look.window| && look.window[i] == id
    && id !in look.box.sentByUs && look.box.Get(id) == Readable(raw) && !raw.isInternal
  }

  /** How much unseen client mail is listed before position `i`. */
  ghost function AheadOf(look: Look, i: nat, seen: set<string>): nat
    requires i <= |look.window|
  {
    |Clients(look.window[..i], look.box, seen)|
  }

  /** Ahead of a message, mail is deleted or leaves the window, and none is added or changed. */
  ghost predicate OnlyLosesAhead(look: Look, i: nat, later: Look, j: nat)
    requires i <= |look.window| && j <= |later.window|
  {
    forall x :: x in later.window[..j] ==>
      && x in look.window[..i]
      && (later.box.Get(x) == look.box.Get(x) || later.box.Get(x).Vanished?)
      && (x in look.box.sentByUs ==> x in later.box.sentByUs)
  }

  ghost function WantedOf(ids: seq<GmailId>, box: Mailbox, seen: set<string>): set<GmailId> {
    set id | id in ids && Wanted(id, box, seen)
  }

  lemma {:induction false} ClientsAreCounted(ids: seq<GmailId>, box: Mailbox, seen: set<string>)
    requires Distinct(ids)
    ensures |Clients(ids, box, seen)| == |WantedOf(ids, box, seen)|
  {
    if ids == [] {
    } else {
      var init, last := ids[..|ids| - 1], ids[|ids| - 1];
      ClientsAreCounted(init, box, seen);
      assert last !in init;
      assert WantedOf(ids, box, seen) == WantedOf(init, box, seen) + if Wanted(last, box, seen) then {last} else {};
    }
  }

  lemma FewerAreFewer<T>(a: set<T>, b: set<T>)
    requires a <= b
    ensures |a| <= |b|
  {
    assert b == a + (b - a);
  }

  lemma LosingMailOnlyHelps(look: Look, i: nat, later: Look, j: nat, seen: set<string>)
    requires i <= |look.window| && j <= |later.window| && Apart(look) && Apart(later)
            && OnlyLosesAhead(look, i, later, j)
    ensures AheadOf(later, j, seen) <= AheadOf(look, i, seen)
  {
    ClientsAreCounted(look.window[..i], look.box, seen);
    ClientsAreCounted(later.window[..j], later.box, seen);
    FewerAreFewer(WantedOf(later.window[..j], later.box, seen), WantedOf(look.window[..i], look.box, seen));
  }

  lemma {:induction false} ApartClients(ids: seq<GmailId>, look: Look, seen: set<string>)
    requires Apart(look) && Distinct(ids) && forall id :: id in ids ==> id in look.window
    ensures IdsApart(Clients(ids, look.box, seen))
  {
    if ids == [] {
    } else {
      var init, last := ids[..|ids| - 1], ids[|ids| - 1];
      ApartClients(init, look, seen);
      var c := Clients(init, look.box, seen);
      assert last !in init;
      forall k | 0 <= k < |c| && Wanted(last, look.box, seen)
          ensures c[k].messageId != look.box.Get(last).raw.messageId {
        ClientsAreWanted(init, look.box, seen, c[k]);
      }
    }
  }

  /** One poll returns a message that has less than a budget ahead of it, and otherwise takes a budget from what is
      ahead. */
  lemma OnePollAdvances(look: Look, i: nat, id: GmailId, raw: Raw, seen: set<string>, budget: nat)
    requires Shows(look, i, id, raw) && Apart(look) && raw.messageId !in seen
    ensures var poll := Poll(look.window, look.box, seen, budget);
            if AheadOf(look, i, seen) < budget then raw in poll
            else AheadOf(look, i, seen + MessageIds(poll)) == AheadOf(look, i, seen) - budget
  {
    var ahead, upTo := look.window[..i], look.window[..i + 1];
    var c, all := Clients(ahead, look.box, seen), Clients(look.window, look.box, seen);
    assert upTo[..i] == ahead && upTo[i] == id;
    assert Clients(upTo, look.box, seen) == c + [raw];
    ClientsOfAPrefix(look.window, i + 1, look.box, seen);
    assert all[|c|] == raw && c == all[..|c|];
    if |c| < budget {
      assert Poll(look.window, look.box, seen, budget)[|c|] == raw;
    } else {
      var poll := Poll(look.window, look.box, seen, budget);
      assert poll == c[..budget];
      ApartClients(ahead, look, seen);
      SeenAreLeftOut(ahead, look.box, seen, MessageIds(poll));
      NoneGone(c, budget, MessageIds(poll));
    }
  }

  /** A message waiting in every one of these polls, at the given places, with nothing added ahead of it. */
  ghost predicate Awaits(looks: seq<Look>, places: seq<nat>, id: GmailId, raw: Raw) {
    && |places| == |looks|
    && (forall k :: 0 <= k < |looks| ==> Apart(looks[k]) && Shows(looks[k], places[k], id, raw))
    && (forall k :: 0 < k < |looks| ==> OnlyLosesAhead(looks[k - 1], places[k - 1], looks[k], places[k]))
  }

  /** What has been returned carries the message's id only if it is the message. */
  lemma {:induction false} ItsIdIsItsOwn(
    looks: seq<Look>, places: seq<nat>, id: GmailId, raw: Raw, seen: set<string>, budget: nat)
    requires Awaits(looks, places, id, raw) && raw !in Returned(looks, seen, budget)
    ensures raw.messageId !in MessageIds(Returned(looks, seen, budget))
  {
    if looks == [] {
    } else {
      var n := |looks| - 1;
      var before := Returned(looks[..n], seen, budget);
      var poll := Poll(looks[n].window, looks[n].box, seen + MessageIds(before), budget);
      ItsIdIsItsOwn(looks[..n], places[..n], id, raw, seen, budget);
      forall r | r in poll ensures r.messageId != raw.messageId {
        ClientsAreWanted(looks[n].window, looks[n].box, seen + MessageIds(before), r);
      }
    }
  }

  lemma TheQueueShortensOnce(
    look: Look, place: nat, id: GmailId, raw: Raw, before: seq<Raw>, seen: set<string>, budget: nat)
    requires Shows(look, place, id, raw) && Apart(look) && raw.messageId !in seen + MessageIds(before)
    ensures var got := before + Poll(look.window, look.box, seen + MessageIds(before), budget);
            || raw in got
            || AheadOf(look, place, seen + MessageIds(got)) + budget == AheadOf(look, place, seen + MessageIds(before))
  {
    var held := seen + MessageIds(before);
    OnePollAdvances(look, place, id, raw, held, budget);
    TwiceSeen(seen, before, Poll(look.window, look.box, held, budget));
  }

  /** After any of these polls the message has been returned, or a budget a poll has been taken from what was ahead
      of it. */
  lemma {:induction false} TheQueueShortens(
    looks: seq<Look>, places: seq<nat>, id: GmailId, raw: Raw, seen: set<string>, budget: nat)
    requires looks != [] && Awaits(looks, places, id, raw) && raw.messageId !in seen
    ensures var n := |looks| - 1; var got := Returned(looks, seen, budget);
            || raw in got
            || AheadOf(looks[n], places[n], seen + MessageIds(got)) + |looks| * budget
               <= AheadOf(looks[0], places[0], seen)
  {
    var n := |looks| - 1;
    var before := Returned(looks[..n], seen, budget);
    if raw !in before {
      AwaitsBefore(looks, places, id, raw, n);
      ItsIdIsItsOwn(looks[..n], places[..n], id, raw, seen, budget);
      TheQueueShortensOnce(looks[n], places[n], id, raw, before, seen, budget);
      if n == 0 {
        assert seen + MessageIds(before) == seen;
      } else {
        TheQueueShortens(looks[..n], places[..n], id, raw, seen, budget);
        LosingMailOnlyHelps(looks[n - 1], places[n - 1], looks[n], places[n], seen + MessageIds(before));
      }
      assert (n + 1) * budget == n * budget + budget;
    }
  }

  lemma AwaitsBefore(looks: seq<Look>, places: seq<nat>, id: GmailId, raw: Raw, n: nat)
    requires Awaits(looks, places, id, raw) && n <= |looks|
    ensures Awaits(looks[..n], places[..n], id, raw)
  {
  }

  lemma TwiceSeen(seen: set<string>, before: seq<Raw>, poll: seq<Raw>)
    ensures seen + MessageIds(before + poll) == (seen + MessageIds(before)) + MessageIds(poll)
  {
  }

  /** Whatever else happens: a client's message that stays listed, with mail ahead of it only read, deleted or
      dropped from the window, is returned by the polls whose budgets cover what was ahead of it at first. With the
      above, exactly once. */
  lemma AWaitingMessageIsReturned(
    looks: seq<Look>, places: seq<nat>, id: GmailId, raw: Raw, seen: set<string>, budget: nat)
    requires looks != [] && Awaits(looks, places, id, raw) && raw.messageId !in seen
    requires AheadOf(looks[0], places[0], seen) < |looks| * budget
    ensures raw in Returned(looks, seen, budget)
  {
    TheQueueShortens(looks, places, id, raw, seen, budget);
  }

  /** A message that is never listed is never returned: the mail a listing drops at the cap is in no number of polls
      of that window. */
  lemma {:induction false} AnUnlistedMessageIsNotReturned(
    looks: seq<Look>, seen: set<string>, budget: int, id: GmailId, box: Mailbox)
    requires box.Get(id).Readable? && forall look :: look in looks ==> look.box == box && id !in look.window
    requires forall look, x :: look in looks && x in look.window && box.Get(x).Readable? ==>
               box.Get(x).raw.messageId != box.Get(id).raw.messageId
    ensures box.Get(id).raw.messageId !in MessageIds(Returned(looks, seen, budget))
  {
    if looks == [] {
    } else {
      var last := looks[|looks| - 1];
      var before := Returned(looks[..|looks| - 1], seen, budget);
      assert last in looks;
      AnUnlistedMessageIsNotReturned(looks[..|looks| - 1], seen, budget, id, box);
      forall r | r in Poll(last.window, last.box, seen + MessageIds(before), budget)
          ensures r.messageId != box.Get(id).raw.messageId {
        ClientsAreWanted(last.window, last.box, seen + MessageIds(before), r);
      }
    }
  }

  /** A poll that lists `all`, and whatever newer mail has come in. */
  ghost predicate ListsOn(look: Look, all: seq<GmailId>) {
    exists newer: seq<GmailId> :: Distinct(newer + all) && look.window == Reverse(Listed(PagesOf(newer + all), 0))
  }

  lemma TheOldestIsNotListed(look: Look, all: seq<GmailId>)
    requires |all| > LIST_ID_CAP && ListsOn(look, all)
    ensures all[|all| - 1] !in look.window
  {
    var newer :| Distinct(newer + all) && look.window == Reverse(Listed(PagesOf(newer + all), 0));
    PastTheCapTheOldestIsDropped(newer + all);
    assert (newer + all)[|newer + all| - 1] == all[|all| - 1];
    ReversedHoldsTheSame(Listed(PagesOf(newer + all), 0));
  }

  lemma ReversedHoldsTheSame<T>(s: seq<T>)
    ensures forall x :: x in Reverse(s) ==> x in s
  {
  }

  /** So no number of polls of a listing past the cap returns its oldest message, whatever comes in between. */
  lemma PastTheCapTheOldestIsNeverReturned(
    all: seq<GmailId>, looks: seq<Look>, box: Mailbox, seen: set<string>, budget: int)
    requires |all| > LIST_ID_CAP && box.Get(all[|all| - 1]).Readable?
    requires forall look :: look in looks ==> look.box == box && ListsOn(look, all)
    requires forall look, x :: look in looks && x in look.window && box.Get(x).Readable? ==>
               x != all[|all| - 1] ==> box.Get(x).raw.messageId != box.Get(all[|all| - 1]).raw.messageId
    ensures box.Get(all[|all| - 1]).raw.messageId !in MessageIds(Returned(looks, seen, budget))
  {
    forall look | look in looks ensures all[|all| - 1] !in look.window {
      TheOldestIsNotListed(look, all);
    }
    AnUnlistedMessageIsNotReturned(looks, seen, budget, all[|all| - 1], box);
  }
}

/** Whole-chat read receipts: a page of unread rows, receipts per sender, and a timestamp marker. */
module MarkRead {
  import opened Wrappers

  /** An inbound row of one chat, with its second and whether its receipt is saved as sent. */
  datatype Row = Row(id: string, sender: string, at: int, sent: bool)

  const PAGE_LIMIT: nat := 2000
  const BATCH_SIZE: nat := 100

  predicate Sorted(rows: seq<Row>) {
    forall i, j :: 0 <= i < j < |rows| ==> rows[i].at <= rows[j].at
  }

  predicate Distinct(rows: seq<Row>) {
    forall i, j :: 0 <= i < j < |rows| ==> rows[i].id != rows[j].id
  }

  predicate IsUnread(r: Row, marker: int, upTo: int) {
    !r.sent && marker < r.at <= upTo
  }

  /** The rows `UnreadInboundMessages` selects, in its order. */
  function Unread(rows: seq<Row>, marker: int, upTo: int): seq<Row> {
    if rows == [] then []
    else
      var n := |rows| - 1;
      Unread(rows[..n], marker, upTo) + if IsUnread(rows[n], marker, upTo) then [rows[n]] else []
  }

  lemma {:induction false} UnreadRows(rows: seq<Row>, marker: int, upTo: int, r: Row)
    ensures r in Unread(rows, marker, upTo) <==> r in rows && IsUnread(r, marker, upTo)
    decreases |rows|
  {
    if rows != [] {
      var n := |rows| - 1;
      UnreadRows(rows[..n], marker, upTo, r);
      assert rows == rows[..n] + [rows[n]];
    }
  }

  lemma {:induction false} UnreadSorted(rows: seq<Row>, marker: int, upTo: int)
    requires Sorted(rows)
    ensures Sorted(Unread(rows, marker, upTo))
    decreases |rows|
  {
    if rows != [] {
      var n := |rows| - 1;
      UnreadSorted(rows[..n], marker, upTo);
      forall r | r in Unread(rows[..n], marker, upTo) ensures r.at <= rows[n].at {
        UnreadRows(rows[..n], marker, upTo, r);
      }
    }
  }

  lemma {:induction false} UnreadDistinct(rows: seq<Row>, marker: int, upTo: int)
    requires Distinct(rows)
    ensures Distinct(Unread(rows, marker, upTo))
    decreases |rows|
  {
    if rows != [] {
      var n := |rows| - 1;
      UnreadDistinct(rows[..n], marker, upTo);
      forall r | r in Unread(rows[..n], marker, upTo) ensures r.id != rows[n].id {
        UnreadRows(rows[..n], marker, upTo, r);
      }
    }
  }

  // ----- how far the marker may go -----

  /** A cut whose last second holds no row that must stay unread. */
  predicate Safe(page: seq<Row>, acked: set<string>, overflow: Option<Row>, cut: nat) {
    cut <= |page| && (cut > 0 ==>
      && (forall i :: 0 <= i < |page| && page[i].at <= page[cut - 1].at ==> page[i].id in acked)
      && (overflow.Some? ==> page[cut - 1].at < overflow.value.at))
  }

  /** Everything was acknowledged, yet the page is one second and that second goes on behind it. */
  predicate OneSecond(page: seq<Row>, acked: set<string>, overflow: Option<Row>) {
    && page != [] && overflow.Some? && (forall i :: 0 <= i < |page| ==> page[i].id in acked)
    && (forall i :: 0 <= i < |page| ==> page[i].at >= overflow.value.at)
  }

  /** The cut is safe and as far as it can be, except for a page that is all one overflowing second. */
  method CoveredPrefix(page: seq<Row>, acked: set<string>, overflow: Option<Row>) returns (cut: nat)
    requires Sorted(page) && (overflow.Some? ==> forall i :: 0 <= i < |page| ==> page[i].at <= overflow.value.at)
    ensures cut <= |page| && forall i :: 0 <= i < cut ==> page[i].id in acked
    ensures OneSecond(page, acked, overflow) ==> cut == |page|
    ensures !OneSecond(page, acked, overflow) ==>
              Safe(page, acked, overflow, cut) && forall c :: cut < c <= |page| ==> !Safe(page, acked, overflow, c)
  {
    var covered := 0;
    while covered < |page| && page[covered].id in acked
      invariant 0 <= covered <= |page|
      invariant forall i :: 0 <= i < covered ==> page[i].id in acked
    {
      covered := covered + 1;
    }
    if covered == |page| && overflow.None? {
      return covered;
    }
    var boundary := if covered < |page| then page[covered].at else overflow.value.at;
    var trimmed := covered;
    while trimmed > 0 && page[trimmed - 1].at >= boundary
      invariant 0 <= trimmed <= covered
      invariant forall i :: trimmed <= i < covered ==> page[i].at >= boundary
    {
      trimmed := trimmed - 1;
    }
    if trimmed == 0 && covered == |page| {
      return covered;
    }
    forall c | trimmed < c <= |page| ensures !Safe(page, acked, overflow, c) {
      assert page[c - 1].at >= boundary;
      if covered < |page| {
        assert page[covered].at <= page[c - 1].at && page[covered].id !in acked;
      }
    }
    return trimmed;
  }

  // ----- receipts per sender -----

  /** `direct` chats need no participant; `self` is the chat's own user. */
  datatype Chat = Chat(direct: bool, self: string)

  datatype Group = Group(sender: string, ids: seq<string>)

  predicate Addressable(chat: Chat, r: Row) {
    chat.direct || (r.sender != "" && r.sender != chat.self)
  }

  function ReceiptSender(chat: Chat, r: Row): string {
    if chat.direct then "" else r.sender
  }

  function UnaddressableIds(chat: Chat, page: seq<Row>): seq<string> {
    if page == [] then []
    else
      var n := |page| - 1;
      UnaddressableIds(chat, page[..n]) + if Addressable(chat, page[n]) then [] else [page[n].id]
  }

  /** One sender's ids in page order. */
  function IdsOf(chat: Chat, page: seq<Row>, sender: string): seq<string> {
    if page == [] then []
    else
      var n := |page| - 1;
      IdsOf(chat, page[..n], sender) + if Addressable(chat, page[n]) && ReceiptSender(chat, page[n]) == sender
        then [page[n].id] else []
  }

  /** The senders in the order they first appear. */
  function SendersOf(chat: Chat, page: seq<Row>): seq<string> {
    if page == [] then []
    else
      var n := |page| - 1;
      var before := SendersOf(chat, page[..n]);
      before + if Addressable(chat, page[n]) && ReceiptSender(chat, page[n]) !in before
        then [ReceiptSender(chat, page[n])] else []
  }

  function GroupsOf(chat: Chat, page: seq<Row>): seq<Group> {
    var senders := SendersOf(chat, page);
    seq(|senders|, i requires 0 <= i < |senders| => Group(senders[i], IdsOf(chat, page, senders[i])))
  }

  lemma {:induction false} NewSenderHasNoIds(chat: Chat, page: seq<Row>, sender: string)
    requires sender !in SendersOf(chat, page)
    ensures IdsOf(chat, page, sender) == []
    decreases |page|
  {
    if page != [] {
      NewSenderHasNoIds(chat, page[..|page| - 1], sender);
    }
  }

  lemma {:induction false} SendersDistinct(chat: Chat, page: seq<Row>)
    ensures forall i, j :: 0 <= i < j < |SendersOf(chat, page)| ==> SendersOf(chat, page)[i] != SendersOf(chat, page)[j]
    decreases |page|
  {
    if page != [] {
      SendersDistinct(chat, page[..|page| - 1]);
    }
  }

  /** Where the next row's sender stands among the senders so far. */
  predicate Placed(chat: Chat, before: seq<Row>, sender: string, at: nat) {
    var senders := SendersOf(chat, before);
    if at < |senders| then senders[at] == sender else at == |senders| && sender !in senders
  }

  function GroupsWith(groups: seq<Group>, at: nat, r: Row): seq<Group> {
    if at < |groups| then groups[at := Group(r.sender, groups[at].ids + [r.id])] else groups + [Group(r.sender, [r.id])]
  }

  lemma SkippedRow(chat: Chat, before: seq<Row>, r: Row)
    requires !Addressable(chat, r)
    ensures GroupsOf(chat, before + [r]) == GroupsOf(chat, before)
    ensures UnaddressableIds(chat, before + [r]) == UnaddressableIds(chat, before) + [r.id]
  {
    var more, senders := before + [r], SendersOf(chat, before);
    assert more[..|before|] == before;
    assert SendersOf(chat, more) == senders;
    forall i | 0 <= i < |senders| ensures GroupsOf(chat, more)[i] == GroupsOf(chat, before)[i] {
      assert IdsOf(chat, more, senders[i]) == IdsOf(chat, before, senders[i]);
    }
  }

  lemma GroupedRow(chat: Chat, before: seq<Row>, r: Row, at: nat)
    requires !chat.direct && Addressable(chat, r) && Placed(chat, before, r.sender, at)
    ensures GroupsOf(chat, before + [r]) == GroupsWith(GroupsOf(chat, before), at, r)
    ensures UnaddressableIds(chat, before + [r]) == UnaddressableIds(chat, before)
  {
    var more, senders := before + [r], SendersOf(chat, before);
    assert more[..|before|] == before;
    SendersDistinct(chat, before);
    if at == |senders| {
      NewSenderHasNoIds(chat, before, r.sender);
      assert SendersOf(chat, more) == senders + [r.sender];
    } else {
      assert SendersOf(chat, more) == senders;
    }
    var groups, now := GroupsWith(GroupsOf(chat, before), at, r), GroupsOf(chat, more);
    assert |now| == |groups|;
    forall i | 0 <= i < |now| ensures now[i] == groups[i] {
      var s := SendersOf(chat, more)[i];
      assert IdsOf(chat, more, s) == IdsOf(chat, before, s) + if s == r.sender then [r.id] else [];
    }
  }

  /** `groupBySender`: one group per sender in first-seen order, each in page order, and the rest apart. */
  method GroupBySender(chat: Chat, page: seq<Row>) returns (groups: seq<Group>, unaddressable: seq<string>)
    requires page != []
    ensures groups == GroupsOf(chat, page) && unaddressable == UnaddressableIds(chat, page)
  {
    if chat.direct {
      var ids := DirectIds(chat, page);
      return [Group("", ids)], [];
    }
    groups, unaddressable := GroupByParticipant(chat, page);
  }

  lemma DirectRow(chat: Chat, before: seq<Row>, r: Row)
    requires chat.direct
    ensures IdsOf(chat, before + [r], "") == IdsOf(chat, before, "") + [r.id]
    ensures SendersOf(chat, before + [r]) ==
            SendersOf(chat, before) + if "" in SendersOf(chat, before) then [] else [""]
    ensures UnaddressableIds(chat, before + [r]) == UnaddressableIds(chat, before)
  {
    assert (before + [r])[..|before|] == before;
  }

  lemma NoRows(chat: Chat)
    ensures IdsOf(chat, [], "") == [] && SendersOf(chat, []) == [] && UnaddressableIds(chat, []) == []
  {
  }

  /** A one-to-one chat is one group without a participant. */
  method DirectIds(chat: Chat, page: seq<Row>) returns (ids: seq<string>)
    requires chat.direct && page != []
    ensures GroupsOf(chat, page) == [Group("", ids)] && UnaddressableIds(chat, page) == []
  {
    hide IdsOf, SendersOf, UnaddressableIds;
    NoRows(chat);
    ids := [];
    var i := 0;
    while i < |page|
      invariant 0 <= i <= |page|
      invariant ids == IdsOf(chat, page[..i], "") && SendersOf(chat, page[..i]) == (if i == 0 then [] else [""])
      invariant UnaddressableIds(chat, page[..i]) == []
    {
      DirectRow(chat, page[..i], page[i]);
      assert page[..i + 1] == page[..i] + [page[i]];
      ids := ids + [page[i].id];
      i := i + 1;
    }
    assert page[..i] == page;
  }

  method GroupByParticipant(chat: Chat, page: seq<Row>) returns (groups: seq<Group>, unaddressable: seq<string>)
    requires !chat.direct
    ensures groups == GroupsOf(chat, page) && unaddressable == UnaddressableIds(chat, page)
  {
    hide GroupsOf, UnaddressableIds, Placed;
    groups, unaddressable := [], [];
    NoGroups(chat);
    var index: map<string, nat> := map[];
    var i := 0;
    while i < |page|
      invariant 0 <= i <= |page|
      invariant groups == GroupsOf(chat, page[..i]) && unaddressable == UnaddressableIds(chat, page[..i])
      invariant Indexed(groups, index)
    {
      var r := page[i];
      assert page[..i + 1] == page[..i] + [r];
      if r.sender == "" || r.sender == chat.self {
        SkippedRow(chat, page[..i], r);
        unaddressable := unaddressable + [r.id];
      } else {
        var at := if r.sender in index then index[r.sender] else |groups|;
        SenderPlace(chat, page[..i], groups, index, r.sender, at);
        GroupedRow(chat, page[..i], r, at);
        ghost var before := groups;
        if r.sender !in index {
          index := index[r.sender := at];
          groups := groups + [Group(r.sender, [])];
        }
        groups := groups[at := Group(r.sender, groups[at].ids + [r.id])];
        assert [] + [r.id] == [r.id];
        assert groups == GroupsWith(before, at, r);
      }
      i := i + 1;
    }
    assert page[..i] == page;
  }

  lemma NoGroups(chat: Chat)
    ensures GroupsOf(chat, []) == [] && UnaddressableIds(chat, []) == []
  {
  }

  predicate Indexed(groups: seq<Group>, index: map<string, nat>) {
    && (forall s :: s in index ==> index[s] < |groups| && groups[index[s]].sender == s)
    && (forall g :: 0 <= g < |groups| ==> groups[g].sender in index)
  }

  lemma SenderPlace(chat: Chat, page: seq<Row>, groups: seq<Group>, index: map<string, nat>, sender: string, at: nat)
    requires groups == GroupsOf(chat, page) && Indexed(groups, index)
    requires at == if sender in index then index[sender] else |groups|
    ensures Placed(chat, page, sender, at)
  {
    var senders := SendersOf(chat, page);
    forall g | 0 <= g < |senders| ensures senders[g] in index {
      assert groups[g].sender == senders[g];
    }
  }

  lemma {:induction false} IdsOfMembers(chat: Chat, page: seq<Row>, sender: string, id: string)
    ensures id in IdsOf(chat, page, sender) <==>
            exists r :: r in page && Addressable(chat, r) && ReceiptSender(chat, r) == sender && r.id == id
    decreases |page|
  {
    if page != [] {
      var n := |page| - 1;
      IdsOfMembers(chat, page[..n], sender, id);
      assert page == page[..n] + [page[n]];
    }
  }

  lemma {:induction false} UnaddressableMembers(chat: Chat, page: seq<Row>, id: string)
    ensures id in UnaddressableIds(chat, page) <==> exists r :: r in page && !Addressable(chat, r) && r.id == id
    decreases |page|
  {
    if page != [] {
      var n := |page| - 1;
      UnaddressableMembers(chat, page[..n], id);
      assert page == page[..n] + [page[n]];
    }
  }

  lemma {:induction false} SendersMembers(chat: Chat, page: seq<Row>, r: Row)
    requires r in page && Addressable(chat, r)
    ensures ReceiptSender(chat, r) in SendersOf(chat, page)
    decreases |page|
  {
    var n := |page| - 1;
    assert page == page[..n] + [page[n]];
    if r in page[..n] {
      SendersMembers(chat, page[..n], r);
    }
  }

  /** Groups and unaddressable rows partition the page: every id is in exactly one of them. */
  lemma GroupsPartitionPage(chat: Chat, page: seq<Row>, r: Row)
    requires Distinct(page) && r in page
    ensures Addressable(chat, r) <==> r.id !in UnaddressableIds(chat, page)
    ensures Addressable(chat, r) <==> exists g :: 0 <= g < |GroupsOf(chat, page)| && r.id in GroupsOf(chat, page)[g].ids
    ensures forall g, h :: 0 <= g < h < |GroupsOf(chat, page)| ==>
              !(r.id in GroupsOf(chat, page)[g].ids && r.id in GroupsOf(chat, page)[h].ids)
  {
    hide IdsOf, SendersOf, UnaddressableIds;
    var senders := SendersOf(chat, page);
    UnaddressableMembers(chat, page, r.id);
    SendersDistinct(chat, page);
    assert forall q :: q in page && q.id == r.id ==> q == r;
    forall s ensures r.id in IdsOf(chat, page, s) <==> Addressable(chat, r) && s == ReceiptSender(chat, r) {
      IdsOfMembers(chat, page, s, r.id);
    }
    if Addressable(chat, r) {
      SendersMembers(chat, page, r);
      var g :| 0 <= g < |senders| && senders[g] == ReceiptSender(chat, r);
      assert r.id in GroupsOf(chat, page)[g].ids;
    }
  }

  // ----- the marker and the archive -----

  datatype Outcome = Accepted | Failed | Refused

  ghost predicate WellFormed(rows: seq<Row>) {
    Sorted(rows) && Distinct(rows)
  }

  /** The page one request works on, and the first row it leaves behind. */
  function Page(unread: seq<Row>): seq<Row> {
    if |unread| > PAGE_LIMIT then unread[..PAGE_LIMIT] else unread
  }

  function Overflow(unread: seq<Row>): Option<Row> {
    if |unread| > PAGE_LIMIT then Some(unread[PAGE_LIMIT]) else None
  }

  /** No addressable unread row at or before the new marker lacks an acknowledgement. */
  ghost predicate Honest(unread: seq<Row>, acked: set<string>, marker: int) {
    forall r :: r in unread && r.at <= marker ==> r.id in acked
  }

  /** A safe cut of the page is safe for the whole archive. */
  lemma SafeCutIsHonest(unread: seq<Row>, acked: set<string>, cut: nat)
    requires Sorted(unread) && 0 < cut && Safe(Page(unread), acked, Overflow(unread), cut)
    ensures Honest(unread, acked, Page(unread)[cut - 1].at)
  {
    var page := Page(unread);
    assert forall i :: |page| <= i < |unread| ==> unread[PAGE_LIMIT].at <= unread[i].at;
    forall r | r in unread && r.at <= page[cut - 1].at ensures r.id in acked {
      var i :| 0 <= i < |unread| && unread[i] == r;
      assert i < |page| && page[i] == r;
    }
  }

  /** The excepted page is exactly where honesty fails, unless the rest of that second was acknowledged too. */
  lemma OneSecondIsDishonest(unread: seq<Row>, acked: set<string>)
    requires Sorted(unread) && Distinct(unread) && OneSecond(Page(unread), acked, Overflow(unread))
    requires forall id :: id in acked ==> exists r :: r in Page(unread) && r.id == id
    ensures !Honest(unread, acked, Page(unread)[|Page(unread)| - 1].at)
  {
    var left, page := unread[PAGE_LIMIT], Page(unread);
    assert left in unread && left.at <= page[|page| - 1].at;
    assert forall r :: r in page ==> r.id != left.id;
  }

  /** Two thousand and one unread messages in one second: the last is covered though no receipt names it. */
  lemma CrowdedSecond(unread: seq<Row>, acked: set<string>)
    requires |unread| == PAGE_LIMIT + 1 && Distinct(unread)
    requires (forall i :: 0 <= i < |unread| ==> unread[i].at == unread[0].at)
    requires acked == set i | 0 <= i < PAGE_LIMIT :: unread[i].id
    ensures OneSecond(Page(unread), acked, Overflow(unread)) && unread[PAGE_LIMIT].id !in acked
    ensures !Honest(unread, acked, Page(unread)[PAGE_LIMIT - 1].at)
  {
    var page := Page(unread);
    assert forall i :: 0 <= i < |page| ==> page[i] == unread[i];
    assert unread[PAGE_LIMIT] in unread;
  }

  /** Rows change only by having their receipt saved. */
  ghost predicate Flagged(rows: seq<Row>, now: seq<Row>, acked: set<string>) {
    && |now| == |rows|
    && forall i :: 0 <= i < |rows| ==> now[i] == rows[i] || (now[i] == rows[i].(sent := true) && rows[i].id in acked)
  }

  lemma {:induction false} UnreadFewer(rows: seq<Row>, now: seq<Row>, acked: set<string>, marker: int, later: int,
                                       upTo: int, k: int)
    requires Flagged(rows, now, acked) && marker <= later
    ensures |Unread(now, later, upTo)| <= |Unread(rows, marker, upTo)|
    ensures 0 <= k < |rows| && IsUnread(rows[k], marker, upTo) && !IsUnread(now[k], later, upTo) ==>
              |Unread(now, later, upTo)| < |Unread(rows, marker, upTo)|
    decreases |rows|
  {
    if rows != [] {
      var n := |rows| - 1;
      UnreadFewer(rows[..n], now[..n], acked, marker, later, upTo, k);
    }
  }

  lemma {:induction false} UnreadPrefix(rows: seq<Row>, i: nat, marker: int, upTo: int)
    requires i <= |rows|
    ensures Unread(rows[..i], marker, upTo) <= Unread(rows, marker, upTo)
    decreases |rows|
  {
    if i == |rows| {
      assert rows[..i] == rows;
    } else {
      var n := |rows| - 1;
      UnreadPrefix(rows[..n], i, marker, upTo);
      assert rows[..n][..i] == rows[..i];
    }
  }

  function IdSet(ids: seq<string>): set<string> {
    set id | id in ids
  }

  function AllIds(groups: seq<Group>): set<string> {
    set g, i | 0 <= g < |groups| && 0 <= i < |groups[g].ids| :: groups[g].ids[i]
  }

  predicate Resolvable(groups: seq<Group>, resolves: string -> bool) {
    forall g :: 0 <= g < |groups| ==> groups[g].sender == "" || resolves(groups[g].sender)
  }

  // ----- sending -----

  /** One receipt: the participant it names, or none, and the messages. */
  datatype Receipt = Receipt(sender: string, ids: seq<string>)

  predicate Addressed(g: Group, resolves: string -> bool) {
    g.sender == "" || resolves(g.sender)
  }

  /** A sender's ids in batches. */
  function Batches(sender: string, ids: seq<string>): seq<Receipt> {
    if ids == [] then []
    else
      var n := if BATCH_SIZE < |ids| then BATCH_SIZE else |ids|;
      [Receipt(sender, ids[..n])] + Batches(sender, ids[n..])
  }

  /** Every receipt the groups call for, in order; a sender that does not resolve gets none. */
  function Due(groups: seq<Group>, resolves: string -> bool): seq<Receipt> {
    if groups == [] then []
    else (if Addressed(groups[0], resolves) then Batches(groups[0].sender, groups[0].ids) else []) +
         Due(groups[1..], resolves)
  }

  /** The messages that receipts name. */
  function Named(log: seq<Receipt>): set<string> {
    set k, i | 0 <= k < |log| && 0 <= i < |log[k].ids| :: log[k].ids[i]
  }

  /** `log` is what went out: the due receipts in order, up to the first that was not accepted. */
  predicate Delivered(log: seq<Receipt>, due: seq<Receipt>, outcome: nat -> Outcome) {
    && log <= due && (forall k :: 0 <= k < |log| ==> outcome(k) == Accepted)
    && (|log| < |due| ==> outcome(|log|) != Accepted)
  }

  /** A receipt was refused, which ends the run. */
  predicate EndsRefused(log: seq<Receipt>, due: seq<Receipt>, outcome: nat -> Outcome) {
    |log| < |due| && outcome(|log|) == Refused
  }

  lemma NamedSum(a: seq<Receipt>, b: seq<Receipt>)
    ensures Named(a + b) == Named(a) + Named(b)
  {
    forall id | id in Named(a) + Named(b) ensures id in Named(a + b) {
      if id in Named(a) {
        var k, i :| 0 <= k < |a| && 0 <= i < |a[k].ids| && a[k].ids[i] == id;
        assert (a + b)[k].ids[i] == id;
      } else {
        var k, i :| 0 <= k < |b| && 0 <= i < |b[k].ids| && b[k].ids[i] == id;
        assert (a + b)[|a| + k].ids[i] == id;
      }
    }
  }

  lemma NamedOne(r: Receipt)
    ensures Named([r]) == IdSet(r.ids)
  {
    forall id | id in r.ids ensures id in Named([r]) {
      var i :| 0 <= i < |r.ids| && r.ids[i] == id;
      assert [r][0].ids[i] == id;
    }
  }

  /** Batches name exactly the ids, hold one to a hundred each and are all for the one sender. */
  lemma {:induction false} BatchesNamed(sender: string, ids: seq<string>)
    ensures Named(Batches(sender, ids)) == IdSet(ids)
    ensures forall r :: r in Batches(sender, ids) ==>
              r.sender == sender && 0 < |r.ids| <= BATCH_SIZE && IdSet(r.ids) <= IdSet(ids)
    decreases |ids|
  {
    if ids != [] {
      var n := if BATCH_SIZE < |ids| then BATCH_SIZE else |ids|;
      BatchesNamed(sender, ids[n..]);
      NamedSum([Receipt(sender, ids[..n])], Batches(sender, ids[n..]));
      NamedOne(Receipt(sender, ids[..n]));
      assert ids == ids[..n] + ids[n..];
    }
  }

  lemma AllIdsFirst(groups: seq<Group>)
    requires groups != []
    ensures AllIds(groups) == IdSet(groups[0].ids) + AllIds(groups[1..])
  {
    var rest := groups[1..];
    forall id | id in IdSet(groups[0].ids) ensures id in AllIds(groups) {
      var i :| 0 <= i < |groups[0].ids| && groups[0].ids[i] == id;
    }
    forall id | id in AllIds(rest) ensures id in AllIds(groups) {
      var g, i :| 0 <= g < |rest| && 0 <= i < |rest[g].ids| && rest[g].ids[i] == id;
      assert groups[g + 1].ids[i] == id;
    }
    forall id | id in AllIds(groups) ensures id in IdSet(groups[0].ids) + AllIds(rest) {
      var g, i :| 0 <= g < |groups| && 0 <= i < |groups[g].ids| && groups[g].ids[i] == id;
      if g > 0 {
        assert rest[g - 1].ids[i] == id;
      }
    }
  }

  /** What is due names only ids of the groups, and all of them when every sender resolves. */
  lemma {:induction false} DueNamed(groups: seq<Group>, resolves: string -> bool)
    ensures Named(Due(groups, resolves)) <= AllIds(groups)
    ensures Resolvable(groups, resolves) ==> Named(Due(groups, resolves)) == AllIds(groups)
    decreases |groups|
  {
    hide Named, AllIds, Batches, IdSet;
    if groups == [] {
      NothingDue();
    } else {
      var rest := groups[1..];
      DueNamed(rest, resolves);
      AllIdsFirst(groups);
      BatchesNamed(groups[0].sender, groups[0].ids);
      NamedSum(Batches(groups[0].sender, groups[0].ids), Due(rest, resolves));
      NamedSum([], Due(rest, resolves));
      NothingDue();
      assert Resolvable(groups, resolves) ==> Addressed(groups[0], resolves) && Resolvable(rest, resolves);
    }
  }

  lemma NothingDue()
    ensures Named([]) == {} && AllIds([]) == {}
  {
  }

  /** Each due receipt is for one group whose sender can be addressed, and within the batch size. */
  lemma {:induction false} DueIsAddressed(groups: seq<Group>, resolves: string -> bool, r: Receipt)
    requires r in Due(groups, resolves)
    ensures 0 < |r.ids| <= BATCH_SIZE && (r.sender == "" || resolves(r.sender))
    ensures exists g :: 0 <= g < |groups| && groups[g].sender == r.sender && IdSet(r.ids) <= IdSet(groups[g].ids)
    decreases |groups|
  {
    hide Batches, IdSet;
    var rest := groups[1..];
    if r in Due(rest, resolves) {
      DueIsAddressed(rest, resolves, r);
      var g :| 0 <= g < |rest| && rest[g].sender == r.sender && IdSet(r.ids) <= IdSet(rest[g].ids);
      assert groups[g + 1] == rest[g];
    } else {
      BatchesNamed(groups[0].sender, groups[0].ids);
    }
  }

  lemma NamedPrefix(log: seq<Receipt>, due: seq<Receipt>)
    requires log <= due
    ensures Named(log) <= Named(due)
  {
    NamedSum(log, due[|log|..]);
    assert due == log + due[|log|..];
  }

  lemma NextBatch(sender: string, ids: seq<string>, start: nat, end: nat)
    requires start < |ids| && end == if start + BATCH_SIZE < |ids| then start + BATCH_SIZE else |ids|
    ensures Batches(sender, ids[start..]) == [Receipt(sender, ids[start..end])] + Batches(sender, ids[end..])
  {
    assert ids[start..][..end - start] == ids[start..end] && ids[start..][end - start..] == ids[end..];
  }

  lemma NoBatch(sender: string, ids: seq<string>)
    requires ids == []
    ensures Batches(sender, ids) == []
  {
  }

  lemma Following(log: seq<Receipt>, r: Receipt, rest: seq<Receipt>)
    ensures log + ([r] + rest) == (log + [r]) + rest && log + [r] <= log + ([r] + rest)
  {
  }

  /** One sender's batches, after the receipts in `before`. */
  method SendGroup(sender: string, ids: seq<string>, before: seq<Receipt>, marked: set<string>, outcome: nat -> Outcome)
    returns (log: seq<Receipt>, acked: set<string>, result: Outcome)
    requires forall k :: 0 <= k < |before| ==> outcome(k) == Accepted
    ensures before <= log <= before + Batches(sender, ids) && acked == marked + Named(log[|before|..])
    ensures forall k :: 0 <= k < |log| ==> outcome(k) == Accepted
    ensures result == Accepted ==> log == before + Batches(sender, ids)
    ensures result != Accepted ==> |log| < |before + Batches(sender, ids)| && result == outcome(|log|)
  {
    hide Named, Batches;
    log, acked, result := before, marked, Accepted;
    var start := 0;
    NothingDue();
    assert ids[0..] == ids && log[|before|..] == [];
    while start < |ids|
      invariant 0 <= start <= |ids| && before <= log && result == Accepted
      invariant log + Batches(sender, ids[start..]) == before + Batches(sender, ids)
      invariant forall k :: 0 <= k < |log| ==> outcome(k) == Accepted
      invariant acked == marked + Named(log[|before|..])
    {
      var end := if start + BATCH_SIZE < |ids| then start + BATCH_SIZE else |ids|;
      var receipt := Receipt(sender, ids[start..end]);
      NextBatch(sender, ids, start, end);
      Following(log, receipt, Batches(sender, ids[end..]));
      result := outcome(|log|);
      if result != Accepted {
        return;
      }
      NamedSum(log[|before|..], [receipt]);
      NamedOne(receipt);
      assert (log + [receipt])[|before|..] == log[|before|..] + [receipt];
      acked := acked + set id | id in ids[start..end];
      log, start := log + [receipt], end;
    }
    NoBatch(sender, ids[start..]);
  }

  lemma NextDue(groups: seq<Group>, g: nat, resolves: string -> bool)
    requires g < |groups|
    ensures Due(groups[g..], resolves) ==
            (if Addressed(groups[g], resolves) then Batches(groups[g].sender, groups[g].ids) else []) +
            Due(groups[g + 1..], resolves)
  {
    hide Batches;
    assert groups[g..][0] == groups[g] && groups[g..][1..] == groups[g + 1..];
  }

  lemma NoneDue(groups: seq<Group>, resolves: string -> bool)
    requires groups == []
    ensures Due(groups, resolves) == []
  {
  }

  lemma Beginning(a: seq<Receipt>, b: seq<Receipt>, c: seq<Receipt>)
    ensures a + (b + c) == (a + b) + c && a + b <= a + (b + c)
  {
  }

  /** Sends the receipts, skipping senders that do not resolve and stopping at a failure or a refusal. */
  method SendReceipts(groups: seq<Group>, before: set<string>, resolves: string -> bool, outcome: nat -> Outcome)
    returns (log: seq<Receipt>, acked: set<string>, failed: bool, refused: bool)
    ensures Delivered(log, Due(groups, resolves), outcome) && acked == before + Named(log)
    ensures refused <==> EndsRefused(log, Due(groups, resolves), outcome)
    ensures failed <==>
            if |log| < |Due(groups, resolves)| then outcome(|log|) == Failed else !Resolvable(groups, resolves)
  {
    hide Named, Batches, Due;
    log, acked, failed, refused := [], before, false, false;
    var g := 0;
    ghost var due := Due(groups, resolves);
    NothingDue();
    assert groups[0..] == groups;
    while g < |groups|
      invariant 0 <= g <= |groups| && !refused && log + Due(groups[g..], resolves) == due
      invariant (forall k :: 0 <= k < |log| ==> outcome(k) == Accepted) && acked == before + Named(log)
      invariant failed <==> exists h :: 0 <= h < g && !Addressed(groups[h], resolves)
    {
      var group := groups[g];
      NextDue(groups, g, resolves);
      if group.sender != "" && !resolves(group.sender) {
        failed := true;
      } else {
        var was, result := log, Accepted;
        log, acked, result := SendGroup(group.sender, group.ids, log, acked, outcome);
        NamedSum(was, log[|was|..]);
        assert log == was + log[|was|..];
        Beginning(was, Batches(group.sender, group.ids), Due(groups[g + 1..], resolves));
        if result != Accepted {
          failed, refused := result == Failed, result == Refused;
          return;
        }
      }
      g := g + 1;
    }
    NoneDue(groups[g..], resolves);
  }

  /** Everything the request acknowledged is a row of its page. */
  ghost predicate FromPage(page: seq<Row>, acked: set<string>) {
    forall id :: id in acked ==> exists r :: r in page && r.id == id
  }

  lemma GroupsFromPage(chat: Chat, page: seq<Row>)
    ensures FromPage(page, AllIds(GroupsOf(chat, page)) + IdSet(UnaddressableIds(chat, page)))
  {
    hide IdsOf, UnaddressableIds, SendersOf;
    forall id | id in AllIds(GroupsOf(chat, page)) ensures exists r :: r in page && r.id == id {
      var g, i :| 0 <= g < |GroupsOf(chat, page)| && 0 <= i < |GroupsOf(chat, page)[g].ids|
                  && GroupsOf(chat, page)[g].ids[i] == id;
      IdsOfMembers(chat, page, SendersOf(chat, page)[g], id);
    }
    forall id | id in UnaddressableIds(chat, page) ensures exists r :: r in page && r.id == id {
      UnaddressableMembers(chat, page, id);
    }
  }

  /** When every receipt went out, the whole page is acknowledged. */
  lemma GroupsCoverPage(chat: Chat, page: seq<Row>, r: Row)
    requires Distinct(page) && r in page
    ensures r.id in AllIds(GroupsOf(chat, page)) || r.id in UnaddressableIds(chat, page)
  {
    hide IdsOf, UnaddressableIds, SendersOf, GroupsOf;
    GroupsPartitionPage(chat, page, r);
  }

  /** Every row still unread is later. */
  predicate BeforeGap(rows: seq<Row>, marker: int, upTo: int, at: int) {
    forall k :: 0 <= k < |rows| && IsUnread(rows[k], marker, upTo) ==> at < rows[k].at
  }

  /** Advancing over saved receipts covers nothing that was not acknowledged. */
  lemma AdvanceIsHonest(rows: seq<Row>, now: seq<Row>, acked: set<string>, start: int, marker: int, upTo: int, at: int)
    requires Flagged(rows, now, acked) && start <= marker && Honest(Unread(rows, start, upTo), acked, marker)
    requires BeforeGap(now, marker, upTo, at)
    ensures Honest(Unread(rows, start, upTo), acked, at)
  {
    forall r | r in Unread(rows, start, upTo) && r.at <= at ensures r.id in acked {
      UnreadRows(rows, start, upTo, r);
      var i :| 0 <= i < |rows| && rows[i] == r;
      if r.at > marker {
        assert !IsUnread(now[i], marker, upTo);
      }
    }
  }

  /** Nothing is acknowledged while the marker stays where it was. */
  lemma HonestStart(rows: seq<Row>, marker: int, upTo: int, acked: set<string>)
    ensures Honest(Unread(rows, marker, upTo), acked, marker)
  {
    forall r | r in Unread(rows, marker, upTo) ensures r.at > marker {
      UnreadRows(rows, marker, upTo, r);
    }
  }

  /** A marker on the page's first row or later leaves fewer rows unread. */
  lemma MarkerShrinksUnread(rows: seq<Row>, now: seq<Row>, acked: set<string>, marker: int, later: int, upTo: int)
    requires Flagged(rows, now, acked) && marker <= later && Unread(rows, marker, upTo) != []
    requires Unread(rows, marker, upTo)[0].at <= later
    ensures |Unread(now, later, upTo)| < |Unread(rows, marker, upTo)|
  {
    var r := Unread(rows, marker, upTo)[0];
    UnreadRows(rows, marker, upTo, r);
    var k :| 0 <= k < |rows| && rows[k] == r;
    UnreadFewer(rows, now, acked, marker, later, upTo, k);
  }

  /** Every participant of the page can be addressed and every receipt went out. */
  ghost predicate AllDelivered(chat: Chat, page: seq<Row>, resolves: string -> bool, log: seq<Receipt>) {
    log == Due(GroupsOf(chat, page), resolves) && Resolvable(GroupsOf(chat, page), resolves)
  }

  /** The rows with these receipts saved as sent. */
  function Saved(rows: seq<Row>, acked: set<string>): seq<Row> {
    seq(|rows|, i requires 0 <= i < |rows| => rows[i].(sent := rows[i].sent || rows[i].id in acked))
  }

  /** Once saved, a receipt is never due again, whatever the marker. */
  lemma SavedIsNotRepeated(rows: seq<Row>, acked: set<string>, marker: int, upTo: int, chat: Chat,
                           resolves: string -> bool)
    ensures var page := Page(Unread(Saved(rows, acked), marker, upTo));
            Named(Due(GroupsOf(chat, page), resolves)) !! acked
  {
    hide Unread, GroupsOf, Due, Named, AllIds, UnaddressableIds;
    var unread := Unread(Saved(rows, acked), marker, upTo);
    DueNamed(GroupsOf(chat, Page(unread)), resolves);
    GroupsFromPage(chat, Page(unread));
    forall row | row in Page(unread) ensures row.id !in acked {
      assert row in unread;
      UnreadRows(Saved(rows, acked), marker, upTo, row);
    }
  }

  /** The marker stands on a row of the archive that was acknowledged now or is saved as sent. */
  ghost predicate Standing(rows: seq<Row>, acked: set<string>, marker: int, upTo: int) {
    exists row :: row in rows && row.at == marker <= upTo && (row.id in acked || row.sent)
  }

  /** It is as far as the page's acknowledged rows let it be, and no saved receipt before the next gap is ahead. */
  ghost predicate Furthest(page: seq<Row>, overflow: Option<Row>, acked: set<string>, rows: seq<Row>, marker: int,
                           upTo: int) {
    && (OneSecond(page, acked, overflow) ==> page[|page| - 1].at <= marker)
    && (forall c :: 0 < c <= |page| && Safe(page, acked, overflow, c) ==> page[c - 1].at <= marker)
    && SavedBehind(rows, marker, upTo)
  }

  ghost predicate SavedBehind(rows: seq<Row>, marker: int, upTo: int) {
    forall row | row in rows && row.sent && row.at <= upTo ::
      BeforeGap(rows, marker, upTo, row.at) ==> row.at <= marker
  }

  /** Behind the latest saved receipt before the gap there is no other. */
  lemma PrefixIsFurthest(rows: seq<Row>, marker: int, upTo: int, at: Option<int>)
    requires at.Some? ==> marker < at.value <= upTo && BeforeGap(rows, marker, upTo, at.value)
    requires forall i | 0 <= i < |rows| && rows[i].sent && marker < rows[i].at <= upTo ::
               BeforeGap(rows, marker, upTo, rows[i].at) ==> at.Some? && rows[i].at <= at.value
    ensures SavedBehind(rows, if at.Some? then at.value else marker, upTo)
  {
    var m := if at.Some? then at.value else marker;
    assert forall k :: 0 <= k < |rows| ==> (IsUnread(rows[k], marker, upTo) <==> IsUnread(rows[k], m, upTo));
    forall row | row in rows && row.sent && row.at <= upTo && BeforeGap(rows, m, upTo, row.at) ensures row.at <= m {
      var i :| 0 <= i < |rows| && rows[i] == row;
      assert BeforeGap(rows, marker, upTo, row.at);
    }
  }

  class ChatArchive {
    var rows: seq<Row>
    var marker: int

    ghost predicate Valid()
      reads this
    {
      WellFormed(rows)
    }

    constructor (rows: seq<Row>, marker: int)
      requires WellFormed(rows)
      ensures Valid() && this.rows == rows && this.marker == marker
    {
      this.rows, this.marker := rows, marker;
    }

    method UnreadInbound(upTo: int, limit: nat) returns (page: seq<Row>)
      ensures var all := Unread(rows, marker, upTo); page == if |all| > limit then all[..limit] else all
    {
      page := [];
      var i := 0;
      while i < |rows| && |page| < limit
        invariant 0 <= i <= |rows|
        invariant page == Unread(rows[..i], marker, upTo) && |page| <= limit
      {
        assert rows[..i + 1][..i] == rows[..i];
        if IsUnread(rows[i], marker, upTo) {
          page := page + [rows[i]];
        }
        i := i + 1;
      }
      UnreadPrefix(rows, i, marker, upTo);
      assert rows[..|rows|] == rows;
    }

    /** The marker only moves forward. */
    method MarkChatRead(at: int)
      modifies `marker
      ensures marker == if at > old(marker) then at else old(marker)
    {
      if at > marker {
        marker := at;
      }
    }

    /** Saved receipts behind the marker's first gap let it advance up to that gap. */
    method AcknowledgedPrefix(upTo: int) returns (at: Option<int>)
      ensures at.Some? ==> marker < at.value <= upTo && BeforeGap(rows, marker, upTo, at.value)
      ensures at.Some? ==> exists i :: 0 <= i < |rows| && rows[i].sent && rows[i].at == at.value
      ensures forall i | 0 <= i < |rows| && rows[i].sent && marker < rows[i].at <= upTo ::
                BeforeGap(rows, marker, upTo, rows[i].at) ==> at.Some? && rows[i].at <= at.value
    {
      var gap: Option<int> := None;
      var i := 0;
      while i < |rows|
        invariant 0 <= i <= |rows|
        invariant gap.Some? ==> exists k :: 0 <= k < i && IsUnread(rows[k], marker, upTo) && rows[k].at == gap.value
        invariant forall k :: 0 <= k < i && IsUnread(rows[k], marker, upTo) ==> gap.Some? && gap.value <= rows[k].at
      {
        if IsUnread(rows[i], marker, upTo) && (gap.None? || rows[i].at < gap.value) {
          gap := Some(rows[i].at);
        }
        i := i + 1;
      }
      at := None;
      i := 0;
      while i < |rows|
        invariant 0 <= i <= |rows|
        invariant at.Some? ==> marker < at.value <= upTo && (gap.Some? ==> at.value < gap.value)
        invariant at.Some? ==> exists k :: 0 <= k < i && rows[k].sent && rows[k].at == at.value
        invariant forall k | 0 <= k < i && rows[k].sent && marker < rows[k].at <= upTo ::
                    (gap.Some? ==> rows[k].at < gap.value) ==> at.Some? && rows[k].at <= at.value
      {
        var r := rows[i];
        if r.sent && marker < r.at <= upTo && (gap.None? || r.at < gap.value) && (at.None? || at.value < r.at) {
          at := Some(r.at);
        }
        i := i + 1;
      }
    }

    /** Saves the receipts that went out before a refusal. */
    method SaveReceipts(acked: set<string>)
      requires Valid()
      modifies `rows
      ensures Valid() && rows == Saved(old(rows), acked) && Flagged(old(rows), rows, acked)
    {
      var i := 0;
      while i < |rows|
        invariant 0 <= i <= |rows| == |old(rows)|
        invariant forall k :: 0 <= k < i ==> rows[k] == Saved(old(rows), acked)[k]
        invariant forall k :: i <= k < |rows| ==> rows[k] == old(rows)[k]
      {
        if rows[i].id in acked {
          rows := rows[i := rows[i].(sent := true)];
        }
        i := i + 1;
      }
    }

    method AdvancePastSaved(upTo: int, ghost start: int, ghost was: seq<Row>, ghost acked: set<string>)
      requires Valid() && Flagged(was, rows, acked) && start <= marker
      modifies `marker
      ensures old(marker) <= marker && SavedBehind(rows, marker, upTo)
      ensures marker == old(marker) || Standing(rows, acked, marker, upTo)
      ensures Honest(Unread(was, start, upTo), acked, old(marker)) ==> Honest(Unread(was, start, upTo), acked, marker)
    {
      hide Unread, Honest;
      var at := AcknowledgedPrefix(upTo);
      PrefixIsFurthest(rows, marker, upTo, at);
      if at.Some? {
        if Honest(Unread(was, start, upTo), acked, marker) {
          AdvanceIsHonest(was, rows, acked, start, marker, upTo, at.value);
        }
        MarkChatRead(at.value);
      }
    }

    /** Acknowledges one page and advances the marker over what was acknowledged. */
    method MarkWholeChatRead(chat: Chat, upTo: int, resolves: string -> bool, outcome: nat -> Outcome)
      returns (log: seq<Receipt>, ghost acked: set<string>)
      requires Valid()
      modifies this
      ensures Valid() && old(marker) <= marker && Flagged(old(rows), rows, acked)
      ensures var page := Page(Unread(old(rows), old(marker), upTo));
              var due := Due(GroupsOf(chat, page), resolves);
              && Delivered(log, due, outcome) && FromPage(page, acked)
              && acked == IdSet(UnaddressableIds(chat, page)) + Named(log)
              && rows == if EndsRefused(log, due, outcome) then Saved(old(rows), acked) else old(rows)
      ensures var unread := Unread(old(rows), old(marker), upTo);
              Honest(unread, acked, marker) <==> !OneSecond(Page(unread), acked, Overflow(unread))
      ensures var unread := Unread(old(rows), old(marker), upTo);
              Furthest(Page(unread), Overflow(unread), acked, rows, marker, upTo)
      ensures marker == old(marker) || Standing(rows, acked, marker, upTo)
      ensures var unread := Unread(old(rows), old(marker), upTo);
              unread != [] && AllDelivered(chat, Page(unread), resolves, log) ==>
                |Unread(rows, marker, upTo)| < |unread|
    {
      hide Unread, Honest, GroupsOf, UnaddressableIds, AllIds, Safe, OneSecond, FromPage, Named, Due, Standing;
      hide SavedBehind, Resolvable, Sorted, Furthest, Flagged, EndsRefused, Saved;
      ghost var was, start, unread := rows, marker, Unread(rows, marker, upTo);
      log, acked := [], {};
      var page := UnreadInbound(upTo, PAGE_LIMIT + 1);
      var overflow := if |page| > PAGE_LIMIT then Some(page[PAGE_LIMIT]) else None;
      page := if |page| > PAGE_LIMIT then page[..PAGE_LIMIT] else page;
      assert page == Page(unread) && overflow == Overflow(unread);
      if page == [] {
        EmptyPage(chat, resolves, outcome);
        CoverPage(page, overflow, {}, false, upTo);
        return;
      }
      var groups, unaddressable := GroupBySender(chat, page);
      var marked, failed, refused;
      log, marked, failed, refused := SendReceipts(groups, IdSet(unaddressable), resolves, outcome);
      acked := marked;
      LogNamed(chat, page, resolves, log);
      PageFacts(was, start, upTo, chat, marked);
      CoverPage(page, overflow, marked, refused, upTo);
      if AllDelivered(chat, page, resolves, log) {
        DueNamed(groups, resolves);
        FullPageCovered(was, start, upTo, chat, marked, rows, marker);
        MarkerShrinksUnread(was, rows, marked, start, marker, upTo);
      }
    }

    /** Saves the receipts if the run was refused, and moves the marker over what they cover. */
    method CoverPage(page: seq<Row>, overflow: Option<Row>, marked: set<string>, refused: bool, upTo: int)
      requires Valid() && page == Page(Unread(rows, marker, upTo)) && overflow == Overflow(Unread(rows, marker, upTo))
      requires FromPage(page, marked) && Sorted(page)
      requires overflow.Some? ==> forall i :: 0 <= i < |page| ==> page[i].at <= overflow.value.at
      modifies this
      ensures Valid() && old(marker) <= marker && Flagged(old(rows), rows, marked)
      ensures rows == if refused then Saved(old(rows), marked) else old(rows)
      ensures Honest(Unread(old(rows), old(marker), upTo), marked, marker) <==> !OneSecond(page, marked, overflow)
      ensures Furthest(page, overflow, marked, rows, marker, upTo)
      ensures marker == old(marker) || Standing(rows, marked, marker, upTo)
    {
      hide Unread, Honest, Safe, OneSecond, FromPage, Standing, SavedBehind, Sorted;
      ghost var was, start, unread := rows, marker, Unread(rows, marker, upTo);
      var cut := CoveredPrefix(page, marked, overflow);
      HonestStart(was, start, upTo, marked);
      CutIsHonest(was, start, upTo, marked, cut);
      if refused {
        SaveReceipts(marked);
      }
      if cut > 0 {
        MarkChatRead(page[cut - 1].at);
        HonestMax(unread, marked, start, page[cut - 1].at);
        CutStands(was, rows, start, upTo, marked, cut);
      }
      ghost var reached := marker;
      AdvancePastSaved(upTo, start, was, marked);
      CutIsFurthest(page, overflow, marked, cut, reached, marker);
      OneSecondCovered(was, start, upTo, marked, marker);
    }

    /** Repeating the call while receipts go out leaves nothing unread. */
    method MarkUntilRead(chat: Chat, upTo: int, resolves: string -> bool, outcome: nat -> Outcome)
      requires Valid() && (forall s :: resolves(s)) && (forall k :: outcome(k) == Accepted)
      modifies this
      ensures Valid() && Unread(rows, marker, upTo) == [] && old(marker) <= marker
    {
      hide Unread, Honest, GroupsOf, UnaddressableIds, OneSecond, FromPage, Named, Due, Standing, Furthest, Flagged;
      var page := UnreadInbound(upTo, 1);
      while page != []
        invariant Valid() && old(marker) <= marker && (page == [] <==> Unread(rows, marker, upTo) == [])
        decreases |Unread(rows, marker, upTo)|
      {
        var log, acked := MarkWholeChatRead(chat, upTo, resolves, outcome);
        page := UnreadInbound(upTo, 1);
      }
    }
  }

  lemma EmptyPage(chat: Chat, resolves: string -> bool, outcome: nat -> Outcome)
    ensures FromPage([], {}) && Named([]) == {} && Sorted([])
    ensures Due(GroupsOf(chat, []), resolves) == [] && UnaddressableIds(chat, []) == []
    ensures Delivered([], [], outcome) && !EndsRefused([], [], outcome)
  {
  }

  /** What went out names only ids of the page's groups. */
  lemma LogNamed(chat: Chat, page: seq<Row>, resolves: string -> bool, log: seq<Receipt>)
    requires log <= Due(GroupsOf(chat, page), resolves)
    ensures Named(log) <= AllIds(GroupsOf(chat, page))
  {
    hide Named, AllIds, GroupsOf, Due;
    NamedPrefix(log, Due(GroupsOf(chat, page), resolves));
    DueNamed(GroupsOf(chat, page), resolves);
  }

  /** The row the cut ends on is in the archive and was acknowledged. */
  lemma CutStands(rows: seq<Row>, now: seq<Row>, start: int, upTo: int, acked: set<string>, cut: nat)
    requires var page := Page(Unread(rows, start, upTo)); 0 < cut <= |page| && page[cut - 1].id in acked
    requires Flagged(rows, now, acked)
    ensures var at := Page(Unread(rows, start, upTo))[cut - 1].at; start < at && Standing(now, acked, at, upTo)
  {
    hide Unread;
    var row := Page(Unread(rows, start, upTo))[cut - 1];
    assert row in Unread(rows, start, upTo);
    UnreadRows(rows, start, upTo, row);
    var i :| 0 <= i < |rows| && rows[i] == row;
    assert now[i].at == row.at && now[i].id == row.id;
  }

  lemma CutIsFurthest(page: seq<Row>, overflow: Option<Row>, acked: set<string>, cut: nat, reached: int, marker: int)
    requires Sorted(page) && cut <= |page| && reached <= marker && (cut > 0 ==> page[cut - 1].at <= reached)
    requires OneSecond(page, acked, overflow) ==> cut == |page|
    requires !OneSecond(page, acked, overflow) ==> forall c :: cut < c <= |page| ==> !Safe(page, acked, overflow, c)
    ensures OneSecond(page, acked, overflow) ==> page[|page| - 1].at <= marker
    ensures forall c :: 0 < c <= |page| && Safe(page, acked, overflow, c) ==> page[c - 1].at <= marker
  {
    hide Safe;
  }

  /** Past the end of an excepted page no marker is honest. */
  lemma OneSecondCovered(rows: seq<Row>, start: int, upTo: int, acked: set<string>, marker: int)
    requires WellFormed(rows) && FromPage(Page(Unread(rows, start, upTo)), acked)
    ensures var unread := Unread(rows, start, upTo);
            var page := Page(unread);
            OneSecond(page, acked, Overflow(unread)) && page[|page| - 1].at <= marker ==> !Honest(unread, acked, marker)
  {
    hide Unread;
    var unread := Unread(rows, start, upTo);
    UnreadSorted(rows, start, upTo);
    UnreadDistinct(rows, start, upTo);
    if OneSecond(Page(unread), acked, Overflow(unread)) {
      OneSecondIsDishonest(unread, acked);
    }
  }

  lemma HonestMax(unread: seq<Row>, acked: set<string>, a: int, b: int)
    ensures Honest(unread, acked, a) && Honest(unread, acked, b) ==> Honest(unread, acked, if b > a then b else a)
  {
  }

  /** The page is in order and behind its overflow, and what was acknowledged lies on it. */
  lemma PageFacts(rows: seq<Row>, marker: int, upTo: int, chat: Chat, acked: set<string>)
    requires WellFormed(rows)
    requires var page := Page(Unread(rows, marker, upTo));
             acked <= IdSet(UnaddressableIds(chat, page)) + AllIds(GroupsOf(chat, page))
    ensures var unread := Unread(rows, marker, upTo);
            && Sorted(Page(unread)) && FromPage(Page(unread), acked)
            && (Overflow(unread).Some? ==> forall i :: 0 <= i < |Page(unread)| ==>
                Page(unread)[i].at <= Overflow(unread).value.at)
  {
    hide Unread, GroupsOf, UnaddressableIds, AllIds;
    UnreadSorted(rows, marker, upTo);
    GroupsFromPage(chat, Page(Unread(rows, marker, upTo)));
  }

  lemma CutIsHonest(rows: seq<Row>, marker: int, upTo: int, acked: set<string>, cut: nat)
    requires WellFormed(rows)
    requires var unread := Unread(rows, marker, upTo);
             cut <= |Page(unread)|
               && (!OneSecond(Page(unread), acked, Overflow(unread)) ==>
                   Safe(Page(unread), acked, Overflow(unread), cut))
    ensures var unread := Unread(rows, marker, upTo);
            cut > 0 && !OneSecond(Page(unread), acked, Overflow(unread)) ==>
              Honest(unread, acked, Page(unread)[cut - 1].at)
  {
    hide Unread, Honest, OneSecond;
    var unread := Unread(rows, marker, upTo);
    UnreadSorted(rows, marker, upTo);
    if cut > 0 && !OneSecond(Page(unread), acked, Overflow(unread)) {
      SafeCutIsHonest(unread, acked, cut);
    }
  }

  /** With every receipt accepted the marker reaches the first unread row. */
  lemma FullPageCovered(rows: seq<Row>, start: int, upTo: int, chat: Chat, acked: set<string>, now: seq<Row>,
                        marker: int)
    requires WellFormed(rows) && Unread(rows, start, upTo) != []
    requires var unread := Unread(rows, start, upTo);
             && acked == IdSet(UnaddressableIds(chat, Page(unread))) + AllIds(GroupsOf(chat, Page(unread)))
             && Furthest(Page(unread), Overflow(unread), acked, now, marker, upTo)
    ensures Unread(rows, start, upTo)[0].at <= marker
  {
    hide Unread, GroupsOf, UnaddressableIds, AllIds, SavedBehind;
    var unread := Unread(rows, start, upTo);
    var page, overflow := Page(unread), Overflow(unread);
    UnreadSorted(rows, start, upTo);
    UnreadDistinct(rows, start, upTo);
    forall r | r in page ensures r.id in acked {
      GroupsCoverPage(chat, page, r);
    }
    if overflow.None? {
      assert Safe(page, acked, overflow, |page|);
    } else if !OneSecond(page, acked, overflow) {
      var k :| 0 <= k < |page| && page[k].at < overflow.value.at;
      assert Safe(page, acked, overflow, k + 1);
    }
  }
}

/** The gateway's view of Reticulum: per-link counters, interface error counters and a ring of the
    newest events, all of which are folds over the history of events. */
module EventTracker {
  import opened Wrappers

  const EVENT_BUF_SIZE: nat := 256

  /** Link ids and destinations are fixed-width hex strings; they are kept as the numbers they spell,
      whose order is the order of the strings. */
  type Id = nat

  datatype Direction = Interface | Incoming | Outgoing | Transport

  datatype LinkKind = Activated | Data(len: nat) | Proof | Closed

  datatype ErrorKind = RxLdpcDecode | RxReassembly | RxDeserialize | TxLdpcEncode | TxTransmit | TxSerialize

  datatype Link = Link(id: Id, destination: Id, closed: bool, lastEvent: LinkKind, packets: nat, bytes: nat,
      rtt: Option<nat>, lastSeen: nat)

  /** The ring's entries: when, which way, what, and about which link and destination. */
  datatype Entry = Entry(ts: nat, direction: Direction, what: What, link: Option<Id>, destination: Option<Id>)

  datatype What =
    | LinkEvent(kind: LinkKind)
    | ReceivedData(len: nat)
    | Announce(len: nat)
    | InterfaceError(mod: nat, error: ErrorKind)

  datatype Stats = Stats(
    rxErrors: nat, txErrors: nat,
    rxLdpc: nat, rxReassembly: nat, rxDeserialize: nat,
    txLdpc: nat, txTransmit: nat, txSerialize: nat)

  /** The link the transport knows for a link event, if it knows one: its own id, destination and
      round-trip time. For outgoing links it is found by address, so its id may be another one. */
  datatype Found = Found(id: Id, destination: Id, rtt: nat)

  /** Everything that happens to the tracker. */
  datatype Event =
    | OnLink(ts: nat, incoming: bool, id: Id, address: Id, kind: LinkKind, found: Option<Found>)
    | OnData(ts: nat, destination: Id, len: nat)
    | OnAnnounce(ts: nat, destination: Id, len: nat)
    | OnError(ts: nat, mod: nat, error: ErrorKind)

  // --- specification: folds over the history ---

  /** The id a link event is filed under. */
  function KeyOf(e: Event): Id
    requires e.OnLink?
  {
    if e.found.Some? then e.found.value.id else e.id
  }

  predicate DataOn(e: Event, incoming: bool, id: Id) {
    e.OnLink? && e.incoming == incoming && KeyOf(e) == id && e.kind.Data?
  }

  predicate Seen(history: seq<Event>, incoming: bool, id: Id) {
    exists i :: 0 <= i < |history| && history[i].OnLink? && history[i].incoming == incoming && KeyOf(history[i]) == id
  }

  function DataCount(history: seq<Event>, incoming: bool, id: Id): nat {
    if history == [] then 0
    else
      var e := history[|history| - 1];
      DataCount(history[..|history| - 1], incoming, id) + if DataOn(e, incoming, id) then 1 else 0
  }

  function DataBytes(history: seq<Event>, incoming: bool, id: Id): nat {
    if history == [] then 0
    else
      var e := history[|history| - 1];
      DataBytes(history[..|history| - 1], incoming, id) + if DataOn(e, incoming, id) then e.kind.len else 0
  }

  function ErrorCount(history: seq<Event>, kind: ErrorKind): nat {
    if history == [] then 0
    else
      var e := history[|history| - 1];
      ErrorCount(history[..|history| - 1], kind) + if e.OnError? && e.error == kind then 1 else 0
  }

  function EntryOf(e: Event): Entry {
    match e
    case OnLink(ts, incoming, id, address, kind, _) =>
      Entry(ts, if incoming then Incoming else Outgoing, LinkEvent(kind), Some(id), Some(address))
    case OnData(ts, destination, len) => Entry(ts, Transport, ReceivedData(len), None, Some(destination))
    case OnAnnounce(ts, destination, len) => Entry(ts, Transport, Announce(len), None, Some(destination))
    case OnError(ts, mod, kind) => Entry(ts, Interface, InterfaceError(mod, kind), None, None)
  }

  /** The newest events, newest first, at most 256. */
  function Newest(history: seq<Event>): seq<Entry> {
    var n := |history|;
    seq(if n < EVENT_BUF_SIZE then n else EVENT_BUF_SIZE, i requires 0 <= i < n => EntryOf(history[n - 1 - i]))
  }

  /** The last event filed under a link sets all its descriptive fields. */
  ghost predicate DescribedBy(l: Link, e: Event) {
    && e.OnLink? && l.id == KeyOf(e) && l.lastSeen == e.ts && l.lastEvent == e.kind && l.closed == e.kind.Closed?
    && l.destination == (if e.found.Some? then e.found.value.destination else e.address)
    && l.rtt == (if e.found.Some? then Some(e.found.value.rtt) else None)
  }

  ghost predicate LastOn(history: seq<Event>, incoming: bool, id: Id, k: int) {
    && 0 <= k < |history| && history[k].OnLink? && history[k].incoming == incoming && KeyOf(history[k]) == id
    && forall j :: k < j < |history| && history[j].OnLink? && history[j].incoming == incoming ==>
        KeyOf(history[j]) != id
  }

  ghost predicate LinksFold(links: map<Id, Link>, history: seq<Event>, incoming: bool) {
    && (forall id: Id :: id in links <==> Seen(history, incoming, id))
    && (forall id: Id :: id in links ==>
          && links[id].packets == DataCount(history, incoming, id)
          && links[id].bytes == DataBytes(history, incoming, id)
          && exists k :: LastOn(history, incoming, id, k) && DescribedBy(links[id], history[k]))
  }

  ghost predicate StatsFold(s: Stats, history: seq<Event>) {
    && s.rxLdpc == ErrorCount(history, RxLdpcDecode) && s.rxReassembly == ErrorCount(history, RxReassembly)
    && s.rxDeserialize == ErrorCount(history, RxDeserialize) && s.txLdpc == ErrorCount(history, TxLdpcEncode)
    && s.txTransmit == ErrorCount(history, TxTransmit) && s.txSerialize == ErrorCount(history, TxSerialize)
    && s.rxErrors == s.rxLdpc + s.rxReassembly + s.rxDeserialize
    && s.txErrors == s.txLdpc + s.txTransmit + s.txSerialize
  }

  /** The counters after one more error of a kind. */
  function CountError(s: Stats, kind: ErrorKind): Stats {
    match kind
    case RxLdpcDecode => s.(rxErrors := s.rxErrors + 1, rxLdpc := s.rxLdpc + 1)
    case RxReassembly => s.(rxErrors := s.rxErrors + 1, rxReassembly := s.rxReassembly + 1)
    case RxDeserialize => s.(rxErrors := s.rxErrors + 1, rxDeserialize := s.rxDeserialize + 1)
    case TxLdpcEncode => s.(txErrors := s.txErrors + 1, txLdpc := s.txLdpc + 1)
    case TxTransmit => s.(txErrors := s.txErrors + 1, txTransmit := s.txTransmit + 1)
    case TxSerialize => s.(txErrors := s.txErrors + 1, txSerialize := s.txSerialize + 1)
  }

  // --- one more event ---

  lemma SnocCounts(history: seq<Event>, e: Event, incoming: bool, id: Id)
    ensures DataCount(history + [e], incoming, id) ==
        DataCount(history, incoming, id) + (if DataOn(e, incoming, id) then 1 else 0)
    ensures DataBytes(history + [e], incoming, id) ==
        DataBytes(history, incoming, id) + (if DataOn(e, incoming, id) then e.kind.len else 0)
    ensures Seen(history + [e], incoming, id) <==>
        Seen(history, incoming, id) || (e.OnLink? && e.incoming == incoming && KeyOf(e) == id)
  {
    var all := history + [e];
    assert all[..|history|] == history;
    if Seen(history, incoming, id) {
      var i :| 0 <= i < |history| && history[i].OnLink? && history[i].incoming == incoming && KeyOf(history[i]) == id;
      assert all[i] == history[i];
    }
    assert all[|history|] == e;
  }

  lemma SnocErrors(history: seq<Event>, e: Event, kind: ErrorKind)
    ensures ErrorCount(history + [e], kind) ==
        ErrorCount(history, kind) + (if e.OnError? && e.error == kind then 1 else 0)
  {
    assert (history + [e])[..|history|] == history;
  }

  lemma {:induction false} UnseenHasNoData(history: seq<Event>, incoming: bool, id: Id)
    requires !Seen(history, incoming, id)
    ensures DataCount(history, incoming, id) == 0 && DataBytes(history, incoming, id) == 0
  {
    if history != [] {
      var n := |history| - 1;
      assert history == history[..n] + [history[n]];
      SnocCounts(history[..n], history[n], incoming, id);
      UnseenHasNoData(history[..n], incoming, id);
    }
  }

  lemma SnocNewest(history: seq<Event>, e: Event)
    ensures Newest(history + [e]) ==
      var pushed := [EntryOf(e)] + Newest(history);
      if |pushed| <= EVENT_BUF_SIZE then pushed else pushed[..EVENT_BUF_SIZE]
  {
  }

  /** An event that is not filed under this direction's links leaves them a fold. */
  lemma OtherEventKeepsLinks(links: map<Id, Link>, history: seq<Event>, e: Event, incoming: bool)
    requires LinksFold(links, history, incoming) && !(e.OnLink? && e.incoming == incoming)
    ensures LinksFold(links, history + [e], incoming)
  {
    forall id: Id
      ensures id in links <==> Seen(history + [e], incoming, id)
      ensures id in links ==>
        && links[id].packets == DataCount(history + [e], incoming, id)
        && links[id].bytes == DataBytes(history + [e], incoming, id)
      ensures id in links ==> exists k ::
          LastOn(history + [e], incoming, id, k) && DescribedBy(links[id], (history + [e])[k])
    {
      SnocCounts(history, e, incoming, id);
      LastOnSnoc(links, history, e, incoming, id);
    }
  }

  lemma LastOnSnoc(links: map<Id, Link>, history: seq<Event>, e: Event, incoming: bool, id: Id)
    requires LinksFold(links, history, incoming) && !(e.OnLink? && e.incoming == incoming && KeyOf(e) == id)
    ensures id in links ==> exists k ::
        LastOn(history + [e], incoming, id, k) && DescribedBy(links[id], (history + [e])[k])
  {
    if id in links {
      var k :| LastOn(history, incoming, id, k) && DescribedBy(links[id], history[k]);
      assert LastOn(history + [e], incoming, id, k);
    }
  }

  /** Filing a link event. */
  lemma FiledEventKeepsLinks(links: map<Id, Link>, history: seq<Event>, e: Event, link: Link)
    requires e.OnLink? && LinksFold(links, history, e.incoming) && DescribedBy(link, e)
    requires link.packets == (if KeyOf(e) in links then links[KeyOf(e)].packets else 0) +
        (if e.kind.Data? then 1 else 0)
    requires link.bytes == (if KeyOf(e) in links then links[KeyOf(e)].bytes else 0) +
        (if e.kind.Data? then e.kind.len else 0)
    ensures LinksFold(links[KeyOf(e) := link], history + [e], e.incoming)
  {
    var key, filed, incoming := KeyOf(e), links[KeyOf(e) := link], e.incoming;
    assert LastOn(history + [e], incoming, key, |history|);
    forall id: Id
      ensures id in filed <==> Seen(history + [e], incoming, id)
      ensures id in filed ==>
        && filed[id].packets == DataCount(history + [e], incoming, id)
        && filed[id].bytes == DataBytes(history + [e], incoming, id)
      ensures id in filed ==> exists k ::
          LastOn(history + [e], incoming, id, k) && DescribedBy(filed[id], (history + [e])[k])
    {
      SnocCounts(history, e, incoming, id);
      if id != key {
        LastOnSnoc(links, history, e, incoming, id);
      } else if key !in links {
        UnseenHasNoData(history, incoming, key);
      }
    }
  }

  // --- the code ---

  datatype View = View(stats: Stats, incoming: seq<Link>, outgoing: seq<Link>, events: seq<Entry>)

  class GatewayReticulum {
    var stats: Stats
    var incomingLinks: map<Id, Link>
    var outgoingLinks: map<Id, Link>
    var events: seq<Entry>
    ghost var history: seq<Event>

    ghost predicate Valid()
      reads this
    {
      && StatsFold(stats, history)
      && LinksFold(incomingLinks, history, true) && LinksFold(outgoingLinks, history, false)
      && events == Newest(history)
    }

    constructor ()
      ensures Valid() && history == []
    {
      stats := Stats(0, 0, 0, 0, 0, 0, 0, 0);
      incomingLinks, outgoingLinks, events, history := map[], map[], [], [];
    }

    /** `push_event`: in front, then cut to the buffer size. */
    method PushEvent(entry: Entry)
      modifies this`events
      ensures events ==
        var pushed := [entry] + old(events);
        if |pushed| <= EVENT_BUF_SIZE then pushed else pushed[..EVENT_BUF_SIZE]
    {
      events := [entry] + events;
      if |events| > EVENT_BUF_SIZE {
        events := events[..EVENT_BUF_SIZE];
      }
    }

    /** `record_interface_error`. */
    method RecordInterfaceError(ts: nat, mod: nat, kind: ErrorKind)
      requires Valid()
      modifies this
      ensures Valid() && history == old(history) + [OnError(ts, mod, kind)]
    {
      ghost var e := OnError(ts, mod, kind);
      CountErrorKeepsFold(stats, history, e);
      stats := CountError(stats, kind);
      Keep(e);
      PushEvent(Entry(ts, Interface, InterfaceError(mod, kind), None, None));
    }

    /** The ghost side of an event that files nothing. */
    ghost method Keep(e: Event)
      requires !e.OnLink? && LinksFold(incomingLinks, history, true) && LinksFold(outgoingLinks, history, false)
      requires events == Newest(history)
      modifies this`history
      ensures history == old(history) + [e]
      ensures LinksFold(incomingLinks, history, true) && LinksFold(outgoingLinks, history, false)
      ensures Newest(history) ==
        var pushed := [EntryOf(e)] + events;
        if |pushed| <= EVENT_BUF_SIZE then pushed else pushed[..EVENT_BUF_SIZE]
    {
      OtherEventKeepsLinks(incomingLinks, history, e, true);
      OtherEventKeepsLinks(outgoingLinks, history, e, false);
      SnocNewest(history, e);
      history := history + [e];
    }

    /** `handle_received_data`. */
    method HandleReceivedData(ts: nat, destination: Id, len: nat)
      requires Valid()
      modifies this
      ensures Valid() && history == old(history) + [OnData(ts, destination, len)]
    {
      ErrorsAfter(history, OnData(ts, destination, len));
      Keep(OnData(ts, destination, len));
      PushEvent(Entry(ts, Transport, ReceivedData(len), None, Some(destination)));
    }

    /** `handle_announce`. */
    method HandleAnnounce(ts: nat, destination: Id, len: nat)
      requires Valid()
      modifies this
      ensures Valid() && history == old(history) + [OnAnnounce(ts, destination, len)]
    {
      ErrorsAfter(history, OnAnnounce(ts, destination, len));
      Keep(OnAnnounce(ts, destination, len));
      PushEvent(Entry(ts, Transport, Announce(len), None, Some(destination)));
    }

    /** `handle_link_event`. */
    method HandleLinkEvent(ts: nat, incoming: bool, id: Id, address: Id, kind: LinkKind, found: Option<Found>)
      requires Valid()
      modifies this
      ensures Valid() && history == old(history) + [OnLink(ts, incoming, id, address, kind, found)]
    {
      ghost var e := OnLink(ts, incoming, id, address, kind, found);
      OtherEventKeepsLinks(if incoming then outgoingLinks else incomingLinks, history, e, !incoming);
      SnocNewest(history, e);
      ErrorsAfter(history, e);
      var filed := if incoming then incomingLinks else outgoingLinks;
      var links := FileLink(filed, ts, incoming, id, address, kind, found, history);
      if incoming {
        incomingLinks := links;
      } else {
        outgoingLinks := links;
      }
      history := history + [e];
      PushEvent(Entry(ts, if incoming then Incoming else Outgoing, LinkEvent(kind), Some(id), Some(address)));
    }

    /** `snapshot`: the links of each map, the latest seen first and by id among equals. */
    method TakeSnapshot() returns (v: View)
      requires Valid()
      ensures v.events == Newest(history) && StatsFold(v.stats, history)
      ensures Listing(v.incoming, incomingLinks) && LinksFold(incomingLinks, history, true)
      ensures Listing(v.outgoing, outgoingLinks) && LinksFold(outgoingLinks, history, false)
    {
      var incoming := ListLinks(incomingLinks);
      var outgoing := ListLinks(outgoingLinks);
      v := View(stats, incoming, outgoing, events);
    }
  }

  /** Updating or inserting the entry of a link event in the map of its direction. */
  method FileLink(links: map<Id, Link>, ts: nat, incoming: bool, id: Id, address: Id, kind: LinkKind,
      found: Option<Found>,
                  ghost history: seq<Event>)
    returns (filed: map<Id, Link>)
    requires LinksFold(links, history, incoming)
    ensures LinksFold(filed, history + [OnLink(ts, incoming, id, address, kind, found)], incoming)
  {
    var snapshot := match found
      case Some(link) => Link(link.id, link.destination, kind.Closed?, kind, 0, 0, Some(link.rtt), ts)
      case None => Link(id, address, kind.Closed?, kind, 0, 0, None, ts);
    var entry := if snapshot.id in links then links[snapshot.id] else snapshot;
    entry := entry.(destination := snapshot.destination, closed := snapshot.closed, rtt := snapshot.rtt,
                    lastEvent := snapshot.lastEvent, lastSeen := snapshot.lastSeen);
    if kind.Data? {
      entry := entry.(packets := entry.packets + 1, bytes := entry.bytes + kind.len);
    }
    FiledEventKeepsLinks(links, history, OnLink(ts, incoming, id, address, kind, found), entry);
    filed := links[snapshot.id := entry];
  }

  lemma ErrorsAfter(history: seq<Event>, e: Event)
    ensures forall kind ::
      ErrorCount(history + [e], kind) == ErrorCount(history, kind) + (if e.OnError? && e.error == kind then 1 else 0)
  {
    forall kind {
      SnocErrors(history, e, kind);
    }
  }

  lemma CountErrorKeepsFold(s: Stats, history: seq<Event>, e: Event)
    requires e.OnError? && StatsFold(s, history)
    ensures StatsFold(CountError(s, e.error), history + [e])
  {
    ErrorsAfter(history, e);
  }

  // --- listings ---

  predicate Before(a: Link, b: Link) {
    a.lastSeen > b.lastSeen || (a.lastSeen == b.lastSeen && a.id <= b.id)
  }

  predicate Sorted(links: seq<Link>) {
    forall i, j :: 0 <= i < j < |links| ==> Before(links[i], links[j])
  }

  /** Sorted, and each link of the map once. */
  ghost predicate Listing(list: seq<Link>, links: map<Id, Link>) {
    && Sorted(list) && |list| == |links|
    && (forall i :: 0 <= i < |list| ==> list[i].id in links && links[list[i].id] == list[i])
    && (forall i, j :: 0 <= i < j < |list| ==> list[i].id != list[j].id)
  }

  function Insert(l: Link, list: seq<Link>): seq<Link> {
    if list == [] || Before(l, list[0]) then [l] + list else [list[0]] + Insert(l, list[1..])
  }

  lemma {:induction false} InsertListed(l: Link, list: seq<Link>, links: map<Id, Link>)
    requires Listing(list, links) && l.id !in links
    ensures Listing(Insert(l, list), links[l.id := l])
  {
    if list == [] || Before(l, list[0]) {
      assert forall x :: x in list ==> Before(l, x);
      PrependListed(l, list, links);
    } else {
      var head := list[0];
      var fewer: map<Id, Link> := links - {head.id};
      ListingTail(list, links);
      InsertListed(l, list[1..], fewer);
      InsertMembers(l, list[1..]);
      assert forall x :: x in list[1..] ==> Before(head, x);
      PrependListed(head, Insert(l, list[1..]), fewer[l.id := l]);
      var grown: map<Id, Link> := fewer[l.id := l];
      assert grown[head.id := head] == links[l.id := l];
    }
  }

  /** Putting a link that is not after any of the others in front. */
  lemma PrependListed(l: Link, list: seq<Link>, links: map<Id, Link>)
    requires Listing(list, links) && l.id !in links
    requires forall x :: x in list ==> Before(l, x)
    ensures Listing([l] + list, links[l.id := l])
  {
    var r := [l] + list;
    forall i, j | 0 <= i < j < |r|
      ensures Before(r[i], r[j]) && r[i].id != r[j].id
    {
      assert r[j] == list[j - 1] && r[j] in list;
    }
  }

  lemma {:induction false} InsertMembers(l: Link, list: seq<Link>)
    ensures forall x :: x in Insert(l, list) <==> x == l || x in list
  {
    if list != [] && !Before(l, list[0]) {
      InsertMembers(l, list[1..]);
      assert list == [list[0]] + list[1..];
    }
  }

  lemma ListingTail(list: seq<Link>, links: map<Id, Link>)
    requires Listing(list, links) && list != []
    ensures Listing(list[1..], links - {list[0].id})
  {
    var fewer := links - {list[0].id};
    assert links.Keys == fewer.Keys + {list[0].id};
    assert |links.Keys| == |fewer.Keys| + 1;
  }

  /** Cloning a map's values, which come in any order, and sorting them. */
  method ListLinks(links: map<Id, Link>) returns (list: seq<Link>)
    requires forall id :: id in links ==> links[id].id == id
    ensures Listing(list, links)
  {
    list := [];
    var rest := links.Keys;
    assert links - rest == map[];
    while rest != {}
      invariant rest <= links.Keys
      invariant Listing(list, links - rest)
    {
      var id :| id in rest;
      ListOneMore(list, links, rest, id);
      list := Insert(links[id], list);
      rest := rest - {id};
    }
    assert links - {} == links;
  }

  lemma ListOneMore(list: seq<Link>, links: map<Id, Link>, rest: set<Id>, id: Id)
    requires id in rest && rest <= links.Keys && links[id].id == id && Listing(list, links - rest)
    ensures Listing(Insert(links[id], list), links - (rest - {id}))
  {
    InsertListed(links[id], list, links - rest);
    assert links - (rest - {id}) == (links - rest)[id := links[id]];
  }

  // --- what a snapshot shows, in terms of the history ---

  /** An entry tells its event. */
  predicate EntryTells(entry: Entry, e: Event) {
    && entry.ts == e.ts
    && match e
       case OnLink(_, incoming, id, address, kind, _) =>
         && entry.direction == (if incoming then Incoming else Outgoing) && entry.what == LinkEvent(kind)
         && entry.link == Some(id) && entry.destination == Some(address)
       case OnData(_, destination, len) =>
         && entry.direction == Transport && entry.what == ReceivedData(len)
         && entry.link == None && entry.destination == Some(destination)
       case OnAnnounce(_, destination, len) =>
         && entry.direction == Transport && entry.what == Announce(len)
         && entry.link == None && entry.destination == Some(destination)
       case OnError(_, mod, error) =>
         && entry.direction == Interface && entry.what == InterfaceError(mod, error)
         && entry.link == None && entry.destination == None
  }

  lemma EntriesTell(e: Event)
    ensures EntryTells(EntryOf(e), e)
  {
  }

  /** The ring: at most 256 entries, the newest first, each telling its event. */
  lemma NewestEntries(history: seq<Event>, i: nat)
    requires i < |history| && i < 256
    ensures |Newest(history)| == (if |history| <= 256 then |history| else 256)
    ensures EntryTells(Newest(history)[i], history[|history| - 1 - i])
  {
    assert Newest(history)[i] == EntryOf(history[|history| - 1 - i]);
    EntriesTell(history[|history| - 1 - i]);
  }

  /** The positions of a history at which something holds. */
  ghost function Positions(history: seq<Event>, holds: Event -> bool): set<int> {
    set i | 0 <= i < |history| && holds(history[i])
  }

  lemma PositionsSnoc(front: seq<Event>, e: Event, holds: Event -> bool)
    ensures Positions(front + [e], holds) == Positions(front, holds) + if holds(e) then {|front|} else {}
  {
  }

  /** The counters are the numbers of errors of each kind, and the totals those of each side. */
  lemma {:induction false} ErrorsCounted(history: seq<Event>, kind: ErrorKind)
    ensures ErrorCount(history, kind) == |Positions(history, (e: Event) => e.OnError? && e.error == kind)|
  {
    if history != [] {
      var n := |history| - 1;
      ErrorsCounted(history[..n], kind);
      PositionsSnoc(history[..n], history[n], (e: Event) => e.OnError? && e.error == kind);
      assert history[..n] + [history[n]] == history;
    }
  }

  /** The id an event is filed under: that of the link the transport knows, or else the event's own. */
  predicate FiledUnder(e: Event, incoming: bool, id: Id) {
    e.OnLink? && e.incoming == incoming && (if e.found.Some? then e.found.value.id == id else e.id == id)
  }

  lemma {:induction false} DataCounted(history: seq<Event>, incoming: bool, id: Id)
    ensures DataCount(history, incoming, id) ==
      |Positions(history, (e: Event) => FiledUnder(e, incoming, id) && e.kind.Data?)|
  {
    if history != [] {
      var n := |history| - 1;
      DataCounted(history[..n], incoming, id);
      PositionsSnoc(history[..n], history[n], (e: Event) => FiledUnder(e, incoming, id) && e.kind.Data?);
      assert history[..n] + [history[n]] == history;
    }
  }

  /** The bytes of one event more. */
  lemma BytesSnoc(front: seq<Event>, e: Event, incoming: bool, id: Id)
    ensures DataBytes([], incoming, id) == 0
    ensures DataBytes(front + [e], incoming, id) ==
      DataBytes(front, incoming, id) + if FiledUnder(e, incoming, id) && e.kind.Data? then e.kind.len else 0
  {
    SnocCounts(front, e, incoming, id);
  }

  /** What the maps hold, in terms of the history: a link for each id events were filed under, with the
      number and bytes of its data events and the description of the last event. */
  lemma LinkTellsHistory(links: map<Id, Link>, history: seq<Event>, incoming: bool, id: Id)
    requires LinksFold(links, history, incoming)
    ensures id in links <==> exists k :: 0 <= k < |history| && FiledUnder(history[k], incoming, id)
    ensures id in links ==>
      && links[id].packets == |Positions(history, (e: Event) => FiledUnder(e, incoming, id) && e.kind.Data?)|
      && links[id].bytes == DataBytes(history, incoming, id)
      && exists k :: LastFiled(history, incoming, id, k) && TellsOf(links[id], history[k])
  {
    DataCounted(history, incoming, id);
    if id in links {
      var k :| LastOn(history, incoming, id, k) && DescribedBy(links[id], history[k]);
      assert LastFiled(history, incoming, id, k) && TellsOf(links[id], history[k]);
    }
    if k :| 0 <= k < |history| && FiledUnder(history[k], incoming, id) {
      assert history[k].OnLink? && history[k].incoming == incoming && KeyOf(history[k]) == id;
      assert Seen(history, incoming, id);
    }
  }

  ghost predicate LastFiled(history: seq<Event>, incoming: bool, id: Id, k: int) {
    && 0 <= k < |history| && FiledUnder(history[k], incoming, id)
    && forall j :: k < j < |history| ==> !FiledUnder(history[j], incoming, id)
  }

  predicate TellsOf(l: Link, e: Event)
    requires e.OnLink?
  {
    && l.lastSeen == e.ts && l.lastEvent == e.kind && l.closed == e.kind.Closed?
    && match e.found
       case Some(link) => l.id == link.id && l.destination == link.destination && l.rtt == Some(link.rtt)
       case None => l.id == e.id && l.destination == e.address && l.rtt == None
  }

  /** The error counters of a tracker. */
  lemma StatsTellHistory(s: Stats, history: seq<Event>)
    requires StatsFold(s, history)
    ensures s.rxLdpc == |Positions(history, (e: Event) => e.OnError? && e.error == RxLdpcDecode)|
    ensures s.rxReassembly == |Positions(history, (e: Event) => e.OnError? && e.error == RxReassembly)|
    ensures s.rxDeserialize == |Positions(history, (e: Event) => e.OnError? && e.error == RxDeserialize)|
    ensures s.txLdpc == |Positions(history, (e: Event) => e.OnError? && e.error == TxLdpcEncode)|
    ensures s.txTransmit == |Positions(history, (e: Event) => e.OnError? && e.error == TxTransmit)|
    ensures s.txSerialize == |Positions(history, (e: Event) => e.OnError? && e.error == TxSerialize)|
    ensures s.rxErrors == s.rxLdpc + s.rxReassembly + s.rxDeserialize
    ensures s.txErrors == s.txLdpc + s.txTransmit + s.txSerialize
  {
    ErrorsCounted(history, RxLdpcDecode);
    ErrorsCounted(history, RxReassembly);
    ErrorsCounted(history, RxDeserialize);
    ErrorsCounted(history, TxLdpcEncode);
    ErrorsCounted(history, TxTransmit);
    ErrorsCounted(history, TxSerialize);
  }

  /** A listing shows every link of the map once: later seen links first, smaller ids first among those
      seen at one time. */
  lemma ListingShowsAll(list: seq<Link>, links: map<Id, Link>)
    requires Listing(list, links) && forall id :: id in links ==> links[id].id == id
    ensures forall l: Link :: l in list <==> l.id in links && links[l.id] == l
    ensures forall i, j :: 0 <= i < j < |list| ==>
      list[j].lastSeen < list[i].lastSeen || (list[j].lastSeen == list[i].lastSeen && list[i].id < list[j].id)
  {
    var ids := set i | 0 <= i < |list| :: list[i].id;
    ListedIds(list, |list|);
    assert ids <= links.Keys && |ids| == |links.Keys|;
    SubsetOfSize(ids, links.Keys);
    forall l: Link | l.id in links && links[l.id] == l
      ensures l in list
    {
      assert l.id in ids;
    }
  }

  lemma {:induction false} ListedIds(list: seq<Link>, n: nat)
    requires n <= |list| && forall i, j :: 0 <= i < j < |list| ==> list[i].id != list[j].id
    ensures |set i | 0 <= i < n :: list[i].id| == n
  {
    if n > 0 {
      ListedIds(list, n - 1);
      assert (set i | 0 <= i < n :: list[i].id) == (set i | 0 <= i < n - 1 :: list[i].id) + {list[n - 1].id};
    }
  }

  lemma SubsetOfSize(a: set<Id>, b: set<Id>)
    requires a <= b && |a| == |b|
    ensures a == b
  {
    assert b == a + (b - a);
    assert |b - a| == 0;
  }
}

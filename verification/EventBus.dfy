/** The event bus: one publish point with publish-time redaction, a bounded history read by sequence
    number, and bounded subscriber queues that drop their oldest event when full. A ghost log of
    everything published is the reference all of it is proved against. */
module Bus {
  import opened Wrappers
  import opened Redaction
  import opened TextPieces
  import opened RedactedValues

  datatype Kind = ModelCallCompleted | OtherKind(name: string)

  /** seqNo is the position in publishing order, stamped by the bus. */
  datatype Event = Event(id: string, seqNo: nat, kind: Kind, data: seq<Field>)

  // ---------- The unbounded log and what is retained of it ----------

  ghost predicate StampedAt(log: seq<Event>, i: int) {
    0 <= i < |log| ==> log[i].seqNo == i + 1
  }

  /** Sequence numbers are consecutive and start at one. */
  ghost predicate Stamped(log: seq<Event>) {
    forall i :: StampedAt(log, i)
  }

  lemma StampedSnoc(log: seq<Event>, e: Event)
    requires Stamped(log) && e.seqNo == |log| + 1
    ensures Stamped(log + [e])
  {
    forall i ensures StampedAt(log + [e], i) {
      assert StampedAt(log, i);
    }
  }

  /** Index of the first event that is both retained (the last size ones are) and after cursor. */
  function FirstAfter(n: nat, size: nat, cursor: int): nat {
    var retained := if n > size then n - size else 0;
    if cursor > n then n else if cursor > retained then cursor else retained
  }

  function Retained(log: seq<Event>, size: nat): seq<Event> {
    if |log| <= size then log else log[|log| - size..]
  }

  function RetainedAfter(log: seq<Event>, size: nat, cursor: int): seq<Event> {
    log[FirstAfter(|log|, size, cursor)..]
  }

  /** The events with a sequence number beyond cursor, in order. */
  function After(events: seq<Event>, cursor: int): seq<Event> {
    if events == [] then []
    else if events[0].seqNo > cursor then [events[0]] + After(events[1..], cursor)
    else After(events[1..], cursor)
  }

  lemma {:induction false} AfterIsSuffix(log: seq<Event>, from: nat, cursor: int)
    requires Stamped(log) && from <= |log|
    ensures After(log[from..], cursor) == log[if cursor > |log| then |log| else if cursor > from then cursor else from..]
    decreases |log| - from
  {
    if from < |log| {
      assert StampedAt(log, from);
      assert log[from..][1..] == log[from + 1..];
      AfterIsSuffix(log, from + 1, cursor);
    }
  }

  lemma AfterRetained(log: seq<Event>, size: nat, cursor: int)
    requires Stamped(log)
    ensures After(Retained(log, size), cursor) == RetainedAfter(log, size, cursor)
  {
    var from := if |log| <= size then 0 else |log| - size;
    assert log[from..] == Retained(log, size);
    AfterIsSuffix(log, from, cursor);
  }

  /** A bounded deque: appending beyond its length drops from the left. */
  function AppendBounded(history: seq<Event>, e: Event, size: nat): seq<Event> {
    if size == 0 then [] else if |history| >= size then history[1..] + [e] else history + [e]
  }

  lemma AppendRetained(log: seq<Event>, e: Event, size: nat)
    ensures AppendBounded(Retained(log, size), e, size) == Retained(log + [e], size)
  {
    if 0 < size <= |log| {
      LaterPart(log, e, |log| - size);
    } else if size == 0 {
      assert (log + [e])[|log| + 1..] == [];
    }
  }

  lemma LaterPart(log: seq<Event>, e: Event, from: nat)
    requires from < |log|
    ensures log[from..][1..] + [e] == (log + [e])[from + 1..]
  {
  }

  // ---------- Subscriber queues ----------

  function Somes(events: seq<Event>): seq<Option<Event>> {
    seq(|events|, i requires 0 <= i < |events| => Some(events[i]))
  }

  /** The items after an event was offered: the oldest one makes room if there is none. */
  function Offered(items: seq<Option<Event>>, maxSize: int, e: Event): seq<Option<Event>> {
    (if maxSize > 0 && |items| >= maxSize && items != [] then items[1..] else items) + [Some(e)]
  }

  /** The items after close: the sentinel is lost if there is no room for it. */
  function Ended(items: seq<Option<Event>>, maxSize: int): seq<Option<Event>> {
    if maxSize > 0 && |items| >= maxSize then items else items + [None]
  }

  datatype Received = Got(event: Event) | Cancelled | WouldBlock

  function Taken(items: seq<Option<Event>>): Received {
    if items == [] then WouldBlock else if items[0].None? then Cancelled else Got(items[0].value)
  }

  /** The life of a queue so far: where in the log it was subscribed, where its oldest unread event is,
      what its reader received, what was dropped unread, and the sentinels waiting in it. */
  datatype Account = Account(since: nat, head: nat, received: seq<Event>, dropped: seq<Event>, ends: nat)

  function Sentinels(n: nat): seq<Option<Event>> {
    seq(n, i requires 0 <= i < n => None)
  }

  // The clauses are named so that the verifier uses them only where they are asked for.
  datatype Clause = Unread | Settled | InOrder

  ghost predicate Holds(c: Clause, log: seq<Event>, closed: bool, maxSize: int, items: seq<Option<Event>>, a: Account)
    requires a.since <= a.head <= |log|
  {
    match c
    case Unread =>
      && items == Somes(log[a.head..]) + Sentinels(a.ends)
      && (!closed ==> a.ends == 0)
      && (maxSize > 0 ==> |items| <= maxSize)
    case Settled =>
      multiset(a.received) + multiset(a.dropped) == multiset(log[a.since..a.head])
    case InOrder =>
      && (forall i, j :: 0 <= i < j < |a.received| ==> a.received[i].seqNo < a.received[j].seqNo)
      && (forall i :: 0 <= i < |a.received| ==> a.received[i].seqNo <= a.head)
  }

  /** The unread events are the most recent contiguous block of the log, within the bound; what was
      received is in increasing order and, with what was dropped, accounts for every earlier event
      since the subscription exactly once. */
  ghost predicate Tracking(log: seq<Event>, closed: bool, maxSize: int, items: seq<Option<Event>>, a: Account) {
    a.since <= a.head <= |log| && forall c :: Holds(c, log, closed, maxSize, items, a)
  }

  lemma TrackNew(log: seq<Event>, closed: bool, maxSize: int)
    ensures Tracking(log, closed, maxSize, [], Account(|log|, |log|, [], [], 0))
  {
    var a := Account(|log|, |log|, [], [], 0);
    assert log[|log|..] == [] && log[|log|..|log|] == [];
    forall c ensures Holds(c, log, closed, maxSize, [], a) {
    }
  }

  ghost function AfterOffer(log: seq<Event>, maxSize: int, items: seq<Option<Event>>, a: Account): Account {
    if maxSize > 0 && |items| >= maxSize && a.head < |log| then
      a.(head := a.head + 1, dropped := a.dropped + [log[a.head]])
    else a
  }

  lemma TrackOffered(log: seq<Event>, maxSize: int, items: seq<Option<Event>>, a: Account, e: Event)
    requires Tracking(log, false, maxSize, items, a)
    ensures Tracking(log + [e], false, maxSize, Offered(items, maxSize, e), AfterOffer(log, maxSize, items, a))
  {
    var b := AfterOffer(log, maxSize, items, a);
    assert Holds(Unread, log, false, maxSize, items, a);
    assert (log + [e])[b.since..b.head] == log[b.since..b.head];
    assert (log + [e])[b.head..] == log[b.head..] + [e];
    SomesSlices(log, e, a.head, b.head);
    forall c ensures Holds(c, log + [e], false, maxSize, Offered(items, maxSize, e), b) {
      assert Holds(c, log, false, maxSize, items, a);
      if c == Settled && b.head == a.head + 1 {
        assert log[a.since..b.head] == log[a.since..a.head] + [log[a.head]];
      }
    }
  }

  lemma SomesSlices(log: seq<Event>, e: Event, from: nat, to: nat)
    requires from <= to <= |log| && to <= from + 1
    ensures Somes(log[to..]) == if to == from then Somes(log[from..]) else Somes(log[from..])[1..]
    ensures Somes(log[to..] + [e]) == Somes(log[to..]) + [Some(e)]
  {
  }

  ghost function AfterEnd(maxSize: int, items: seq<Option<Event>>, a: Account): Account {
    if maxSize > 0 && |items| >= maxSize then a else a.(ends := a.ends + 1)
  }

  lemma TrackEnded(log: seq<Event>, closed: bool, maxSize: int, items: seq<Option<Event>>, a: Account)
    requires Tracking(log, closed, maxSize, items, a)
    ensures Tracking(log, true, maxSize, Ended(items, maxSize), AfterEnd(maxSize, items, a))
  {
    assert Sentinels(a.ends + 1) == Sentinels(a.ends) + [None];
    forall c ensures Holds(c, log, true, maxSize, Ended(items, maxSize), AfterEnd(maxSize, items, a)) {
      assert Holds(c, log, closed, maxSize, items, a);
    }
  }

  ghost function AfterTake(items: seq<Option<Event>>, a: Account): Account {
    if items == [] then a
    else if items[0].Some? then a.(head := a.head + 1, received := a.received + [items[0].value])
    else if a.ends > 0 then a.(ends := a.ends - 1)
    else a
  }

  lemma TrackTaken(log: seq<Event>, closed: bool, maxSize: int, items: seq<Option<Event>>, a: Account)
    requires Stamped(log) && Tracking(log, closed, maxSize, items, a) && items != []
    ensures Tracking(log, closed, maxSize, items[1..], AfterTake(items, a))
    ensures items[0].Some? ==> a.head < |log| && items[0].value == log[a.head]
  {
    var b := AfterTake(items, a);
    assert Holds(Unread, log, closed, maxSize, items, a);
    UnreadItems(log, closed, maxSize, items, a);
    forall c ensures Holds(c, log, closed, maxSize, items[1..], b) {
      TrackTakenClause(c, log, closed, maxSize, items, a);
    }
  }

  lemma TrackTakenClause(c: Clause, log: seq<Event>, closed: bool, maxSize: int, items: seq<Option<Event>>, a: Account)
    requires Stamped(log) && Tracking(log, closed, maxSize, items, a) && items != []
    requires items[0].Some? ==> a.head < |log| && items[0].value == log[a.head]
    ensures Holds(c, log, closed, maxSize, items[1..], AfterTake(items, a))
  {
    var b := AfterTake(items, a);
    assert Holds(c, log, closed, maxSize, items, a);
    match c {
      case Unread =>
        if items[0].Some? {
          SomesSlices(log, log[a.head], a.head, b.head);
        }
      case Settled =>
        if items[0].Some? {
          assert log[a.since..b.head] == log[a.since..a.head] + [log[a.head]];
        }
      case InOrder =>
        assert StampedAt(log, a.head);
    }
  }

  /** A sentinel can only come after the last event. */
  lemma UnreadItems(log: seq<Event>, closed: bool, maxSize: int, items: seq<Option<Event>>, a: Account)
    requires Tracking(log, closed, maxSize, items, a)
    ensures items == [] ==> a.head == |log|
    ensures items != [] && items[0].None? ==> a.head == |log|
    ensures items != [] && items[0].Some? ==>
              a.head < |log| && items[0].value == log[a.head] && (None in items <==> None in items[1..])
  {
    assert Holds(Unread, log, closed, maxSize, items, a);
    if items != [] {
      assert items == [items[0]] + items[1..];
      if a.head < |log| {
        assert items[0] == Somes(log[a.head..])[0];
      } else {
        assert Somes(log[a.head..]) == [];
      }
    }
  }

  class EventQueue {
    /** Not positive means unbounded. */
    const maxSize: int
    /** None is the sentinel put by close. */
    var items: seq<Option<Event>>
    ghost var account: Account

    constructor (maxSize: int, ghost logLength: nat)
      ensures this.maxSize == maxSize && items == [] && account == Account(logLength, logLength, [], [], 0)
    {
      this.maxSize, items := maxSize, [];
      account := Account(logLength, logLength, [], [], 0);
    }

    ghost predicate Tracks(log: seq<Event>, closed: bool)
      reads this
    {
      Tracking(log, closed, maxSize, items, account)
    }

    /** Drops the oldest event rather than blocking when there is no room. */
    method Enqueue(e: Event, ghost log: seq<Event>)
      requires Tracks(log, false)
      modifies this
      ensures Tracks(log + [e], false)
      ensures items == Offered(old(items), maxSize, e) && account == AfterOffer(log, maxSize, old(items), old(account))
    {
      TrackOffered(log, maxSize, items, account, e);
      account := AfterOffer(log, maxSize, items, account);
      if maxSize > 0 && |items| >= maxSize {
        items := items[1..];
      }
      items := items + [Some(e)];
    }

    method PutSentinel(ghost log: seq<Event>, ghost closed: bool)
      requires Tracks(log, closed)
      modifies this
      ensures Tracks(log, true)
      ensures items == Ended(old(items), maxSize) && account == AfterEnd(maxSize, old(items), old(account))
    {
      TrackEnded(log, closed, maxSize, items, account);
      account := AfterEnd(maxSize, items, account);
      if maxSize <= 0 || |items| < maxSize {
        items := items + [None];
      }
    }

    /** Takes the oldest item. */
    method Take(ghost log: seq<Event>, ghost closed: bool) returns (r: Received)
      requires Tracks(log, closed) && Stamped(log)
      modifies this
      ensures Tracks(log, closed)
      ensures r == Taken(old(items)) && account == AfterTake(old(items), old(account))
      ensures items == if old(items) == [] then [] else old(items)[1..]
    {
      if items == [] {
        return WouldBlock;
      }
      TrackTaken(log, closed, maxSize, items, account);
      account := AfterTake(items, account);
      var item := items[0];
      items := items[1..];
      return if item.None? then Cancelled else Got(item.value);
    }
  }

  ghost predicate QueuesDiffer(queues: seq<EventQueue>, i: int, j: int) {
    0 <= i < j < |queues| ==> queues[i] != queues[j]
  }

  lemma OthersDiffer(queues: seq<EventQueue>, i: nat)
    requires i < |queues| && forall i, j :: QueuesDiffer(queues, i, j)
    ensures forall j :: 0 <= j < |queues| && j != i ==> queues[j] != queues[i]
  {
    forall j | 0 <= j < |queues| && j != i ensures queues[j] != queues[i] {
      assert QueuesDiffer(queues, i, j) && QueuesDiffer(queues, j, i);
    }
  }

  /** Offers the event to every queue. */
  method FanOut(queues: seq<EventQueue>, e: Event, ghost log: seq<Event>)
    requires forall i, j :: QueuesDiffer(queues, i, j)
    requires forall q :: q in queues ==> q.Tracks(log, false)
    modifies queues
    ensures forall q :: q in queues ==> q.Tracks(log + [e], false)
    ensures forall q :: q in queues ==> q.items == Offered(old(q.items), q.maxSize, e)
    ensures forall q :: q in queues ==> q.account == AfterOffer(log, q.maxSize, old(q.items), old(q.account))
  {
    for i := 0 to |queues|
      invariant forall j :: 0 <= j < i ==> queues[j].Tracks(log + [e], false)
      invariant forall j :: 0 <= j < i ==> queues[j].items == Offered(old(queues[j].items), queues[j].maxSize, e)
      invariant forall j :: 0 <= j < i ==>
                  queues[j].account == AfterOffer(log, queues[j].maxSize, old(queues[j].items), old(queues[j].account))
      invariant forall j :: i <= j < |queues| ==> unchanged(queues[j])
    {
      OthersDiffer(queues, i);
      queues[i].Enqueue(e, log);
    }
  }

  /** Puts the sentinel into every queue that has room for it. */
  method EndAll(queues: seq<EventQueue>, ghost log: seq<Event>, ghost closed: bool)
    requires forall i, j :: QueuesDiffer(queues, i, j)
    requires forall q :: q in queues ==> q.Tracks(log, closed)
    modifies queues
    ensures forall q :: q in queues ==> q.Tracks(log, true)
    ensures forall q :: q in queues ==> q.items == Ended(old(q.items), q.maxSize)
    ensures forall q :: q in queues ==> q.account == AfterEnd(q.maxSize, old(q.items), old(q.account))
  {
    for i := 0 to |queues|
      invariant forall j :: 0 <= j < i ==> queues[j].Tracks(log, true)
      invariant forall j :: 0 <= j < i ==> queues[j].items == Ended(old(queues[j].items), queues[j].maxSize)
      invariant forall j :: 0 <= j < i ==>
                  queues[j].account == AfterEnd(queues[j].maxSize, old(queues[j].items), old(queues[j].account))
      invariant forall j :: i <= j < |queues| ==> unchanged(queues[j])
    {
      OthersDiffer(queues, i);
      queues[i].PutSentinel(log, closed);
    }
  }

  lemma OneMoreQueue(queues: seq<EventQueue>, queue: EventQueue)
    requires queue !in queues && forall i, j :: QueuesDiffer(queues, i, j)
    ensures forall i, j :: QueuesDiffer(queues + [queue], i, j)
  {
    forall i, j ensures QueuesDiffer(queues + [queue], i, j) {
      assert QueuesDiffer(queues, i, j);
    }
  }

  // ---------- The bus ----------

  /** What publishing makes of the n-th event. */
  function Stamp(secrets: Option<seq<string>>, e: Event, n: nat): Event
    requires secrets.Some? ==> NonEmpty(secrets.value)
  {
    e.(seqNo := n, data := if secrets.Some? then RedactFields(secrets.value, e.data) else e.data)
  }

  /** The n-th event as published: numbered, and its data redacted path by path, if there is a redactor. */
  ghost predicate PublishedAs(secrets: Option<seq<string>>, e: Event, event: Event, n: nat)
    requires secrets.Some? ==> NonEmpty(secrets.value)
  {
    && event.id == e.id && event.kind == e.kind && event.seqNo == n
    && (secrets.None? ==> event.data == e.data)
    && (secrets.Some? ==> RedactedForm(secrets.value, Dict(e.data), Dict(event.data)))
  }

  lemma StampPublishes(secrets: Option<seq<string>>, e: Event, n: nat)
    requires secrets.Some? ==> NonEmpty(secrets.value)
    ensures PublishedAs(secrets, e, Stamp(secrets, e, n), n)
  {
    if secrets.Some? {
      RedactedPaths(secrets.value, Dict(e.data));
    }
  }

  /** Every event in the log is what was published, redacted and numbered. */
  lemma LoggedAsPublished(secrets: Option<seq<string>>, published: seq<Event>, log: seq<Event>, i: nat)
    requires Logged(secrets, published, log) && i < |log|
    ensures PublishedAs(secrets, published[i], log[i], i + 1)
  {
    assert LoggedAt(secrets, published, log, i);
    StampPublishes(secrets, published[i], i + 1);
  }

  ghost predicate LoggedAt(secrets: Option<seq<string>>, published: seq<Event>, log: seq<Event>, i: int)
    requires secrets.Some? ==> NonEmpty(secrets.value)
  {
    0 <= i < |log| ==> i < |published| && log[i] == Stamp(secrets, published[i], i + 1)
  }

  /** The log is what publishing made of what was published, event by event. */
  ghost predicate Logged(secrets: Option<seq<string>>, published: seq<Event>, log: seq<Event>) {
    && (secrets.Some? ==> NonEmpty(secrets.value)) && |published| == |log|
    && forall i :: LoggedAt(secrets, published, log, i)
  }

  lemma LoggedIsStamped(secrets: Option<seq<string>>, published: seq<Event>, log: seq<Event>)
    requires Logged(secrets, published, log)
    ensures Stamped(log)
  {
    forall i ensures StampedAt(log, i) {
      assert LoggedAt(secrets, published, log, i);
    }
  }

  lemma NothingLogged(secrets: Option<seq<string>>)
    requires secrets.Some? ==> NonEmpty(secrets.value)
    ensures Logged(secrets, [], [])
  {
    forall i ensures LoggedAt(secrets, [], [], i) {
    }
  }

  lemma LoggedMore(secrets: Option<seq<string>>, published: seq<Event>, log: seq<Event>, e: Event)
    requires Logged(secrets, published, log)
    ensures Logged(secrets, published + [e], log + [Stamp(secrets, e, |log| + 1)])
  {
    var more, now := published + [e], log + [Stamp(secrets, e, |log| + 1)];
    forall i ensures LoggedAt(secrets, more, now, i) {
      assert LoggedAt(secrets, published, log, i);
    }
  }

  /** What a bus without readers keeps: the log as published, and the end of it as history. */
  ghost predicate Recorded(secrets: Option<seq<string>>, published: seq<Event>, log: seq<Event>, history: seq<Event>, size: nat) {
    Logged(secrets, published, log) && history == Retained(log, size)
  }

  lemma RecordedMore(secrets: Option<seq<string>>, published: seq<Event>, log: seq<Event>, history: seq<Event>,
                     size: nat, e: Event)
    requires Recorded(secrets, published, log, history, size)
    ensures var event := Stamp(secrets, e, |log| + 1);
            Recorded(secrets, published + [e], log + [event], AppendBounded(history, event, size), size)
  {
    AppendRetained(log, Stamp(secrets, e, |log| + 1), size);
    LoggedMore(secrets, published, log, e);
  }

  class EventBus {
    /** The secrets of the redactor, if there is one. */
    const secrets: Option<seq<string>>
    const historySize: nat
    const maxQueue: int
    var history: seq<Event>
    var subscribers: seq<EventQueue>
    var closed: bool
    var lastSeq: nat
    /** Every event handed to publish while open, and what was made of it. */
    ghost var published: seq<Event>
    ghost var log: seq<Event>

    constructor (secrets: Option<seq<string>>, historySize: nat, maxQueue: int)
      requires secrets.Some? ==> NonEmpty(secrets.value)
      ensures Valid() && fresh(this) && log == [] && published == [] && subscribers == [] && !closed
      ensures this.secrets == secrets && this.historySize == historySize && this.maxQueue == maxQueue
    {
      this.secrets, this.historySize, this.maxQueue := secrets, historySize, maxQueue;
      history, subscribers, closed, lastSeq := [], [], false, 0;
      published, log := [], [];
      NothingLogged(secrets);
    }

    ghost predicate Valid()
      reads this, subscribers
    {
      && lastSeq == |log| && Recorded(secrets, published, log, history, historySize)
      && (forall i, j :: QueuesDiffer(subscribers, i, j))
      && (forall q :: q in subscribers ==> q.maxSize == maxQueue && q.Tracks(log, closed))
    }

    /** A reader sees what is published from now on. */
    method Subscribe() returns (queue: EventQueue)
      requires Valid()
      modifies this`subscribers
      ensures Valid() && fresh(queue) && subscribers == old(subscribers) + [queue]
      ensures queue.items == [] && queue.account == Account(|log|, |log|, [], [], 0)
    {
      queue := new EventQueue(maxQueue, |log|);
      TrackNew(log, closed, maxQueue);
      OneMoreQueue(subscribers, queue);
      subscribers := subscribers + [queue];
    }

    /** Sequence number of the last published event, zero if there is none. */
    function Cursor(): (n: nat)
      requires Valid()
      reads this, subscribers
      ensures n == |log|
    {
      lastSeq
    }

    /** The retained part of the log after cursor, whatever was evicted meanwhile. */
    function Since(cursor: int): (events: seq<Event>)
      requires Valid()
      reads this, subscribers
      ensures events == RetainedAfter(log, historySize, cursor)
    {
      LoggedIsStamped(secrets, published, log);
      AfterRetained(log, historySize, cursor);
      After(history, cursor)
    }

    /** Redacts, stamps, appends to the bounded history and offers the event to every subscriber; after
        close it does nothing. */
    method Publish(e: Event)
      requires Valid()
      modifies this, subscribers
      ensures Valid() && subscribers == old(subscribers) && closed == old(closed)
      ensures closed ==> log == old(log) && published == old(published) && forall q :: q in subscribers ==> unchanged(q)
      ensures !closed ==> published == old(published) + [e]
                          && log == old(log) + [Stamp(secrets, e, |old(log)| + 1)]
                          && PublishedAs(secrets, e, log[|log| - 1], |log|)
      ensures !closed ==> forall q :: q in subscribers ==>
                && q.items == Offered(old(q.items), maxQueue, log[|log| - 1])
                && q.account == AfterOffer(old(log), maxQueue, old(q.items), old(q.account))
    {
      if !closed {
        StampPublishes(secrets, e, |log| + 1);
        Record(e);
      }
    }

    method Record(e: Event)
      requires Valid() && !closed
      modifies this, subscribers
      ensures Valid() && subscribers == old(subscribers) && !closed && published == old(published) + [e]
      ensures log == old(log) + [Stamp(secrets, e, |old(log)| + 1)]
      ensures forall q :: q in subscribers ==>
                && q.items == Offered(old(q.items), maxQueue, log[|log| - 1])
                && q.account == AfterOffer(old(log), maxQueue, old(q.items), old(q.account))
    {
      lastSeq := lastSeq + 1;
      var event := Stamp(secrets, e, lastSeq);
      RecordedMore(secrets, published, log, history, historySize, e);
      history := AppendBounded(history, event, historySize);
      FanOut(subscribers, event, log);
      published, log := published + [e], log + [event];
    }

    /** Ends every reader that still has room for the sentinel. */
    method Close()
      requires Valid()
      modifies this, subscribers
      ensures Valid() && closed && log == old(log) && published == old(published) && subscribers == old(subscribers)
      ensures forall q :: q in subscribers ==>
                && q.items == Ended(old(q.items), maxQueue)
                && q.account == AfterEnd(maxQueue, old(q.items), old(q.account))
    {
      ghost var before := closed;
      closed := true;
      EndAll(subscribers, log, before);
    }
  }

  // ---------- Nothing visible shows a secret ----------

  lemma LogIsSecretFree(secrets: seq<string>, s: string, published: seq<Event>, log: seq<Event>, i: nat)
    requires s in secrets && !MeetsMarker(s)
    requires Logged(Some(secrets), published, log) && i < |log|
    ensures SecretFreeFields(s, log[i].data)
  {
    assert LoggedAt(Some(secrets), published, log, i);
    RedactedFieldsAreSecretFree(secrets, s, published[i].data);
  }

  /** Whatever the history or any subscriber's queue holds is free of a registered secret that cannot meet the
      marker. */
  lemma VisibleIsSecretFree(bus: EventBus, s: string, e: Event)
    requires bus.Valid() && bus.secrets.Some?
    requires s in bus.secrets.value && !MeetsMarker(s)
    requires e in bus.history || exists q :: q in bus.subscribers && Some(e) in q.items
    ensures SecretFreeFields(s, e.data)
  {
    if e !in bus.history {
      var q :| q in bus.subscribers && Some(e) in q.items;
      assert Holds(Unread, bus.log, bus.closed, q.maxSize, q.items, q.account);
      var unread := bus.log[q.account.head..];
      var k :| 0 <= k < |q.items| && q.items[k] == Some(e);
      assert unread[k] == e;
    }
    assert e in bus.log;
    var i :| 0 <= i < |bus.log| && bus.log[i] == e;
    LogIsSecretFree(bus.secrets.value, s, bus.published, bus.log, i);
  }

  // ---------- Readers ----------

  class EventReader {
    const queue: EventQueue

    constructor (queue: EventQueue)
      ensures this.queue == queue
    {
      this.queue := queue;
    }

    method Get(ghost bus: EventBus) returns (r: Received)
      requires bus.Valid() && queue in bus.subscribers
      modifies queue
      ensures bus.Valid() && r == Taken(old(queue.items))
      ensures queue.items == if old(queue.items) == [] then [] else old(queue.items)[1..]
      ensures queue.account == AfterTake(old(queue.items), old(queue.account))
    {
      LoggedIsStamped(bus.secrets, bus.published, bus.log);
      r := queue.Take(bus.log, bus.closed);
    }

    /** A read in terms of the log: the oldest unread event, and nothing else but after the last one. */
    method Next(ghost bus: EventBus) returns (r: Received)
      requires bus.Valid() && queue in bus.subscribers
      modifies queue
      ensures bus.Valid() && queue.account.dropped == old(queue.account.dropped) && |queue.items| <= |old(queue.items)|
      ensures r.Got? ==>
                && old(queue.account.head) < |bus.log| && r.event == bus.log[old(queue.account.head)]
                && queue.account.head == old(queue.account.head) + 1
                && queue.account.received == old(queue.account.received) + [r.event]
                && |queue.items| < |old(queue.items)| && (None in queue.items <==> None in old(queue.items))
      ensures !r.Got? ==> queue.account.head == old(queue.account.head) == |bus.log|
                          && queue.account.received == old(queue.account.received)
                          && (r.Cancelled? <==> None in old(queue.items))
    {
      assert Holds(Unread, bus.log, bus.closed, queue.maxSize, queue.items, queue.account);
      UnreadItems(bus.log, bus.closed, queue.maxSize, queue.items, queue.account);
      r := Get(bus);
    }

    /** Reads until the sentinel, or until there is nothing left to read: it gets exactly the unread
        block of the log, and ends exactly if the sentinel was put. */
    method Iterate(ghost bus: EventBus) returns (events: seq<Event>, ended: bool)
      requires bus.Valid() && queue in bus.subscribers
      modifies queue
      ensures bus.Valid() && events == bus.log[old(queue.account.head)..]
      ensures ended <==> None in old(queue.items)
      ensures queue.account.received == old(queue.account.received) + events
      ensures queue.account.dropped == old(queue.account.dropped)
    {
      events, ended := [], false;
      ghost var head := queue.account.head;
      HeadInLog(bus, queue);
      while !ended
        invariant bus.Valid() && head <= queue.account.head <= |bus.log|
        invariant events == bus.log[head..queue.account.head]
        invariant queue.account.received == old(queue.account.received) + events
        invariant queue.account.dropped == old(queue.account.dropped)
        invariant !ended ==> (None in queue.items <==> None in old(queue.items))
        invariant ended ==> None in old(queue.items) && queue.account.head == |bus.log|
        decreases |queue.items|, !ended
      {
        var r := Next(bus);
        match r {
          case WouldBlock => break;
          case Cancelled => ended := true;
          case Got(e) => events := events + [e];
        }
      }
    }
  }

  lemma HeadInLog(bus: EventBus, queue: EventQueue)
    requires bus.Valid() && queue in bus.subscribers
    ensures queue.account.head <= |bus.log| && bus.log[queue.account.head..queue.account.head] == []
  {
  }

  /** Close reaches a reader exactly if its queue was not full: a full queue loses the sentinel, and its
      reader waits forever after the last event. */
  lemma SentinelIff(log: seq<Event>, maxSize: int, items: seq<Option<Event>>, a: Account)
    requires Tracking(log, false, maxSize, items, a)
    ensures None in Ended(items, maxSize) <==> maxSize <= 0 || |items| < maxSize
  {
    assert Holds(Unread, log, false, maxSize, items, a);
    assert None !in Somes(log[a.head..]);
  }

  /** One subscriber with room for one event, one event, and close: the reader gets the event and no end. */
  method FullQueueNeverEnds(e: Event) returns (events: seq<Event>, ended: bool)
    ensures |events| == 1 && !ended
  {
    var bus := new EventBus(None, 10, 1);
    var queue := bus.Subscribe();
    bus.Publish(e);
    bus.Close();
    var reader := new EventReader(queue);
    events, ended := reader.Iterate(bus);
  }

  /** What a reader received is in strictly increasing order of sequence numbers, everything since the
      subscription is received, dropped or still unread, exactly once, and what is unread is newer than
      all that was received. */
  lemma DeliveryAccount(log: seq<Event>, closed: bool, maxSize: int, items: seq<Option<Event>>, a: Account)
    requires Stamped(log) && Tracking(log, closed, maxSize, items, a)
    ensures multiset(a.received) + multiset(a.dropped) + multiset(log[a.head..]) == multiset(log[a.since..])
    ensures forall i, j :: 0 <= i < j < |a.received| ==> a.received[i].seqNo < a.received[j].seqNo
    ensures forall i, j :: 0 <= i < |a.received| && a.head <= j < |log| ==> a.received[i].seqNo < log[j].seqNo
    ensures maxSize > 0 ==> |log| - a.head <= maxSize
  {
    assert Holds(Settled, log, closed, maxSize, items, a);
    assert Holds(InOrder, log, closed, maxSize, items, a);
    assert Holds(Unread, log, closed, maxSize, items, a);
    assert log[a.since..] == log[a.since..a.head] + log[a.head..];
    forall j | a.head <= j < |log| ensures log[j].seqNo > a.head {
      assert StampedAt(log, j);
    }
  }
}

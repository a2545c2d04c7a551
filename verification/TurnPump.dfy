/** One user turn seen from the terminal: a pump drains the bus by cursor while the turn runs, renders
    each event and counts the tokens of completed model calls; the end of the turn renders and counts
    what the pump missed. Passes are atomic, and publishes, passes and the pump's cancellation
    interleave freely, so a turn is any sequence of publishes and passes followed by its end. */
module TurnPump {
  import opened Redaction
  import opened TextPieces
  import opened TextLines
  import opened RedactedValues
  import opened Wrappers
  import opened Bus

  datatype Usage = Usage(input: int, output: int, requests: int, cost: Option<real>)

  function OrZero(a: Option<real>): real {
    if a.Some? then a.value else 0.0
  }

  function AddCost(a: Option<real>, b: Option<real>): Option<real> {
    if a.Some? || b.Some? then Some(OrZero(a) + OrZero(b)) else None
  }

  function Add(a: Usage, b: Usage): Usage {
    Usage(a.input + b.input, a.output + b.output, a.requests + b.requests, AddCost(a.cost, b.cost))
  }

  const NO_USAGE := Usage(0, 0, 0, None)

  /** Usages may be added up in any order and grouping, and a cost is known once one summand knows it. */
  lemma AddIsMonoid(a: Usage, b: Usage, c: Usage)
    ensures Add(Add(a, b), c) == Add(a, Add(b, c)) && Add(a, b) == Add(b, a)
    ensures Add(a, NO_USAGE) == a
    ensures Add(a, b).cost.Some? <==> a.cost.Some? || b.cost.Some?
  {
  }

  /** Each part is a sum, the cost of what has one included. */
  lemma AddSums(a: Usage, b: Usage)
    ensures Add(a, b).input == a.input + b.input && Add(a, b).output == a.output + b.output
    ensures Add(a, b).requests == a.requests + b.requests
    ensures a.cost.Some? && b.cost.Some? ==> Add(a, b).cost == Some(a.cost.value + b.cost.value)
  {
  }

  function Number(fields: seq<Field>, key: string): int {
    var v := At(fields, Name(key));
    if v.Other? then v.number else 0
  }

  function Tokens(e: Event): Usage {
    Usage(Number(e.data, "input_tokens"), Number(e.data, "output_tokens"), 0, None)
  }

  /** The size of the last request, or its input tokens where that is missing or zero. */
  function ContextTokens(e: Event): int {
    var c := Number(e.data, "context_tokens");
    if c != 0 then c else Number(e.data, "input_tokens")
  }

  /** The size of the last request goes before what the whole run has read, which stands in where it is missing. */
  lemma RequestSizeWins(e: Event, size: int, read: int)
    requires At(e.data, Name("input_tokens")) == Other(read)
    ensures At(e.data, Name("context_tokens")) == Other(size) && size != 0 ==> ContextTokens(e) == size
    ensures At(e.data, Name("context_tokens")) in {Other(0), Str("")} ==> ContextTokens(e) == read
  {
  }

  /** What redaction leaves of the value under a key that is not sensitive. */
  lemma {:induction false} RedactedNumber(secrets: seq<string>, fields: seq<Field>, key: string)
    requires NonEmpty(secrets) && !IsSensitiveKey(key)
    ensures Number(RedactFields(secrets, fields), key) == Number(fields, key)
  {
    if fields != [] {
      var redacted := RedactFields(secrets, fields);
      assert redacted[0] == RedactField(secrets, fields[0]) && redacted[1..] == RedactFields(secrets, fields[1..]);
      if fields[0].key == Name(key) {
        assert redacted[0].value == RedactValue(secrets, fields[0].value);
      } else {
        RedactedNumber(secrets, fields[1..], key);
      }
    }
  }

  predicate PlainChar(c: char) {
    !('A' <= c <= 'Z') && c != 'a' && c != 'r'
  }

  lemma UsageKey(head: string)
    requires forall c :: c in head ==> PlainChar(c)
    ensures !IsSensitiveKey(head + "tokens")
  {
    var key := head + "tokens";
    assert key[|head|..] == "tokens";
    forall c | c in key ensures PlainChar(c) {
      assert c in head || c in "tokens";
    }
    forall i | 0 <= i < |key| ensures Lower(key)[i] == key[i] {
      assert key[i] in key;
    }
    assert Lower(key) == key;
    TokensKeyIff(key);
    PartsHaveAOrR(key);
  }

  lemma UsageKeys()
    ensures !IsSensitiveKey("input_tokens") && !IsSensitiveKey("output_tokens") && !IsSensitiveKey("context_tokens")
  {
    UsageKey("input_");
    UsageKey("output_");
    UsageKey("context_");
    assert "input_" + "tokens" == "input_tokens";
    assert "output_" + "tokens" == "output_tokens";
    assert "context_" + "tokens" == "context_tokens";
  }

  /** Publishing never changes what an event costs, whatever the secrets: the bus redacts credentials by
      name and no usage metric is taken for one. */
  lemma PublishingKeepsTokens(secrets: Option<seq<string>>, e: Event, n: nat)
    requires secrets.Some? ==> NonEmpty(secrets.value)
    ensures Tokens(Stamp(secrets, e, n)) == Tokens(e) && ContextTokens(Stamp(secrets, e, n)) == ContextTokens(e)
  {
    if secrets.Some? {
      UsageKeys();
      RedactedNumber(secrets.value, e.data, "input_tokens");
      RedactedNumber(secrets.value, e.data, "output_tokens");
      RedactedNumber(secrets.value, e.data, "context_tokens");
    }
  }

  /** How events are read: which renderings raise, what a call cost, and how large its context was. */
  datatype View = View(fails: Event -> bool, tokens: Event -> Usage, context: Event -> int)

  function TheView(fails: Event -> bool): View {
    View(fails, e => Tokens(e), e => ContextTokens(e))
  }

  /** All completed model calls, those whose rendering did not raise, or those whose rendering did. */
  datatype Which = Every | Rendered | Broken

  predicate Selected(v: View, which: Which, e: Event) {
    e.kind.ModelCallCompleted? && (which.Every? || (which.Broken? <==> v.fails(e)))
  }

  /** Tokens of the selected model calls among the events. */
  function Spent(v: View, which: Which, events: seq<Event>): Usage {
    if events == [] then NO_USAGE
    else
      var before, e := Spent(v, which, events[..|events| - 1]), events[|events| - 1];
      if Selected(v, which, e) then Add(before, v.tokens(e)) else before
  }

  /** Context size of the last selected model call among the events, if there is one. */
  function LastContext(v: View, which: Which, events: seq<Event>, current: int): int {
    if events == [] then current
    else if Selected(v, which, events[|events| - 1]) then v.context(events[|events| - 1])
    else LastContext(v, which, events[..|events| - 1], current)
  }

  // ---------- The consumer's state ----------

  /** holder: the cursor; shown: what was handed to the renderer, in order; seen: what was drained;
      missed: what was evicted before it could be drained. */
  datatype Pump = Pump(holder: nat, rendered: set<string>, usage: Usage, lastContext: int, shown: seq<Event>,
                       seen: seq<Event>, missed: seq<Event>)

  datatype Outcome = Completed | Interrupted | Failed

  function PumpEvent(p: Pump, e: Event, v: View): Pump {
    if e.id in p.rendered then p
    else
      var q := p.(rendered := p.rendered + {e.id}, shown := p.shown + [e]);
      if v.fails(e) then q
      else if e.kind.ModelCallCompleted? then
        q.(usage := Add(q.usage, v.tokens(e)), lastContext := v.context(e))
      else q
  }

  function PumpEvents(p: Pump, events: seq<Event>, v: View): Pump {
    if events == [] then p
    else PumpEvent(PumpEvents(p, events[..|events| - 1], v), events[|events| - 1], v)
  }

  /** What a drain at cursor holder does not get any more. */
  function Evicted(log: seq<Event>, size: nat, holder: nat): seq<Event> {
    if holder < |log| - size then log[holder..|log| - size] else []
  }

  /** One pass of the pump: drain, advance the cursor to the last event, render and count. */
  function PassStep(p: Pump, log: seq<Event>, size: nat, v: View): Pump {
    var news := RetainedAfter(log, size, p.holder);
    if news == [] then p
    else PumpEvents(p.(holder := news[|news| - 1].seqNo, seen := p.seen + news,
                       missed := p.missed + Evicted(log, size, p.holder)), news, v)
  }

  function RenderRest(p: Pump, events: seq<Event>): Pump {
    if events == [] then p
    else
      var q, e := RenderRest(p, events[..|events| - 1]), events[|events| - 1];
      if e.id in q.rendered then q else q.(rendered := q.rendered + {e.id}, shown := q.shown + [e])
  }

  /** The end of the turn: render what the pump missed on every path, and if the turn completed count it
      too and refresh the gauge from the whole segment. */
  function EndStep(p: Pump, log: seq<Event>, size: nat, start: nat, outcome: Outcome, v: View): Pump {
    var rest := RetainedAfter(log, size, p.holder);
    var q := RenderRest(p, rest).(seen := p.seen + rest, missed := p.missed + Evicted(log, size, p.holder));
    if outcome.Completed? then
      q.(usage := Add(q.usage, Spent(v, Every, rest)),
         lastContext := LastContext(v, Every, RetainedAfter(log, size, start), q.lastContext))
    else q
  }

  // ---------- The imperative consumer ----------

  class TurnConsumer {
    var holder: nat
    var rendered: set<string>
    var usage: Usage
    var lastContext: int
    ghost var shown: seq<Event>
    ghost var seen: seq<Event>
    ghost var missed: seq<Event>

    constructor (cursor: nat, usage: Usage, lastContext: int)
      ensures State() == Pump(cursor, {}, usage, lastContext, [], [], [])
    {
      this.holder, this.rendered, this.usage, this.lastContext := cursor, {}, usage, lastContext;
      shown, seen, missed := [], [], [];
    }

    ghost function State(): Pump
      reads this
    {
      Pump(holder, rendered, usage, lastContext, shown, seen, missed)
    }

    method Pass(bus: EventBus, v: View)
      requires bus.Valid()
      modifies this
      ensures State() == PassStep(old(State()), bus.log, bus.historySize, v)
    {
      var news := bus.Since(holder);
      if news != [] {
        missed := missed + Evicted(bus.log, bus.historySize, holder);
        seen := seen + news;
        holder := news[|news| - 1].seqNo;
        Consume(news, v);
      }
    }

    method Consume(news: seq<Event>, v: View)
      modifies this
      ensures State() == PumpEvents(old(State()), news, v)
    {
      for i := 0 to |news|
        invariant State() == PumpEvents(old(State()), news[..i], v)
      {
        var e := news[i];
        assert news[..i + 1][..i] == news[..i];
        if e.id !in rendered {
          rendered := rendered + {e.id};
          shown := shown + [e];
          if !v.fails(e) && e.kind.ModelCallCompleted? {
            usage := Add(usage, v.tokens(e));
            lastContext := v.context(e);
          }
        }
      }
      assert news[..|news|] == news;
    }

    method RenderMissed(rest: seq<Event>)
      modifies this
      ensures State() == RenderRest(old(State()), rest)
    {
      for i := 0 to |rest|
        invariant State() == RenderRest(old(State()), rest[..i])
      {
        assert rest[..i + 1][..i] == rest[..i];
        if rest[i].id !in rendered {
          rendered := rendered + {rest[i].id};
          shown := shown + [rest[i]];
        }
      }
      assert rest[..|rest|] == rest;
    }

    method Finish(bus: EventBus, start: nat, outcome: Outcome, v: View)
      requires bus.Valid()
      modifies this
      ensures State() == EndStep(old(State()), bus.log, bus.historySize, start, outcome, v)
    {
      var rest := bus.Since(holder);
      RenderKeeps(State(), rest);
      RenderMissed(rest);
      missed := missed + Evicted(bus.log, bus.historySize, holder);
      seen := seen + rest;
      if outcome.Completed? {
        lastContext := FindContext(bus.Since(start), lastContext, v);
        usage := Add(usage, Spent(v, Every, bus.Since(holder)));
      }
    }
  }

  /** Scans backwards for the last completed model call. */
  method FindContext(segment: seq<Event>, current: int, v: View) returns (context: int)
    ensures context == LastContext(v, Every, segment, current)
  {
    var i := |segment|;
    assert segment[..i] == segment;
    while i > 0
      invariant 0 <= i <= |segment| && LastContext(v, Every, segment[..i], current) == LastContext(v, Every, segment, current)
    {
      assert segment[..i][..i - 1] == segment[..i - 1];
      if segment[i - 1].kind.ModelCallCompleted? {
        return v.context(segment[i - 1]);
      }
      i := i - 1;
    }
    return current;
  }

  lemma {:induction false} RenderKeeps(p: Pump, events: seq<Event>)
    ensures var q := RenderRest(p, events);
            q == p.(rendered := q.rendered, shown := q.shown)
  {
    if events != [] {
      RenderKeeps(p, events[..|events| - 1]);
    }
  }

  // ---------- Whole turns ----------

  datatype Action = Publish(event: Event) | Pass

  /** The turn so far: the log and the consumer. */
  datatype Turn = Turn(log: seq<Event>, pump: Pump)

  function Act(t: Turn, a: Action, size: nat, v: View): Turn {
    match a
    case Publish(e) => t.(log := t.log + [e.(seqNo := |t.log| + 1)])
    case Pass => t.(pump := PassStep(t.pump, t.log, size, v))
  }

  function Run(t: Turn, actions: seq<Action>, size: nat, v: View): Turn {
    if actions == [] then t
    else Act(Run(t, actions[..|actions| - 1], size, v), actions[|actions| - 1], size, v)
  }

  /** The turn starts with the cursor at the end of the log, nothing rendered and nothing drained. */
  function Begin(log: seq<Event>, usage: Usage, lastContext: int): Turn {
    Turn(log, Pump(|log|, {}, usage, lastContext, [], [], []))
  }

  /** The events of a script; its other items are passes. */
  function EventsIn(script: seq<Option<Event>>): seq<Event> {
    if script == [] then []
    else
      var item := script[|script| - 1];
      EventsIn(script[..|script| - 1]) + if item.Some? then [item.value] else []
  }

  /** What a script comes to: every item an action on an open bus, and only the passes on a closed one. */
  ghost predicate Played(script: seq<Option<Event>>, closed: bool, actions: seq<Action>) {
    if script == [] then actions == []
    else
      var most, item := script[..|script| - 1], script[|script| - 1];
      if closed && item.Some? then Played(most, closed, actions)
      else
        && actions != [] && (actions[|actions| - 1].Pass? <==> item.None?)
        && Played(most, closed, actions[..|actions| - 1])
  }

  lemma PlayedMore(script: seq<Option<Event>>, i: nat, closed: bool, actions: seq<Action>, done: seq<Action>)
    requires i < |script| && Played(script[..i], closed, actions)
    requires if closed && script[i].Some? then done == [] else |done| == 1 && (done[0].Pass? <==> script[i].None?)
    ensures Played(script[..i + 1], closed, actions + done)
    ensures EventsIn(script[..i + 1]) == EventsIn(script[..i]) + if script[i].Some? then [script[i].value] else []
  {
    assert script[..i + 1][..i] == script[..i];
    if done == [] {
      assert actions + done == actions;
    } else {
      assert (actions + done)[..|actions|] == actions;
    }
  }

  /** A turn on the bus itself: whatever is published and however often the pump passes meanwhile, log and
      consumer are those of a run of actions, and the end of the turn is the step above. A publish on a
      closed bus is no action, and what is published is redacted. */
  method PlayTurn(bus: EventBus, script: seq<Option<Event>>, outcome: Outcome, usage: Usage, lastContext: int, v: View)
    returns (consumer: TurnConsumer, ghost actions: seq<Action>)
    requires bus.Valid()
    modifies bus, bus.subscribers
    ensures bus.Valid() && Played(script, old(bus.closed), actions)
    ensures bus.published == old(bus.published) + if old(bus.closed) then [] else EventsIn(script)
    ensures var t := Run(Begin(old(bus.log), usage, lastContext), actions, bus.historySize, v);
            bus.log == t.log
            && consumer.State() == EndStep(t.pump, t.log, bus.historySize, |old(bus.log)|, outcome, v)
  {
    var start := bus.Cursor();
    consumer := new TurnConsumer(start, usage, lastContext);
    actions := [];
    ghost var begin, published, closed := Begin(bus.log, usage, lastContext), bus.published, bus.closed;
    StartOfScript(begin, script, closed, published, bus.historySize, v);
    for i := 0 to |script|
      invariant bus.Valid() && bus.subscribers == old(bus.subscribers) && bus.closed == closed && fresh(consumer)
      invariant InScript(begin, script, i, closed, published, bus.published, Turn(bus.log, consumer.State()), actions,
                         bus.historySize, v)
    {
      ghost var was, t := bus.published, Turn(bus.log, consumer.State());
      ghost var done := PlayOne(bus, consumer, script[i], v);
      NextInScript(begin, script, i, closed, published, was, t, actions, done, bus.historySize, v);
      actions := actions + done;
    }
    assert script[..|script|] == script;
    consumer.Finish(bus, start, outcome, v);
  }

  /** A script played up to item i. */
  ghost predicate InScript(begin: Turn, script: seq<Option<Event>>, i: nat, closed: bool, before: seq<Event>,
                           published: seq<Event>, t: Turn, actions: seq<Action>, size: nat, v: View)
    requires i <= |script|
  {
    && Played(script[..i], closed, actions)
    && published == before + (if closed then [] else EventsIn(script[..i]))
    && t == Run(begin, actions, size, v)
  }

  lemma StartOfScript(begin: Turn, script: seq<Option<Event>>, closed: bool, published: seq<Event>, size: nat, v: View)
    ensures InScript(begin, script, 0, closed, published, published, begin, [], size, v)
  {
  }

  lemma NextInScript(begin: Turn, script: seq<Option<Event>>, i: nat, closed: bool, before: seq<Event>,
                     published: seq<Event>, t: Turn, actions: seq<Action>, done: seq<Action>, size: nat, v: View)
    requires i < |script| && InScript(begin, script, i, closed, before, published, t, actions, size, v)
    requires if closed && script[i].Some? then done == [] else |done| == 1 && (done[0].Pass? <==> script[i].None?)
    ensures InScript(begin, script, i + 1, closed, before,
                     published + (if closed || script[i].None? then [] else [script[i].value]),
                     if done == [] then t else Act(t, done[0], size, v), actions + done, size, v)
  {
    PlayedMore(script, i, closed, actions, done);
    RunMore(begin, actions, done, size, v);
    if !closed {
      Regroup(before, EventsIn(script[..i]), if script[i].None? then [] else [script[i].value]);
    }
  }

  /** One publish, or one pass of the pump. */
  method PlayOne(bus: EventBus, consumer: TurnConsumer, item: Option<Event>, v: View) returns (ghost done: seq<Action>)
    requires bus.Valid()
    modifies bus, bus.subscribers, consumer
    ensures bus.Valid() && bus.subscribers == old(bus.subscribers) && bus.closed == old(bus.closed)
    ensures bus.published == old(bus.published) + if bus.closed || item.None? then [] else [item.value]
    ensures if bus.closed && item.Some? then done == [] else |done| == 1 && (done[0].Pass? <==> item.None?)
    ensures var t := Turn(old(bus.log), old(consumer.State()));
            Turn(bus.log, consumer.State()) == if done == [] then t else Act(t, done[0], bus.historySize, v)
  {
    if item.None? {
      consumer.Pass(bus, v);
      done := [Pass];
    } else {
      done := if bus.closed then [] else [Publish(Stamp(bus.secrets, item.value, |bus.log| + 1))];
      bus.Publish(item.value);
    }
  }

  lemma RunMore(t: Turn, actions: seq<Action>, done: seq<Action>, size: nat, v: View)
    requires |done| <= 1
    ensures Run(t, actions + done, size, v)
            == if done == [] then Run(t, actions, size, v) else Act(Run(t, actions, size, v), done[0], size, v)
  {
    if done == [] {
      assert actions + done == actions;
    } else {
      assert (actions + done)[..|actions|] == actions;
    }
  }

  ghost predicate DifferAt(log: seq<Event>, start: nat, i: int, j: int) {
    start <= i < j < |log| ==> log[i].id != log[j].id
  }

  /** The events published since start have different ids. */
  ghost predicate DistinctSince(log: seq<Event>, start: nat) {
    forall i, j :: DifferAt(log, start, i, j)
  }

  ghost function IdsBetween(log: seq<Event>, from: nat, to: nat): set<string>
    requires from <= to <= |log|
  {
    set i | from <= i < to :: log[i].id
  }

  lemma SpentSnoc(v: View, which: Which, events: seq<Event>, e: Event)
    ensures Spent(v, which, events + [e])
            == if Selected(v, which, e) then Add(Spent(v, which, events), v.tokens(e)) else Spent(v, which, events)
  {
    assert (events + [e])[..|events|] == events;
  }

  lemma {:induction false} SpentConcat(v: View, which: Which, a: seq<Event>, b: seq<Event>)
    ensures Spent(v, which, a + b) == Add(Spent(v, which, a), Spent(v, which, b))
  {
    if b == [] {
      assert a + b == a;
    } else {
      var most, e := b[..|b| - 1], b[|b| - 1];
      SpentConcat(v, which, a, most);
      assert b == most + [e] && a + b == (a + most) + [e];
      SpentSnoc(v, which, most, e);
      SpentSnoc(v, which, a + most, e);
      AddIsMonoid(Spent(v, which, a), Spent(v, which, most), v.tokens(e));
    }
  }

  lemma {:induction false} ContextConcat(v: View, which: Which, a: seq<Event>, b: seq<Event>, current: int)
    ensures LastContext(v, which, a + b, current) == LastContext(v, which, b, LastContext(v, which, a, current))
  {
    if b == [] {
      assert a + b == a;
    } else {
      ContextConcat(v, which, a, b[..|b| - 1], current);
      assert (a + b)[..|a + b| - 1] == a + b[..|b| - 1];
    }
  }

  lemma {:induction false} ContextAgain(v: View, which: Which, events: seq<Event>, current: int)
    ensures LastContext(v, which, events, LastContext(v, which, events, current)) == LastContext(v, which, events, current)
  {
    if events != [] && !Selected(v, which, events[|events| - 1]) {
      ContextAgain(v, which, events[..|events| - 1], current);
    }
  }

  /** Refreshing the gauge from a suffix that overlaps what was already counted gives the last call of all. */
  lemma RefreshIsLast(v: View, a: seq<Event>, b: seq<Event>, c: seq<Event>, current: int)
    ensures LastContext(v, Every, b + c, LastContext(v, Every, a + b, current)) == LastContext(v, Every, a + b + c, current)
  {
    var x := LastContext(v, Every, a, current);
    ContextConcat(v, Every, a, b, current);
    ContextAgain(v, Every, b, x);
    ContextConcat(v, Every, b, c, LastContext(v, Every, b, x));
    ContextConcat(v, Every, a + b, c, current);
  }

  /** Every model call is either counted by the pump or lost because its rendering raised. */
  lemma {:induction false} CountedOrBroken(v: View, events: seq<Event>)
    ensures Spent(v, Every, events) == Add(Spent(v, Rendered, events), Spent(v, Broken, events))
  {
    if events != [] {
      CountedOrBroken(v, events[..|events| - 1]);
    }
  }

  lemma {:induction false} NoneBroken(v: View, events: seq<Event>, current: int)
    requires forall e :: e in events ==> !v.fails(e)
    ensures Spent(v, Broken, events) == NO_USAGE
    ensures LastContext(v, Rendered, events, current) == LastContext(v, Every, events, current)
  {
    if events != [] {
      NoneBroken(v, events[..|events| - 1], current);
    }
  }

  lemma IdsSnoc(log: seq<Event>, from: nat, to: nat)
    requires from <= to < |log|
    ensures IdsBetween(log, from, to + 1) == IdsBetween(log, from, to) + {log[to].id}
  {
  }

  lemma NotBefore(log: seq<Event>, from: nat, k: nat)
    requires from <= k < |log| && DistinctSince(log, from)
    ensures log[k].id !in IdsBetween(log, from, k)
  {
    forall i | from <= i < k ensures log[i].id != log[k].id {
      assert DifferAt(log, from, i, k);
    }
  }

  /** q is p after showing and counting the events. */
  ghost predicate Consumed(p: Pump, q: Pump, events: seq<Event>, ids: set<string>, v: View) {
    && q == p.(rendered := q.rendered, usage := q.usage, lastContext := q.lastContext, shown := q.shown)
    && q.shown == p.shown + events && q.rendered == p.rendered + ids
    && q.usage == Add(p.usage, Spent(v, Rendered, events))
    && q.lastContext == LastContext(v, Rendered, events, p.lastContext)
  }

  lemma ConsumeOne(p: Pump, q: Pump, events: seq<Event>, ids: set<string>, e: Event, v: View)
    requires Consumed(p, q, events, ids, v) && e.id !in q.rendered
    ensures Consumed(p, PumpEvent(q, e, v), events + [e], ids + {e.id}, v)
  {
    SpentSnoc(v, Rendered, events, e);
    AddIsMonoid(p.usage, Spent(v, Rendered, events), v.tokens(e));
    assert (events + [e])[..|events|] == events;
  }

  lemma CutLast(log: seq<Event>, from: nat, to: nat)
    requires from < to <= |log|
    ensures log[from..to] == log[from..to - 1] + [log[to - 1]]
    ensures log[from..to][..to - from - 1] == log[from..to - 1]
  {
  }

  /** Events with new, different ids are each shown once, in order, and counted unless rendering raises. */
  lemma {:induction false} PumpFresh(p: Pump, log: seq<Event>, from: nat, to: nat, v: View)
    requires from <= to <= |log| && DistinctSince(log, from) && p.rendered !! IdsBetween(log, from, to)
    ensures Consumed(p, PumpEvents(p, log[from..to], v), log[from..to], IdsBetween(log, from, to), v)
  {
    if from < to {
      var q, e := PumpEvents(p, log[from..to - 1], v), log[to - 1];
      IdsSnoc(log, from, to - 1);
      PumpFresh(p, log, from, to - 1, v);
      CutLast(log, from, to);
      NotBefore(log, from, to - 1);
      ConsumeOne(p, q, log[from..to - 1], IdsBetween(log, from, to - 1), e, v);
    } else {
      assert log[from..to] == [];
    }
  }

  /** q is p after showing the events only. */
  ghost predicate Showed(p: Pump, q: Pump, events: seq<Event>, ids: set<string>) {
    q.shown == p.shown + events && q.rendered == p.rendered + ids
  }

  lemma {:induction false} RenderFresh(p: Pump, log: seq<Event>, from: nat, to: nat)
    requires from <= to <= |log| && DistinctSince(log, from) && p.rendered !! IdsBetween(log, from, to)
    ensures Showed(p, RenderRest(p, log[from..to]), log[from..to], IdsBetween(log, from, to))
  {
    if from < to {
      var e := log[to - 1];
      IdsSnoc(log, from, to - 1);
      RenderFresh(p, log, from, to - 1);
      CutLast(log, from, to);
      NotBefore(log, from, to - 1);
    } else {
      assert log[from..to] == [];
    }
  }

  lemma LaterIdsDiffer(log: seq<Event>, start: nat, from: nat, mid: nat)
    requires start <= from <= mid <= |log| && DistinctSince(log, start)
    ensures IdsBetween(log, start, from) !! IdsBetween(log, mid, |log|)
    ensures DistinctSince(log, mid)
  {
    forall i, j | start <= i < from && mid <= j < |log| ensures log[i].id != log[j].id {
      assert DifferAt(log, start, i, j);
    }
    forall i, j ensures DifferAt(log, mid, i, j) {
      assert DifferAt(log, start, i, j);
    }
  }

  /** A drain gets everything after the cursor unless more than size events were published since the
      last one, and then exactly the oldest of them are gone. */
  lemma DrainExact(log: seq<Event>, size: nat, holder: nat)
    requires holder <= |log|
    ensures Evicted(log, size, holder) + RetainedAfter(log, size, holder) == log[holder..]
    ensures |Evicted(log, size, holder)| == if |log| - holder > size then |log| - holder - size else 0
  {
  }

  lemma CutTwice(log: seq<Event>, start: nat, holder: nat)
    requires start <= holder <= |log|
    ensures log[start..] == log[start..holder] + log[holder..]
  {
  }

  lemma RegroupCounts(a: seq<Event>, b: seq<Event>, c: seq<Event>, d: seq<Event>)
    ensures multiset(a + c) + multiset(b + d) == (multiset(a) + multiset(b)) + multiset(d + c)
  {
  }

  lemma DrainKeeps(log: seq<Event>, size: nat, start: nat, holder: nat, seen: seq<Event>, missed: seq<Event>)
    requires start <= holder <= |log|
    requires multiset(seen) + multiset(missed) == multiset(log[start..holder])
    requires missed == [] ==> seen == log[start..holder]
    ensures multiset(seen + RetainedAfter(log, size, holder)) + multiset(missed + Evicted(log, size, holder))
            == multiset(log[start..])
    ensures missed + Evicted(log, size, holder) == [] ==> seen + RetainedAfter(log, size, holder) == log[start..]
  {
    var rest, gone := RetainedAfter(log, size, holder), Evicted(log, size, holder);
    DrainExact(log, size, holder);
    RegroupCounts(seen, missed, rest, gone);
    CutTwice(log, start, holder);
  }

  // ---------- What every reachable state of a turn keeps ----------

  /** Where the turn started: the length of the log, the usage and the gauge. */
  datatype Origin = Origin(start: nat, usage: Usage, lastContext: int)

  datatype Clause = Rendering | Counting | Draining

  ghost predicate Holds(c: Clause, log: seq<Event>, p: Pump, o: Origin, v: View)
    requires o.start <= p.holder <= |log|
  {
    match c
    case Rendering =>
      p.shown == p.seen && p.rendered <= IdsBetween(log, o.start, p.holder)
    case Counting =>
      && p.usage == Add(o.usage, Spent(v, Rendered, p.seen))
      && p.lastContext == LastContext(v, Rendered, p.seen, o.lastContext)
    case Draining =>
      && multiset(p.seen) + multiset(p.missed) == multiset(log[o.start..p.holder])
      && (p.missed == [] ==> p.seen == log[o.start..p.holder])
  }

  /** What was drained was shown once, in order, and counted; nothing else of the turn is gone but what
      was evicted. */
  ghost predicate Kept(log: seq<Event>, p: Pump, o: Origin, v: View) {
    o.start <= p.holder <= |log| && Stamped(log) && forall c: Clause :: Holds(c, log, p, o, v)
  }

  lemma IdsPrefix(log: seq<Event>, e: Event, from: nat, to: nat)
    requires from <= to <= |log|
    ensures IdsBetween(log + [e], from, to) == IdsBetween(log, from, to)
  {
    forall i | from <= i < to ensures (log + [e])[i].id in IdsBetween(log, from, to) {
      assert (log + [e])[i] == log[i];
    }
    forall i | from <= i < to ensures log[i].id in IdsBetween(log + [e], from, to) {
      assert (log + [e])[i] == log[i];
    }
  }

  lemma PublishKeeps(log: seq<Event>, p: Pump, e: Event, o: Origin, v: View)
    requires Kept(log, p, o, v) && e.seqNo == |log| + 1
    ensures Kept(log + [e], p, o, v)
  {
    var more := log + [e];
    StampedSnoc(log, e);
    assert more[o.start..p.holder] == log[o.start..p.holder];
    IdsPrefix(log, e, o.start, p.holder);
    forall c: Clause ensures Holds(c, more, p, o, v) {
      assert Holds(c, log, p, o, v);
    }
  }

  /** A non-empty drain, with the cursor advanced to its last event. */
  function Drained(p: Pump, log: seq<Event>, size: nat): Pump {
    p.(holder := |log|, seen := p.seen + RetainedAfter(log, size, p.holder),
       missed := p.missed + Evicted(log, size, p.holder))
  }

  lemma PassIs(log: seq<Event>, size: nat, p: Pump, v: View)
    requires Stamped(log) && p.holder <= |log|
    ensures var from := FirstAfter(|log|, size, p.holder);
            PassStep(p, log, size, v) == if from == |log| then p else PumpEvents(Drained(p, log, size), log[from..|log|], v)
  {
    var from := FirstAfter(|log|, size, p.holder);
    assert log[from..] == log[from..|log|];
    if from < |log| {
      assert StampedAt(log, |log| - 1);
    }
  }

  lemma PassKeeps(log: seq<Event>, size: nat, p: Pump, o: Origin, v: View)
    requires Kept(log, p, o, v) && DistinctSince(log, o.start)
    ensures Kept(log, PassStep(p, log, size, v), o, v)
  {
    var from := FirstAfter(|log|, size, p.holder);
    PassIs(log, size, p, v);
    if from < |log| {
      var d, q := Drained(p, log, size), PassStep(p, log, size, v);
      assert Holds(Rendering, log, p, o, v);
      LaterIdsDiffer(log, o.start, p.holder, from);
      PumpFresh(d, log, from, |log|, v);
      forall c: Clause ensures Holds(c, log, q, o, v) {
        ConsumedKeeps(c, log, size, p, q, o, v);
      }
    }
  }

  lemma ConsumedKeeps(c: Clause, log: seq<Event>, size: nat, p: Pump, q: Pump, o: Origin, v: View)
    requires Kept(log, p, o, v)
    requires var from := FirstAfter(|log|, size, p.holder);
             Consumed(Drained(p, log, size), q, log[from..|log|], IdsBetween(log, from, |log|), v)
    ensures Holds(c, log, q, o, v)
  {
    var from := FirstAfter(|log|, size, p.holder);
    var news := log[from..|log|];
    assert news == RetainedAfter(log, size, p.holder);
    assert Holds(c, log, p, o, v);
    match c {
      case Rendering =>
      case Counting =>
        SpentConcat(v, Rendered, p.seen, news);
        AddIsMonoid(o.usage, Spent(v, Rendered, p.seen), Spent(v, Rendered, news));
        ContextConcat(v, Rendered, p.seen, news, o.lastContext);
      case Draining =>
        DrainKeeps(log, size, o.start, p.holder, p.seen, p.missed);
        assert log[o.start..|log|] == log[o.start..];
    }
  }

  lemma DistinctBefore(log: seq<Event>, e: Event, start: nat)
    requires DistinctSince(log + [e], start)
    ensures DistinctSince(log, start)
  {
    forall i, j ensures DifferAt(log, start, i, j) {
      assert DifferAt(log + [e], start, i, j);
    }
  }

  /** However publishes and passes interleave. */
  lemma {:induction false} RunKeeps(log: seq<Event>, usage: Usage, lastContext: int, actions: seq<Action>, size: nat, v: View)
    requires Stamped(log) && DistinctSince(Run(Begin(log, usage, lastContext), actions, size, v).log, |log|)
    ensures var t := Run(Begin(log, usage, lastContext), actions, size, v);
            Kept(t.log, t.pump, Origin(|log|, usage, lastContext), v)
  {
    var o, b := Origin(|log|, usage, lastContext), Begin(log, usage, lastContext);
    if actions == [] {
    } else {
      var t := Run(b, actions[..|actions| - 1], size, v);
      match actions[|actions| - 1] {
        case Publish(e) =>
          DistinctBefore(t.log, e.(seqNo := |t.log| + 1), |log|);
          RunKeeps(log, usage, lastContext, actions[..|actions| - 1], size, v);
          PublishKeeps(t.log, t.pump, e.(seqNo := |t.log| + 1), o, v);
        case Pass =>
          RunKeeps(log, usage, lastContext, actions[..|actions| - 1], size, v);
          PassKeeps(t.log, size, t.pump, o, v);
      }
    }
  }

  // ---------- The end of the turn ----------

  /** On every path the turn shows each event that was still retained at a drain once, in order, and what
      it does not show is exactly what was evicted. A completed turn has counted what the pump rendered
      without raising and all of what the pump missed; any other turn only the former. */
  ghost predicate Accounted(log: seq<Event>, size: nat, p: Pump, o: Origin, outcome: Outcome, v: View)
    requires o.start <= p.holder <= |log|
  {
    var q, rest := EndStep(p, log, size, o.start, outcome, v), RetainedAfter(log, size, p.holder);
    && q.shown == q.seen == p.seen + rest
    && multiset(q.seen) + multiset(q.missed) == multiset(log[o.start..])
    && (q.missed == [] ==> q.shown == log[o.start..])
    && q.usage == Add(Add(o.usage, Spent(v, Rendered, p.seen)),
                      if outcome.Completed? then Spent(v, Every, rest) else NO_USAGE)
  }

  lemma EndIs(log: seq<Event>, size: nat, p: Pump, start: nat, outcome: Outcome, v: View)
    ensures var q, rest := EndStep(p, log, size, start, outcome, v), RetainedAfter(log, size, p.holder);
            && q.shown == RenderRest(p, rest).shown && q.seen == p.seen + rest
            && q.missed == p.missed + Evicted(log, size, p.holder)
            && q.usage == Add(p.usage, if outcome.Completed? then Spent(v, Every, rest) else NO_USAGE)
            && (outcome.Completed? ==>
                  q.lastContext == LastContext(v, Every, RetainedAfter(log, size, start), p.lastContext))
  {
    RenderKeeps(p, RetainedAfter(log, size, p.holder));
    AddIsMonoid(p.usage, NO_USAGE, NO_USAGE);
  }

  lemma EndAccount(log: seq<Event>, size: nat, p: Pump, o: Origin, outcome: Outcome, v: View)
    requires Kept(log, p, o, v) && DistinctSince(log, o.start)
    ensures Accounted(log, size, p, o, outcome, v)
  {
    EndShows(log, size, p, o, v);
    EndIs(log, size, p, o.start, outcome, v);
    assert Holds(Counting, log, p, o, v) && Holds(Draining, log, p, o, v);
    DrainKeeps(log, size, o.start, p.holder, p.seen, p.missed);
  }

  lemma EndShows(log: seq<Event>, size: nat, p: Pump, o: Origin, v: View)
    requires Kept(log, p, o, v) && DistinctSince(log, o.start)
    ensures RenderRest(p, RetainedAfter(log, size, p.holder)).shown == p.seen + RetainedAfter(log, size, p.holder)
  {
    var from := FirstAfter(|log|, size, p.holder);
    assert log[from..|log|] == RetainedAfter(log, size, p.holder);
    assert Holds(Rendering, log, p, o, v);
    LaterIdsDiffer(log, o.start, p.holder, from);
    RenderFresh(p, log, from, |log|);
  }

  /** No pass came too late: at each one at most size events were waiting. */
  ghost predicate Timely(t: Turn, actions: seq<Action>, size: nat, v: View) {
    actions == [] ||
    var before := Run(t, actions[..|actions| - 1], size, v);
    && Timely(t, actions[..|actions| - 1], size, v)
    && (actions[|actions| - 1].Pass? ==> |before.log| - before.pump.holder <= size)
  }

  lemma PumpEventsKeep(p: Pump, events: seq<Event>, v: View)
    ensures var q := PumpEvents(p, events, v); q.holder == p.holder && q.missed == p.missed && q.seen == p.seen
  {
  }

  lemma {:induction false} MissedIff(log: seq<Event>, usage: Usage, lastContext: int, actions: seq<Action>, size: nat, v: View)
    requires Stamped(log)
    ensures var b := Begin(log, usage, lastContext);
            var t := Run(b, actions, size, v);
            && t.pump.holder <= |t.log| && Stamped(t.log)
            && (Timely(b, actions, size, v) ==> t.pump.missed == [])
            && (!Timely(b, actions, size, v) ==> t.pump.missed != [] || (size == 0 && t.pump.holder < |t.log|))
  {
    var b := Begin(log, usage, lastContext);
    if actions != [] {
      var before := actions[..|actions| - 1];
      var t := Run(b, before, size, v);
      MissedIff(log, usage, lastContext, before, size, v);
      match actions[|actions| - 1] {
        case Publish(e) =>
          StampedSnoc(t.log, e.(seqNo := |t.log| + 1));
        case Pass =>
          var from := FirstAfter(|t.log|, size, t.pump.holder);
          PassIs(t.log, size, t.pump, v);
          PumpEventsKeep(Drained(t.pump, t.log, size), t.log[from..|t.log|], v);
          DrainExact(t.log, size, t.pump.holder);
      }
    }
  }

  lemma NothingMissed(log: seq<Event>, size: nat, p: Pump, o: Origin, v: View)
    requires Kept(log, p, o, v) && p.missed == [] && |log| - p.holder <= size
    ensures p.seen == log[o.start..p.holder] && RetainedAfter(log, size, p.holder) == log[p.holder..]
  {
    assert Holds(Draining, log, p, o, v);
  }

  lemma EndCounts(log: seq<Event>, size: nat, p: Pump, o: Origin, v: View)
    requires Kept(log, p, o, v) && p.missed == [] && |log| - p.holder <= size
    ensures var q := EndStep(p, log, size, o.start, Completed, v);
            Add(q.usage, Spent(v, Broken, p.seen)) == Add(o.usage, Spent(v, Every, log[o.start..]))
  {
    var rest := RetainedAfter(log, size, p.holder);
    assert Holds(Counting, log, p, o, v);
    EndIs(log, size, p, o.start, Completed, v);
    NothingMissed(log, size, p, o, v);
    CutTwice(log, o.start, p.holder);
    SpentInAll(v, p.seen, rest);
    AddRegroup(o.usage, Spent(v, Rendered, p.seen), Spent(v, Broken, p.seen), Spent(v, Every, rest));
  }

  lemma AddRegroup(o: Usage, x: Usage, y: Usage, z: Usage)
    ensures Add(Add(Add(o, x), z), y) == Add(o, Add(Add(x, y), z))
  {
  }

  lemma SpentInAll(v: View, seen: seq<Event>, rest: seq<Event>)
    ensures Spent(v, Every, seen + rest)
            == Add(Add(Spent(v, Rendered, seen), Spent(v, Broken, seen)), Spent(v, Every, rest))
  {
    CountedOrBroken(v, seen);
    SpentConcat(v, Every, seen, rest);
  }

  /** The gauge shows the last model call of the turn even where the history no longer holds it. */
  lemma GaugeIsLast(log: seq<Event>, size: nat, p: Pump, o: Origin, v: View)
    requires Kept(log, p, o, v) && p.missed == [] && |log| - p.holder <= size
    requires forall e :: e in p.seen ==> !v.fails(e)
    ensures EndStep(p, log, size, o.start, Completed, v).lastContext == LastContext(v, Every, log[o.start..], o.lastContext)
  {
    var from := FirstAfter(|log|, size, o.start);
    assert Holds(Counting, log, p, o, v);
    EndIs(log, size, p, o.start, Completed, v);
    NothingMissed(log, size, p, o, v);
    NoneBroken(v, p.seen, o.lastContext);
    CutThrice(log, o.start, from, p.holder);
    RefreshIsLast(v, log[o.start..from], log[from..p.holder], log[p.holder..], o.lastContext);
  }

  lemma CutThrice(log: seq<Event>, start: nat, from: nat, holder: nat)
    requires start <= from <= holder <= |log|
    ensures log[start..holder] == log[start..from] + log[from..holder]
    ensures log[from..] == log[from..holder] + log[holder..]
    ensures log[start..] == log[start..from] + log[from..holder] + log[holder..]
  {
  }

  // ---------- Every turn ----------

  /** What every turn accounts for, whatever its interleaving and outcome. */
  lemma TurnAccount(log: seq<Event>, usage: Usage, lastContext: int, actions: seq<Action>, size: nat,
                    outcome: Outcome, v: View)
    requires Stamped(log) && DistinctSince(Run(Begin(log, usage, lastContext), actions, size, v).log, |log|)
    ensures var t, o := Run(Begin(log, usage, lastContext), actions, size, v), Origin(|log|, usage, lastContext);
            o.start <= t.pump.holder <= |t.log| && Accounted(t.log, size, t.pump, o, outcome, v)
  {
    var t, o := Run(Begin(log, usage, lastContext), actions, size, v), Origin(|log|, usage, lastContext);
    RunKeeps(log, usage, lastContext, actions, size, v);
    EndAccount(t.log, size, t.pump, o, outcome, v);
  }

  /** The turn shows all its events exactly if no drain came too late, the last one included. */
  lemma AllShownIff(log: seq<Event>, usage: Usage, lastContext: int, actions: seq<Action>, size: nat,
                    outcome: Outcome, v: View)
    requires Stamped(log) && DistinctSince(Run(Begin(log, usage, lastContext), actions, size, v).log, |log|)
    ensures var b := Begin(log, usage, lastContext);
            var t := Run(b, actions, size, v);
            && |log| <= t.pump.holder <= |t.log|
            && (EndStep(t.pump, t.log, size, |log|, outcome, v).shown == t.log[|log|..]
                <==> Timely(b, actions, size, v) && |t.log| - t.pump.holder <= size)
  {
    var t, o := Run(Begin(log, usage, lastContext), actions, size, v), Origin(|log|, usage, lastContext);
    TurnAccount(log, usage, lastContext, actions, size, outcome, v);
    MissedIff(log, usage, lastContext, actions, size, v);
    DrainExact(t.log, size, t.pump.holder);
  }

  /** A completed turn in which no drain came too late grows the usage by exactly the tokens of all its
      model calls, less those whose rendering raised in the pump; without those the gauge shows the last
      call. */
  lemma CompletedTurnCounts(log: seq<Event>, usage: Usage, lastContext: int, actions: seq<Action>, size: nat, v: View)
    requires Stamped(log) && DistinctSince(Run(Begin(log, usage, lastContext), actions, size, v).log, |log|)
    requires var b := Begin(log, usage, lastContext);
             var t := Run(b, actions, size, v);
             Timely(b, actions, size, v) && |t.log| - t.pump.holder <= size
    ensures var t := Run(Begin(log, usage, lastContext), actions, size, v);
            var q := EndStep(t.pump, t.log, size, |log|, Completed, v);
            && |log| <= |t.log|
            && Add(q.usage, Spent(v, Broken, t.pump.seen)) == Add(usage, Spent(v, Every, t.log[|log|..]))
            && ((forall e :: e in t.pump.seen ==> !v.fails(e)) ==>
                  && q.usage == Add(usage, Spent(v, Every, t.log[|log|..]))
                  && q.lastContext == LastContext(v, Every, t.log[|log|..], lastContext))
  {
    var t, o := Run(Begin(log, usage, lastContext), actions, size, v), Origin(|log|, usage, lastContext);
    RunKeeps(log, usage, lastContext, actions, size, v);
    MissedIff(log, usage, lastContext, actions, size, v);
    EndCounts(t.log, size, t.pump, o, v);
    if forall e :: e in t.pump.seen ==> !v.fails(e) {
      NoneBroken(v, t.pump.seen, lastContext);
      GaugeIsLast(t.log, size, t.pump, o, v);
    }
  }

  // ---------- What a turn on the bus costs ----------

  /** Input and output tokens of the completed model calls among the events. */
  function TokenTotal(events: seq<Event>): Usage {
    if events == [] then NO_USAGE
    else
      var before, e := TokenTotal(events[..|events| - 1]), events[|events| - 1];
      if e.kind.ModelCallCompleted? then Add(before, Tokens(e)) else before
  }

  /** Context size of the last completed model call among the events, if there is one. */
  function LastSize(events: seq<Event>, current: int): int {
    if events == [] then current
    else
      var e := events[|events| - 1];
      if e.kind.ModelCallCompleted? then ContextTokens(e) else LastSize(events[..|events| - 1], current)
  }

  /** What consumers count of the log is what was published. */
  lemma {:induction false} LogCostsAsPublished(secrets: Option<seq<string>>, published: seq<Event>, log: seq<Event>,
                                               from: nat, to: nat, fails: Event -> bool, current: int)
    requires Logged(secrets, published, log) && from <= to <= |log|
    ensures Spent(TheView(fails), Every, log[from..to]) == TokenTotal(published[from..to])
    ensures LastContext(TheView(fails), Every, log[from..to], current) == LastSize(published[from..to], current)
  {
    if from < to {
      LogCostsAsPublished(secrets, published, log, from, to - 1, fails, current);
      CutLast(log, from, to);
      CutLast(published, from, to);
      assert LoggedAt(secrets, published, log, to - 1);
      PublishingKeepsTokens(secrets, published[to - 1], to);
    } else {
      assert log[from..to] == [] && published[from..to] == [];
    }
  }

  /** No drain came too late, the last one included. */
  ghost predicate InTime(log: seq<Event>, usage: Usage, lastContext: int, actions: seq<Action>, size: nat, v: View) {
    var t := Run(Begin(log, usage, lastContext), actions, size, v);
    Timely(Begin(log, usage, lastContext), actions, size, v) && |t.log| - t.pump.holder <= size
  }

  lemma {:induction false} CursorInTurn(log: seq<Event>, usage: Usage, lastContext: int, actions: seq<Action>, size: nat, v: View)
    requires Stamped(log)
    ensures var t := Run(Begin(log, usage, lastContext), actions, size, v);
            && |log| <= t.pump.holder <= |t.log|
            && (|t.log| - |log| <= size ==> Timely(Begin(log, usage, lastContext), actions, size, v))
  {
    var b := Begin(log, usage, lastContext);
    MissedIff(log, usage, lastContext, actions, size, v);
    if actions != [] {
      var before := actions[..|actions| - 1];
      var t := Run(b, before, size, v);
      CursorInTurn(log, usage, lastContext, before, size, v);
      MissedIff(log, usage, lastContext, before, size, v);
      if actions[|actions| - 1].Pass? {
        var from := FirstAfter(|t.log|, size, t.pump.holder);
        PassIs(t.log, size, t.pump, v);
        PumpEventsKeep(Drained(t.pump, t.log, size), t.log[from..|t.log|], v);
      }
    }
  }

  /** A turn that publishes no more than the history holds is always in time. */
  lemma FewAreInTime(log: seq<Event>, usage: Usage, lastContext: int, actions: seq<Action>, size: nat, v: View)
    requires Stamped(log) && |Run(Begin(log, usage, lastContext), actions, size, v).log| - |log| <= size
    ensures InTime(log, usage, lastContext, actions, size, v)
  {
    CursorInTurn(log, usage, lastContext, actions, size, v);
  }

  lemma DistinctLogged(secrets: Option<seq<string>>, published: seq<Event>, log: seq<Event>, start: nat)
    requires Logged(secrets, published, log) && DistinctSince(published, start)
    ensures DistinctSince(log, start)
  {
    forall i, j ensures DifferAt(log, start, i, j) {
      assert DifferAt(published, start, i, j);
      assert LoggedAt(secrets, published, log, i) && LoggedAt(secrets, published, log, j);
    }
  }

  lemma TurnTokens(secrets: Option<seq<string>>, published: seq<Event>, log: seq<Event>, usage: Usage,
                   lastContext: int, actions: seq<Action>, size: nat, fails: Event -> bool)
    requires Stamped(log) && DistinctSince(published, |log|)
    requires Logged(secrets, published, Run(Begin(log, usage, lastContext), actions, size, TheView(fails)).log)
    requires InTime(log, usage, lastContext, actions, size, TheView(fails))
    ensures var t := Run(Begin(log, usage, lastContext), actions, size, TheView(fails));
            var q := EndStep(t.pump, t.log, size, |log|, Completed, TheView(fails));
            && |log| <= |published|
            && Add(q.usage, Spent(TheView(fails), Broken, t.pump.seen)) == Add(usage, TokenTotal(published[|log|..]))
            && ((forall e :: e in t.pump.seen ==> !fails(e)) ==>
                  && q.usage == Add(usage, TokenTotal(published[|log|..]))
                  && q.lastContext == LastSize(published[|log|..], lastContext))
  {
    var v := TheView(fails);
    var t := Run(Begin(log, usage, lastContext), actions, size, v);
    DistinctLogged(secrets, published, t.log, |log|);
    CompletedTurnCounts(log, usage, lastContext, actions, size, v);
    LogCostsAsPublished(secrets, published, t.log, |log|, |t.log|, fails, lastContext);
    assert t.log[|log|..|t.log|] == t.log[|log|..] && published[|log|..|t.log|] == published[|log|..];
  }

  /** On the bus: a completed turn that was in time adds to the usage the tokens of all model calls published in
      it, as they were published, and the gauge shows the last one, unless a rendering in the pump raised; what
      is missing then are the calls whose rendering raised. */
  method CompletedTurn(bus: EventBus, script: seq<Option<Event>>, usage: Usage, lastContext: int, fails: Event -> bool)
    returns (consumer: TurnConsumer, ghost actions: seq<Action>, ghost drained: seq<Event>)
    requires bus.Valid()
    modifies bus, bus.subscribers
    ensures bus.Valid() && Played(script, old(bus.closed), actions)
    ensures bus.published == old(bus.published) + if old(bus.closed) then [] else EventsIn(script)
    ensures var start := |old(bus.published)|;
            && (DistinctSince(bus.published, start)
                && InTime(old(bus.log), usage, lastContext, actions, bus.historySize, TheView(fails)) ==>
                  && Add(consumer.usage, Spent(TheView(fails), Broken, drained))
                     == Add(usage, TokenTotal(bus.published[start..]))
                  && ((forall e :: e in drained ==> !fails(e)) ==>
                        && consumer.usage == Add(usage, TokenTotal(bus.published[start..]))
                        && consumer.lastContext == LastSize(bus.published[start..], lastContext)))
            && (|bus.published| - start <= bus.historySize ==>
                  InTime(old(bus.log), usage, lastContext, actions, bus.historySize, TheView(fails)))
    ensures drained == Run(Begin(old(bus.log), usage, lastContext), actions, bus.historySize, TheView(fails)).pump.seen
  {
    ghost var log := bus.log;
    ghost var v := TheView(fails);
    LoggedIsStamped(bus.secrets, bus.published, bus.log);
    consumer, actions := PlayTurn(bus, script, Completed, usage, lastContext, TheView(fails));
    drained := Run(Begin(log, usage, lastContext), actions, bus.historySize, v).pump.seen;
    if InTime(log, usage, lastContext, actions, bus.historySize, v) && DistinctSince(bus.published, |log|) {
      TurnTokens(bus.secrets, bus.published, log, usage, lastContext, actions, bus.historySize, fails);
    }
    if |bus.log| - |log| <= bus.historySize {
      FewAreInTime(log, usage, lastContext, actions, bus.historySize, v);
    }
  }

  // ---------- A rendering that raises ----------

  /** A completed model call of seven input tokens and two output tokens. */
  function Call(): Event {
    Event("call", 1, ModelCallCompleted, [Field(Name("input_tokens"), Other(7)), Field(Name("output_tokens"), Other(2))])
  }

  lemma CallTokens()
    ensures Tokens(Call()) == Usage(7, 2, 0, None) && TokenTotal([Call()]) == Usage(7, 2, 0, None)
  {
    var fields := Call().data;
    assert Number(fields, "input_tokens") == 7;
    assert fields[0].key != Name("output_tokens") by { assert "input_tokens"[0] != "output_tokens"[0]; }
    assert At(fields, Name("output_tokens")) == At(fields[1..], Name("output_tokens")) == Other(2);
    assert TokenTotal([Call()][..0]) == NO_USAGE;
  }

  function Opening(): Pump {
    Begin([], NO_USAGE, 0).pump
  }

  lemma AfterPublish(e: Event, size: nat, v: View)
    requires e.seqNo == 1
    ensures Run(Begin([], NO_USAGE, 0), [Publish(e)], size, v) == Turn([e], Opening())
  {
    assert [Publish(e)][..0] == [];
    assert [] + [e] == [e];
  }

  lemma PumpOne(p: Pump, e: Event, v: View)
    ensures PumpEvents(p, [e], v) == PumpEvent(p, e, v)
  {
    assert [e][..0] == [];
    assert PumpEvents(p, [], v) == p;
  }

  /** One event, drained and shown but not counted. */
  ghost predicate Uncounted(t: Turn, e: Event) {
    t.log == [e] && t.pump.holder == 1 && t.pump.usage == NO_USAGE
  }

  lemma AfterPass(e: Event, size: nat, v: View)
    requires e.seqNo == 1 && size > 0 && v.fails(e)
    ensures Uncounted(Act(Turn([e], Opening()), Pass, size, v), e)
  {
    assert StampedAt([e], 0);
    PassIs([e], size, Opening(), v);
    assert [e][0..1] == [e];
    PumpOne(Drained(Opening(), [e], size), e, v);
  }

  lemma AfterBoth(e: Event, size: nat, v: View)
    requires e.seqNo == 1 && size > 0 && v.fails(e)
    ensures Uncounted(Run(Begin([], NO_USAGE, 0), [Publish(e), Pass], size, v), e)
  {
    assert [Publish(e), Pass][..1] == [Publish(e)];
    AfterPublish(e, size, v);
    AfterPass(e, size, v);
  }

  lemma NothingLeftToCount(t: Turn, e: Event, size: nat, v: View)
    requires Uncounted(t, e)
    ensures EndStep(t.pump, t.log, size, 0, Completed, v).usage == NO_USAGE
  {
    assert RetainedAfter(t.log, size, t.pump.holder) == [];
    EndIs(t.log, size, t.pump, 0, Completed, v);
  }

  /** The pump drains the call in time, its rendering raises, and the completed turn never counts it. */
  lemma RaisingLosesTokens()
    ensures var v, actions := TheView(e => true), [Publish(Call()), Pass];
            var t := Run(Begin([], NO_USAGE, 0), actions, 10, v);
            && InTime([], NO_USAGE, 0, actions, 10, v) && t.log == [Call()]
            && TokenTotal(t.log) == Usage(7, 2, 0, None)
            && EndStep(t.pump, t.log, 10, 0, Completed, v).usage == NO_USAGE
  {
    var v, actions := TheView(e => true), [Publish(Call()), Pass];
    CallTokens();
    AfterBoth(Call(), 10, v);
    FewAreInTime([], NO_USAGE, 0, actions, 10, v);
    NothingLeftToCount(Run(Begin([], NO_USAGE, 0), actions, 10, v), Call(), 10, v);
  }
}

/** The translation of garden domain events into integration messages and the
    publisher that sends them and then clears the buffers of the gardens it
    handled. */
module Messaging {
  import opened Common
  import opened ValueObjects
  import opened Gardens
  import opened ManagementContracts

  /** What a message builder reads from a garden: its identifiers and its
      current name, area and humidity. */
  datatype GardenView = GardenView(
    id: GardenId,
    userId: UserId,
    name: string,
    totalSurfaceArea: SurfaceArea,
    targetHumidityLevel: HumidityLevel)

  /** The garden as it is now. Events hold a reference to the live garden, so
      a message built later sees the later state. */
  function ViewOf(g: Garden): (v: GardenView)
    reads g
    ensures v.id == g.id && v.userId == g.userId && v.name == g.name
    ensures v.totalSurfaceArea == g.totalSurfaceArea && v.targetHumidityLevel == g.targetHumidityLevel
  {
    GardenView(g.id, g.userId, g.name, g.totalSurfaceArea, g.targetHumidityLevel)
  }

  /** A domain event together with its garden as the publisher reads it. */
  datatype Observation = Observation(event: DomainEvent, garden: GardenView)

  /** The message one observed event is published as: the identifiers, name,
      area and humidity come from the garden, only the time from the event,
      and both tracing identifiers are absent. Plant events have no message. */
  function ToIntegrationMessage(o: Observation): (m: Option<IntegrationMessage>)
    ensures m.Some? <==> o.event.IsGardenLevel()
    ensures m.Some? ==>
      && m.value.gardenId == o.garden.id.value && m.value.userId == o.garden.userId.value
      && m.value.occurredAt == o.event.occurredAt
      && m.value.correlationId == None && m.value.causationId == None
    ensures o.event.GardenCreatedDomainEvent? <==> m.Some? && m.value.GardenCreated?
    ensures o.event.GardenRenamedDomainEvent? <==> m.Some? && m.value.GardenRenamed?
    ensures o.event.GardenSurfaceAreaChangedDomainEvent? <==> m.Some? && m.value.GardenSurfaceAreaChanged?
    ensures o.event.GardenTargetHumidityChangedDomainEvent? <==> m.Some? && m.value.GardenTargetHumidityChanged?
    ensures o.event.GardenDeletedDomainEvent? <==> m.Some? && m.value.GardenDeleted?
    ensures m.Some? && (m.value.GardenCreated? || m.value.GardenRenamed?) ==> m.value.name == o.garden.name
    ensures m.Some? && (m.value.GardenCreated? || m.value.GardenSurfaceAreaChanged?) ==>
      m.value.totalSurfaceArea == o.garden.totalSurfaceArea.value
    ensures m.Some? && (m.value.GardenCreated? || m.value.GardenTargetHumidityChanged?) ==>
      m.value.targetHumidityLevel == o.garden.targetHumidityLevel.value
  {
    var g := o.garden;
    match o.event
    case GardenCreatedDomainEvent(_, occurredAt) =>
      Some(GardenCreated(g.id.value, g.userId.value, g.name, g.totalSurfaceArea.value, g.targetHumidityLevel.value,
                         occurredAt, None, None))
    case GardenRenamedDomainEvent(_, occurredAt) =>
      Some(GardenRenamed(g.id.value, g.userId.value, g.name, occurredAt, None, None))
    case GardenSurfaceAreaChangedDomainEvent(_, occurredAt) =>
      Some(GardenSurfaceAreaChanged(g.id.value, g.userId.value, g.totalSurfaceArea.value, occurredAt, None, None))
    case GardenTargetHumidityChangedDomainEvent(_, occurredAt) =>
      Some(GardenTargetHumidityChanged(g.id.value, g.userId.value, g.targetHumidityLevel.value, occurredAt, None, None))
    case GardenDeletedDomainEvent(_, occurredAt) =>
      Some(GardenDeleted(g.id.value, g.userId.value, occurredAt, None, None))
    case _ => None
  }

  /** The message of one observed event as a sequence of at most one element. */
  function Message(o: Observation): (ms: seq<IntegrationMessage>)
    ensures |ms| <= 1
    ensures |ms| == 1 <==> o.event.IsGardenLevel()
    ensures |ms| == 1 ==> ToIntegrationMessage(o) == Some(ms[0])
  {
    match ToIntegrationMessage(o)
    case Some(m) => [m]
    case None => []
  }

  /** The messages of a sequence of observed events, in event order. */
  function Translate(observed: seq<Observation>): seq<IntegrationMessage> {
    if observed == [] then []
    else Translate(observed[..|observed| - 1]) + Message(observed[|observed| - 1])
  }

  /** The gardens the events refer to, one per event. */
  function GardenRefs(events: seq<DomainEvent>): (refs: seq<Garden>)
    ensures |refs| == |events|
    ensures forall i :: 0 <= i < |events| ==> refs[i] == events[i].garden
  {
    if events == [] then [] else GardenRefs(events[..|events| - 1]) + [events[|events| - 1].garden]
  }

  /** Every event with its garden as it is now. */
  function Observe(events: seq<DomainEvent>): (observed: seq<Observation>)
    reads GardenRefs(events)
    ensures |observed| == |events|
    ensures forall i :: 0 <= i < |events| ==> observed[i] == Observation(events[i], ViewOf(events[i].garden))
  {
    if events == [] then []
    else Observe(events[..|events| - 1]) + [Observation(events[|events| - 1], ViewOf(events[|events| - 1].garden))]
  }

  /** The messages the publisher owes for a batch of events, built from the
      gardens as they are now. */
  function Outgoing(events: seq<DomainEvent>): (ms: seq<IntegrationMessage>)
    reads GardenRefs(events)
    ensures |ms| <= |events|
  {
    TranslateIsOneMessagePerGardenLevelEvent(Observe(events));
    Translate(Observe(events))
  }

  /** The gardens referred to by a garden-level event: the ones whose buffers
      the publisher clears. */
  function HandledGardens(events: seq<DomainEvent>): (gardens: set<Garden>)
    ensures forall i :: 0 <= i < |events| && events[i].IsGardenLevel() ==> events[i].garden in gardens
  {
    set i | 0 <= i < |events| && events[i].IsGardenLevel() :: events[i].garden
  }

  /** The observed garden-level events, in order. */
  function GardenLevelEvents(observed: seq<Observation>): (selected: seq<Observation>)
    ensures |selected| <= |observed|
    ensures forall k :: 0 <= k < |selected| ==> selected[k].event.IsGardenLevel() && selected[k] in observed
    ensures forall i :: 0 <= i < |observed| && observed[i].event.IsGardenLevel() ==> observed[i] in selected
  {
    if observed == [] then []
    else
      GardenLevelEvents(observed[..|observed| - 1])
        + if observed[|observed| - 1].event.IsGardenLevel() then [observed[|observed| - 1]] else []
  }

  /** Selecting the garden-level events distributes over concatenation, so
      the selection keeps the events' order. */
  lemma {:induction false} GardenLevelEventsAppend(a: seq<Observation>, b: seq<Observation>)
    ensures GardenLevelEvents(a + b) == GardenLevelEvents(a) + GardenLevelEvents(b)
    decreases |b|
  {
    if b != [] {
      var init := b[..|b| - 1];
      assert (a + b)[..|a + b| - 1] == a + init;
      GardenLevelEventsAppend(a, init);
    } else {
      assert a + b == a;
    }
  }

  /** Translation distributes over concatenation. */
  lemma {:induction false} TranslateAppend(a: seq<Observation>, b: seq<Observation>)
    ensures Translate(a + b) == Translate(a) + Translate(b)
    decreases |b|
  {
    if b != [] {
      var init := b[..|b| - 1];
      assert (a + b)[..|a + b| - 1] == a + init;
      TranslateAppend(a, init);
    } else {
      assert a + b == a;
    }
  }

  /** A single observed event translates to its own message. */
  lemma TranslateSingle(o: Observation)
    ensures Translate([o]) == Message(o)
  {
    assert [o][..0] == [];
  }

  /** An independent description of `Translate`: exactly one message per
      garden-level event, in the same order, and each one is that event's
      message. */
  lemma {:induction false} TranslateIsOneMessagePerGardenLevelEvent(observed: seq<Observation>)
    ensures |Translate(observed)| == |GardenLevelEvents(observed)|
    ensures forall k :: 0 <= k < |Translate(observed)| ==>
      ToIntegrationMessage(GardenLevelEvents(observed)[k]) == Some(Translate(observed)[k])
  {
    if observed != [] {
      TranslateIsOneMessagePerGardenLevelEvent(observed[..|observed| - 1]);
    }
  }

  /** Plant events alone publish nothing and hand back no garden to clear. */
  lemma PlantEventsPublishNothing(events: seq<DomainEvent>)
    requires forall i :: 0 <= i < |events| ==> !events[i].IsGardenLevel()
    ensures Outgoing(events) == []
    ensures HandledGardens(events) == {}
  {
    SilentEventsTranslateToNothing(Observe(events));
  }

  /** Observations without a garden-level event translate to no message. */
  lemma {:induction false} SilentEventsTranslateToNothing(observed: seq<Observation>)
    requires forall i :: 0 <= i < |observed| ==> !observed[i].event.IsGardenLevel()
    ensures Translate(observed) == []
  {
    if observed != [] {
      SilentEventsTranslateToNothing(observed[..|observed| - 1]);
    }
  }

  /** Extending a prefix by one observed event appends that event's message,
      if it has one. */
  lemma TranslateSnoc(observed: seq<Observation>, i: nat)
    requires i < |observed|
    ensures Translate(observed[..i + 1]) == Translate(observed[..i]) + Message(observed[i])
  {
    assert observed[..i + 1][..i] == observed[..i];
  }

  /** The translation of a sequence is made of the translation before an
      event, that event's message and the translation after it. */
  lemma TranslateAround(observed: seq<Observation>, i: nat)
    requires i < |observed|
    ensures Translate(observed) == Translate(observed[..i]) + Message(observed[i]) + Translate(observed[i + 1..])
  {
    SplitAt(observed, i + 1);
    TranslateAppend(observed[..i + 1], observed[i + 1..]);
    TranslateSnoc(observed, i);
  }

  /** Stopping at a garden-level event leaves at least its message unsent. */
  lemma ShortOfTranslation(observed: seq<Observation>, i: nat)
    requires i < |observed| && observed[i].event.IsGardenLevel()
    ensures Translate(observed[..i]) < Translate(observed)
  {
    TranslateAround(observed, i);
    ProperPrefix(Translate(observed[..i]), Message(observed[i]), Translate(observed[i + 1..]));
  }

  /** A sequence is its prefix up to `k` followed by the rest. */
  lemma SplitAt<T>(s: seq<T>, k: nat)
    requires k <= |s|
    ensures s[..k] + s[k..] == s
  {
  }

  /** A sequence is a proper prefix of itself extended by a non-empty part. */
  lemma ProperPrefix<T>(a: seq<T>, b: seq<T>, c: seq<T>)
    requires b != []
    ensures a < a + b + c
  {
    assert (a + b + c)[..|a|] == a;
  }

  /** Extending the handled prefix by one event adds that event's garden when
      the event is garden-level. */
  lemma HandledGardensSnoc(events: seq<DomainEvent>, i: nat)
    requires i < |events|
    ensures HandledGardens(events[..i + 1])
      == HandledGardens(events[..i]) + (if events[i].IsGardenLevel() then {events[i].garden} else {})
  {
    var next := events[..i + 1];
    assert next[..i] == events[..i];
    forall g | g in HandledGardens(next)
      ensures g in HandledGardens(events[..i]) + (if events[i].IsGardenLevel() then {events[i].garden} else {})
    {
      var j :| 0 <= j < |next| && next[j].IsGardenLevel() && next[j].garden == g;
      if j < i {
        assert events[..i][j] == next[j];
      }
    }
    forall g | g in HandledGardens(events[..i]) ensures g in HandledGardens(next) {
      var j :| 0 <= j < i && events[..i][j].IsGardenLevel() && events[..i][j].garden == g;
      assert next[j] == events[..i][j];
    }
    if events[i].IsGardenLevel() {
      assert next[i] == events[i];
    }
  }

  /** Only the garden of a garden-level event is handled. */
  lemma HandledGardensComeFromGardenLevelEvents(events: seq<DomainEvent>, g: Garden)
    requires g in HandledGardens(events)
    ensures exists i :: 0 <= i < |events| && events[i].IsGardenLevel() && events[i].garden == g
  {
  }

  /** The gardens handled for two batches are those handled for each. */
  lemma HandledGardensAppend(a: seq<DomainEvent>, b: seq<DomainEvent>)
    ensures HandledGardens(a + b) == HandledGardens(a) + HandledGardens(b)
  {
    var ab := a + b;
    forall g | g in HandledGardens(ab) ensures g in HandledGardens(a) + HandledGardens(b) {
      var i :| 0 <= i < |ab| && ab[i].IsGardenLevel() && ab[i].garden == g;
      if i >= |a| {
        assert b[i - |a|] == ab[i];
      }
    }
    forall g | g in HandledGardens(b) ensures g in HandledGardens(ab) {
      var i :| 0 <= i < |b| && b[i].IsGardenLevel() && b[i].garden == g;
      assert ab[i + |a|] == b[i];
    }
    forall g | g in HandledGardens(a) ensures g in HandledGardens(ab) {
      var i :| 0 <= i < |a| && a[i].IsGardenLevel() && a[i].garden == g;
      assert ab[i] == a[i];
    }
  }

  /** The message bus (`IPublishEndpoint`). `published` records every message
      it accepted, in order; a publish may fail, which in the source surfaces
      as an exception. */
  class PublishEndpoint {
    var published: seq<IntegrationMessage>

    constructor ()
      ensures published == []
    {
      published := [];
    }

    method Publish(message: IntegrationMessage) returns (ok: bool)
      modifies this
      ensures published == old(published) + (if ok then [message] else [])
    {
      ok :| true;
      if ok {
        published := published + [message];
      }
    }
  }

  /** `GardenIntegrationEventPublisher`. */
  class GardenIntegrationEventPublisher {
    const publishEndpoint: PublishEndpoint

    constructor (publishEndpoint: PublishEndpoint)
      ensures this.publishEndpoint == publishEndpoint
    {
      this.publishEndpoint := publishEndpoint;
    }

    /** `PublishIntegrationEventsAsync`. Publishes the message of every
        garden-level event in order, built from the gardens as they are when
        it runs, skipping plant events, and then clears the buffer of every
        garden a garden-level event referred to; a garden met only through
        plant events keeps its buffer. A failed publish ends the call
        (`completed` false): the messages before it stay published and no
        buffer is cleared. Nothing but the endpoint and the buffers of the
        handled gardens changes. */
    method PublishIntegrationEvents(domainEvents: seq<DomainEvent>) returns (completed: bool)
      modifies publishEndpoint, HandledGardens(domainEvents)
      ensures |old(publishEndpoint.published)| <= |publishEndpoint.published|
      ensures var sent := publishEndpoint.published[|old(publishEndpoint.published)|..];
        && publishEndpoint.published[..|old(publishEndpoint.published)|] == old(publishEndpoint.published)
        && sent <= old(Outgoing(domainEvents))
        && (completed <==> sent == old(Outgoing(domainEvents)))
      ensures completed ==> forall g :: g in HandledGardens(domainEvents) ==>
        g.domainEvents == [] && g.Fields() == old(g.Fields())
      ensures !completed ==> forall g :: g in HandledGardens(domainEvents) ==> unchanged(g)
    {
      ghost var before := publishEndpoint.published;
      var ok, aggregatesToClear, sent := PublishMessages(domainEvents, Observe(domainEvents));
      assert publishEndpoint.published[|before|..] == sent;
      assert publishEndpoint.published[..|before|] == before;
      if !ok {
        return false;
      }
      ClearAggregates(aggregatesToClear);
      return true;
    }

    /** The first loop of `PublishIntegrationEventsAsync`: publishes the
        messages of the events as `observed` on entry, in event order, and
        collects the gardens of the garden-level events; it stops at the first
        failed publish. */
    method PublishMessages(domainEvents: seq<DomainEvent>, ghost observed: seq<Observation>)
      returns (ok: bool, aggregatesToClear: set<Garden>, ghost sent: seq<IntegrationMessage>)
      requires observed == Observe(domainEvents)
      modifies publishEndpoint
      ensures publishEndpoint.published == old(publishEndpoint.published) + sent
      ensures sent <= Translate(observed)
      ensures ok <==> sent == Translate(observed)
      ensures ok ==> aggregatesToClear == HandledGardens(domainEvents)
    {
      ghost var before := publishEndpoint.published;
      ghost var done: seq<IntegrationMessage> := [];
      aggregatesToClear := {};
      var i := 0;
      while i < |domainEvents|
        invariant 0 <= i <= |domainEvents|
        invariant done == Translate(observed[..i])
        invariant publishEndpoint.published == before + done
        invariant aggregatesToClear == HandledGardens(domainEvents[..i])
      {
        var domainEvent := domainEvents[i];
        assert observed[i] == Observation(domainEvent, ViewOf(domainEvent.garden));
        var published, collected := PublishEvent(domainEvent, aggregatesToClear);
        if !published {
          ShortOfTranslation(observed, i);
          return false, aggregatesToClear, done;
        }
        TranslateSnoc(observed, i);
        done := done + Message(observed[i]);
        HandledGardensSnoc(domainEvents, i);
        aggregatesToClear := collected;
        i := i + 1;
      }
      assert domainEvents[..i] == domainEvents && observed[..i] == observed;
      return true, aggregatesToClear, done;
    }

    /** One turn of the first loop: the event's message, built from its
        garden as it is now, is published if the event has one, and once it
        is, the event's garden joins the gardens to clear. `ok` is false only
        when that publish failed. */
    method PublishEvent(domainEvent: DomainEvent, aggregatesToClear: set<Garden>)
      returns (ok: bool, collected: set<Garden>)
      modifies publishEndpoint
      ensures publishEndpoint.published == old(publishEndpoint.published)
        + (if ok then Message(Observation(domainEvent, old(ViewOf(domainEvent.garden)))) else [])
      ensures !ok ==> domainEvent.IsGardenLevel()
      ensures collected == aggregatesToClear + (if ok && domainEvent.IsGardenLevel() then {domainEvent.garden} else {})
    {
      var message := ToIntegrationMessage(Observation(domainEvent, ViewOf(domainEvent.garden)));
      ok := true;
      collected := aggregatesToClear;
      if message.Some? {
        ok := publishEndpoint.Publish(message.value);
        if ok {
          collected := collected + {domainEvent.garden};
        }
      }
    }

    /** The second loop of `PublishIntegrationEventsAsync`: clears the buffer
        of every collected garden, once each. */
    static method ClearAggregates(aggregates: set<Garden>)
      modifies aggregates
      ensures forall g :: g in aggregates ==> g.domainEvents == [] && g.Fields() == old(g.Fields())
    {
      var remaining := aggregates;
      while remaining != {}
        invariant remaining <= aggregates
        invariant forall g :: g in aggregates - remaining ==> g.domainEvents == [] && g.Fields() == old(g.Fields())
        invariant forall g :: g in remaining ==> unchanged(g)
        decreases remaining
      {
        var aggregate :| aggregate in remaining;
        aggregate.ClearDomainEvents();
        remaining := remaining - {aggregate};
      }
    }
  }
}

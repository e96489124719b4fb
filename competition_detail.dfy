/**
 * The competition detail view: the competition's events and their rounds
 * flattened into one list of rounds, each tagged with its event's name, and
 * the competition's name written to the name cache when it is known.
 */
module CompetitionDetail {
  import opened Wrappers
  import Storage

  datatype Round = Round(id: string, name: string, active: bool, open: bool, number: int)
  datatype EventInfo = EventInfo(id: string, name: string)
  datatype CompetitionEvent = CompetitionEvent(id: string, event: EventInfo, rounds: seq<Round>)

  /** A round as the view lists it, with its event's name alongside. */
  datatype FlatRound = FlatRound(id: string, name: string, eventName: string, active: bool, open: bool, number: int)

  /** The `competition` field of the response, and its name and events, may each be missing. */
  datatype CompetitionPayload = CompetitionPayload(name: Option<string>, competitionEvents: Option<seq<CompetitionEvent>>)
  datatype CompetitionResponse = CompetitionResponse(competition: Option<CompetitionPayload>)

  /** The heading name: `data.competition?.name ?? ''`. */
  function NameOf(resp: CompetitionResponse): (name: string)
    ensures resp.competition.None? || resp.competition.value.name.None? ==> name == ""
    ensures resp.competition.Some? && resp.competition.value.name.Some? ==> name == resp.competition.value.name.value
  {
    match resp.competition
    case Some(c) => c.name.GetOr("")
    case None => ""
  }

  /** The event list: `data.competition?.competitionEvents ?? []`. */
  function EventsOf(resp: CompetitionResponse): (events: seq<CompetitionEvent>)
    ensures resp.competition.None? || resp.competition.value.competitionEvents.None? ==> events == []
    ensures resp.competition.Some? && resp.competition.value.competitionEvents.Some?
      ==> events == resp.competition.value.competitionEvents.value
  {
    match resp.competition
    case Some(c) => c.competitionEvents.GetOr([])
    case None => []
  }

  /**
   * The guard `if (data.competition?.name)`: the name to write to the cache,
   * present exactly when the response carries a non-empty name.
   */
  function NameToCache(resp: CompetitionResponse): (r: Option<string>)
    ensures r.Some? <==> resp.competition.Some? && resp.competition.value.name.Some?
                         && resp.competition.value.name.value != ""
    ensures r.Some? ==> r.value == NameOf(resp)
  {
    match resp.competition
    case Some(CompetitionPayload(Some(name), _)) => if name != "" then Some(name) else None
    case _ => None
  }

  function Tag(r: Round, eventName: string): FlatRound {
    FlatRound(r.id, r.name, eventName, r.active, r.open, r.number)
  }

  /** `rounds.map(r => ({ ...r, eventName }))`, entry by entry. */
  function TagRounds(rounds: seq<Round>, eventName: string): seq<FlatRound> {
    if rounds == [] then [] else [Tag(rounds[0], eventName)] + TagRounds(rounds[1..], eventName)
  }

  /** Tagging keeps the rounds' number and order, and copies each round's fields. */
  lemma {:induction false} TagRoundsAt(rounds: seq<Round>, eventName: string)
    ensures |TagRounds(rounds, eventName)| == |rounds|
    ensures forall k :: 0 <= k < |rounds| ==> TagRounds(rounds, eventName)[k] == Tag(rounds[k], eventName)
  {
    if rounds != [] {
      TagRoundsAt(rounds[1..], eventName);
    }
  }

  /** How many rounds the events have between them. */
  function RoundCount(events: seq<CompetitionEvent>): nat {
    if events == [] then 0 else |events[0].rounds| + RoundCount(events[1..])
  }

  /** The `flatRounds` list: `events.flatMap(ce => TagRounds(ce.rounds, ce.event.name))`. */
  function Flatten(events: seq<CompetitionEvent>): seq<FlatRound> {
    if events == [] then []
    else TagRounds(events[0].rounds, events[0].event.name) + Flatten(events[1..])
  }

  /** The flattened list has as many entries as the events have rounds between them. */
  lemma {:induction false} FlattenLength(events: seq<CompetitionEvent>)
    ensures |Flatten(events)| == RoundCount(events)
  {
    if events != [] {
      FlattenLength(events[1..]);
      TagRoundsAt(events[0].rounds, events[0].event.name);
    }
  }

  lemma {:induction false} RoundCountAppend(a: seq<CompetitionEvent>, b: seq<CompetitionEvent>)
    ensures RoundCount(a + b) == RoundCount(a) + RoundCount(b)
  {
    if a != [] {
      RoundCountAppend(a[1..], b);
      assert (a + b)[1..] == a[1..] + b;
    } else {
      assert a + b == b;
    }
  }

  /** Flattening two lists of events one after the other is flattening each and concatenating. */
  lemma {:induction false} FlattenAppend(a: seq<CompetitionEvent>, b: seq<CompetitionEvent>)
    ensures Flatten(a + b) == Flatten(a) + Flatten(b)
  {
    if a == [] {
      assert a + b == b;
    } else {
      var head := TagRounds(a[0].rounds, a[0].event.name);
      assert (a + b)[0] == a[0] && (a + b)[1..] == a[1..] + b;
      calc {
        Flatten(a + b);
        head + Flatten(a[1..] + b);
        { FlattenAppend(a[1..], b); }
        head + (Flatten(a[1..]) + Flatten(b));
        (head + Flatten(a[1..])) + Flatten(b);
        Flatten(a) + Flatten(b);
      }
    }
  }

  /**
   * Round `k` of event `e` sits in the flattened list right after all rounds of
   * the events before `e`, with its fields copied and its event's name added.
   */
  lemma {:induction false} FlattenAt(events: seq<CompetitionEvent>, e: nat, k: nat)
    requires e < |events| && k < |events[e].rounds|
    ensures RoundCount(events[..e]) + k < |Flatten(events)|
    ensures Flatten(events)[RoundCount(events[..e]) + k] == Tag(events[e].rounds[k], events[e].event.name)
  {
    var before, rest := events[..e], events[e..];
    assert events == before + rest;
    FlattenAppend(before, rest);
    FlattenLength(before);
    FlattenLength(events);
    assert rest[0] == events[e];
    TagRoundsAt(events[e].rounds, events[e].event.name);
  }

  /** No events, no rounds. */
  lemma FlattenNone(resp: CompetitionResponse)
    requires resp.competition.None?
    ensures Flatten(EventsOf(resp)) == [] && NameOf(resp) == "" && NameToCache(resp) == None
  {
  }

  /**
   * The `.then` handler: take the name and events from the response and, when
   * the name is non-empty, store it in the cache under the requested id.
   */
  method OnCompetitionLoaded(competitionId: string, resp: CompetitionResponse,
                             store: Storage.NameStore, writeSucceeds: bool)
      returns (name: string, rounds: seq<FlatRound>)
    modifies store
    ensures name == NameOf(resp) && rounds == Flatten(EventsOf(resp))
    ensures store.backing == match NameToCache(resp)
      case Some(n) => Storage.AfterSet(old(store.backing), competitionId, n, writeSucceeds)
      case None => old(store.backing)
  {
    name := NameOf(resp);
    var events := EventsOf(resp);
    match NameToCache(resp) {
      case Some(n) => store.Set(competitionId, n, writeSucceeds);
      case None =>
    }
    rounds := Flatten(events);
  }
}

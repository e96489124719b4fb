/**
 * The competition-name cache: one storage entry holding a JSON object that maps
 * competition ids to display names. Reads fail soft to the empty map; writes
 * swallow their errors.
 */
module Storage {
  import opened Wrappers

  /**
   * What local storage holds under the key `wca:competitionNames`, after parsing: nothing (or
   * an empty string), text that is not JSON, JSON that is not an object, or an
   * object of names.
   */
  datatype Backing = NoEntry | Unparsable | NotAnObject | Stored(names: map<string, string>)

  /** The map `readMap` produces from a backing store. */
  function Names(b: Backing): map<string, string> {
    if b.Stored? then b.names else map[]
  }

  /** What `getStoredCompetitionName(id)` answers on a backing store. */
  function Lookup(b: Backing, id: string): (r: Option<string>)
    ensures r.Some? <==> b.Stored? && id in b.names
    ensures r.Some? ==> r.value == b.names[id]
  {
    var m := Names(b);
    if id in m then Some(m[id]) else None
  }

  /** The backing store after `setStoredCompetitionName(id, name)`, whose write succeeds or not. */
  function AfterSet(b: Backing, id: string, name: string, writeSucceeds: bool): Backing {
    if writeSucceeds then Stored(Names(b)[id := name]) else b
  }

  /** A store that is missing, unparsable or not an object answers absent for every id. */
  lemma LookupFailsSoft(b: Backing, id: string)
    requires !b.Stored?
    ensures Lookup(b, id) == None
  {
  }

  /** After a successful write, the id reads back as the name just written. */
  lemma LookupAfterSet(b: Backing, id: string, name: string)
    ensures Lookup(AfterSet(b, id, name, true), id) == Some(name)
  {
  }

  /** Setting one id never changes what any other id reads as, whether the write succeeds or not. */
  lemma SetKeepsOtherIds(b: Backing, id: string, name: string, writeSucceeds: bool, other: string)
    requires other != id
    ensures Lookup(AfterSet(b, id, name, writeSucceeds), other) == Lookup(b, other)
  {
  }

  /** A failed write leaves the store as it was. */
  lemma FailedSetKeepsStore(b: Backing, id: string, name: string)
    ensures AfterSet(b, id, name, false) == b
  {
  }

  /** Of two successful writes to one id, the last wins, and the first leaves no trace. */
  lemma SetTwiceLastWins(b: Backing, id: string, first: string, second: string)
    ensures AfterSet(AfterSet(b, id, first, true), id, second, true) == AfterSet(b, id, second, true)
  {
    assert Names(b)[id := first][id := second] == Names(b)[id := second];
  }

  /** Once a pair has been written, writing it again changes nothing. */
  lemma SetIdempotent(b: Backing, id: string, name: string, secondSucceeds: bool)
    ensures var once := AfterSet(b, id, name, true);
            AfterSet(once, id, name, secondSucceeds) == once
  {
    assert Names(b)[id := name][id := name] == Names(b)[id := name];
  }

  /** One call `setStoredCompetitionName(id, name)`, and whether its write succeeded. */
  datatype Write = Write(id: string, name: string, succeeded: bool)

  /** The backing store after a series of writes, oldest first. */
  function AfterWrites(b: Backing, ws: seq<Write>): Backing
    decreases |ws|
  {
    if ws == [] then b
    else AfterWrites(AfterSet(b, ws[0].id, ws[0].name, ws[0].succeeded), ws[1..])
  }

  /** An id absent before and never written since still reads as absent, whatever else was written. */
  lemma {:induction false} NeverSetIsAbsent(b: Backing, ws: seq<Write>, id: string)
    requires Lookup(b, id) == None
    requires forall k :: 0 <= k < |ws| ==> ws[k].id != id
    ensures Lookup(AfterWrites(b, ws), id) == None
    decreases |ws|
  {
    if ws != [] {
      SetKeepsOtherIds(b, ws[0].id, ws[0].name, ws[0].succeeded, id);
      NeverSetIsAbsent(AfterSet(b, ws[0].id, ws[0].name, ws[0].succeeded), ws[1..], id);
    }
  }

  /** The browser's local storage, as seen through this cache. */
  class NameStore {
    var backing: Backing

    constructor (initial: Backing)
      ensures backing == initial
    {
      backing := initial;
    }

    /** `readMap()`: the stored object, or the empty map when there is none to be had. */
    method ReadMap() returns (m: map<string, string>)
      ensures backing.Stored? ==> m == backing.names
      ensures !backing.Stored? ==> m == map[]
    {
      match backing
      case Stored(names) => m := names;
      case _ => m := map[];
    }

    /** `writeMap(m)`: replaces the stored object, or changes nothing when the write fails. */
    method WriteMap(m: map<string, string>, writeSucceeds: bool)
      modifies this
      ensures backing == if writeSucceeds then Stored(m) else old(backing)
    {
      if writeSucceeds {
        backing := Stored(m);
      }
    }

    /** `getStoredCompetitionName(id)`: the name stored for `id`, absent if none is. */
    method Get(id: string) returns (r: Option<string>)
      ensures r.Some? <==> backing.Stored? && id in backing.names
      ensures r.Some? ==> r.value == backing.names[id]
    {
      var m := ReadMap();
      r := if id in m then Some(m[id]) else None;
    }

    /** `setStoredCompetitionName(id, name)`: read the map, add the entry, write it back. */
    method Set(id: string, name: string, writeSucceeds: bool)
      modifies this
      ensures backing == AfterSet(old(backing), id, name, writeSucceeds)
    {
      var m := ReadMap();
      m := m[id := name];
      WriteMap(m, writeSucceeds);
    }
  }
}

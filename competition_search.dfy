/**
 * The competition search view's client-side filter: a case-insensitive
 * substring match of the typed query against competition names, keeping the
 * list's order, and no filtering at all for a blank query.
 */
module CompetitionSearch {
  import opened Wrappers
  import Text

  datatype Competition = Competition(id: string, name: string, startDate: string, endDate: string)

  /** The `competitions` field of the response may be missing. */
  datatype CompetitionsResponse = CompetitionsResponse(competitions: Option<seq<Competition>>)

  /** The list a response stands for: `data.competitions ?? []`. */
  function CompetitionsOf(resp: CompetitionsResponse): (cs: seq<Competition>)
    ensures resp.competitions.None? ==> cs == []
    ensures resp.competitions.Some? ==> cs == resp.competitions.value
  {
    resp.competitions.GetOr([])
  }

  /** The query the list is matched against: `search.trim().toLowerCase()`. */
  function Query(search: string): string {
    Text.ToLower(Text.Trim(search))
  }

  /** `c.name.toLowerCase().includes(q)` */
  predicate Matches(c: Competition, q: string) {
    Text.Contains(Text.ToLower(c.name), q)
  }

  /**
   * `cs.filter(c => Matches(c, q))`: keeps exactly the matching competitions,
   * every copy of each.
   */
  function KeepMatching(cs: seq<Competition>, q: string): (r: seq<Competition>)
    ensures |r| <= |cs|
    ensures forall c :: c in r ==> c in cs && Matches(c, q)
    ensures forall c :: c in cs && Matches(c, q) ==> c in r
    ensures forall c :: multiset(r)[c] == if Matches(c, q) then multiset(cs)[c] else 0
  {
    if cs == [] then []
    else
      assert cs == [cs[0]] + cs[1..];
      if Matches(cs[0], q) then [cs[0]] + KeepMatching(cs[1..], q)
      else KeepMatching(cs[1..], q)
  }

  /** The `filtered` list shown for the typed text `search`. */
  function Filter(cs: seq<Competition>, search: string): seq<Competition> {
    var q := Query(search);
    if q == [] then cs else KeepMatching(cs, q)
  }

  /** `a` is `b` with some elements left out, the rest in their original order. */
  predicate IsSubsequence<T(==)>(a: seq<T>, b: seq<T>)
    decreases |b|
  {
    a == [] || (b != [] && (if a[0] == b[0] then IsSubsequence(a[1..], b[1..]) else IsSubsequence(a, b[1..])))
  }

  lemma {:induction false} SubsequenceOfSelf<T>(s: seq<T>)
    ensures IsSubsequence(s, s)
  {
    if s != [] { SubsequenceOfSelf(s[1..]); }
  }

  lemma {:induction false} KeepMatchingIsSubsequence(cs: seq<Competition>, q: string)
    ensures IsSubsequence(KeepMatching(cs, q), cs)
  {
    if cs != [] {
      KeepMatchingIsSubsequence(cs[1..], q);
      var r := KeepMatching(cs[1..], q);
      if Matches(cs[0], q) {
        assert ([cs[0]] + r)[1..] == r;
      } else {
        assert r != [] ==> r[0] in r && r[0] != cs[0];
      }
    }
  }

  /** A query that is blank (empty or whitespace only) leaves the list unchanged. */
  lemma BlankQueryKeepsAll(cs: seq<Competition>, search: string)
    requires Text.IsBlank(search)
    ensures Filter(cs, search) == cs
  {
    Text.TrimSpec(search);
  }

  /**
   * For a query that is not blank, the filtered list keeps the list's order,
   * holds only competitions whose lower-cased name contains the trimmed,
   * lower-cased query, and holds every such competition.
   */
  lemma FilterSoundAndComplete(cs: seq<Competition>, search: string)
    requires !Text.IsBlank(search)
    ensures var r := Filter(cs, search);
      && IsSubsequence(r, cs)
      && (forall c :: c in r ==> c in cs && Matches(c, Query(search)))
      && (forall c :: c in cs && Matches(c, Query(search)) ==> c in r)
  {
    Text.TrimSpec(search);
    KeepMatchingIsSubsequence(cs, Query(search));
  }

  /** Whatever the query, the filtered list is an order-preserving part of the list. */
  lemma FilterIsSubsequence(cs: seq<Competition>, search: string)
    ensures IsSubsequence(Filter(cs, search), cs)
  {
    if Query(search) == [] {
      SubsequenceOfSelf(cs);
    } else {
      KeepMatchingIsSubsequence(cs, Query(search));
    }
  }

  lemma {:induction false} KeepMatchingIdempotent(cs: seq<Competition>, q: string)
    ensures KeepMatching(KeepMatching(cs, q), q) == KeepMatching(cs, q)
  {
    if cs != [] {
      KeepMatchingIdempotent(cs[1..], q);
      if Matches(cs[0], q) {
        assert ([cs[0]] + KeepMatching(cs[1..], q))[1..] == KeepMatching(cs[1..], q);
      }
    }
  }

  /** Filtering the filtered list again with the same text changes nothing. */
  lemma FilterIdempotent(cs: seq<Competition>, search: string)
    ensures Filter(Filter(cs, search), search) == Filter(cs, search)
  {
    if Query(search) != [] {
      KeepMatchingIdempotent(cs, Query(search));
    }
  }

  /** The case of the typed text does not matter: the search lower-cased filters alike. */
  lemma FilterIgnoresSearchCase(cs: seq<Competition>, search: string)
    ensures Filter(cs, Text.ToLower(search)) == Filter(cs, search)
  {
    calc {
      Query(Text.ToLower(search));
      Text.ToLower(Text.Trim(Text.ToLower(search)));
      { Text.TrimLower(search); }
      Text.ToLower(Text.ToLower(Text.Trim(search)));
      { Text.ToLowerIdempotent(Text.Trim(search)); }
      Query(search);
    }
  }
}

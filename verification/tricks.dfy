/** Queries over the trick catalogue (src/lib/tricks.ts). The catalogue
    file itself is not part of this model: every query takes the dataset
    as its first argument. */
module Tricks {
  import opened Common
  import opened Types

  /** `getAllTricks`: the whole catalogue. */
  function GetAllTricks(data: seq<Trick>): (r: seq<Trick>)
    ensures r == data
  {
    data
  }

  /** The position of the first trick with the given slug, or `|data|` when there is none. */
  function SlugIndex(data: seq<Trick>, slug: string): (k: nat)
    ensures k <= |data|
    ensures forall j :: 0 <= j < k ==> data[j].slug != slug
    ensures k < |data| ==> data[k].slug == slug
  {
    if |data| == 0 then 0
    else if data[0].slug == slug then 0
    else 1 + SlugIndex(data[1..], slug)
  }

  /** `getTrickBySlug`: the first trick carrying `slug`, or nothing when no trick does. */
  function GetTrickBySlug(data: seq<Trick>, slug: string): (r: Option<Trick>)
    ensures r.None? <==> forall i :: 0 <= i < |data| ==> data[i].slug != slug
    ensures r.Some? ==> exists i :: 0 <= i < |data| && data[i] == r.value && data[i].slug == slug
                                    && forall j :: 0 <= j < i ==> data[j].slug != slug
  {
    var k := SlugIndex(data, slug);
    if k < |data| then Some(data[k]) else None
  }

  /** Whether a category tab shows the trick. */
  predicate Shows(filter: CategoryFilter, t: Trick) {
    filter.AllTricks? || t.category == filter.category
  }

  /** `getTricksByCategory`: every trick the tab shows, each as often as it
      occurs, in catalogue order; the "all" tab shows the whole catalogue. */
  function GetTricksByCategory(data: seq<Trick>, filter: CategoryFilter): (r: seq<Trick>)
    ensures filter.AllTricks? ==> r == data
    ensures forall t :: t in r <==> t in data && Shows(filter, t)
    ensures forall t :: multiset(r)[t] == if Shows(filter, t) then multiset(data)[t] else 0
    ensures IsSubsequence(r, data)
  {
    if filter.AllTricks? then
      PrefixIsSubsequence(data, data);
      data
    else
      Filter(data, (t: Trick) => Shows(filter, t))
  }

  /** Whether a trick matches an already lower-cased query: some name, the
      category literal or some tag contains it, ignoring case. */
  predicate MatchesQuery(t: Trick, q: string) {
    || Includes(Lower(t.nameJa), q)
    || Includes(Lower(t.nameEn), q)
    || Includes(Lower(CategoryName(t.category)), q)
    || exists i :: 0 <= i < |t.tags| && Includes(Lower(t.tags[i]), q)
  }

  /** `searchTricks`: the tricks matching the lower-cased query, in catalogue
      order; the empty query matches every trick. */
  function SearchTricks(data: seq<Trick>, query: string): (r: seq<Trick>)
    ensures forall t :: t in r <==> t in data && MatchesQuery(t, Lower(query))
    ensures forall t :: multiset(r)[t] == if MatchesQuery(t, Lower(query)) then multiset(data)[t] else 0
    ensures IsSubsequence(r, data)
    ensures query == "" ==> r == data
  {
    var q := Lower(query);
    if query == "" then
      assert forall t: Trick :: MatchesQuery(t, q) by {
        forall t: Trick ensures MatchesQuery(t, q) {
          assert OccursAt(Lower(t.nameJa), q, 0);
        }
      }
      FilterAll(data, (t: Trick) => MatchesQuery(t, q));
      Filter(data, (t: Trick) => MatchesQuery(t, q))
    else
      Filter(data, (t: Trick) => MatchesQuery(t, q))
  }

  /** Searching is blind to the case of the query's ASCII letters. */
  lemma SearchIgnoresQueryCase(data: seq<Trick>, query: string)
    ensures SearchTricks(data, query) == SearchTricks(data, Lower(query))
  {
    LowerIdempotent(query);
    if query != "" && Lower(query) == "" {
      assert |Lower(query)| == |query|;
    }
  }

  /** How many related tricks are shown when the caller gives no limit. */
  const DefaultRelatedLimit: int := 4

  /** Another trick of the same category or the same difficulty. */
  predicate IsRelated(trick: Trick, t: Trick) {
    t.id != trick.id && (t.category == trick.category || t.difficulty == trick.difficulty)
  }

  /** Every trick related to `trick`, in catalogue order. */
  function RelatedCandidates(data: seq<Trick>, trick: Trick): (r: seq<Trick>)
    ensures forall t :: t in r <==> t in data && IsRelated(trick, t)
    ensures IsSubsequence(r, data)
  {
    Filter(data, (t: Trick) => IsRelated(trick, t))
  }

  /** `getRelatedTricks`: the first `limit` related tricks. None of them has the
      given trick's id, each shares its category or difficulty, and they are the
      leading related tricks in catalogue order. A negative limit counts from the
      back, as JavaScript's `slice` does. */
  function GetRelatedTricks(data: seq<Trick>, trick: Trick, limit: int): (r: seq<Trick>)
    ensures forall t :: t in r ==> t in data && t.id != trick.id
    ensures forall t :: t in r ==> t.category == trick.category || t.difficulty == trick.difficulty
    ensures IsPrefix(r, RelatedCandidates(data, trick))
    ensures 0 <= limit ==> |r| == Min(limit, |RelatedCandidates(data, trick)|)
    ensures IsSubsequence(r, data)
  {
    var all := RelatedCandidates(data, trick);
    var r := SliceTo(all, limit);
    assert forall t :: t in r ==> t in all by {
      forall t | t in r ensures t in all {
        var i :| 0 <= i < |r| && r[i] == t;
        assert all[i] == t;
      }
    }
    PrefixIsSubsequence(r, all);
    SubsequenceTransitive(r, all, data);
    r
  }
}

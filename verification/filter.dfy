/**
 * The filter context: a search text and a sort order, changed by `doSearch`
 * and `doSort`.  The state update of `doSort` spreads the previous state and
 * writes the keys `sortBy` and `dir`; as there is no key `dir` in the state's
 * type, the update adds a stray key and leaves `sortDir` as it was.  That is
 * modelled as written, with a `dir` field that only `doSort` writes, and the
 * evidently intended update is given beside it.
 */
module Filter {
  import opened Wrappers

  /** `'name' | 'email' | 'phone' | 'address' | 'createdAt'` */
  datatype SortField = Name | Email | Phone | Address | CreatedAt

  /** `'asc' | 'desc'` */
  datatype SortDir = Asc | Desc

  /** `FilterState`, plus the stray `dir` key an update may add at run time. */
  datatype FilterState = FilterState(search: string, sortBy: SortField, sortDir: SortDir, dir: Option<SortDir>)

  /** `{search: '', sortBy: 'name', sortDir: 'asc'}` */
  const InitialState := FilterState("", Name, Asc, None)

  /** `doSearch(q)`: `{...prev, search: q}` */
  function DoSearch(prev: FilterState, q: string): (r: FilterState)
    ensures r.search == q
    ensures r.sortBy == prev.sortBy && r.sortDir == prev.sortDir && r.dir == prev.dir
  {
    prev.(search := q)
  }

  /** `doSort(field, dir)` as written: `{...prev, sortBy: field, dir: dir}` */
  function DoSort(prev: FilterState, field: SortField, dir: SortDir): (r: FilterState)
    ensures r.sortBy == field
    ensures r.search == prev.search
    ensures r.sortDir == prev.sortDir
  {
    prev.(sortBy := field, dir := Some(dir))
  }

  /** `doSort(field, dir)` as evidently intended: `{...prev, sortBy: field, sortDir: dir}` */
  function DoSortIntended(prev: FilterState, field: SortField, dir: SortDir): (r: FilterState)
    ensures r.sortBy == field && r.sortDir == dir
    ensures r.search == prev.search && r.dir == prev.dir
  {
    prev.(sortBy := field, sortDir := dir)
  }

  /** The calls a consumer of the context can make. */
  datatype FilterAction = Search(q: string) | Sort(field: SortField, dir: SortDir)

  function Apply(s: FilterState, a: FilterAction): FilterState
  {
    match a
    case Search(q) => DoSearch(s, q)
    case Sort(field, dir) => DoSort(s, field, dir)
  }

  function ApplyIntended(s: FilterState, a: FilterAction): FilterState
  {
    match a
    case Search(q) => DoSearch(s, q)
    case Sort(field, dir) => DoSortIntended(s, field, dir)
  }

  /** The state after the calls `actions`, in order. */
  function Run(s: FilterState, actions: seq<FilterAction>): FilterState
    decreases |actions|
  {
    if actions == [] then s else Run(Apply(s, actions[0]), actions[1..])
  }

  function RunIntended(s: FilterState, actions: seq<FilterAction>): FilterState
    decreases |actions|
  {
    if actions == [] then s else RunIntended(ApplyIntended(s, actions[0]), actions[1..])
  }

  /** A search and a sort touch different keys, so their order does not matter. */
  lemma SearchSortCommute(s: FilterState, q: string, field: SortField, dir: SortDir)
    ensures DoSort(DoSearch(s, q), field, dir) == DoSearch(DoSort(s, field, dir), q)
  {
  }

  /** The input that shows the defect: asking for a descending sort leaves the order ascending. */
  lemma DoSortDropsDirection()
    ensures DoSort(InitialState, Name, Desc).sortDir == Asc
    ensures DoSortIntended(InitialState, Name, Desc).sortDir == Desc
  {
  }

  /** As written, whatever the calls, the visible sort direction stays the initial `asc`. */
  lemma {:induction false} RunKeepsAscending(s: FilterState, actions: seq<FilterAction>)
    requires s.sortDir == Asc
    ensures Run(s, actions).sortDir == Asc
    decreases |actions|
  {
    if actions != [] {
      RunKeepsAscending(Apply(s, actions[0]), actions[1..]);
    }
  }

  /** With the intended update, the direction is the one the latest sort asked for. */
  lemma {:induction false} RunIntendedFollowsLastSort(s: FilterState, actions: seq<FilterAction>, k: nat)
    requires k < |actions| && actions[k].Sort?
    requires forall j :: k < j < |actions| ==> actions[j].Search?
    ensures RunIntended(s, actions).sortDir == actions[k].dir
    ensures RunIntended(s, actions).sortBy == actions[k].field
    decreases |actions|
  {
    if k == 0 {
      RunIntendedSearchesOnly(ApplyIntended(s, actions[0]), actions[1..]);
    } else {
      RunIntendedFollowsLastSort(ApplyIntended(s, actions[0]), actions[1..], k - 1);
    }
  }

  /** Searches alone never change the sort order. */
  lemma {:induction false} RunIntendedSearchesOnly(s: FilterState, actions: seq<FilterAction>)
    requires forall j :: 0 <= j < |actions| ==> actions[j].Search?
    ensures RunIntended(s, actions).sortDir == s.sortDir && RunIntended(s, actions).sortBy == s.sortBy
    decreases |actions|
  {
    if actions != [] {
      RunIntendedSearchesOnly(ApplyIntended(s, actions[0]), actions[1..]);
    }
  }

  /** Apart from the direction, the update as written and the intended one agree on every call sequence. */
  lemma {:induction false} RunAgreesOnSearchAndField(s: FilterState, actions: seq<FilterAction>)
    ensures Run(s, actions).search == RunIntended(s, actions).search
    ensures Run(s, actions).sortBy == RunIntended(s, actions).sortBy
    decreases |actions|
  {
    if actions != [] {
      RunAgreesOnSearchAndFieldFrom(Apply(s, actions[0]), ApplyIntended(s, actions[0]), actions[1..]);
    }
  }

  lemma {:induction false} RunAgreesOnSearchAndFieldFrom(s: FilterState, t: FilterState, actions: seq<FilterAction>)
    requires s.search == t.search && s.sortBy == t.sortBy
    ensures Run(s, actions).search == RunIntended(t, actions).search
    ensures Run(s, actions).sortBy == RunIntended(t, actions).sortBy
    decreases |actions|
  {
    if actions != [] {
      RunAgreesOnSearchAndFieldFrom(Apply(s, actions[0]), ApplyIntended(t, actions[0]), actions[1..]);
    }
  }
}

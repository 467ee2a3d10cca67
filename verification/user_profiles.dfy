/**
 * The user profiles component: the type guard on the API's response, the
 * id-keyed dictionary built from a successful response, the state change
 * when the one load on mount completes, and the previews listed for a
 * successful response.  `fetch` and JSON decoding are abstracted into the
 * outcome the load receives.
 */
module UserProfiles {
  import opened Wrappers

  type UserId = string

  /** `UserProfile`; `Date` values are kept as opaque timestamps. */
  datatype UserProfile = UserProfile(id: UserId, name: string, email: string, bio: Option<string>, createdAt: int, updatedAt: int)

  /** `UserProfilePreview`: `Pick<UserProfile, 'id' | 'name' | 'email'>` */
  datatype UserProfilePreview = UserProfilePreview(id: UserId, name: string, email: string)

  /** `SuccessResponse | ErrorResponse` */
  datatype ApiResponse = Success(data: seq<UserProfile>) | Error(message: string)

  /** The `status` tag of each variant. */
  function Status(r: ApiResponse): string
  {
    match r
    case Success(_) => "success"
    case Error(_) => "error"
  }

  /** `isSuccessResponse`: `resp.status === 'success'` */
  predicate IsSuccessResponse(r: ApiResponse)
  {
    Status(r) == "success"
  }

  /** The guard holds exactly for the success variant, so it narrows soundly. */
  lemma IsSuccessNarrows(r: ApiResponse)
    ensures IsSuccessResponse(r) <==> r.Success?
  {
    assert "error" != "success";
  }

  /** `UserDictionary` */
  type UserDictionary = map<UserId, UserProfile>

  /** `data.reduce((acc, user) => { acc[user.id] = user; return acc; }, acc)` */
  function Reduce(acc: UserDictionary, data: seq<UserProfile>): UserDictionary
    decreases |data|
  {
    if data == [] then acc else Reduce(acc[data[0].id := data[0]], data[1..])
  }

  /** The dictionary built from `data`, starting from `{}`. */
  function Dictionary(data: seq<UserProfile>): UserDictionary
  {
    Reduce(map[], data)
  }

  /** The ids occurring in `data`. */
  function Ids(data: seq<UserProfile>): set<UserId>
  {
    set k | 0 <= k < |data| :: data[k].id
  }

  /** Whether position `k` is the last one with its id. */
  predicate LastWithId(data: seq<UserProfile>, k: int)
    requires 0 <= k < |data|
  {
    forall k' :: k < k' < |data| ==> data[k'].id != data[k].id
  }

  lemma IdsCons(data: seq<UserProfile>)
    requires data != []
    ensures Ids(data) == {data[0].id} + Ids(data[1..])
  {
    forall x | x in Ids(data)
      ensures x in {data[0].id} + Ids(data[1..])
    {
      var k :| 0 <= k < |data| && data[k].id == x;
      if k > 0 {
        assert data[1..][k - 1].id == x;
      }
    }
    forall x | x in Ids(data[1..])
      ensures x in Ids(data)
    {
      var k :| 0 <= k < |data[1..]| && data[1..][k].id == x;
      assert data[k + 1].id == x;
    }
  }

  /** The fold adds exactly the ids of `data` to the keys it starts from. */
  lemma {:induction false} ReduceKeys(acc: UserDictionary, data: seq<UserProfile>)
    ensures Reduce(acc, data).Keys == acc.Keys + Ids(data)
    decreases |data|
  {
    if data != [] {
      ReduceKeys(acc[data[0].id := data[0]], data[1..]);
      IdsCons(data);
    }
  }

  /** An entry whose id does not occur in `data` comes through the fold unchanged. */
  lemma {:induction false} ReduceUntouched(acc: UserDictionary, data: seq<UserProfile>, id: UserId)
    requires id in acc
    requires forall k :: 0 <= k < |data| ==> data[k].id != id
    ensures id in Reduce(acc, data) && Reduce(acc, data)[id] == acc[id]
    decreases |data|
  {
    if data != [] {
      ReduceUntouched(acc[data[0].id := data[0]], data[1..], id);
    }
  }

  /** The last profile with an id is the one the fold keeps for it. */
  lemma {:induction false} ReduceLastWins(acc: UserDictionary, data: seq<UserProfile>, k: nat)
    requires k < |data| && LastWithId(data, k)
    ensures data[k].id in Reduce(acc, data) && Reduce(acc, data)[data[k].id] == data[k]
    decreases |data|
  {
    var acc' := acc[data[0].id := data[0]];
    if k == 0 {
      forall j | 0 <= j < |data[1..]|
        ensures data[1..][j].id != data[0].id
      {
        assert data[1..][j] == data[j + 1];
      }
      ReduceUntouched(acc', data[1..], data[0].id);
    } else {
      assert LastWithId(data[1..], k - 1) by {
        forall j | k - 1 < j < |data[1..]|
          ensures data[1..][j].id != data[1..][k - 1].id
        {
          assert data[1..][j] == data[j + 1];
        }
      }
      ReduceLastWins(acc', data[1..], k - 1);
    }
  }

  /** The dictionary's keys are exactly the ids in `data`, and each id maps to the last profile carrying it. */
  lemma DictionarySpec(data: seq<UserProfile>)
    ensures Dictionary(data).Keys == Ids(data)
    ensures forall k :: 0 <= k < |data| && LastWithId(data, k) ==> Dictionary(data)[data[k].id] == data[k]
  {
    ReduceKeys(map[], data);
    forall k | 0 <= k < |data| && LastWithId(data, k)
      ensures Dictionary(data)[data[k].id] == data[k]
    {
      ReduceLastWins(map[], data, k);
    }
  }

  /** When ids are unique, every profile is found under its own id. */
  lemma DictionaryUniqueIds(data: seq<UserProfile>)
    requires forall i, j :: 0 <= i < j < |data| ==> data[i].id != data[j].id
    ensures forall k :: 0 <= k < |data| ==> data[k].id in Dictionary(data) && Dictionary(data)[data[k].id] == data[k]
  {
    forall k | 0 <= k < |data|
      ensures data[k].id in Dictionary(data) && Dictionary(data)[data[k].id] == data[k]
    {
      ReduceLastWins(map[], data, k);
    }
  }

  /** `data.map(({id, name, email}) => ({id, name, email}))` */
  function Previews(data: seq<UserProfile>): (r: seq<UserProfilePreview>)
    ensures |r| == |data|
    ensures forall k :: 0 <= k < |data| ==> r[k].id == data[k].id && r[k].name == data[k].name && r[k].email == data[k].email
    decreases |data|
  {
    if data == [] then []
    else [UserProfilePreview(data[0].id, data[0].name, data[0].email)] + Previews(data[1..])
  }

  /** The previews list exactly the ids the dictionary is keyed by. */
  lemma PreviewIdsAreKeys(data: seq<UserProfile>)
    ensures (set k | 0 <= k < |Previews(data)| :: Previews(data)[k].id) == Dictionary(data).Keys
  {
    DictionarySpec(data);
    var p := Previews(data);
    assert forall k :: 0 <= k < |p| ==> p[k].id == data[k].id;
  }

  /** The component's state: `response` (`null` until the load completes) and `profilesById`. */
  datatype ProfilesState = ProfilesState(response: Option<ApiResponse>, profilesById: UserDictionary)

  const InitialState := ProfilesState(None, map[])

  /** How the load on mount ends: the JSON of a response, or a thrown error (network or decoding). */
  datatype LoadOutcome = Received(result: ApiResponse) | Thrown

  /** `loadProfiles`: store the response, and for a success replace the dictionary. */
  function LoadProfiles(s: ProfilesState, outcome: LoadOutcome): (r: ProfilesState)
    ensures r.response.Some?
    ensures outcome.Thrown? ==> r.response == Some(Error("Network error"))
    ensures outcome.Received? ==> r.response == Some(outcome.result)
    ensures outcome.Received? && outcome.result.Success? ==> r.profilesById == Dictionary(outcome.result.data)
    ensures outcome.Received? && outcome.result.Success? ==> r.profilesById.Keys == Ids(outcome.result.data)
    ensures !(outcome.Received? && outcome.result.Success?) ==> r.profilesById == s.profilesById
  {
    match outcome
    case Thrown => s.(response := Some(Error("Network error")))
    case Received(result) =>
      var s' := s.(response := Some(result));
      if IsSuccessResponse(result) then
        DictionarySpec(result.data);
        s'.(profilesById := Dictionary(result.data))
      else s'
  }

  /** The dictionary changes only through a success, which replaces it whole: nothing of the old one is kept. */
  lemma LoadReplacesDictionary(s: ProfilesState, t: ProfilesState, data: seq<UserProfile>)
    ensures LoadProfiles(s, Received(Success(data))).profilesById == LoadProfiles(t, Received(Success(data))).profilesById
  {
  }

  /** What the component shows. */
  datatype View = Loading | ErrorView(message: string) | ListView(previews: seq<UserProfilePreview>)

  function Render(s: ProfilesState): (v: View)
    ensures s.response.None? ==> v == Loading
    ensures s.response.Some? && s.response.value.Error? ==> v == ErrorView(s.response.value.message)
    ensures s.response.Some? && s.response.value.Success? ==> v == ListView(Previews(s.response.value.data))
  {
    match s.response
    case None => Loading
    case Some(r) =>
      IsSuccessNarrows(r);
      if !IsSuccessResponse(r) then ErrorView(r.message) else ListView(Previews(r.data))
  }

  /** A failed load shows the network error and keeps whatever dictionary there was. */
  lemma NetworkErrorShown(s: ProfilesState)
    ensures Render(LoadProfiles(s, Thrown)) == ErrorView("Network error")
    ensures LoadProfiles(s, Thrown).profilesById == s.profilesById
  {
  }

  /** Two profiles with one id: the dictionary keeps the later. */
  lemma DuplicateIdExample(a: UserProfile, b: UserProfile)
    requires a.id == b.id
    ensures Dictionary([a, b]) == map[a.id := b]
  {
    var m: UserDictionary := map[];
    assert [a, b][1..] == [b];
    assert [b][1..] == [];
    assert Reduce(m, [a, b]) == Reduce(m[a.id := a], [b]);
    assert Reduce(m[a.id := a], [b]) == Reduce(m[a.id := a][b.id := b], []);
    assert m[a.id := a][b.id := b] == map[a.id := b];
  }
}

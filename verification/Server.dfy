/** The server in front of the file store, and how puts change what it selects. */
module Servers {
  import opened Results
  import opened Enumerations
  import opened Groups
  import opened Formats
  import opened Stores
  import opened FileTrees
  import opened FileStores
  import opened Selection
  import opened Refinement
  import Mac

  datatype ServerError = IdRequired | ProfileRequired | StoreFailed(error: StoreError) | Unselected(why: SelectError)

  function AssertValid(g: Group): Option<ServerError> {
    if g.id == "" then Some(IdRequired) else if g.profile == "" then Some(ProfileRequired) else None
  }

  class Server {
    const store: FileStore

    constructor (store: FileStore)
      ensures this.store == store
    {
      this.store := store;
    }

    method GroupPut(g: Group) returns (r: Result<Group, ServerError>)
      modifies store
      ensures g.id == "" ==> r == Err(IdRequired) && store.disk == old(store.disk)
      ensures g.id != "" && g.profile == "" ==> r == Err(ProfileRequired) && store.disk == old(store.disk)
      ensures g.id != "" && g.profile != "" ==>
                var (d, e) := PutGroup(store.root, old(store.disk), g);
                store.disk == d && r == if e.None? then Ok(g) else Err(StoreFailed(e.value))
    {
      var invalid := AssertValid(g);
      if invalid.Some? {
        return Err(invalid.value);
      }
      var e := store.GroupPut(g);
      r := if e.None? then Ok(g) else Err(StoreFailed(e.value));
    }

    /** Selection changes nothing in the store: the slice that is sorted is the caller's own. */
    method SelectGroup(labels: Labels) returns (r: Result<Group, ServerError>)
      ensures match ListGroups(store.root, store.disk)
              case Err(e) => r == Err(StoreFailed(e))
              case Ok(listed) => match r
                case Ok(g) => MaySelect(listed, labels, Ok(g))
                case Err(e) => e == Unselected(NoMatchingGroup) && MaySelect(listed, labels, Err(NoMatchingGroup))
    {
      hide ListGroups, MaySelect, Ranked, FirstMatch;
      var listed := store.GroupList();
      if listed.Err? {
        return Err(StoreFailed(listed.error));
      }
      var gs := listed.value;
      var groups := new Group[|gs|](i requires 0 <= i < |gs| => gs[i]);
      assert groups[..] == gs;
      var chosen := Selection.SelectGroup(groups, labels);
      NoMatchOnly(gs, labels, chosen);
      match chosen {
        case Ok(g) => r := Ok(g);
        case Err(e) => r := Err(Unselected(e));
      }
    }

    method ProfileGet(id: string) returns (r: Result<Profile, ServerError>)
      ensures r == match GetProfile(store.root, store.disk, id)
                   case Err(e) => Err(StoreFailed(e))
                   case Ok(p) => Ok(p)
    {
      var profile := store.ProfileGet(id);
      match profile {
        case Err(e) => r := Err(StoreFailed(e));
        case Ok(p) => r := if p.id == "" then Err(IdRequired) else Ok(p);
      }
    }

    /** The Profile of the selected Group; a store that cannot be listed counts as no match. */
    method SelectProfile(labels: Labels) returns (r: Result<Profile, ServerError>)
      ensures ProfileAnswer(store.root, store.disk, labels, r)
    {
      var group := SelectGroup(labels);
      hide ListGroups, GetProfile;
      match group {
        case Err(_) => r := Err(Unselected(NoMatchingGroup));
        case Ok(g) =>
          var profile := ProfileGet(g.profile);
          r := if profile.Ok? then profile else Err(Unselected(NoMatchingProfile));
      }
    }
  }

  /** The reply for a selected group: its profile, or that there is none. */
  function ProfileReply(root: string, d: Disk): Group -> Result<Profile, ServerError> {
    (g: Group) => match GetProfile(root, d, g.profile)
      case Err(_) => Err(Unselected(NoMatchingProfile))
      case Ok(p) => Ok(p)
  }

  /**
   What `SelectProfile` may answer: "no matching group" exactly when nothing is listed or matches,
   otherwise the reply for a group that may be selected.
   */
  ghost predicate ProfileAnswer(root: string, d: Disk, labels: Labels, r: Result<Profile, ServerError>) {
    var listing := ListGroups(root, d);
    && (r == Err(Unselected(NoMatchingGroup)) <==>
        listing.Err? || MaySelect(listing.value, labels, Err(NoMatchingGroup)))
    && (r != Err(Unselected(NoMatchingGroup)) ==>
          exists g :: MaySelect(listing.value, labels, Ok(g)) && r == ProfileReply(root, d)(g))
  }

  lemma NoMatchOnly(gs: seq<Group>, labels: Labels, r: Result<Group, SelectError>)
    requires MaySelect(gs, labels, r)
    ensures r.Err? ==> r == Err(NoMatchingGroup)
  {
  }

  // ---------- what is listed ----------

  /** `v` is how some stored group reads back. */
  ghost predicate Stored(m: Maps, v: Group) {
    exists id :: id in m.groups && View(m.groups[id]) == Some(v)
  }

  lemma ListedExactly(root: string, d: Disk, m: Maps, v: Group)
    requires Sim(root, d, m)
    ensures ListGroups(root, d).Ok?
    ensures v in ListGroups(root, d).value <==> Stored(m, v)
  {
    hide Sim, ListGroups, View;
    ValuesExist(m.groups);
    var gs :| ListsValues(gs, m.groups);
    GroupsListed(root, d, m, gs);
    var listed := ListGroups(root, d).value;
    assert v in listed <==> v in multiset(listed);
    assert v in FlatMap(GroupSeen(), gs) <==> v in multiset(FlatMap(GroupSeen(), gs));
    FlatMapMember(GroupSeen(), gs, v);
    SeenExactly(gs, m, v);
  }

  lemma SeenExactly(gs: seq<Group>, m: Maps, v: Group)
    requires ListsValues(gs, m.groups)
    ensures (exists i :: 0 <= i < |gs| && v in GroupSeen()(gs[i])) <==> Stored(m, v)
  {
    hide View;
    var keys :| Lists(keys, m.groups.Keys) && |gs| == |keys| &&
                forall i :: 0 <= i < |keys| ==> gs[i] == m.groups[keys[i]];
    if i :| 0 <= i < |gs| && v in GroupSeen()(gs[i]) {
      assert keys[i] in keys && View(m.groups[keys[i]]) == Some(v);
    }
    if Stored(m, v) {
      var id :| id in m.groups && View(m.groups[id]) == Some(v);
      assert id in keys;
      var i :| 0 <= i < |keys| && keys[i] == id;
      assert v in GroupSeen()(gs[i]);
    }
  }

  lemma ValuesExist(groups: map<string, Group>)
    ensures exists gs :: ListsValues(gs, groups)
  {
    var keys := ListsExist(groups.Keys);
    assert forall i :: 0 <= i < |keys| ==> keys[i] in keys;
    var gs := seq(|keys|, i requires 0 <= i < |keys| => groups[keys[i]]);
    assert ListsValues(gs, groups);
  }

  lemma {:induction false} FlatMapOnce<T>(f: string -> seq<T>, keys: seq<string>, k: string, v: T)
    requires forall i, j :: 0 <= i < j < |keys| ==> keys[i] != keys[j]
    requires forall l :: l in keys ==> if l == k then f(l) == [v] else v !in f(l)
    ensures multiset(FlatMap(f, keys))[v] == if k in keys then 1 else 0
  {
    if keys != [] {
      assert keys == [keys[0]] + keys[1..];
      assert keys[0] in keys;
      FlatMapOnce(f, keys[1..], k, v);
    }
  }

  /** Keyed groups read back under their own id only. */
  lemma SeenUnderOwnId(groups: map<string, Group>, id: string)
    requires forall l :: l in groups ==> groups[l].id == l
    requires id in groups && View(groups[id]).Some?
    ensures forall l :: l in groups ==> if l == id then GroupUnder(groups)(l) == [View(groups[id]).value]
                                        else View(groups[id]).value !in GroupUnder(groups)(l)
  {
    forall l | l in groups && View(groups[l]).Some? ensures View(groups[l]).value.id == l {
    }
    hide View;
    forall l | l in groups
      ensures GroupUnder(groups)(l) == if View(groups[l]).Some? then [View(groups[l]).value] else []
    {
      assert GroupUnder(groups)(l) == GroupSeen()(groups[l]);
    }
  }

  /** Every readable group is listed exactly once. */
  lemma ListedOnce(root: string, d: Disk, m: Maps, id: string)
    requires Sim(root, d, m) && id in m.groups && View(m.groups[id]).Some?
    ensures ListGroups(root, d).Ok?
    ensures multiset(ListGroups(root, d).value)[View(m.groups[id]).value] == 1
  {
    hide Sim, ListGroups, View, GroupUnder, GroupSeen;
    GroupsKeyed(root, d, m);
    SeenUnderOwnId(m.groups, id);
    ValuesExist(m.groups);
    var gs :| ListsValues(gs, m.groups);
    GroupsListed(root, d, m, gs);
    var keys := GroupsInOrder(gs, m.groups);
    FlatMapOnce(GroupUnder(m.groups), keys, id, View(m.groups[id]).value);
  }

  // ---------- the answers, told by what is stored ----------

  /** The group stored under `id` matches, as it reads back, and no other stored match outranks it. */
  ghost predicate StoredChoice(m: Maps, labels: Labels, id: string) {
    && StoredMatch(m, labels, id)
    && forall other :: StoredMatch(m, labels, other) ==>
                         !Less(Normalized(m.groups[id].selector), Normalized(m.groups[other].selector))
  }

  ghost predicate StoredMatch(m: Maps, labels: Labels, id: string) {
    && id in m.groups && Normalizable(m.groups[id].selector)
    && Matches(Normalized(m.groups[id].selector), labels)
  }

  lemma StoredViews(root: string, d: Disk, m: Maps, id: string)
    requires Sim(root, d, m) && id in m.groups
    ensures View(m.groups[id]).Some? <==> Normalizable(m.groups[id].selector)
    ensures View(m.groups[id]).Some? ==> View(m.groups[id]).value.selector == Normalized(m.groups[id].selector)
    ensures View(m.groups[id]).Some? ==> View(m.groups[id]).value.profile == m.groups[id].profile
  {
    GroupsKeyed(root, d, m);
    hide Sim, WriteGroup, Normalizable, Normalized;
    GroupRoundTrip(m.groups[id]);
  }

  /** The selected group is the stored one that is chosen, as it reads back; there is none only if none matches. */
  lemma SelectGroupStored(root: string, d: Disk, m: Maps, labels: Labels, r: Result<Group, SelectError>)
    requires Sim(root, d, m)
    ensures ListGroups(root, d).Ok?
    ensures MaySelect(ListGroups(root, d).value, labels, r) <==>
            match r
            case Err(e) => e == NoMatchingGroup && forall id :: !StoredMatch(m, labels, id)
            case Ok(v) => exists id :: id in m.groups && StoredChoice(m, labels, id) && View(m.groups[id]) == Some(v)
  {
    hide Sim, ListGroups, View, Normalizable, Normalized, Matches, Less;
    ListedExactly(root, d, m, Group("", "", "", map[], None));
    var gs := ListGroups(root, d).value;
    forall v ensures v in gs <==> Stored(m, v) {
      ListedExactly(root, d, m, v);
    }
    forall id | id in m.groups
      ensures View(m.groups[id]).Some? <==> Normalizable(m.groups[id].selector)
      ensures View(m.groups[id]).Some? ==> View(m.groups[id]).value in gs
      ensures View(m.groups[id]).Some? ==> View(m.groups[id]).value.selector == Normalized(m.groups[id].selector)
    {
      StoredViews(root, d, m, id);
      if View(m.groups[id]).Some? {
        assert Stored(m, View(m.groups[id]).value);
      }
    }
    StoredAnswers(gs, m, labels, r);
  }

  lemma StoredAnswers(gs: seq<Group>, m: Maps, labels: Labels, r: Result<Group, SelectError>)
    requires forall v :: v in gs <==> Stored(m, v)
    requires forall id :: id in m.groups ==> (View(m.groups[id]).Some? <==> Normalizable(m.groups[id].selector))
    requires forall id :: id in m.groups && View(m.groups[id]).Some? ==>
                            && View(m.groups[id]).value in gs
                            && View(m.groups[id]).value.selector == Normalized(m.groups[id].selector)
    ensures MaySelect(gs, labels, r) <==>
            match r
            case Err(e) => e == NoMatchingGroup && forall id :: !StoredMatch(m, labels, id)
            case Ok(v) => exists id :: id in m.groups && StoredChoice(m, labels, id) && View(m.groups[id]) == Some(v)
  {
    hide View, Normalizable, Normalized, Matches, Less;
    forall h | h in gs && Matches(h.selector, labels)
      ensures exists id :: id in m.groups && StoredMatch(m, labels, id) && View(m.groups[id]) == Some(h)
    {
      assert Stored(m, h);
      var id :| id in m.groups && View(m.groups[id]) == Some(h);
      assert StoredMatch(m, labels, id);
    }
    forall id | StoredMatch(m, labels, id)
      ensures View(m.groups[id]).Some? && View(m.groups[id]).value in gs
      ensures Matches(View(m.groups[id]).value.selector, labels)
    {
    }
    if r.Ok? {
      StoredBest(gs, m, labels, r.value);
    }
  }

  lemma StoredBest(gs: seq<Group>, m: Maps, labels: Labels, v: Group)
    requires forall id :: id in m.groups && View(m.groups[id]).Some? ==>
                            View(m.groups[id]).value.selector == Normalized(m.groups[id].selector)
    requires forall h :: h in gs && Matches(h.selector, labels) ==>
                           exists id :: id in m.groups && StoredMatch(m, labels, id) && View(m.groups[id]) == Some(h)
    requires forall id :: StoredMatch(m, labels, id) ==>
                            && View(m.groups[id]).Some? && View(m.groups[id]).value in gs
                            && Matches(View(m.groups[id]).value.selector, labels)
    ensures MaySelect(gs, labels, Ok(v)) <==>
            exists id :: id in m.groups && StoredChoice(m, labels, id) && View(m.groups[id]) == Some(v)
  {
    hide View, Normalizable, Normalized, Matches, Less;
    if MaySelect(gs, labels, Ok(v)) {
      var id :| id in m.groups && StoredMatch(m, labels, id) && View(m.groups[id]) == Some(v);
      forall other | StoredMatch(m, labels, other)
        ensures !Less(Normalized(m.groups[id].selector), Normalized(m.groups[other].selector))
      {
        assert View(m.groups[other]).value in gs;
      }
      assert StoredChoice(m, labels, id);
    }
    if id :| id in m.groups && StoredChoice(m, labels, id) && View(m.groups[id]) == Some(v) {
      forall h | h in gs && Matches(h.selector, labels) ensures !Less(v.selector, h.selector) {
        var other :| other in m.groups && StoredMatch(m, labels, other) && View(m.groups[other]) == Some(h);
      }
    }
  }

  /**
   What `SelectProfile` answers, on the map store: "no matching group" if no stored group matches;
   otherwise, for a stored group that is chosen, the profile stored under the name that group has in
   its profile field, or "no matching profile" if there is none with an id.
   */
  lemma SelectProfileStored(root: string, d: Disk, m: Maps, labels: Labels, r: Result<Profile, ServerError>)
    requires Sim(root, d, m) && forall id :: id in m.groups ==> PlainId(m.groups[id].profile)
    ensures ProfileAnswer(root, d, labels, r) <==>
            if r == Err(Unselected(NoMatchingGroup)) then forall id :: !StoredMatch(m, labels, id)
            else exists id :: id in m.groups && StoredChoice(m, labels, id) && RepliesFor(m, m.groups[id].profile, r)
  {
    hide Sim, ListGroups, View, StoredMatch, StoredChoice, GetProfile, PlainId, MaySelect, RepliesFor;
    SelectGroupStored(root, d, m, labels, Err(NoMatchingGroup));
    var gs := ListGroups(root, d).value;
    forall g, id | MaySelect(gs, labels, Ok(g)) && id in m.groups && View(m.groups[id]) == Some(g)
      ensures r == ProfileReply(root, d)(g) <==> RepliesFor(m, m.groups[id].profile, r)
    {
      StoredViews(root, d, m, id);
      ReplyStored(root, d, m, g, r);
    }
    if r == Err(Unselected(NoMatchingGroup)) {
    } else if g :| MaySelect(gs, labels, Ok(g)) && r == ProfileReply(root, d)(g) {
      SelectGroupStored(root, d, m, labels, Ok(g));
      ChosenMatches(gs, labels, g);
      var id :| id in m.groups && StoredChoice(m, labels, id) && View(m.groups[id]) == Some(g);
      ChoiceInGroups(m, labels, id);
    } else if id :| id in m.groups && StoredChoice(m, labels, id) && RepliesFor(m, m.groups[id].profile, r) {
      ChoiceInGroups(m, labels, id);
      StoredViews(root, d, m, id);
      var g := View(m.groups[id]).value;
      SelectGroupStored(root, d, m, labels, Ok(g));
      ChosenMatches(gs, labels, g);
    }
  }

  /** The reply for a group that names the profile `profile`. */
  predicate RepliesFor(m: Maps, profile: string, r: Result<Profile, ServerError>) {
    r == if profile in m.profiles && m.profiles[profile].id != "" then Ok(m.profiles[profile])
         else Err(Unselected(NoMatchingProfile))
  }

  lemma ReplyStored(root: string, d: Disk, m: Maps, g: Group, r: Result<Profile, ServerError>)
    requires Sim(root, d, m) && PlainId(g.profile)
    ensures r == ProfileReply(root, d)(g) <==> RepliesFor(m, g.profile, r)
  {
    hide Sim, GetProfile, PlainId;
    ProfileFound(root, d, m, g.profile);
  }

  lemma ChosenMatches(gs: seq<Group>, labels: Labels, g: Group)
    requires MaySelect(gs, labels, Ok(g))
    ensures !MaySelect(gs, labels, Err(NoMatchingGroup))
  {
    hide Matches, Less;
  }

  lemma ChoiceInGroups(m: Maps, labels: Labels, id: string)
    requires StoredChoice(m, labels, id)
    ensures id in m.groups && Normalizable(m.groups[id].selector)
  {
  }

  // ---------- puts and the selection ----------

  ghost predicate Chooses(root: string, d: Disk, labels: Labels, r: Result<Group, SelectError>) {
    ListGroups(root, d).Ok? && MaySelect(ListGroups(root, d).value, labels, r)
  }

  ghost predicate SelectorKeysWithin(m: Maps, keys: set<string>) {
    forall id :: id in m.groups ==> m.groups[id].selector.Keys <= keys
  }

  lemma ListedKeys(root: string, d: Disk, m: Maps, keys: set<string>)
    requires Sim(root, d, m) && SelectorKeysWithin(m, keys)
    ensures ListGroups(root, d).Ok? && KeysWithin(ListGroups(root, d).value, keys)
  {
    hide Sim, ListGroups, Stored;
    ListedExactly(root, d, m, Group("", "", "", map[], None));
    forall v | v in ListGroups(root, d).value ensures v.selector.Keys <= keys {
      ListedExactly(root, d, m, v);
      StoredKeys(m, v, keys);
    }
  }

  lemma StoredKeys(m: Maps, v: Group, keys: set<string>)
    requires Stored(m, v) && SelectorKeysWithin(m, keys)
    ensures v.selector.Keys <= keys
  {
  }

  lemma StoredAfterPut(m: Maps, m': Maps, g: Group, v: Group)
    requires m' == m.(groups := m.groups[g.id := g])
    requires forall id :: id in m.groups ==> m.groups[id].id == id
    ensures Stored(m', v) <==> View(g) == Some(v) || (v.id != g.id && Stored(m, v))
  {
    assert View(g) == Some(v) ==> v.id == g.id;
    forall id | id in m.groups && View(m.groups[id]) == Some(v) ensures v.id == id {
    }
    hide View;
    forall id | id in m'.groups && View(m'.groups[id]) == Some(v)
      ensures View(g) == Some(v) || (v.id != g.id && Stored(m, v))
    {
      assert id == g.id || (id in m.groups && m'.groups[id] == m.groups[id]);
    }
    if View(g) == Some(v) {
      assert m'.groups[g.id] == g;
    } else if v.id != g.id && Stored(m, v) {
      var id :| id in m.groups && View(m.groups[id]) == Some(v);
      assert id in m'.groups && m'.groups[id] == m.groups[id];
    }
  }

  // ---------- when the store has one answer for every machine ----------

  /** Two stored groups that can be read and whose selectors ask for the same. */
  ghost predicate Alike(m: Maps, id: string, id': string) {
    && id in m.groups && id' in m.groups
    && Normalizable(m.groups[id].selector) && Normalizable(m.groups[id'].selector)
    && SameEntries(m.groups[id].selector, m.groups[id'].selector)
  }

  /** Alike groups have one value of `f`. */
  ghost predicate AlikeAgree<T>(m: Maps, f: Group -> T) {
    forall id, id' :: Alike(m, id, id') ==> f(m.groups[id]) == f(m.groups[id'])
  }

  /** `f` does not see what reading back changes. */
  ghost predicate KeptByView<T>(f: Group -> T) {
    forall g :: View(g).Some? ==> f(View(g).value) == f(g)
  }

  ghost predicate ReadAlike(m: Maps, id: string, id': string) {
    && id in m.groups && id' in m.groups
    && View(m.groups[id]).Some? && View(m.groups[id']).Some?
    && View(m.groups[id]).value.selector == View(m.groups[id']).value.selector
  }

  ghost predicate AllWritable(m: Maps) {
    forall id :: id in m.groups ==> WriteGroup(m.groups[id]).Some?
  }

  /** Alike groups are those that read back with one selector. */
  lemma AlikeIsReadAlike(m: Maps, id: string, id': string)
    requires AllWritable(m)
    ensures Alike(m, id, id') <==> ReadAlike(m, id, id')
  {
    hide Normalizable, Normalized, SameEntries, WriteGroup;
    if id in m.groups && id' in m.groups {
      GroupRoundTrip(m.groups[id]);
      GroupRoundTrip(m.groups[id']);
      if Normalizable(m.groups[id].selector) && Normalizable(m.groups[id'].selector) {
        NormalizedSameExact(m.groups[id].selector, m.groups[id'].selector);
      }
    }
  }

  lemma ToldIsAgreed<T>(gs: seq<Group>, m: Maps, f: Group -> T)
    requires forall v :: v in gs <==> Stored(m, v)
    requires KeptByView(f) && AllWritable(m)
    ensures SelectorTells(gs, f) ==> AlikeAgree(m, f)
  {
    hide View, Alike, AllWritable;
    if SelectorTells(gs, f) {
      forall id, id' | Alike(m, id, id')
        ensures id in m.groups && id' in m.groups && f(m.groups[id]) == f(m.groups[id'])
      {
        AlikeIsReadAlike(m, id, id');
        var v, w := View(m.groups[id]).value, View(m.groups[id']).value;
        assert Stored(m, v) && Stored(m, w);
        assert v in gs && w in gs;
      }
    }
  }

  lemma AgreedIsTold<T>(gs: seq<Group>, m: Maps, f: Group -> T)
    requires forall v :: v in gs <==> Stored(m, v)
    requires KeptByView(f) && AllWritable(m)
    ensures AlikeAgree(m, f) ==> SelectorTells(gs, f)
  {
    hide View, Alike, AllWritable;
    if AlikeAgree(m, f) {
      forall v, w | v in gs && w in gs && v.selector == w.selector ensures f(v) == f(w) {
        assert Stored(m, v) && Stored(m, w);
        var id :| id in m.groups && View(m.groups[id]) == Some(v);
        var id' :| id' in m.groups && View(m.groups[id']) == Some(w);
        AlikeIsReadAlike(m, id, id');
      }
    }
  }

  /** What the listing's selectors tell is what alike stored groups agree on. */
  lemma ListingTells<T>(root: string, d: Disk, m: Maps, f: Group -> T)
    requires Sim(root, d, m) && KeptByView(f)
    ensures ListGroups(root, d).Ok?
    ensures SelectorTells(ListGroups(root, d).value, f) <==> AlikeAgree(m, f)
  {
    GroupsKeyed(root, d, m);
    hide Sim, ListGroups, Stored, AllWritable, KeptByView, SelectorTells, AlikeAgree;
    ListedExactly(root, d, m, Group("", "", "", map[], None));
    var gs := ListGroups(root, d).value;
    forall v ensures v in gs <==> Stored(m, v) {
      ListedExactly(root, d, m, v);
    }
    ToldIsAgreed(gs, m, f);
    AgreedIsTold(gs, m, f);
  }

  /**
   With unambiguous keys, `f` of the selected group is the same for every order and every sort, for
   all labels, exactly when stored groups whose selectors ask for the same agree on `f`.
   */
  lemma StoreDetermines<T>(root: string, d: Disk, m: Maps, f: Group -> T, keys: set<string>)
    requires Sim(root, d, m) && SelectorKeysWithin(m, keys) && Unambiguous(keys) && KeptByView(f)
    ensures ListGroups(root, d).Ok?
    ensures Determined(ListGroups(root, d).value, f) <==> AlikeAgree(m, f)
  {
    hide Sim, ListGroups, KeptByView, AlikeAgree, SelectorTells, Determined, Unambiguous;
    ListingTells(root, d, m, f);
    ListedKeys(root, d, m, keys);
    DeterminedExact(ListGroups(root, d).value, f, keys);
  }

  function IdOf(): Group -> string {
    (g: Group) => g.id
  }

  /** So the store always selects one group exactly when no two readable stored groups ask for the same. */
  lemma OneGroupExact(root: string, d: Disk, m: Maps, keys: set<string>)
    requires Sim(root, d, m) && SelectorKeysWithin(m, keys) && Unambiguous(keys)
    ensures ListGroups(root, d).Ok?
    ensures (forall labels, r, r' :: Chooses(root, d, labels, r) && Chooses(root, d, labels, r') ==> r == r') <==>
            (forall id, id' :: Alike(m, id, id') ==> id == id')
  {
    GroupsKeyed(root, d, m);
    assert KeptByView(IdOf());
    hide Sim, ListGroups, Unambiguous, View, KeptByView, Alike, SelectorKeysWithin;
    StoreDetermines(root, d, m, IdOf(), keys);
    assert AlikeAgree(m, IdOf()) <==> forall id, id' :: Alike(m, id, id') ==> id == id' by {
      AlikeStored(m);
    }
    IdsTell(root, d, m);
  }

  lemma AlikeStored(m: Maps)
    requires forall id :: id in m.groups ==> m.groups[id].id == id
    ensures AlikeAgree(m, IdOf()) <==> forall id, id' :: Alike(m, id, id') ==> id == id'
  {
    hide Normalizable, SameEntries;
  }

  /** A listing of keyed groups has one group for each id. */
  lemma IdsTell(root: string, d: Disk, m: Maps)
    requires Sim(root, d, m)
    ensures ListGroups(root, d).Ok?
    ensures Determined(ListGroups(root, d).value, IdOf()) <==>
            forall labels, r, r' :: Chooses(root, d, labels, r) && Chooses(root, d, labels, r') ==> r == r'
  {
    GroupsKeyed(root, d, m);
    hide Sim, ListGroups;
    ListedExactly(root, d, m, Group("", "", "", map[], None));
    var gs := ListGroups(root, d).value;
    forall v, w | v in gs && w in gs && v.id == w.id ensures v == w {
      ListedExactly(root, d, m, v);
      ListedExactly(root, d, m, w);
      StoredUnderId(m, v);
      StoredUnderId(m, w);
    }
    SameIdSame(gs);
    hide MaySelect, Determined;
    assert forall labels, r :: Chooses(root, d, labels, r) <==> MaySelect(gs, labels, r);
  }

  lemma StoredUnderId(m: Maps, v: Group)
    requires Stored(m, v) && forall id :: id in m.groups ==> m.groups[id].id == id
    ensures v.id in m.groups && View(m.groups[v.id]) == Some(v)
  {
  }

  lemma SameIdSame(gs: seq<Group>)
    requires forall v, w :: v in gs && w in gs && v.id == w.id ==> v == w
    ensures Determined(gs, IdOf()) <==>
            forall labels, r, r' :: MaySelect(gs, labels, r) && MaySelect(gs, labels, r') ==> r == r'
  {
    forall labels, r, r' | MaySelect(gs, labels, r) && MaySelect(gs, labels, r')
      ensures AgreeOn(IdOf(), r, r') <==> r == r'
    {
      NoMatchOnly(gs, labels, r);
      NoMatchOnly(gs, labels, r');
      hide Matches, Less;
    }
    hide MaySelect;
    if Determined(gs, IdOf()) {
      forall labels, r, r' | MaySelect(gs, labels, r) && MaySelect(gs, labels, r') ensures r == r' {
        assert AgreeOn(IdOf(), r, r');
      }
    }
  }

  /** For instance, two groups for one address in two notations: read back, either may be selected. */
  lemma TwoNotationsTie(g: Group, h: Group, s: string, t: string) returns (labels: Labels)
    requires Mac.ParseMAC(s).Some? && Mac.ParseMAC(s) == Mac.ParseMAC(t)
    requires g.selector == map["mac" := s] && h.selector == map["mac" := t]
    requires MetadataFields(g.metadata).Some? && MetadataFields(h.metadata).Some?
    ensures View(g).Some? && View(h).Some?
    ensures MaySelect([View(g).value, View(h).value], labels, Ok(View(g).value))
    ensures MaySelect([View(g).value, View(h).value], labels, Ok(View(h).value))
  {
    hide MaySelect, MetadataFields, Mac.ParseMAC;
    NormalizedSameExact(g.selector, h.selector);
    hide View;
    labels := EverySelectorChosen([View(g).value, View(h).value], View(g).value.selector);
  }

  /** And every machine gets one profile reply exactly when groups that ask for the same lead to the same reply. */
  lemma OneProfileExact(root: string, d: Disk, m: Maps, keys: set<string>)
    requires Sim(root, d, m) && SelectorKeysWithin(m, keys) && Unambiguous(keys)
    ensures (forall labels, r, r' ::
               ProfileAnswer(root, d, labels, r) && ProfileAnswer(root, d, labels, r') ==> r == r') <==>
            AlikeAgree(m, ProfileReply(root, d))
  {
    assert KeptByView(ProfileReply(root, d)) by {
      hide GetProfile;
    }
    hide Sim, ListGroups, Unambiguous, View, KeptByView, AlikeAgree, SelectorKeysWithin, ProfileReply, Determined;
    StoreDetermines(root, d, m, ProfileReply(root, d), keys);
    RepliesDetermined(root, d);
  }

  lemma RepliesDetermined(root: string, d: Disk)
    requires ListGroups(root, d).Ok?
    ensures Determined(ListGroups(root, d).value, ProfileReply(root, d)) <==>
            forall labels, r, r' ::
              ProfileAnswer(root, d, labels, r) && ProfileAnswer(root, d, labels, r') ==> r == r'
  {
    hide ListGroups, GetProfile;
    var gs, f := ListGroups(root, d).value, ProfileReply(root, d);
    if Determined(gs, f) {
      forall labels, r, r' | ProfileAnswer(root, d, labels, r) && ProfileAnswer(root, d, labels, r') ensures r == r' {
        hide MaySelect;
        if r != Err(Unselected(NoMatchingGroup)) {
          var g :| MaySelect(gs, labels, Ok(g)) && r == f(g);
          var h :| MaySelect(gs, labels, Ok(h)) && r' == f(h);
          assert AgreeOn(f, Result<Group, SelectError>.Ok(g), Result<Group, SelectError>.Ok(h));
        }
      }
    } else {
      var labels, c, c' :| MaySelect(gs, labels, c) && MaySelect(gs, labels, c') && !AgreeOn(f, c, c');
      ChoiceReplies(root, d, labels, c);
      ChoiceReplies(root, d, labels, c');
      MatchOrNot(gs, labels, c, c');
    }
  }

  lemma MatchOrNot(gs: seq<Group>, labels: Labels, c: Result<Group, SelectError>, c': Result<Group, SelectError>)
    requires MaySelect(gs, labels, c) && MaySelect(gs, labels, c')
    ensures c.Ok? == c'.Ok?
  {
    hide Less, Matches;
  }

  lemma ChoiceReplies(root: string, d: Disk, labels: Labels, c: Result<Group, SelectError>)
    requires ListGroups(root, d).Ok? && MaySelect(ListGroups(root, d).value, labels, c)
    ensures c.Ok? ==> ProfileAnswer(root, d, labels, ProfileReply(root, d)(c.value))
  {
    hide ListGroups, GetProfile, Matches, Less;
  }

  /**
   After any run of calls, a put under an id other than the winner's changes the selection only if
   the put group, as read back, matches and outranks the winner, or nothing matched; and then that
   very group is selected.
   */
  lemma PutChangesChoice(root: string, d0: Disk, states: seq<Maps>, ops: seq<Op>, answers: seq<Answer>,
                         g: Group, labels: Labels, keys: set<string>,
                         r: Result<Group, SelectError>, r': Result<Group, SelectError>)
    requires KeptRun(states, ops, answers) && Sim(root, d0, states[0])
    requires forall i :: 0 <= i < |ops| ==> PlainOp(ops[i])
    requires PlainId(g.id) && (r.Ok? ==> r.value.id != g.id)
    requires SelectorKeysWithin(states[|ops|], keys) && g.selector.Keys <= keys && Unambiguous(keys)
    requires var d := FileRun(root, d0, ops).0;
             Chooses(root, d, labels, r) && Chooses(root, PutGroup(root, d, g).0, labels, r')
    ensures TakesOver(View(g), labels, r) ==> r' == Ok(View(g).value)
    ensures !TakesOver(View(g), labels, r) ==> SameChoice(r, r')
  {
    KeptRunAgrees(root, d0, states, ops, answers);
    var d, m := FileRun(root, d0, ops).0, states[|ops|];
    hide FileRun, KeptRun;
    PutEffect(root, d, m, g, labels, keys, r, r');
  }

  lemma PutEffect(root: string, d: Disk, m: Maps, g: Group, labels: Labels, keys: set<string>,
                  r: Result<Group, SelectError>, r': Result<Group, SelectError>)
    requires Sim(root, d, m) && PlainId(g.id) && (r.Ok? ==> r.value.id != g.id)
    requires SelectorKeysWithin(m, keys) && g.selector.Keys <= keys && Unambiguous(keys)
    requires Chooses(root, d, labels, r) && Chooses(root, PutGroup(root, d, g).0, labels, r')
    ensures TakesOver(View(g), labels, r) ==> r' == Ok(View(g).value)
    ensures !TakesOver(View(g), labels, r) ==> SameChoice(r, r')
  {
    hide Sim, ListGroups, PutGroup, WriteGroup, MaySelect, TakesOver, SameChoice, View, Replaced, KeysWithin, PlainId,
      Unambiguous;
    var d' := PutGroup(root, d, g).0;
    var m' := if WriteGroup(g).Some? then m.(groups := m.groups[g.id := g]) else m;
    GroupsKeyed(root, d, m);
    ViewNeedsWrite(g);
    MatchListed(ListGroups(root, d), labels, r);
    PutSim(root, d, m, g);
    ListedKeys(root, d, m, keys);
    ListedKeys(root, d', m', keys);
    ListedAfterPut(root, d, m, d', m', g, r);
    ReplacementEffect(ListGroups(root, d).value, ListGroups(root, d').value, labels, View(g), r, r', keys);
  }

  lemma GroupsKeyed(root: string, d: Disk, m: Maps)
    requires Sim(root, d, m)
    ensures AllWritable(m) && forall id :: id in m.groups ==> m.groups[id].id == id
  {
  }

  lemma MatchListed(listing: Result<seq<Group>, StoreError>, labels: Labels, r: Result<Group, SelectError>)
    requires listing.Ok? && MaySelect(listing.value, labels, r)
    ensures r.Ok? ==> r.value in listing.value
  {
  }

  lemma PutSim(root: string, d: Disk, m: Maps, g: Group)
    requires Sim(root, d, m) && PlainId(g.id)
    ensures Sim(root, PutGroup(root, d, g).0, if WriteGroup(g).Some? then m.(groups := m.groups[g.id := g]) else m)
  {
    GroupRoundTrip(g);
    hide Sim, PutGroup, WriteGroup, MetadataFields;
    if WriteGroup(g).Some? {
      GroupPutAgrees(root, d, m, g, m.(groups := m.groups[g.id := g]), Done);
    } else {
      RefusedStep(root, d, GroupPut(g));
    }
  }

  lemma ListedAfterPut(root: string, d: Disk, m: Maps, d': Disk, m': Maps, g: Group, r: Result<Group, SelectError>)
    requires Sim(root, d, m) && Sim(root, d', m')
    requires m' == if View(g).Some? || WriteGroup(g).Some? then m.(groups := m.groups[g.id := g]) else m
    requires View(g).Some? ==> WriteGroup(g).Some?
    requires forall id :: id in m.groups ==> m.groups[id].id == id
    requires ListGroups(root, d).Ok? && ListGroups(root, d').Ok?
    requires r.Ok? ==> r.value.id != g.id && r.value in ListGroups(root, d).value
    ensures Replaced(ListGroups(root, d).value, ListGroups(root, d').value, View(g), r)
  {
    hide Sim, ListGroups, Stored, WriteGroup, View;
    forall v
      ensures v in ListGroups(root, d).value <==> Stored(m, v)
      ensures v in ListGroups(root, d').value <==> Stored(m', v)
      ensures m' != m ==> (Stored(m', v) <==> View(g) == Some(v) || (v.id != g.id && Stored(m, v)))
    {
      ListedExactly(root, d, m, v);
      ListedExactly(root, d', m', v);
      if m' != m {
        StoredAfterPut(m, m', g, v);
      }
    }
    if m' == m && View(g).Some? {
      StoredAfterPut(m, m', g, View(g).value);
    }
  }
}

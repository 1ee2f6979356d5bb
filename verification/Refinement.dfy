/**
 The file store against the map store: on plain names every run of calls is answered alike, up to
 what reading a document back does to it.
 */
module Refinement {
  import opened Results
  import opened Documents
  import opened Enumerations
  import opened Paths
  import opened Groups
  import opened Formats
  import opened Stores
  import opened FileTrees
  import opened FileStores
  import SortedKeys

  // ---------- the simulation relation ----------

  /** The file names of documents. */
  function JsonNames(ids: set<string>): set<string> {
    set id | id in ids :: id + ".json"
  }

  lemma JsonNamesExact(ids: set<string>, name: string)
    ensures name in JsonNames(ids) <==> Stem(name) in ids && name == Stem(name) + ".json"
  {
    if name in JsonNames(ids) {
      var id :| id in ids && name == id + ".json";
      StemOfJson(id);
    }
  }

  /** The `c` directory holds exactly the JSON documents `docs`, under their ids. */
  ghost predicate JsonStored(root: string, d: Disk, c: string, docs: map<string, Bytes>) {
    && (forall id :: id in docs ==>
                       && PlainId(id) && At(root, c, id + ".json") in d.files
                       && d.files[At(root, c, id + ".json")] == docs[id])
    && (forall name :: At(root, c, name) in d.files ==> name in JsonNames(docs.Keys))
  }

  /** The `c` directory holds exactly the templates `configs`, under their names. */
  ghost predicate TemplatesStored(root: string, d: Disk, c: string, configs: map<string, Bytes>) {
    && (forall name :: name in configs ==> Plain(name))
    && (forall name :: At(root, c, name) in d.files <==> name in configs)
    && (forall name :: name in configs ==> d.files[At(root, c, name)] == configs[name])
  }

  function GroupDocs(groups: map<string, Group>): map<string, Bytes> {
    map id | id in groups && WriteGroup(groups[id]).Some? :: WriteGroup(groups[id]).value
  }

  function ProfileDocs(profiles: map<string, Profile>): map<string, Bytes> {
    map id | id in profiles :: WriteProfile(profiles[id])
  }

  ghost predicate Sim(root: string, d: Disk, m: Maps) {
    && Layout(root, d)
    && (forall id :: id in m.groups ==> m.groups[id].id == id && WriteGroup(m.groups[id]).Some?)
    && (forall id :: id in m.profiles ==> m.profiles[id].id == id)
    && JsonStored(root, d, "groups", GroupDocs(m.groups))
    && JsonStored(root, d, "profiles", ProfileDocs(m.profiles))
    && TemplatesStored(root, d, "ignition", m.ignition)
    && TemplatesStored(root, d, "cloud", m.cloud)
    && TemplatesStored(root, d, "generic", m.generic)
  }

  /** A write leaves every other collection alone. */
  lemma OthersKept(root: string, d: Disk, c: string, name: string, data: Bytes, e: string)
    requires e != c
    ensures forall docs :: JsonStored(root, d, e, docs) ==> JsonStored(root, Written(root, d, c, name, data), e, docs)
    ensures forall ts :: TemplatesStored(root, d, e, ts) ==>
                           TemplatesStored(root, Written(root, d, c, name, data), e, ts)
  {
    ReadWritten(root, d, c, name, data);
    hide At, Written;
  }

  lemma JsonWritten(root: string, d: Disk, c: string, id: string, data: Bytes, docs: map<string, Bytes>)
    requires PlainId(id) && JsonStored(root, d, c, docs)
    ensures JsonStored(root, Written(root, d, c, id + ".json", data), c, docs[id := data])
  {
    ReadWritten(root, d, c, id + ".json", data);
    hide At, Written, Stem, Ext, JsonNames;
    var d' := Written(root, d, c, id + ".json", data);
    forall i | i in docs[id := data]
      ensures PlainId(i) && At(root, c, i + ".json") in d'.files
      ensures d'.files[At(root, c, i + ".json")] == docs[id := data][i]
    {
      StemOfJson(i);
      StemOfJson(id);
    }
    forall name | At(root, c, name) in d'.files ensures name in JsonNames(docs[id := data].Keys) {
      StemOfJson(id);
      JsonNamesExact(docs.Keys, name);
      JsonNamesExact(docs[id := data].Keys, name);
    }
  }

  lemma TemplateWritten(root: string, d: Disk, c: string, name: string, data: Bytes, configs: map<string, Bytes>)
    requires Plain(name) && TemplatesStored(root, d, c, configs)
    ensures TemplatesStored(root, Written(root, d, c, name, data), c, configs[name := data])
  {
    ReadWritten(root, d, c, name, data);
    hide At, Written;
  }

  lemma DirsDiffer()
    ensures "groups" != "profiles" && "groups" != "ignition" && "groups" != "cloud" && "groups" != "generic"
    ensures "profiles" != "ignition" && "profiles" != "cloud" && "profiles" != "generic"
    ensures "ignition" != "cloud" && "ignition" != "generic" && "cloud" != "generic"
  {
    assert "groups"[0] == 'g' && "groups"[1] == 'r' && "profiles"[0] == 'p' && "ignition"[0] == 'i';
    assert "cloud"[0] == 'c' && "generic"[0] == 'g' && "generic"[1] == 'e';
  }

  // ---------- calls and answers ----------

  datatype Op =
    | GroupPut(group: Group)
    | GroupGet(id: string)
    | GroupList
    | ProfilePut(profile: Profile)
    | ProfileGet(id: string)
    | ProfileList
    | IgnitionPut(name: string, config: Bytes)
    | IgnitionGet(name: string)
    | CloudPut(name: string, config: Bytes)
    | CloudGet(name: string)
    | GenericGet(name: string)

  datatype Answer =
    | Done
    | Failed
    | GotGroup(group: Group)
    | GotGroups(groups: seq<Group>)
    | GotProfile(profile: Profile)
    | GotProfiles(profiles: seq<Profile>)
    | GotConfig(config: Bytes)

  predicate PlainOp(op: Op) {
    match op
    case GroupPut(g) => PlainId(g.id)
    case GroupGet(id) => PlainId(id)
    case ProfilePut(p) => PlainId(p.id)
    case ProfileGet(id) => PlainId(id)
    case IgnitionPut(name, _) => Plain(name)
    case IgnitionGet(name) => Plain(name)
    case CloudPut(name, _) => Plain(name)
    case CloudGet(name) => Plain(name)
    case GenericGet(name) => Plain(name)
    case _ => true
  }

  function PutAnswer(r: (Disk, Option<StoreError>)): (Disk, Answer) {
    (r.0, if r.1.None? then Done else Failed)
  }

  function GetAnswer<T>(r: Result<T, StoreError>, wrap: T -> Answer): Answer {
    if r.Ok? then wrap(r.value) else Failed
  }

  /** One call on the file store. */
  ghost function FileStep(root: string, d: Disk, op: Op): (Disk, Answer) {
    match op
    case GroupPut(g) => PutAnswer(PutGroup(root, d, g))
    case GroupGet(id) => (d, GetAnswer(GetGroup(root, d, id), g => GotGroup(g)))
    case GroupList => (d, GetAnswer(ListGroups(root, d), gs => GotGroups(gs)))
    case ProfilePut(p) => PutAnswer(PutProfile(root, d, p))
    case ProfileGet(id) => (d, GetAnswer(GetProfile(root, d, id), p => GotProfile(p)))
    case ProfileList => (d, GetAnswer(ListProfiles(root, d), ps => GotProfiles(ps)))
    case IgnitionPut(name, config) => PutAnswer(PutTemplate(root, d, "ignition", name, config))
    case IgnitionGet(name) => (d, GetAnswer(GetTemplate(root, d, "ignition", name), c => GotConfig(c)))
    case CloudPut(name, config) => PutAnswer(PutTemplate(root, d, "cloud", name, config))
    case CloudGet(name) => (d, GetAnswer(GetTemplate(root, d, "cloud", name), c => GotConfig(c)))
    case GenericGet(name) => (d, GetAnswer(GetTemplate(root, d, "generic", name), c => GotConfig(c)))
  }

  /** One call on the map store, whose lists come in any order: the contracts of `FixedStore`. */
  ghost predicate MapStep(m: Maps, op: Op, m': Maps, a: Answer) {
    match op
    case GroupPut(g) => m' == m.(groups := m.groups[g.id := g]) && a == Done
    case ProfilePut(p) => m' == m.(profiles := m.profiles[p.id := p]) && a == Done
    case IgnitionPut(name, config) => m' == m.(ignition := m.ignition[name := config]) && a == Done
    case CloudPut(name, config) => m' == m.(cloud := m.cloud[name := config]) && a == Done
    case GroupGet(id) => m' == m && a == if id in m.groups then GotGroup(m.groups[id]) else Failed
    case ProfileGet(id) => m' == m && a == if id in m.profiles then GotProfile(m.profiles[id]) else Failed
    case GroupList => m' == m && a.GotGroups? && ListsValues(a.groups, m.groups)
    case ProfileList => m' == m && a.GotProfiles? && ListsValues(a.profiles, m.profiles)
    case IgnitionGet(name) => m' == m && a == GetAnswer(Template(m.ignition, name), c => GotConfig(c))
    case CloudGet(name) => m' == m && a == GetAnswer(Template(m.cloud, name), c => GotConfig(c))
    case GenericGet(name) => m' == m && a == GetAnswer(Template(m.generic, name), c => GotConfig(c))
  }

  /** A call on the map store, as `MapStep` describes it. */
  method CallMaps(store: FixedStore, op: Op) returns (a: Answer)
    modifies store
    ensures MapStep(old(store.State()), op, store.State(), a)
  {
    a := Done;
    match op {
      case GroupPut(g) => store.GroupPut(g);
      case ProfilePut(p) => store.ProfilePut(p);
      case IgnitionPut(name, config) => store.IgnitionPut(name, config);
      case CloudPut(name, config) => store.CloudPut(name, config);
      case GroupList =>
        var gs := store.GroupList();
        a := GotGroups(gs[..]);
      case ProfileList =>
        var ps := store.ProfileList();
        a := GotProfiles(ps[..]);
      case GroupGet(id) =>
        var r := store.GroupGet(id);
        a := GetAnswer(r, g => GotGroup(g));
      case ProfileGet(id) =>
        var r := store.ProfileGet(id);
        a := GetAnswer(r, p => GotProfile(p));
      case IgnitionGet(name) =>
        var r := store.IgnitionGet(name);
        a := GetAnswer(r, c => GotConfig(c));
      case CloudGet(name) =>
        var r := store.CloudGet(name);
        a := GetAnswer(r, c => GotConfig(c));
      case GenericGet(name) =>
        var r := store.GenericGet(name);
        a := GetAnswer(r, c => GotConfig(c));
    }
  }

  /** A call on the file store, as `FileStep` describes it. */
  method CallFiles(store: FileStore, op: Op) returns (a: Answer)
    modifies store
    ensures (store.disk, a) == FileStep(store.root, old(store.disk), op)
  {
    hide PutGroup, PutProfile, PutTemplate, GetGroup, GetProfile, GetTemplate, ListGroups, ListProfiles, View,
      ParseGroup;
    match op {
      case GroupPut(g) =>
        var e := store.GroupPut(g);
        a := if e.None? then Done else Failed;
      case ProfilePut(p) =>
        var e := store.ProfilePut(p);
        a := if e.None? then Done else Failed;
      case IgnitionPut(name, config) =>
        var e := store.IgnitionPut(name, config);
        a := if e.None? then Done else Failed;
      case CloudPut(name, config) =>
        var e := store.CloudPut(name, config);
        a := if e.None? then Done else Failed;
      case GroupList =>
        var r := store.GroupList();
        a := GetAnswer(r, gs => GotGroups(gs));
      case ProfileList =>
        var r := store.ProfileList();
        a := GetAnswer(r, ps => GotProfiles(ps));
      case GroupGet(id) =>
        var r := store.GroupGet(id);
        a := GetAnswer(r, g => GotGroup(g));
      case ProfileGet(id) =>
        var r := store.ProfileGet(id);
        a := GetAnswer(r, p => GotProfile(p));
      case IgnitionGet(name) =>
        var r := store.IgnitionGet(name);
        a := GetAnswer(r, c => GotConfig(c));
      case CloudGet(name) =>
        var r := store.CloudGet(name);
        a := GetAnswer(r, c => GotConfig(c));
      case GenericGet(name) =>
        var r := store.GenericGet(name);
        a := GetAnswer(r, c => GotConfig(c));
    }
  }

  /** A group put whose metadata bytes are neither nil nor the JSON of null or an object. */
  predicate Refused(op: Op) {
    op.GroupPut? && MetadataFields(op.group.metadata).None?
  }

  function GroupSeen(): Group -> seq<Group> {
    (g: Group) => if View(g).Some? then [View(g).value] else []
  }

  function ProfileSeen(): Profile -> seq<Profile> {
    (p: Profile) => if p.id != "" then [p] else []
  }

  /** `f` is how the file store gives the map store's answer `a`. */
  ghost predicate SameAnswer(f: Answer, a: Answer) {
    match a
    case GotGroup(g) => f == if View(g).Some? then GotGroup(View(g).value) else Failed
    case GotProfile(p) => f == if p.id != "" then a else Failed
    case GotGroups(gs) => f.GotGroups? && multiset(f.groups) == multiset(FlatMap(GroupSeen(), gs))
    case GotProfiles(ps) => f.GotProfiles? && multiset(f.profiles) == multiset(FlatMap(ProfileSeen(), ps))
    case _ => f == a
  }

  // ---------- reading back ----------

  /** The document under an id is the one stored there, and no other. */
  lemma DocumentFound(root: string, d: Disk, c: string, docs: map<string, Bytes>, id: string)
    requires c in COLLECTIONS && PlainId(id) && JsonStored(root, d, c, docs)
    ensures ReadFile(d, root, JoinPath(c, id + ".json")) == if id in docs then Ok(docs[id]) else Err(NoSuchFile)
  {
    hide ReadFile, JoinPath, At, Stem, Ext, JsonNames;
    PlainIdFile(id);
    ReadAt(root, d, c, id + ".json");
    StemOfJson(id);
    JsonNamesExact(docs.Keys, id + ".json");
  }

  lemma GroupFound(root: string, d: Disk, m: Maps, id: string)
    requires Sim(root, d, m) && PlainId(id)
    ensures GetGroup(root, d, id) ==
            if id !in m.groups then Err(NoSuchFile)
            else if View(m.groups[id]).Some? then Ok(View(m.groups[id]).value) else Err(BadDocument)
  {
    DocumentFound(root, d, "groups", GroupDocs(m.groups), id);
    if id in m.groups {
      GroupRoundTrip(m.groups[id]);
    }
    hide ReadFile, JoinPath, ParseGroup, View, WriteGroup, Layout, JsonStored, TemplatesStored;
  }

  lemma ProfileFound(root: string, d: Disk, m: Maps, id: string)
    requires Sim(root, d, m) && PlainId(id)
    ensures GetProfile(root, d, id) ==
            if id !in m.profiles then Err(NoSuchFile)
            else if m.profiles[id].id != "" then Ok(m.profiles[id]) else Err(BadDocument)
  {
    DocumentFound(root, d, "profiles", ProfileDocs(m.profiles), id);
    if id in m.profiles {
      ProfileRoundTrip(m.profiles[id]);
    }
    hide ReadFile, JoinPath, ParseProfile, WriteProfile, Layout, JsonStored, TemplatesStored;
  }

  lemma TemplateFound(root: string, d: Disk, c: string, name: string, configs: map<string, Bytes>)
    requires c in COLLECTIONS && Plain(name) && TemplatesStored(root, d, c, configs)
    ensures GetTemplate(root, d, c, name) == if name in configs then Ok(configs[name]) else Err(NoSuchFile)
  {
    ReadAt(root, d, c, name);
    hide ReadFile, JoinPath, At;
  }

  // ---------- listing ----------

  lemma {:induction false} FlatMapSame<A, B, T>(f: A -> seq<T>, xs: seq<A>, g: B -> seq<T>, ys: seq<B>)
    requires |xs| == |ys| && forall i :: 0 <= i < |xs| ==> f(xs[i]) == g(ys[i])
    ensures FlatMap(f, xs) == FlatMap(g, ys)
  {
    if xs != [] {
      forall i | 0 <= i < |xs| - 1 ensures f(xs[1..][i]) == g(ys[1..][i]) {
        assert f(xs[i + 1]) == g(ys[i + 1]);
      }
      FlatMapSame(f, xs[1..], g, ys[1..]);
    }
  }

  /** The directory's names and the map's keys list the same documents. */
  lemma ListingsAgree<T>(names: seq<string>, entry: string -> seq<T>, keys: seq<string>, seen: string -> seq<T>,
                         ids: set<string>)
    requires Lists(names, JsonNames(ids)) && Lists(keys, ids)
    requires forall id :: id in ids ==> entry(id + ".json") == seen(id)
    ensures multiset(FlatMap(entry, names)) == multiset(FlatMap(seen, keys))
  {
    var stems := seq(|names|, i requires 0 <= i < |names| => Stem(names[i]));
    StemsList(names, stems, ids);
    FlatMapSame(entry, names, seen, stems);
    ListsPermute(stems, keys, ids);
    FlatMapPermute(seen, stems, keys);
  }

  lemma StemsList(names: seq<string>, stems: seq<string>, ids: set<string>)
    requires Lists(names, JsonNames(ids))
    requires |stems| == |names| && forall i :: 0 <= i < |names| ==> stems[i] == Stem(names[i])
    ensures Lists(stems, ids)
    ensures forall i :: 0 <= i < |names| ==> names[i] == stems[i] + ".json"
  {
    hide JsonNames, Stem, Ext;
    forall i | 0 <= i < |names| ensures stems[i] in ids && names[i] == stems[i] + ".json" {
      assert names[i] in names;
      JsonNamesExact(ids, names[i]);
    }
    forall id | id in ids ensures id in stems {
      StemOfJson(id);
      JsonNamesExact(ids, id + ".json");
      var i :| 0 <= i < |names| && names[i] == id + ".json";
      assert stems[i] == id;
    }
  }

  lemma DirNames(root: string, d: Disk, c: string, docs: map<string, Bytes>)
    requires c in COLLECTIONS && Layout(root, d) && JsonStored(root, d, c, docs)
    ensures ReadDir(d, root, c).Ok?
    ensures Lists(ReadDir(d, root, c).value, JsonNames(docs.Keys))
  {
    var dir := DirAt(root, c);
    var names := Entries(d, dir);
    EntriesAreJson(root, d, c, docs);
    SanitizedDir(root, c);
    hide Sanitize, Resolve, DirAt, At, JsonStored, JsonNames, Entries;
    SortedKeys.SortedAnyOrder(SortedKeys.KeyOrder(names), names);
  }

  lemma EntriesAreJson(root: string, d: Disk, c: string, docs: map<string, Bytes>)
    requires c in COLLECTIONS && Layout(root, d) && JsonStored(root, d, c, docs)
    ensures Entries(d, DirAt(root, c)) == JsonNames(docs.Keys)
  {
    hide At, DirAt, Stem, Ext, Entries, JsonNames;
    forall name ensures name in Entries(d, DirAt(root, c)) <==> name in JsonNames(docs.Keys) {
      EntriesExact(d, DirAt(root, c), name);
      AtShape(root, c, name);
      JsonNamesExact(docs.Keys, name);
    }
  }

  function GroupUnder(groups: map<string, Group>): string -> seq<Group> {
    id => if id in groups then GroupSeen()(groups[id]) else []
  }

  function ProfileUnder(profiles: map<string, Profile>): string -> seq<Profile> {
    id => if id in profiles then ProfileSeen()(profiles[id]) else []
  }

  lemma GroupEntry(root: string, d: Disk, m: Maps, id: string)
    requires Sim(root, d, m) && id in m.groups && PlainId(id)
    ensures GroupOf(root, d)(id + ".json") == GroupUnder(m.groups)(id)
  {
    hide GetGroup, View, Stem, Ext, Sim;
    GroupFound(root, d, m, id);
    StemOfJson(id);
    assert GroupOf(root, d)(id + ".json") == Readable(GetGroup(root, d, id));
    assert GroupUnder(m.groups)(id) == GroupSeen()(m.groups[id]);
  }

  lemma ProfileEntry(root: string, d: Disk, m: Maps, id: string)
    requires Sim(root, d, m) && id in m.profiles && PlainId(id)
    ensures ProfileOf(root, d)(id + ".json") == ProfileUnder(m.profiles)(id)
  {
    hide GetProfile, Stem, Ext, Sim;
    ProfileFound(root, d, m, id);
    StemOfJson(id);
    assert ProfileOf(root, d)(id + ".json") == Readable(GetProfile(root, d, id));
    assert ProfileUnder(m.profiles)(id) == ProfileSeen()(m.profiles[id]);
  }

  lemma GroupNames(root: string, d: Disk, m: Maps)
    requires Sim(root, d, m)
    ensures ReadDir(d, root, "groups").Ok? && Lists(ReadDir(d, root, "groups").value, JsonNames(m.groups.Keys))
    ensures forall id :: id in m.groups ==> GroupOf(root, d)(id + ".json") == GroupUnder(m.groups)(id)
  {
    hide At, WriteGroup, Layout, TemplatesStored, ReadDir, JsonNames, Plain;
    var docs := GroupDocs(m.groups);
    DirNames(root, d, "groups", docs);
    assert docs.Keys == m.groups.Keys;
    assert forall id :: id in m.groups ==> id in docs && PlainId(id);
    hide GroupOf, GroupUnder, Sim, ReadDir;
    forall id | id in m.groups ensures GroupOf(root, d)(id + ".json") == GroupUnder(m.groups)(id) {
      GroupEntry(root, d, m, id);
    }
  }

  lemma ProfileNames(root: string, d: Disk, m: Maps)
    requires Sim(root, d, m)
    ensures ReadDir(d, root, "profiles").Ok? && Lists(ReadDir(d, root, "profiles").value, JsonNames(m.profiles.Keys))
    ensures forall id :: id in m.profiles ==> ProfileOf(root, d)(id + ".json") == ProfileUnder(m.profiles)(id)
  {
    hide At, WriteProfile, Layout, TemplatesStored, ReadDir, JsonNames, Plain;
    var docs := ProfileDocs(m.profiles);
    DirNames(root, d, "profiles", docs);
    assert docs.Keys == m.profiles.Keys;
    assert forall id :: id in m.profiles ==> id in docs && PlainId(id);
    hide ProfileOf, ProfileUnder, Sim, ReadDir;
    forall id | id in m.profiles ensures ProfileOf(root, d)(id + ".json") == ProfileUnder(m.profiles)(id) {
      ProfileEntry(root, d, m, id);
    }
  }

  /** The file store lists the views of the map store's groups, each once, and nothing else. */
  lemma GroupsListed(root: string, d: Disk, m: Maps, gs: seq<Group>)
    requires Sim(root, d, m) && ListsValues(gs, m.groups)
    ensures ListGroups(root, d).Ok?
    ensures multiset(ListGroups(root, d).value) == multiset(FlatMap(GroupSeen(), gs))
  {
    hide Sim, ReadDir, GroupOf, GroupSeen, GroupUnder, JsonNames, ListsValues;
    GroupNames(root, d, m);
    var keys := GroupsInOrder(gs, m.groups);
    ListingsAgree(ReadDir(d, root, "groups").value, GroupOf(root, d), keys, GroupUnder(m.groups), m.groups.Keys);
  }

  lemma GroupsInOrder(gs: seq<Group>, groups: map<string, Group>) returns (keys: seq<string>)
    requires ListsValues(gs, groups)
    ensures Lists(keys, groups.Keys) && FlatMap(GroupUnder(groups), keys) == FlatMap(GroupSeen(), gs)
  {
    keys :| Lists(keys, groups.Keys) && |gs| == |keys| && forall i :: 0 <= i < |keys| ==> gs[i] == groups[keys[i]];
    forall i | 0 <= i < |keys| ensures GroupUnder(groups)(keys[i]) == GroupSeen()(gs[i]) {
      assert keys[i] in keys;
    }
    FlatMapSame(GroupUnder(groups), keys, GroupSeen(), gs);
  }

  lemma ProfilesListed(root: string, d: Disk, m: Maps, ps: seq<Profile>)
    requires Sim(root, d, m) && ListsValues(ps, m.profiles)
    ensures ListProfiles(root, d).Ok?
    ensures multiset(ListProfiles(root, d).value) == multiset(FlatMap(ProfileSeen(), ps))
  {
    hide Sim, ReadDir, ProfileOf, ProfileSeen, ProfileUnder, JsonNames, ListsValues;
    ProfileNames(root, d, m);
    var keys := ProfilesInOrder(ps, m.profiles);
    ListingsAgree(ReadDir(d, root, "profiles").value, ProfileOf(root, d), keys, ProfileUnder(m.profiles),
                  m.profiles.Keys);
  }

  lemma ProfilesInOrder(ps: seq<Profile>, profiles: map<string, Profile>) returns (keys: seq<string>)
    requires ListsValues(ps, profiles)
    ensures Lists(keys, profiles.Keys) && FlatMap(ProfileUnder(profiles), keys) == FlatMap(ProfileSeen(), ps)
  {
    keys :| Lists(keys, profiles.Keys) && |ps| == |keys| && forall i :: 0 <= i < |keys| ==> ps[i] == profiles[keys[i]];
    forall i | 0 <= i < |keys| ensures ProfileUnder(profiles)(keys[i]) == ProfileSeen()(ps[i]) {
      assert keys[i] in keys;
    }
    FlatMapSame(ProfileUnder(profiles), keys, ProfileSeen(), ps);
  }

  // ---------- one call ----------

  lemma GroupPutAgrees(root: string, d: Disk, m: Maps, g: Group, m': Maps, a: Answer)
    requires Sim(root, d, m) && PlainId(g.id) && WriteGroup(g).Some? && MapStep(m, GroupPut(g), m', a)
    ensures var (d', f) := FileStep(root, d, GroupPut(g)); Sim(root, d', m') && f == a
  {
    hide WriteFile, Written, JsonStored, TemplatesStored, Layout, WriteGroup, JoinPath, View;
    DirsDiffer();
    PlainIdFile(g.id);
    var data := WriteGroup(g).value;
    PutKeepsSim(root, d, m, "groups", g.id + ".json", data);
    JsonWritten(root, d, "groups", g.id, data, GroupDocs(m.groups));
    assert GroupDocs(m'.groups) == GroupDocs(m.groups)[g.id := data];
    hide GroupDocs;
  }

  /** The file store refuses the put and stays as it is. */
  lemma RefusedStep(root: string, d: Disk, op: Op)
    requires Refused(op)
    ensures FileStep(root, d, op) == (d, Failed)
  {
    GroupRoundTrip(op.group);
    hide WriteFile, WriteGroup, JoinPath;
  }

  /**
   The one difference between the stores: a group put is answered alike, and leaves them in step,
   exactly when its metadata are nil or the JSON of null or an object.
   */
  lemma GroupPutAgreesExact(root: string, d: Disk, m: Maps, g: Group, m': Maps, a: Answer)
    requires Sim(root, d, m) && PlainId(g.id) && MapStep(m, GroupPut(g), m', a)
    ensures var (d', f) := FileStep(root, d, GroupPut(g));
            && (SameAnswer(f, a) <==> MetadataFields(g.metadata).Some?)
            && (Sim(root, d', m') <==> MetadataFields(g.metadata).Some?)
  {
    GroupRoundTrip(g);
    assert a == Done && m'.groups[g.id] == g;
    UnwritableOutOfStep(root, FileStep(root, d, GroupPut(g)).0, m', g);
    hide FileStep, Sim, MapStep, MetadataFields, WriteGroup;
    if WriteGroup(g).Some? {
      GroupPutAgrees(root, d, m, g, m', a);
    } else {
      RefusedStep(root, d, GroupPut(g));
    }
  }

  lemma UnwritableOutOfStep(root: string, d: Disk, m: Maps, g: Group)
    requires g.id in m.groups && m.groups[g.id] == g
    ensures Sim(root, d, m) ==> WriteGroup(g).Some?
  {
  }

  /** For instance this put: the map store keeps the group, the file store answers with an error. */
  lemma RefusedPutDiverges(root: string, d: Disk, m: Maps, m': Maps, a: Answer)
    requires MapStep(m, GroupPut(Group("g", "", "p", map[], Some(Raw("x")))), m', a)
    ensures a == Done && "g" in m'.groups
    ensures FileStep(root, d, GroupPut(Group("g", "", "p", map[], Some(Raw("x"))))) == (d, Failed)
  {
  }

  lemma ProfilePutAgrees(root: string, d: Disk, m: Maps, p: Profile, m': Maps, a: Answer)
    requires Sim(root, d, m) && PlainId(p.id) && MapStep(m, ProfilePut(p), m', a)
    ensures var (d', f) := FileStep(root, d, ProfilePut(p)); Sim(root, d', m') && f == a
  {
    hide WriteFile, Written, JsonStored, TemplatesStored, Layout, WriteProfile, JoinPath;
    DirsDiffer();
    PlainIdFile(p.id);
    var data := WriteProfile(p);
    PutKeepsSim(root, d, m, "profiles", p.id + ".json", data);
    JsonWritten(root, d, "profiles", p.id, data, ProfileDocs(m.profiles));
    assert ProfileDocs(m'.profiles) == ProfileDocs(m.profiles)[p.id := data];
  }

  lemma IgnitionPutAgrees(root: string, d: Disk, m: Maps, name: string, config: Bytes, m': Maps, a: Answer)
    requires Sim(root, d, m) && Plain(name) && MapStep(m, IgnitionPut(name, config), m', a)
    ensures var (d', f) := FileStep(root, d, IgnitionPut(name, config)); Sim(root, d', m') && f == a
  {
    hide WriteFile, Written, JsonStored, TemplatesStored, Layout, JoinPath, Plain;
    DirsDiffer();
    PutKeepsSim(root, d, m, "ignition", name, config);
    TemplateWritten(root, d, "ignition", name, config, m.ignition);
  }

  lemma CloudPutAgrees(root: string, d: Disk, m: Maps, name: string, config: Bytes, m': Maps, a: Answer)
    requires Sim(root, d, m) && Plain(name) && MapStep(m, CloudPut(name, config), m', a)
    ensures var (d', f) := FileStep(root, d, CloudPut(name, config)); Sim(root, d', m') && f == a
  {
    hide WriteFile, Written, JsonStored, TemplatesStored, Layout, JoinPath, Plain;
    DirsDiffer();
    PutKeepsSim(root, d, m, "cloud", name, config);
    TemplateWritten(root, d, "cloud", name, config, m.cloud);
  }

  /** A write succeeds and keeps the layout and the other four collections. */
  lemma PutKeepsSim(root: string, d: Disk, m: Maps, c: string, name: string, data: Bytes)
    requires Sim(root, d, m) && c in COLLECTIONS && Plain(name)
    ensures WriteFile(d, root, JoinPath(c, name), data) == (Written(root, d, c, name, data), None)
    ensures var d' := Written(root, d, c, name, data);
            && Layout(root, d')
            && (c != "groups" ==> JsonStored(root, d', "groups", GroupDocs(m.groups)))
            && (c != "profiles" ==> JsonStored(root, d', "profiles", ProfileDocs(m.profiles)))
            && (c != "ignition" ==> TemplatesStored(root, d', "ignition", m.ignition))
            && (c != "cloud" ==> TemplatesStored(root, d', "cloud", m.cloud))
            && (c != "generic" ==> TemplatesStored(root, d', "generic", m.generic))
  {
    WriteAt(root, d, c, name, data);
    hide WriteFile, Written, JsonStored, TemplatesStored, Layout, JoinPath;
    if c != "groups" {
      OthersKept(root, d, c, name, data, "groups");
    }
    if c != "profiles" {
      OthersKept(root, d, c, name, data, "profiles");
    }
    if c != "ignition" {
      OthersKept(root, d, c, name, data, "ignition");
    }
    if c != "cloud" {
      OthersKept(root, d, c, name, data, "cloud");
    }
    if c != "generic" {
      OthersKept(root, d, c, name, data, "generic");
    }
  }

  lemma IgnitionGetAgrees(root: string, d: Disk, m: Maps, name: string, m': Maps, a: Answer)
    requires Sim(root, d, m) && Plain(name) && MapStep(m, IgnitionGet(name), m', a)
    ensures FileStep(root, d, IgnitionGet(name)) == (d, a) && m' == m
  {
    hide GetTemplate, TemplatesStored, JsonStored, Layout, Plain;
    TemplateFound(root, d, "ignition", name, m.ignition);
  }

  lemma CloudGetAgrees(root: string, d: Disk, m: Maps, name: string, m': Maps, a: Answer)
    requires Sim(root, d, m) && Plain(name) && MapStep(m, CloudGet(name), m', a)
    ensures FileStep(root, d, CloudGet(name)) == (d, a) && m' == m
  {
    hide GetTemplate, TemplatesStored, JsonStored, Layout, Plain;
    TemplateFound(root, d, "cloud", name, m.cloud);
  }

  lemma GenericGetAgrees(root: string, d: Disk, m: Maps, name: string, m': Maps, a: Answer)
    requires Sim(root, d, m) && Plain(name) && MapStep(m, GenericGet(name), m', a)
    ensures FileStep(root, d, GenericGet(name)) == (d, a) && m' == m
  {
    hide GetTemplate, TemplatesStored, JsonStored, Layout, Plain;
    TemplateFound(root, d, "generic", name, m.generic);
  }

  lemma DocumentGetAgrees(root: string, d: Disk, m: Maps, op: Op, m': Maps, a: Answer)
    requires Sim(root, d, m) && PlainOp(op) && MapStep(m, op, m', a)
    requires op.GroupGet? || op.ProfileGet? || op.GroupList? || op.ProfileList?
    ensures FileStep(root, d, op).0 == d && SameAnswer(FileStep(root, d, op).1, a) && m' == m
  {
    hide Sim, GetGroup, GetProfile, ListGroups, ListProfiles, View, FlatMap;
    match op {
      case GroupGet(id) => GroupFound(root, d, m, id);
      case ProfileGet(id) => ProfileFound(root, d, m, id);
      case GroupList => GroupsListed(root, d, m, a.groups);
      case ProfileList => ProfilesListed(root, d, m, a.profiles);
    }
  }

  lemma AnswerKind(m: Maps, op: Op, m': Maps, a: Answer)
    requires MapStep(m, op, m', a)
    ensures op.GroupGet? || op.GroupList? || op.ProfileGet? || op.ProfileList? || a.Done? || a.Failed? || a.GotConfig?
  {
    hide ListsValues;
  }

  lemma SameAsItself(a: Answer)
    ensures a.Done? || a.Failed? || a.GotConfig? ==> SameAnswer(a, a)
  {
  }

  /** One call that is not a refused put: the stores stay in step and give the same answer. */
  lemma StepAgrees(root: string, d: Disk, m: Maps, op: Op, m': Maps, a: Answer)
    requires Sim(root, d, m) && PlainOp(op) && !Refused(op) && MapStep(m, op, m', a)
    ensures var (d', f) := FileStep(root, d, op); Sim(root, d', m') && SameAnswer(f, a)
  {
    if op.GroupPut? {
      GroupRoundTrip(op.group);
    }
    hide Sim, FileStep, MapStep, MetadataFields, WriteGroup, SameAnswer;
    AnswerKind(m, op, m', a);
    SameAsItself(a);
    match op {
      case GroupPut(g) => GroupPutAgrees(root, d, m, g, m', a);
      case ProfilePut(p) => ProfilePutAgrees(root, d, m, p, m', a);
      case IgnitionPut(name, config) => IgnitionPutAgrees(root, d, m, name, config, m', a);
      case CloudPut(name, config) => CloudPutAgrees(root, d, m, name, config, m', a);
      case GroupGet(_) => DocumentGetAgrees(root, d, m, op, m', a);
      case ProfileGet(_) => DocumentGetAgrees(root, d, m, op, m', a);
      case GroupList => DocumentGetAgrees(root, d, m, op, m', a);
      case ProfileList => DocumentGetAgrees(root, d, m, op, m', a);
      case IgnitionGet(name) => IgnitionGetAgrees(root, d, m, name, m', a);
      case CloudGet(name) => CloudGetAgrees(root, d, m, name, m', a);
      case GenericGet(name) => GenericGetAgrees(root, d, m, name, m', a);
    }
  }

  // ---------- whole runs ----------

  /** The first `n` calls on the file store: the tree they leave and their answers. */
  ghost function FileRunTo(root: string, d: Disk, ops: seq<Op>, n: nat): (r: (Disk, seq<Answer>))
    requires n <= |ops|
    ensures |r.1| == n
  {
    if n == 0 then (d, [])
    else
      var (before, fs) := FileRunTo(root, d, ops, n - 1);
      var (after, f) := FileStep(root, before, ops[n - 1]);
      (after, fs + [f])
  }

  ghost function FileRun(root: string, d: Disk, ops: seq<Op>): (r: (Disk, seq<Answer>))
    ensures |r.1| == |ops|
  {
    FileRunTo(root, d, ops, |ops|)
  }

  /** `states` and `answers` are a run of the map store on `ops`. */
  ghost predicate MapRun(states: seq<Maps>, ops: seq<Op>, answers: seq<Answer>) {
    && |states| == |ops| + 1 && |answers| == |ops|
    && forall i :: 0 <= i < |ops| ==> MapStep(states[i], ops[i], states[i + 1], answers[i])
  }

  /** The same, for the map store given the calls with the refused puts left out. */
  ghost predicate KeptRun(states: seq<Maps>, ops: seq<Op>, answers: seq<Answer>) {
    && |states| == |ops| + 1 && |answers| == |ops|
    && forall i :: 0 <= i < |ops| ==> KeptStep(states[i], ops[i], states[i + 1], answers[i])
  }

  ghost predicate KeptStep(m: Maps, op: Op, m': Maps, a: Answer) {
    if Refused(op) then m' == m && a == Failed else MapStep(m, op, m', a)
  }

  lemma KeptStepAgrees(root: string, d: Disk, m: Maps, op: Op, m': Maps, a: Answer)
    requires Sim(root, d, m) && PlainOp(op) && KeptStep(m, op, m', a)
    ensures var (d', f) := FileStep(root, d, op); Sim(root, d', m') && SameAnswer(f, a)
  {
    hide FileStep, MapStep, Sim, PlainOp, Refused;
    if Refused(op) {
      RefusedStep(root, d, op);
    } else {
      StepAgrees(root, d, m, op, m', a);
    }
  }

  lemma {:induction false} KeptRunAgreesTo(root: string, d: Disk, states: seq<Maps>, ops: seq<Op>, answers: seq<Answer>,
                                           n: nat)
    requires KeptRun(states, ops, answers) && Sim(root, d, states[0]) && n <= |ops|
    requires forall i :: 0 <= i < |ops| ==> PlainOp(ops[i])
    ensures var (d', fs) := FileRunTo(root, d, ops, n);
            Sim(root, d', states[n]) && forall i :: 0 <= i < n ==> SameAnswer(fs[i], answers[i])
  {
    hide FileStep, KeptStep, Sim, SameAnswer, PlainOp;
    if n > 0 {
      KeptRunAgreesTo(root, d, states, ops, answers, n - 1);
      var before := FileRunTo(root, d, ops, n - 1).0;
      assert KeptStep(states[n - 1], ops[n - 1], states[n - 1 + 1], answers[n - 1]);
      KeptStepAgrees(root, before, states[n - 1], ops[n - 1], states[n], answers[n - 1]);
    }
  }

  /** Over every run of plain calls, refused puts among them, the file store is the map store without those puts. */
  lemma KeptRunAgrees(root: string, d: Disk, states: seq<Maps>, ops: seq<Op>, answers: seq<Answer>)
    requires KeptRun(states, ops, answers) && Sim(root, d, states[0])
    requires forall i :: 0 <= i < |ops| ==> PlainOp(ops[i])
    ensures var (d', fs) := FileRun(root, d, ops);
            && Sim(root, d', states[|ops|])
            && forall i :: 0 <= i < |ops| ==> SameAnswer(fs[i], answers[i])
  {
    hide KeptStep, Sim, SameAnswer, PlainOp, FileRunTo;
    KeptRunAgreesTo(root, d, states, ops, answers, |ops|);
  }

  lemma UnrefusedRunKept(states: seq<Maps>, ops: seq<Op>, answers: seq<Answer>)
    requires MapRun(states, ops, answers) && forall i :: 0 <= i < |ops| ==> !Refused(ops[i])
    ensures KeptRun(states, ops, answers)
  {
    hide MapStep, Refused;
    forall i | 0 <= i < |ops| ensures KeptStep(states[i], ops[i], states[i + 1], answers[i]) {
      assert MapStep(states[i], ops[i], states[i + 1], answers[i]);
    }
  }

  /** The file store refines the map store, over every run of plain calls without refused puts. */
  lemma RunAgrees(root: string, d: Disk, states: seq<Maps>, ops: seq<Op>, answers: seq<Answer>)
    requires MapRun(states, ops, answers) && Sim(root, d, states[0])
    requires forall i :: 0 <= i < |ops| ==> PlainOp(ops[i]) && !Refused(ops[i])
    ensures var (d', fs) := FileRun(root, d, ops);
            && Sim(root, d', states[|ops|])
            && forall i :: 0 <= i < |ops| ==> SameAnswer(fs[i], answers[i])
  {
    hide MapStep, Sim, SameAnswer, PlainOp, Refused, FileRunTo;
    UnrefusedRunKept(states, ops, answers);
    KeptRunAgrees(root, d, states, ops, answers);
  }

  lemma {:induction false} FileRunPrefix(root: string, d: Disk, ops: seq<Op>, n: nat, k: nat)
    requires k <= n <= |ops|
    ensures FileRunTo(root, d, ops[..n], k) == FileRunTo(root, d, ops, k)
    ensures forall i :: 0 <= i < k ==> FileRunTo(root, d, ops, k).1[i] == FileRunTo(root, d, ops, i + 1).1[i]
  {
    hide FileStep;
    if k > 0 {
      FileRunPrefix(root, d, ops, n, k - 1);
    }
  }

  /** The first refused put of a run is answered differently. */
  lemma FirstRefusedDiffers(root: string, d: Disk, states: seq<Maps>, ops: seq<Op>, answers: seq<Answer>, n: nat)
    requires MapRun(states, ops, answers) && Sim(root, d, states[0]) && n < |ops|
    requires forall i :: 0 <= i < |ops| ==> PlainOp(ops[i])
    requires Refused(ops[n]) && forall i :: 0 <= i < n ==> !Refused(ops[i])
    ensures !SameAnswer(FileRun(root, d, ops).1[n], answers[n])
  {
    assert MapStep(states[n], ops[n], states[n + 1], answers[n]);
    assert answers[n] == Done;
    hide MapStep, Sim, PlainOp, Refused, FileStep;
    RefusedStep(root, FileRunTo(root, d, ops, n).0, ops[n]);
    FileRunPrefix(root, d, ops, |ops|, |ops|);
    assert FileRunTo(root, d, ops, n + 1).1[n] == Failed;
  }

  /** The stores answer a whole run of plain calls alike exactly when it has no refused put. */
  lemma RunAgreesExact(root: string, d: Disk, states: seq<Maps>, ops: seq<Op>, answers: seq<Answer>)
    requires MapRun(states, ops, answers) && Sim(root, d, states[0])
    requires forall i :: 0 <= i < |ops| ==> PlainOp(ops[i])
    ensures (forall i :: 0 <= i < |ops| ==> SameAnswer(FileRun(root, d, ops).1[i], answers[i])) <==>
            (forall i :: 0 <= i < |ops| ==> !Refused(ops[i]))
  {
    hide MapRun, Sim, PlainOp, Refused, FileRun, SameAnswer;
    if forall i :: 0 <= i < |ops| ==> !Refused(ops[i]) {
      RunAgrees(root, d, states, ops, answers);
    } else {
      var n := FirstRefused(ops);
      FirstRefusedDiffers(root, d, states, ops, answers, n);
    }
  }

  lemma {:induction false} FirstRefused(ops: seq<Op>) returns (n: nat)
    requires exists i :: 0 <= i < |ops| && Refused(ops[i])
    ensures n < |ops| && Refused(ops[n]) && forall i :: 0 <= i < n ==> !Refused(ops[i])
  {
    hide Refused;
    n := 0;
    while !Refused(ops[n])
      invariant n < |ops| && forall i :: 0 <= i < n ==> !Refused(ops[i])
      invariant exists i :: n <= i < |ops| && Refused(ops[i])
      decreases |ops| - n
    {
      n := n + 1;
    }
  }

  /** Fresh collection directories are in step with an empty map store. */
  lemma EmptyStoresAgree(root: string, d: Disk)
    requires Layout(root, d)
    requires forall c, name :: c in COLLECTIONS ==> At(root, c, name) !in d.files
    ensures Sim(root, d, Maps(map[], map[], map[], map[], map[]))
  {
    hide At;
  }
}

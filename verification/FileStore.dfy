/** The file store: documents in the directory tree under its root. */
module FileStores {
  import opened Results
  import opened Documents
  import opened Enumerations
  import opened Paths
  import opened Groups
  import opened Formats
  import opened Stores
  import opened FileTrees
  import SortedKeys

  // ---------- the store operations on a tree ----------

  function PutGroup(root: string, d: Disk, g: Group): (Disk, Option<StoreError>) {
    match WriteGroup(g)
    case None => (d, Some(BadMetadata))
    case Some(data) => WriteFile(d, root, JoinPath("groups", g.id + ".json"), data)
  }

  function GetGroup(root: string, d: Disk, id: string): Result<Group, StoreError> {
    match ReadFile(d, root, JoinPath("groups", id + ".json"))
    case Err(e) => Err(e)
    case Ok(data) => match ParseGroup(data)
      case None => Err(BadDocument)
      case Some(g) => Ok(g)
  }

  function PutProfile(root: string, d: Disk, p: Profile): (Disk, Option<StoreError>) {
    WriteFile(d, root, JoinPath("profiles", p.id + ".json"), WriteProfile(p))
  }

  function GetProfile(root: string, d: Disk, id: string): Result<Profile, StoreError> {
    match ReadFile(d, root, JoinPath("profiles", id + ".json"))
    case Err(e) => Err(e)
    case Ok(data) => match ParseProfile(data)
      case None => Err(BadDocument)
      case Some(p) => Ok(p)
  }

  function Readable<T>(r: Result<T, StoreError>): seq<T> {
    if r.Ok? then [r.value] else []
  }

  /** What one directory entry contributes to a list. */
  function GroupOf(root: string, d: Disk): string -> seq<Group> {
    name => Readable(GetGroup(root, d, Stem(name)))
  }

  function ProfileOf(root: string, d: Disk): string -> seq<Profile> {
    name => Readable(GetProfile(root, d, Stem(name)))
  }

  ghost function ListGroups(root: string, d: Disk): Result<seq<Group>, StoreError> {
    match ReadDir(d, root, "groups")
    case Err(e) => Err(e)
    case Ok(names) => Ok(FlatMap(GroupOf(root, d), names))
  }

  ghost function ListProfiles(root: string, d: Disk): Result<seq<Profile>, StoreError> {
    match ReadDir(d, root, "profiles")
    case Err(e) => Err(e)
    case Ok(names) => Ok(FlatMap(ProfileOf(root, d), names))
  }

  function PutTemplate(root: string, d: Disk, collection: string, name: string, data: Bytes): (Disk, Option<StoreError>)
    requires collection != ""
  {
    WriteFile(d, root, JoinPath(collection, name), data)
  }

  function GetTemplate(root: string, d: Disk, collection: string, name: string): Result<Bytes, StoreError>
    requires collection != ""
  {
    ReadFile(d, root, JoinPath(collection, name))
  }

  // ---------- what a put means for the reads after it ----------

  function GroupName(id: string): string {
    JoinPath("groups", id + ".json")
  }

  function ProfileName(id: string): string {
    JoinPath("profiles", id + ".json")
  }

  /** `r` is how a document that parses to `parsed` is answered. */
  predicate ReadsAs<T(==)>(r: Result<T, StoreError>, parsed: Option<T>) {
    r == if parsed.Some? then Ok(parsed.value) else Err(BadDocument)
  }

  lemma GroupPutThenGet(root: string, d: Disk, g: Group)
    ensures var (d', e) := PutGroup(root, d, g);
            && (e.None? ==> ReadsAs(GetGroup(root, d', g.id), View(g)))
            && (e.Some? ==> d' == d)
            && (e == Some(BadMetadata) <==> MetadataFields(g.metadata).None?)
  {
    hide WriteFile, ReadFile, ParseGroup, View, JoinPath, WriteGroup;
    GroupRoundTrip(g);
    if WriteGroup(g).Some? {
      WriteErrors(root, d, GroupName(g.id), WriteGroup(g).value);
      WriteThenRead(root, d, GroupName(g.id), WriteGroup(g).value);
    }
  }

  lemma WriteErrors(root: string, d: Disk, name: string, data: Bytes)
    ensures WriteFile(d, root, name, data).1 in {None, Some(InvalidPath), Some(NotWritable)}
  {
    hide Sanitize, Resolve;
  }

  lemma ProfilePutThenGet(root: string, d: Disk, p: Profile)
    ensures var (d', e) := PutProfile(root, d, p);
            && (e.None? ==> ReadsAs(GetProfile(root, d', p.id), if p.id == "" then None else Some(p)))
            && (e.Some? ==> d' == d)
  {
    hide WriteFile, ReadFile, ParseProfile, JoinPath, WriteProfile;
    ProfileRoundTrip(p);
    WriteThenRead(root, d, ProfileName(p.id), WriteProfile(p));
  }

  /** Every name of another file reads as before. */
  ghost predicate OthersRead(root: string, d: Disk, d': Disk, name: string) {
    forall other :: !SameFile(root, name, other) ==> ReadFile(d', root, other) == ReadFile(d, root, other)
  }

  lemma PutKeepsOthers(root: string, d: Disk, name: string, data: Bytes)
    ensures OthersRead(root, d, WriteFile(d, root, name, data).0, name)
    ensures OthersRead(root, d, d, name)
  {
    hide WriteFile, ReadFile, SameFile;
    forall other | !SameFile(root, name, other)
      ensures ReadFile(WriteFile(d, root, name, data).0, root, other) == ReadFile(d, root, other)
    {
      WriteKeepsOthers(root, d, name, data, other);
    }
  }

  /**
   On any tree: a group with a plain id is put exactly when its metadata can be encoded, its place is no
   directory and nothing above it is a file. Then the groups directory exists, even if it did not, and
   the list has the group as it is read back.
   */
  lemma GroupPutThenList(root: string, d: Disk, g: Group)
    requires PlainId(g.id)
    ensures var (d', e) := PutGroup(root, d, g);
            var place := At(root, "groups", g.id + ".json");
            && (e.None? <==>
                && MetadataFields(g.metadata).Some? && place !in d.dirs
                && forall n :: 0 <= n < |place.comps| ==> Path(place.rooted, place.comps[..n]) !in d.files)
            && (e.None? ==> ListGroups(root, d').Ok?)
            && (e.None? && View(g).Some? ==> View(g).value in ListGroups(root, d').value)
  {
    PlainIdFile(g.id);
    GroupRoundTrip(g);
    GroupPutThenGet(root, d, g);
    hide WriteFile, ReadFile, ReadDir, JoinPath, View, MetadataFields, PlainId, Plain, GetGroup, WriteGroup, Stem, At;
    hide Sanitize, Resolve;
    var (d', e) := PutGroup(root, d, g);
    if WriteGroup(g).Some? {
      SanitizedFile(root, "groups", g.id + ".json");
      WriteExact(root, d, GroupName(g.id), WriteGroup(g).value);
      AtComps(root, "groups", g.id + ".json");
    }
    if e.None? {
      PutThenListed(root, d', "groups", g.id + ".json");
      StemOfJson(g.id);
      var names := ReadDir(d', root, "groups").value;
      FlatMapMember(GroupOf(root, d'), names, if View(g).Some? then View(g).value else g);
      var i :| 0 <= i < |names| && names[i] == g.id + ".json";
      GroupOfName(root, d', names[i]);
    }
  }

  /** The same for profiles. */
  lemma ProfilePutThenList(root: string, d: Disk, p: Profile)
    requires PlainId(p.id)
    ensures var (d', e) := PutProfile(root, d, p);
            var place := At(root, "profiles", p.id + ".json");
            && (e.None? <==>
                && place !in d.dirs
                && forall n :: 0 <= n < |place.comps| ==> Path(place.rooted, place.comps[..n]) !in d.files)
            && (e.None? ==> ListProfiles(root, d').Ok?)
            && (e.None? && p.id != "" ==> p in ListProfiles(root, d').value)
  {
    PlainIdFile(p.id);
    ProfilePutThenGet(root, d, p);
    hide WriteFile, ReadFile, ReadDir, JoinPath, PlainId, Plain, GetProfile, WriteProfile, Stem, At;
    hide Sanitize, Resolve;
    var (d', e) := PutProfile(root, d, p);
    SanitizedFile(root, "profiles", p.id + ".json");
    WriteExact(root, d, ProfileName(p.id), WriteProfile(p));
    AtComps(root, "profiles", p.id + ".json");
    if e.None? {
      PutThenListed(root, d', "profiles", p.id + ".json");
      StemOfJson(p.id);
      var names := ReadDir(d', root, "profiles").value;
      FlatMapMember(ProfileOf(root, d'), names, p);
      var i :| 0 <= i < |names| && names[i] == p.id + ".json";
      ProfileOfName(root, d', names[i]);
    }
  }

  lemma ProfileOfName(root: string, d: Disk, name: string)
    ensures ProfileOf(root, d)(name) == Readable(GetProfile(root, d, Stem(name)))
  {
    hide GetProfile, Stem;
  }

  lemma GroupOfName(root: string, d: Disk, name: string)
    ensures GroupOf(root, d)(name) == Readable(GetGroup(root, d, Stem(name)))
  {
    hide GetGroup, Stem;
  }

  lemma AtComps(root: string, c: string, name: string)
    ensures At(root, c, name).comps != []
    ensures var p := At(root, c, name); Path(p.rooted, p.comps[..|p.comps| - 1]) == DirAt(root, c)
  {
    assert At(root, c, name).comps == DirAt(root, c).comps + [name];
  }

  /** A file in an existing directory is one of its names. */
  lemma PutThenListed(root: string, d: Disk, c: string, name: string)
    requires c in COLLECTIONS && DirAt(root, c) in d.dirs && At(root, c, name) in d.files
    ensures ReadDir(d, root, c).Ok? && name in ReadDir(d, root, c).value
  {
    SanitizedDir(root, c);
    AtShape(root, c, name);
    hide Sanitize, Resolve, ReadDir, At, DirAt;
    ReadDirExact(root, d, c);
  }

  /** In existing collection directories a plain name can always be written. */
  lemma PlainWrites(root: string, d: Disk, c: string, name: string, data: Bytes)
    requires c in COLLECTIONS && Plain(name) && Layout(root, d)
    ensures WriteFile(d, root, JoinPath(c, name), data).1.None?
  {
    WriteAt(root, d, c, name, data);
  }

  lemma GroupGetCanonical(root: string, d: Disk, id: string)
    ensures var r := GetGroup(root, d, id);
            r.Ok? ==> Normalized(r.value.selector) == r.value.selector
  {
    hide ReadFile, JoinPath, Normalized;
    var file := ReadFile(d, root, GroupName(id));
    if file.Ok? && ParseGroup(file.value).Some? {
      ParsedGroup(file.value);
    }
  }

  // ---------- the store ----------

  class FileStore {
    const root: string
    var disk: Disk

    constructor (root: string, disk: Disk)
      ensures this.root == root && this.disk == disk
    {
      this.root, this.disk := root, disk;
    }

    /** `Dir.readFile`. */
    method ReadBytes(name: string) returns (r: Result<Bytes, StoreError>)
      ensures r == ReadFile(disk, root, name)
    {
      match Sanitize(root, name) {
        case Err(_) => r := Err(InvalidPath);
        case Ok(path) =>
          var place := Resolve(path);
          if place in disk.files {
            r := Ok(disk.files[place]);
          } else {
            r := Err(NoSuchFile);
          }
      }
    }

    /** `Dir.writeFile`: make the parents one after another, then write the file. */
    method WriteBytes(name: string, data: Bytes) returns (e: Option<StoreError>)
      modifies this
      ensures (disk, e) == WriteFile(old(disk), root, name, data)
      ensures if e.None? then ReadFile(disk, root, name) == Ok(data) else disk == old(disk)
      ensures OthersRead(root, old(disk), disk, name)
      ensures match Sanitize(root, name)
              case Err(_) => e == Some(InvalidPath)
              case Ok(path) => WriteEffect(old(disk), disk, e, Resolve(path), data)
    {
      WriteThenRead(root, disk, name, data);
      WriteExact(root, disk, name, data);
      PutKeepsOthers(root, disk, name, data);
      match Sanitize(root, name) {
        case Err(_) => return Some(InvalidPath);
        case Ok(path) =>
          hide Sanitize, Resolve, ReadFile, OthersRead, WriteEffect;
          var place := Resolve(path);
          var dirs := disk.dirs;
          var n := 0;
          while n < |place.comps|
            invariant 0 <= n <= |place.comps|
            invariant dirs == disk.dirs + set k | 0 <= k < n :: Ancestor(place, k)
            invariant forall k :: 0 <= k < n ==> Ancestor(place, k) !in disk.files
          {
            if Ancestor(place, n) in disk.files {
              assert Ancestor(place, n) in Ancestors(place);
              return Some(NotWritable);
            }
            dirs := dirs + {Ancestor(place, n)};
            n := n + 1;
          }
          assert dirs == disk.dirs + Ancestors(place);
          if place.comps == [] || place in disk.dirs {
            return Some(NotWritable);
          }
          disk := Disk(disk.files[place := data], dirs);
          return None;
      }
    }

    /** `Dir.readDir`. */
    method DirNames(dirname: string) returns (r: Result<seq<string>, StoreError>)
      ensures r == ReadDir(disk, root, dirname)
    {
      match Sanitize(root, dirname) {
        case Err(_) => return Err(InvalidPath);
        case Ok(path) =>
          if Resolve(path) !in disk.dirs {
            return Err(NotADirectory);
          }
          var names := SortedKeys.SortKeys(Entries(disk, Resolve(path)));
          return Ok(names);
      }
    }

    /**
     A put that succeeds is what the next get of the id sees, in the form it is read back; every other
     file reads as before. A put that fails changes nothing. A plain id fails only for its metadata.
     */
    method GroupPut(g: Group) returns (e: Option<StoreError>)
      modifies this
      ensures (disk, e) == PutGroup(root, old(disk), g)
      ensures e.None? ==> ReadsAs(GetGroup(root, disk, g.id), View(g))
      ensures e.Some? ==> disk == old(disk)
      ensures OthersRead(root, old(disk), disk, GroupName(g.id))
      ensures e == Some(BadMetadata) <==> MetadataFields(g.metadata).None?
      ensures PlainId(g.id) && Layout(root, old(disk)) ==> (e.None? <==> MetadataFields(g.metadata).Some?)
      ensures PlainId(g.id) && e.None? ==> ListGroups(root, disk).Ok?
      ensures PlainId(g.id) && e.None? && View(g).Some? ==> View(g).value in ListGroups(root, disk).value
    {
      if PlainId(g.id) {
        GroupPutThenList(root, disk, g);
      }
      hide WriteFile, ReadFile, JoinPath, View, MetadataFields, Layout, OthersRead, PlainId, Plain, GetGroup,
        WriteGroup, WriteEffect, Sanitize, Resolve, ListGroups;
      GroupPutThenGet(root, disk, g);
      PutKeepsOthers(root, disk, GroupName(g.id), Raw(""));
      var data := WriteGroup(g);
      GroupRoundTrip(g);
      if data.None? {
        return Some(BadMetadata);
      }
      if PlainId(g.id) && Layout(root, disk) {
        PlainIdFile(g.id);
        PlainWrites(root, disk, "groups", g.id + ".json", data.value);
      }
      e := WriteBytes(JoinPath("groups", g.id + ".json"), data.value);
    }

    /** The group of the id's own file, if there is one and it parses; always in canonical form. */
    method GroupGet(id: string) returns (r: Result<Group, StoreError>)
      ensures r == GetGroup(root, disk, id)
      ensures r.Ok? ==> Normalized(r.value.selector) == r.value.selector
      ensures PlainId(id) ==> var place := At(root, "groups", id + ".json");
                              if place in disk.files then ReadsAs(r, ParseGroup(disk.files[place]))
                              else r == Err(NoSuchFile)
    {
      hide ReadFile, JoinPath, ParseGroup, At, PlainId, Plain, Normalized;
      GroupGetCanonical(root, disk, id);
      if PlainId(id) {
        PlainIdFile(id);
        ReadAt(root, disk, "groups", id + ".json");
      }
      var data := ReadBytes(JoinPath("groups", id + ".json"));
      if data.Err? {
        return Err(data.error);
      }
      var group := ParseGroup(data.value);
      if group.None? {
        return Err(BadDocument);
      }
      return Ok(group.value);
    }

    /** What one directory entry adds to the list: an unreadable document adds nothing. */
    method GroupEntry(name: string) returns (part: seq<Group>)
      ensures part == GroupOf(root, disk)(name)
    {
      hide GetGroup, PlainId, At, ParseGroup, Normalized, Stem;
      var group := GroupGet(Stem(name));
      part := if group.Ok? then [group.value] else [];
    }

    method ReadGroups(names: seq<string>) returns (groups: seq<Group>)
      ensures groups == FlatMap(GroupOf(root, disk), names)
    {
      hide GroupOf;
      groups := [];
      var i := 0;
      ghost var entry := GroupOf(root, disk);
      while i < |names|
        invariant 0 <= i <= |names|
        invariant groups == FlatMap(entry, names[..i])
      {
        var part := GroupEntry(names[i]);
        FlatMapNext(entry, names, i);
        groups := groups + part;
        i := i + 1;
      }
      assert names[..i] == names;
    }

    method GroupList() returns (r: Result<seq<Group>, StoreError>)
      ensures r == ListGroups(root, disk)
    {
      var files := DirNames("groups");
      if files.Err? {
        return Err(files.error);
      }
      var groups := ReadGroups(files.value);
      return Ok(groups);
    }

    /** The put profile is what the next get of its id sees, unless it has no id; other files are kept. */
    method ProfilePut(p: Profile) returns (e: Option<StoreError>)
      modifies this
      ensures (disk, e) == PutProfile(root, old(disk), p)
      ensures e.None? ==> ReadsAs(GetProfile(root, disk, p.id), if p.id == "" then None else Some(p))
      ensures e.Some? ==> disk == old(disk)
      ensures OthersRead(root, old(disk), disk, ProfileName(p.id))
      ensures PlainId(p.id) && Layout(root, old(disk)) ==> e.None?
      ensures PlainId(p.id) && e.None? ==> ListProfiles(root, disk).Ok?
      ensures PlainId(p.id) && e.None? && p.id != "" ==> p in ListProfiles(root, disk).value
    {
      if PlainId(p.id) {
        ProfilePutThenList(root, disk, p);
      }
      hide WriteFile, ReadFile, JoinPath, Layout, OthersRead, PlainId, Plain, GetProfile, WriteProfile, WriteEffect,
        Sanitize, Resolve, ListProfiles;
      ProfilePutThenGet(root, disk, p);
      var data := WriteProfile(p);
      if PlainId(p.id) && Layout(root, disk) {
        PlainIdFile(p.id);
        PlainWrites(root, disk, "profiles", p.id + ".json", data);
      }
      e := WriteBytes(JoinPath("profiles", p.id + ".json"), data);
    }

    /** The profile of the id's own file, if there is one, it parses and it has an id. */
    method ProfileGet(id: string) returns (r: Result<Profile, StoreError>)
      ensures r == GetProfile(root, disk, id)
      ensures r.Ok? ==> r.value.id != ""
      ensures PlainId(id) ==> var place := At(root, "profiles", id + ".json");
                              if place in disk.files then ReadsAs(r, ParseProfile(disk.files[place]))
                              else r == Err(NoSuchFile)
    {
      hide ReadFile, JoinPath, DecodeProfile, At, PlainId, Plain;
      if PlainId(id) {
        PlainIdFile(id);
        ReadAt(root, disk, "profiles", id + ".json");
      }
      var data := ReadBytes(JoinPath("profiles", id + ".json"));
      if data.Err? {
        return Err(data.error);
      }
      var profile := DecodeProfile(data.value);
      if profile.None? || profile.value.id == "" {
        return Err(BadDocument);
      }
      return Ok(profile.value);
    }

    method ProfileEntry(name: string) returns (part: seq<Profile>)
      ensures part == ProfileOf(root, disk)(name)
    {
      hide GetProfile, PlainId, At, ParseProfile, Stem;
      var profile := ProfileGet(Stem(name));
      part := if profile.Ok? then [profile.value] else [];
    }

    method ReadProfiles(names: seq<string>) returns (profiles: seq<Profile>)
      ensures profiles == FlatMap(ProfileOf(root, disk), names)
    {
      hide ProfileOf;
      profiles := [];
      var i := 0;
      ghost var entry := ProfileOf(root, disk);
      while i < |names|
        invariant 0 <= i <= |names|
        invariant profiles == FlatMap(entry, names[..i])
      {
        var part := ProfileEntry(names[i]);
        FlatMapNext(entry, names, i);
        profiles := profiles + part;
        i := i + 1;
      }
      assert names[..i] == names;
    }

    method ProfileList() returns (r: Result<seq<Profile>, StoreError>)
      ensures r == ListProfiles(root, disk)
    {
      var files := DirNames("profiles");
      if files.Err? {
        return Err(files.error);
      }
      var profiles := ReadProfiles(files.value);
      return Ok(profiles);
    }

    /** The put template is what the next get of its name sees; other files are kept. */
    method IgnitionPut(name: string, config: Bytes) returns (e: Option<StoreError>)
      modifies this
      ensures (disk, e) == PutTemplate(root, old(disk), "ignition", name, config)
      ensures if e.None? then GetTemplate(root, disk, "ignition", name) == Ok(config) else disk == old(disk)
      ensures OthersRead(root, old(disk), disk, JoinPath("ignition", name))
      ensures Plain(name) && Layout(root, old(disk)) ==> e.None?
    {
      hide WriteFile, ReadFile, JoinPath, Layout, OthersRead, Plain, WriteEffect, Sanitize, Resolve;
      if Plain(name) && Layout(root, disk) {
        PlainWrites(root, disk, "ignition", name, config);
      }
      e := WriteBytes(JoinPath("ignition", name), config);
    }

    /** The bytes of the name's own file. */
    method IgnitionGet(name: string) returns (r: Result<Bytes, StoreError>)
      ensures r == GetTemplate(root, disk, "ignition", name)
      ensures Plain(name) ==> var place := At(root, "ignition", name);
                              r == if place in disk.files then Ok(disk.files[place]) else Err(NoSuchFile)
    {
      hide ReadFile, JoinPath, At, Plain;
      if Plain(name) {
        ReadAt(root, disk, "ignition", name);
      }
      r := ReadBytes(JoinPath("ignition", name));
    }

    method CloudPut(name: string, config: Bytes) returns (e: Option<StoreError>)
      modifies this
      ensures (disk, e) == PutTemplate(root, old(disk), "cloud", name, config)
      ensures if e.None? then GetTemplate(root, disk, "cloud", name) == Ok(config) else disk == old(disk)
      ensures OthersRead(root, old(disk), disk, JoinPath("cloud", name))
      ensures Plain(name) && Layout(root, old(disk)) ==> e.None?
    {
      hide WriteFile, ReadFile, JoinPath, Layout, OthersRead, Plain, WriteEffect, Sanitize, Resolve;
      if Plain(name) && Layout(root, disk) {
        PlainWrites(root, disk, "cloud", name, config);
      }
      e := WriteBytes(JoinPath("cloud", name), config);
    }

    method CloudGet(name: string) returns (r: Result<Bytes, StoreError>)
      ensures r == GetTemplate(root, disk, "cloud", name)
      ensures Plain(name) ==> var place := At(root, "cloud", name);
                              r == if place in disk.files then Ok(disk.files[place]) else Err(NoSuchFile)
    {
      hide ReadFile, JoinPath, At, Plain;
      if Plain(name) {
        ReadAt(root, disk, "cloud", name);
      }
      r := ReadBytes(JoinPath("cloud", name));
    }

    method GenericGet(name: string) returns (r: Result<Bytes, StoreError>)
      ensures r == GetTemplate(root, disk, "generic", name)
      ensures Plain(name) ==> var place := At(root, "generic", name);
                              r == if place in disk.files then Ok(disk.files[place]) else Err(NoSuchFile)
    {
      hide ReadFile, JoinPath, At, Plain;
      if Plain(name) {
        ReadAt(root, disk, "generic", name);
      }
      r := ReadBytes(JoinPath("generic", name));
    }
  }
}

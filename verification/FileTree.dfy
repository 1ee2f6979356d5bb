/** The directory tree under the data directory, and where the store's documents lie in it. */
module FileTrees {
  import opened Results
  import opened Documents
  import opened Paths
  import opened Stores
  import SortedKeys
  import Text

  // ---------- the file tree ----------

  datatype Disk = Disk(files: map<Path, Bytes>, dirs: set<Path>)

  function Ancestor(p: Path, n: nat): Path
    requires n <= |p.comps|
  {
    Path(p.rooted, p.comps[..n])
  }

  function Ancestors(p: Path): set<Path> {
    set n | 0 <= n < |p.comps| :: Ancestor(p, n)
  }

  predicate Writable(d: Disk, p: Path) {
    p.comps != [] && p !in d.dirs && forall a :: a in Ancestors(p) ==> a !in d.files
  }

  function ReadFile(d: Disk, root: string, name: string): Result<Bytes, StoreError> {
    match Sanitize(root, name)
    case Err(_) => Err(InvalidPath)
    case Ok(path) => if Resolve(path) in d.files then Ok(d.files[Resolve(path)]) else Err(NoSuchFile)
  }

  /** `MkdirAll` on the parent, then the file is replaced. */
  function WriteFile(d: Disk, root: string, name: string, data: Bytes): (Disk, Option<StoreError>) {
    match Sanitize(root, name)
    case Err(_) => (d, Some(InvalidPath))
    case Ok(path) =>
      var p := Resolve(path);
      if Writable(d, p) then (Disk(d.files[p := data], d.dirs + Ancestors(p)), None) else (d, Some(NotWritable))
  }

  /** What was written under a name is read under it; a failed write changes nothing. */
  lemma WriteThenRead(root: string, d: Disk, name: string, data: Bytes)
    ensures var (d', e) := WriteFile(d, root, name, data);
            if e.None? then ReadFile(d', root, name) == Ok(data) else d' == d
  {
    hide Sanitize, Resolve;
  }

  /**
   Writing a place: it fails exactly when the place is a directory or one of the directories above it
   is a file; otherwise all of these exist afterwards, the file is replaced, and nothing else changes.
   */
  ghost predicate WriteEffect(d: Disk, d': Disk, e: Option<StoreError>, place: Path, data: Bytes) {
    && (e.None? <==>
        && place.comps != [] && place !in d.dirs
        && forall n :: 0 <= n < |place.comps| ==> Path(place.rooted, place.comps[..n]) !in d.files)
    && (e.None? ==>
          && d'.files == d.files[place := data]
          && d.dirs <= d'.dirs
          && (forall n :: 0 <= n < |place.comps| ==> Path(place.rooted, place.comps[..n]) in d'.dirs)
          && (forall p :: p in d'.dirs && p !in d.dirs ==>
                            p.rooted == place.rooted && p.comps < place.comps))
    && (e.Some? ==> e == Some(NotWritable) && d' == d)
  }

  lemma WriteExact(root: string, d: Disk, name: string, data: Bytes)
    ensures var (d', e) := WriteFile(d, root, name, data);
            match Sanitize(root, name)
            case Err(_) => e == Some(InvalidPath) && d' == d
            case Ok(path) => WriteEffect(d, d', e, Resolve(path), data)
  {
    hide Sanitize, Resolve;
    match Sanitize(root, name) {
      case Err(_) =>
      case Ok(path) =>
        var p := Resolve(path);
        forall n | 0 <= n < |p.comps| ensures Path(p.rooted, p.comps[..n]) in Ancestors(p) {
          assert Ancestor(p, n) in Ancestors(p);
        }
    }
  }

  /** Two names of one file. */
  predicate SameFile(root: string, name: string, other: string) {
    Sanitize(root, name).Ok? && Sanitize(root, other).Ok? &&
    Resolve(Sanitize(root, name).value) == Resolve(Sanitize(root, other).value)
  }

  /** A write is seen under the names of its file only. */
  lemma WriteKeepsOthers(root: string, d: Disk, name: string, data: Bytes, other: string)
    requires !SameFile(root, name, other)
    ensures ReadFile(WriteFile(d, root, name, data).0, root, other) == ReadFile(d, root, other)
  {
    hide Sanitize, Resolve;
  }

  function Child(dir: Path, name: string): Path {
    Path(dir.rooted, dir.comps + [name])
  }

  function Last(p: Path): string {
    if p.comps == [] then "" else p.comps[|p.comps| - 1]
  }

  function Entries(d: Disk, dir: Path): set<string> {
    set p | p in d.files.Keys + d.dirs && p == Child(dir, Last(p)) :: Last(p)
  }

  lemma EntriesExact(d: Disk, dir: Path, name: string)
    ensures name in Entries(d, dir) <==> Child(dir, name) in d.files || Child(dir, name) in d.dirs
  {
    var p := Child(dir, name);
    assert Last(p) == name;
    if name in Entries(d, dir) {
      var q :| q in d.files.Keys + d.dirs && q == Child(dir, Last(q)) && Last(q) == name;
    }
  }

  ghost function ReadDir(d: Disk, root: string, name: string): Result<seq<string>, StoreError> {
    match Sanitize(root, name)
    case Err(_) => Err(InvalidPath)
    case Ok(path) =>
      if Resolve(path) in d.dirs then Ok(SortedKeys.Sorted(Entries(d, Resolve(path)))) else Err(NotADirectory)
  }

  const COLLECTIONS: set<string> := {"groups", "profiles", "ignition", "cloud", "generic"}

  function At(root: string, collection: string, name: string): Path {
    Below(root, [collection, name])
  }

  function DirAt(root: string, collection: string): Path {
    Below(root, [collection])
  }

  /** An id that names a document of its own: the file name is the id with ".json" added. */
  predicate PlainId(id: string) {
    '/' !in id && NUL !in id
  }

  lemma PlainIdFile(id: string)
    ensures Plain(id + ".json") <==> PlainId(id)
  {
    var name := id + ".json";
    assert |name| >= 5;
    assert name[..|id|] == id;
    forall c | c == '/' || c == NUL ensures c in name <==> c in id {
      assert c !in ".json";
    }
  }

  lemma CollectionsPlain(collection: string)
    requires collection in COLLECTIONS
    ensures Plain(collection)
  {
  }

  // ---------- where the files are ----------

  /** The place of a name in a collection, by the directory that the store was given. */
  lemma AtExact(root: string, collection: string, name: string, base: Path)
    requires IsBase(base, root)
    ensures At(root, collection, name) == Path(base.rooted, base.comps + [collection, name])
    ensures DirAt(root, collection) == Path(base.rooted, base.comps + [collection])
  {
  }

  /** The names of a directory, each once and from the least to the greatest; an error if it is none. */
  lemma ReadDirExact(root: string, d: Disk, name: string)
    ensures var r := ReadDir(d, root, name);
            match Sanitize(root, name)
            case Err(_) => r == Err(InvalidPath)
            case Ok(path) =>
              var p := Resolve(path);
              && (r.Ok? <==> p in d.dirs)
              && (r.Err? ==> r == Err(NotADirectory))
              && (r.Ok? ==>
                    && (forall i, j :: 0 <= i < j < |r.value| ==> Text.Less(r.value[i], r.value[j]))
                    && forall n :: n in r.value <==>
                                   Path(p.rooted, p.comps + [n]) in d.files || Path(p.rooted, p.comps + [n]) in d.dirs)
  {
    hide Sanitize, Resolve, Text.Less, Entries;
    match Sanitize(root, name) {
      case Err(_) =>
      case Ok(path) =>
        var p := Resolve(path);
        if p in d.dirs {
          var names := ReadDir(d, root, name).value;
          SortedKeys.SortedAscends(Entries(d, p));
          forall n
            ensures n in names <==>
                    Path(p.rooted, p.comps + [n]) in d.files || Path(p.rooted, p.comps + [n]) in d.dirs
          {
            EntriesExact(d, p, n);
          }
        }
    }
  }

  /** The collection directories exist, hold no directories, and no file is in their way. */
  ghost predicate Layout(root: string, d: Disk) {
    && (forall c :: c in COLLECTIONS ==> DirAt(root, c) in d.dirs)
    && (forall c, name :: c in COLLECTIONS ==> At(root, c, name) !in d.dirs)
    && (forall c, n :: c in COLLECTIONS && 0 <= n <= |DirAt(root, c).comps| ==> Ancestor(DirAt(root, c), n) !in d.files)
  }

  lemma AtInjective(root: string, c: string, name: string, c': string, name': string)
    ensures At(root, c, name) == At(root, c', name') ==> c == c' && name == name'
  {
    BelowInjective(root, [c, name], [c', name']);
    assert [c, name][0] == c && [c, name][1] == name;
    assert [c', name'][0] == c' && [c', name'][1] == name';
  }

  lemma AtShape(root: string, c: string, name: string)
    ensures |At(root, c, name).comps| == |DirAt(root, c).comps| + 1 == |Resolve(Root(root)).comps| + 2
    ensures Child(DirAt(root, c), name) == At(root, c, name)
    ensures Ancestor(At(root, c, name), |DirAt(root, c).comps|) == DirAt(root, c)
    ensures forall n :: 0 <= n <= |DirAt(root, c).comps| ==>
                          Ancestor(At(root, c, name), n) == Ancestor(DirAt(root, c), n)
  {
    assert At(root, c, name).comps == DirAt(root, c).comps + [name];
  }

  lemma SanitizedFile(root: string, c: string, name: string)
    requires c in COLLECTIONS && Plain(name)
    ensures Sanitize(root, JoinPath(c, name)).Ok?
    ensures Resolve(Sanitize(root, JoinPath(c, name)).value) == At(root, c, name)
  {
    CollectionsPlain(c);
    FileInCollection(root, c, name);
  }

  lemma SanitizedDir(root: string, c: string)
    requires c in COLLECTIONS
    ensures Sanitize(root, c).Ok? && Resolve(Sanitize(root, c).value) == DirAt(root, c)
  {
    CollectionsPlain(c);
    PlainAlone(c);
    hide Reach, Resolve, Below;
    SanitizeConfines(root, c);
    ResolveRender(Below(root, [c]));
  }

  lemma PlainAlone(c: string)
    requires Plain(c)
    ensures Reach([], c) == [c] && NUL !in c
  {
    Text.SplitPiece(c, '/');
    assert Push(true, [], c) == [c] && [c][1..] == [];
    assert Walk(true, [], [c]) == [c];
  }

  lemma ReadAt(root: string, d: Disk, c: string, name: string)
    requires c in COLLECTIONS && Plain(name)
    ensures ReadFile(d, root, JoinPath(c, name))
            == if At(root, c, name) in d.files then Ok(d.files[At(root, c, name)]) else Err(NoSuchFile)
  {
    SanitizedFile(root, c, name);
    hide Sanitize, JoinPath, Resolve, At;
  }

  /** The tree after writing one document. */
  function Written(root: string, d: Disk, c: string, name: string, data: Bytes): Disk {
    Disk(d.files[At(root, c, name) := data], d.dirs + Ancestors(At(root, c, name)))
  }

  lemma WriteAt(root: string, d: Disk, c: string, name: string, data: Bytes)
    requires c in COLLECTIONS && Plain(name) && Layout(root, d)
    ensures WriteFile(d, root, JoinPath(c, name), data) == (Written(root, d, c, name, data), None)
    ensures Layout(root, Written(root, d, c, name, data))
  {
    SanitizedFile(root, c, name);
    AtShape(root, c, name);
    hide Sanitize, JoinPath, Resolve, At, DirAt;
    var p := At(root, c, name);
    assert Writable(d, p) by {
      forall a | a in Ancestors(p) ensures a !in d.files {
        var n :| 0 <= n < |p.comps| && a == Ancestor(p, n);
        assert a == Ancestor(DirAt(root, c), n);
      }
    }
    WrittenLayout(root, d, c, name, data);
  }

  lemma WrittenLayout(root: string, d: Disk, c: string, name: string, data: Bytes)
    requires c in COLLECTIONS && Layout(root, d)
    ensures Layout(root, Written(root, d, c, name, data))
  {
    var d' := Written(root, d, c, name, data);
    AtShape(root, c, name);
    hide At, DirAt;
    forall e, n | e in COLLECTIONS ensures At(root, e, n) !in d'.dirs {
      AtShape(root, e, n);
    }
    forall e, n | e in COLLECTIONS && 0 <= n <= |DirAt(root, e).comps|
      ensures Ancestor(DirAt(root, e), n) !in d'.files
    {
      AtShape(root, e, "");
    }
  }

  lemma ReadWritten(root: string, d: Disk, c: string, name: string, data: Bytes)
    ensures forall e, n :: var files := Written(root, d, c, name, data).files;
              && (At(root, e, n) in files <==> (e == c && n == name) || At(root, e, n) in d.files)
              && (At(root, e, n) in files ==>
                    files[At(root, e, n)] == if e == c && n == name then data else d.files[At(root, e, n)])
  {
    forall e, n ensures At(root, e, n) == At(root, c, name) ==> e == c && n == name {
      AtInjective(root, e, n, c, name);
    }
    hide At;
  }
}

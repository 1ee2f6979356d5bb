/**
 Puts and lists in steps against the file store's own operations: a put takes effect when it ends,
 and a list call that no put overlaps returns what the file store lists.
 */
module QuietListing {
  import opened Results
  import opened Paths
  import opened Groups
  import opened Formats
  import opened Enumerations
  import opened Stores
  import opened FileTrees
  import opened FileStores
  import opened ConcurrentListing
  import SortedKeys

  // ---------- a put takes effect when it ends ----------

  /** `file` holds in `s` what it holds in the groups directory of `d`. */
  ghost predicate SameContents(s: Sys, root: string, d: Disk, file: string) {
    var place := At(root, "groups", file);
    (file in s.files <==> place in d.files) && (file in s.files ==> s.files[file] == d.files[place])
  }

  /** Every file that is not being written holds what `d` says. */
  ghost predicate Mirrors(s: Sys, root: string, d: Disk) {
    Layout(root, d) && forall file :: file !in s.writers ==> SameContents(s, root, d, file)
  }

  /** A step that ends a put writes the whole file on the tree; no other step changes the tree. */
  ghost function TreeAfter(s: Sys, t: Sys, root: string, d: Disk): Disk {
    if exists file :: EndPut(s, t, file) then
      var file :| EndPut(s, t, file);
      WriteFile(d, root, JoinPath("groups", file), s.writers[file]).0
    else d
  }

  /** The tree in which the puts that ended by state `n` were done at once, in that order. */
  ghost function TreeAt(run: seq<Sys>, root: string, d: Disk, n: nat): Disk
    requires n < |run|
  {
    if n == 0 then d else TreeAfter(run[n - 1], run[n], root, TreeAt(run, root, d, n - 1))
  }

  lemma EndPutUnique(s: Sys, t: Sys, f: string, g: string)
    requires EndPut(s, t, f) && g in s.writers && g !in t.writers
    ensures f == g
  {
  }

  lemma EndedPut(s: Sys, t: Sys, root: string, d: Disk, file: string)
    requires EndPut(s, t, file)
    ensures TreeAfter(s, t, root, d) == WriteFile(d, root, JoinPath("groups", file), s.writers[file]).0
  {
    hide WriteFile, JoinPath;
    var f :| EndPut(s, t, f) && TreeAfter(s, t, root, d) == WriteFile(d, root, JoinPath("groups", f), s.writers[f]).0;
    EndPutUnique(s, t, f, file);
  }

  /** The end of a put of a group's document is `PutGroup` on the tree. */
  lemma EndedGroupPut(s: Sys, t: Sys, root: string, d: Disk, g: Group)
    requires EndPut(s, t, g.id + ".json") && WriteGroup(g) == Some(s.writers[g.id + ".json"])
    ensures TreeAfter(s, t, root, d) == PutGroup(root, d, g).0
  {
    hide WriteFile, JoinPath, WriteGroup, EndPut, TreeAfter;
    EndedPut(s, t, root, d, g.id + ".json");
  }

  lemma EndedPutMirrors(s: Sys, t: Sys, root: string, d: Disk, file: string)
    requires EndPut(s, t, file) && Plain(file) && Mirrors(s, root, d)
    ensures Mirrors(t, root, TreeAfter(s, t, root, d))
  {
    hide WriteFile, JoinPath, Layout, At, Plain, TreeAfter, Written;
    EndedPut(s, t, root, d, file);
    EndedDocument(s, t, file);
    hide EndPut;
    WriteAt(root, d, "groups", file, s.writers[file]);
    ReadWritten(root, d, "groups", file, s.writers[file]);
    forall f | f !in t.writers ensures SameContents(t, root, Written(root, d, "groups", file, s.writers[file]), f) {
      if f != file {
        assert SameContents(s, root, d, f);
      }
    }
  }

  lemma NoPutEnds(s: Sys, t: Sys, root: string, d: Disk)
    requires forall file :: file in s.writers ==> file in t.writers
    ensures TreeAfter(s, t, root, d) == d
  {
    forall file ensures !EndPut(s, t, file) {
    }
  }

  lemma StepMirrors(s: Sys, t: Sys, root: string, d: Disk)
    requires Next(s, t) && Mirrors(s, root, d)
    requires forall file :: file in s.writers ==> Plain(file)
    ensures Mirrors(t, root, TreeAfter(s, t, root, d))
  {
    hide Layout, At, Plain, TreeAfter;
    if file :| EndPut(s, t, file) {
      EndedPutMirrors(s, t, root, d, file);
    } else {
      NoPutEnds(s, t, root, d);
      forall f | f !in t.writers ensures SameContents(t, root, d, f) {
        assert SameContents(s, root, d, f);
      }
    }
  }

  /**
   However puts interleave, every file that is not being written holds what the store holds after the
   puts that have ended, done one at a time in the order in which they ended.
   */
  lemma {:induction false} PutsTakeEffectAtTheirEnd(run: seq<Sys>, root: string, d: Disk, n: nat)
    requires n < |run| && Mirrors(run[0], root, d)
    requires forall i :: 0 <= i < |run| - 1 ==> Next(run[i], run[i + 1])
    requires forall i, file :: 0 <= i < |run| && file in run[i].writers ==> Plain(file)
    ensures Mirrors(run[n], root, TreeAt(run, root, d, n))
  {
    hide Mirrors, Next, TreeAfter, Plain;
    if n > 0 {
      PutsTakeEffectAtTheirEnd(run, root, d, n - 1);
      assert Next(run[n - 1], run[n - 1 + 1]);
      StepMirrors(run[n - 1], run[n], root, TreeAt(run, root, d, n - 1));
    }
  }

  // ---------- a list call that no put overlaps ----------

  /** No put is under way, and only the list call makes steps. */
  ghost predicate Quiet(run: seq<Sys>) {
    && (forall i :: 0 <= i < |run| ==> run[i].writers == map[])
    && forall i :: 0 <= i < |run| - 1 ==> ReadNext(run[i], run[i + 1])
  }

  lemma StemPlain(name: string)
    requires PlainId(name)
    ensures Plain(FileOf(name))
  {
    assert PlainId(Stem(name));
    PlainIdFile(Stem(name));
  }

  lemma ReadFileAlike(s: Sys, root: string, d: Disk, file: string)
    requires s.writers == map[] && Mirrors(s, root, d) && Plain(file)
    ensures ReadFile(d, root, JoinPath("groups", file)) ==
            if file in s.files then Ok(s.files[file]) else Err(NoSuchFile)
  {
    hide ReadFile, JoinPath, At, Plain, Layout;
    assert SameContents(s, root, d, file);
    ReadAt(root, d, "groups", file);
  }

  /** Reading a name in steps finds what the store finds for it. */
  lemma ReadAlike(s: Sys, root: string, d: Disk, name: string)
    requires s.writers == map[] && Mirrors(s, root, d) && PlainId(name)
    ensures GroupOf(root, d)(name) ==
            if Contents(s, FileOf(name)).Some? then [Contents(s, FileOf(name)).value] else []
  {
    hide ReadFile, JoinPath, ParseGroup, Plain, PlainId, Mirrors, Stem, GroupOf;
    StemPlain(name);
    GroupOfName(root, d, name);
    var id := Stem(name);
    assert FileOf(name) == id + ".json";
    ReadFileAlike(s, root, d, id + ".json");
  }

  /** The list call has read the first names, and found what the store finds for them. */
  ghost predicate HasRead(r: Reader, names: seq<string>, root: string, d: Disk) {
    r.names == names && r.next <= |names| && GroupsOf(r.got) == FlatMap(GroupOf(root, d), names[..r.next])
  }

  lemma ReadNextAlike(s: Sys, t: Sys, names: seq<string>, root: string, d: Disk)
    requires ReadNext(s, t) && HasRead(s.reader, names, root, d)
    requires s.writers == map[] && Mirrors(s, root, d) && forall name :: name in names ==> PlainId(name)
    ensures t.files == s.files && HasRead(t.reader, names, root, d)
  {
    hide GroupOf, Contents, Mirrors, PlainId, FileOf, FlatMap;
    var name := names[s.reader.next];
    assert name in names;
    ReadAlike(s, root, d, name);
    FlatMapNext(GroupOf(root, d), names, s.reader.next);
    assert GroupsOf(t.reader.got) == GroupsOf(s.reader.got) + GroupOf(root, d)(name);
  }

  lemma {:induction false} QuietUpTo(run: seq<Sys>, names: seq<string>, root: string, d: Disk, n: nat)
    requires Quiet(run) && n < |run| && Mirrors(run[0], root, d) && HasRead(run[0].reader, names, root, d)
    requires forall name :: name in names ==> PlainId(name)
    ensures run[n].files == run[0].files && HasRead(run[n].reader, names, root, d)
  {
    hide HasRead, Layout, SameContents, PlainId, ReadNext;
    if n > 0 {
      QuietUpTo(run, names, root, d, n - 1);
      assert ReadNext(run[n - 1], run[n - 1 + 1]);
      SameMirror(run[0], run[n - 1], root, d);
      ReadNextAlike(run[n - 1], run[n], names, root, d);
    }
  }

  lemma SameMirror(s: Sys, t: Sys, root: string, d: Disk)
    requires Mirrors(s, root, d) && t.files == s.files && t.writers == s.writers
    ensures Mirrors(t, root, d)
  {
    hide Layout, At;
    forall file | file !in t.writers ensures SameContents(t, root, d, file) {
      assert SameContents(s, root, d, file);
    }
  }

  lemma EntriesMirrored(s: Sys, root: string, d: Disk)
    requires s.writers == map[] && Mirrors(s, root, d)
    ensures ReadDir(d, root, "groups") == Ok(SortedKeys.Sorted(s.files.Keys))
  {
    SanitizedDir(root, "groups");
    hide Sanitize, Resolve, Entries, At, DirAt;
    forall name ensures name in Entries(d, DirAt(root, "groups")) <==> name in s.files {
      EntriesExact(d, DirAt(root, "groups"), name);
      AtShape(root, "groups", name);
      assert SameContents(s, root, d, name);
    }
    assert Entries(d, DirAt(root, "groups")) == s.files.Keys;
  }

  lemma QuietStart(run: seq<Sys>)
    requires ListRun(run) && Quiet(run)
    ensures |run| > 0 && Lists(run[0].reader.names, run[0].files.Keys) && run[0].writers == map[]
  {
    hide Next, ReadNext, Lists;
  }

  lemma SortedPermutes(names: seq<string>, keys: set<string>, f: string -> seq<Group>)
    requires Lists(names, keys)
    ensures multiset(FlatMap(f, names)) == multiset(FlatMap(f, SortedKeys.Sorted(keys)))
  {
    hide SortedKeys.Sorted, FlatMap;
    SortedKeys.SortedAnyOrder(names, keys);
    ListsPermute(names, SortedKeys.Sorted(keys), keys);
    FlatMapPermute(f, names, SortedKeys.Sorted(keys));
  }

  lemma GroupsListedHere(s: Sys, root: string, d: Disk)
    requires s.writers == map[] && Mirrors(s, root, d)
    ensures ReadDir(d, root, "groups") == Ok(SortedKeys.Sorted(s.files.Keys))
    ensures ListGroups(root, d) == Ok(FlatMap(GroupOf(root, d), SortedKeys.Sorted(s.files.Keys)))
  {
    hide GroupOf, ReadDir, Mirrors, FlatMap, SortedKeys.Sorted;
    EntriesMirrored(s, root, d);
  }

  lemma QuietRead(run: seq<Sys>, root: string, d: Disk)
    requires ListRun(run) && Quiet(run) && Mirrors(run[0], root, d)
    requires forall name :: name in run[0].files ==> PlainId(name)
    ensures Listed(run) == FlatMap(GroupOf(root, d), run[0].reader.names)
  {
    hide GroupOf, Mirrors, Quiet, PlainId, Next;
    var names := run[0].reader.names;
    assert HasRead(run[0].reader, names, root, d);
    QuietUpTo(run, names, root, d, |run| - 1);
    assert names[..|names|] == names;
  }

  /** Undisturbed by puts, a list call returns what `GroupList` returns, in its order if the names are sorted. */
  lemma QuietListed(run: seq<Sys>, root: string, d: Disk)
    requires ListRun(run) && Quiet(run) && Mirrors(run[0], root, d)
    requires forall name :: name in run[0].files ==> PlainId(name)
    ensures ListGroups(root, d).Ok?
    ensures multiset(Listed(run)) == multiset(ListGroups(root, d).value)
    ensures Ok(run[0].reader.names) == ReadDir(d, root, "groups") ==> Listed(run) == ListGroups(root, d).value
  {
    hide GroupOf, Mirrors, Quiet, ReadDir, PlainId, ListRun, Lists, Listed, FlatMap, ListGroups, SortedKeys.Sorted;
    QuietStart(run);
    QuietRead(run, root, d);
    GroupsListedHere(run[0], root, d);
    SortedPermutes(run[0].reader.names, run[0].files.Keys, GroupOf(root, d));
  }
}

/**
 Listing groups while puts are under way: a put truncates its file and then writes it, a list reads
 the directory once and then one whole file after another. A file whose put is unfinished holds the
 beginning of its document's text.
 */
module ConcurrentListing {
  import opened Results
  import opened Documents
  import opened JsonText
  import opened Paths
  import opened Groups
  import opened Formats
  import opened Enumerations
  import opened Selection

  /** One group in the list being built, with the file it was read from. */
  datatype Entry = Entry(file: string, group: Group)

  /** A `GroupList` call: the names it read from the directory, and how far it has come. */
  datatype Reader = Reader(names: seq<string>, next: nat, got: seq<Entry>)

  /** The groups directory, the puts under way with the documents they write, and one list call. */
  datatype Sys = Sys(files: map<string, Bytes>, writers: map<string, Bytes>, reader: Reader)

  /** The file `GroupGet` opens for a directory entry. */
  function FileOf(name: string): string {
    Stem(name) + ".json"
  }

  function Contents(s: Sys, file: string): Option<Group> {
    if file in s.files then ParseGroup(s.files[file]) else None
  }

  // ---------- steps ----------

  /** A put opens its file, which truncates it; no other put may be writing the same file. */
  ghost predicate BeginPut(s: Sys, t: Sys, file: string, data: Bytes) {
    && file !in s.writers
    && t == Sys(s.files[file := Seen([])], s.writers[file := data], s.reader)
  }

  /** Some of the document's text has reached the file. */
  ghost predicate WritePart(s: Sys, t: Sys, file: string, text: seq<Token>) {
    && file in s.writers
    && PartOf(text, s.writers[file])
    && t == s.(files := s.files[file := Seen(text)])
  }

  /** The last of the text has reached the file. */
  ghost predicate EndPut(s: Sys, t: Sys, file: string) {
    && file in s.writers
    && exists text :: WholeOf(text, s.writers[file]) &&
                      t == Sys(s.files[file := Seen(text)], s.writers - {file}, s.reader)
  }

  /** Then the file holds the document. */
  lemma EndedDocument(s: Sys, t: Sys, file: string)
    requires EndPut(s, t, file)
    ensures t == Sys(s.files[file := s.writers[file]], s.writers - {file}, s.reader)
  {
    hide WholeOf, Seen;
    var text :| WholeOf(text, s.writers[file]) &&
                t == Sys(s.files[file := Seen(text)], s.writers - {file}, s.reader);
    WholeIsSeen(text, s.writers[file]);
  }

  /** The list call reads the file of its next name, and keeps the group if it parses. */
  ghost predicate ReadNext(s: Sys, t: Sys) {
    var r := s.reader;
    && r.next < |r.names|
    && var file := FileOf(r.names[r.next]);
       var part := if Contents(s, file).Some? then [Entry(file, Contents(s, file).value)] else [];
       t == s.(reader := Reader(r.names, r.next + 1, r.got + part))
  }

  ghost predicate Next(s: Sys, t: Sys) {
    || (exists file, data :: BeginPut(s, t, file, data))
    || (exists file, text :: WritePart(s, t, file, text))
    || (exists file :: EndPut(s, t, file))
    || ReadNext(s, t)
  }

  /** A whole list call, from `readDir` to its return, among any steps of any puts. */
  ghost predicate ListRun(run: seq<Sys>) {
    && |run| > 0
    && Lists(run[0].reader.names, run[0].files.Keys) && run[0].reader.next == 0 && run[0].reader.got == []
    && (forall i :: 0 <= i < |run| - 1 ==> Next(run[i], run[i + 1]))
    && run[|run| - 1].reader.next == |run[0].reader.names|
  }

  function GroupsOf(got: seq<Entry>): seq<Group> {
    seq(|got|, i requires 0 <= i < |got| => got[i].group)
  }

  /** What the list call returns. */
  ghost function Listed(run: seq<Sys>): seq<Group>
    requires |run| > 0
  {
    GroupsOf(run[|run| - 1].reader.got)
  }

  // ---------- every group returned is a version its file held ----------

  /** The file of `e` held the complete document of its group in one of the first `n` states. */
  ghost predicate Held(run: seq<Sys>, n: nat, e: Entry)
    requires n <= |run|
  {
    exists i :: 0 <= i < n && Contents(run[i], e.file) == Some(e.group)
  }

  lemma ReadOnlyByReader(s: Sys, t: Sys)
    requires Next(s, t)
    ensures t.reader == s.reader || ReadNext(s, t)
  {
  }

  lemma {:induction false} VersionsHeldUpTo(run: seq<Sys>, n: nat)
    requires |run| > 0 && n < |run| && run[0].reader.got == []
    requires forall i :: 0 <= i < |run| - 1 ==> Next(run[i], run[i + 1])
    ensures forall k :: 0 <= k < |run[n].reader.got| ==> Held(run, n + 1, run[n].reader.got[k])
  {
    hide ParseGroup;
    if n > 0 {
      VersionsHeldUpTo(run, n - 1);
      var s, t := run[n - 1], run[n];
      assert Next(run[n - 1], run[n - 1 + 1]);
      ReadOnlyByReader(s, t);
      forall k | 0 <= k < |t.reader.got| ensures Held(run, n + 1, t.reader.got[k]) {
        var e := t.reader.got[k];
        if k < |s.reader.got| {
          assert e == s.reader.got[k] && Held(run, n, s.reader.got[k]);
          var i :| 0 <= i < n && Contents(run[i], e.file) == Some(e.group);
          assert 0 <= i < n + 1;
        } else {
          assert Contents(run[n - 1], e.file) == Some(e.group);
        }
      }
    }
  }

  /** A document that parses as a group is a complete JSON text. */
  lemma ParsedIsComplete(s: Sys, file: string)
    requires Contents(s, file).Some?
    ensures file in s.files && s.files[file].Encoded?
  {
  }

  /** The document is the one the file held at the start, or one that a put wrote during the call. */
  ghost predicate Genuine(run: seq<Sys>, file: string, data: Bytes)
    requires |run| > 0
  {
    || (file in run[0].files && run[0].files[file] == data)
    || (exists j :: 0 <= j < |run| && file in run[j].writers && run[j].writers[file] == data)
  }

  lemma {:induction false} CompleteIsGenuine(run: seq<Sys>, n: nat, file: string)
    requires n < |run| && file in run[n].files && run[n].files[file].Encoded?
    requires forall i :: 0 <= i < |run| - 1 ==> Next(run[i], run[i + 1])
    ensures Genuine(run, file, run[n].files[file])
  {
    hide Next;
    if n > 0 {
      var s, t := run[n - 1], run[n - 1 + 1];
      CompleteAfterStep(s, t, file);
      if file in s.files && s.files[file] == t.files[file] {
        CompleteIsGenuine(run, n - 1, file);
      }
    }
  }

  lemma CompleteAfterStep(s: Sys, t: Sys, file: string)
    requires Next(s, t) && file in t.files && t.files[file].Encoded?
    ensures || (file in s.files && s.files[file] == t.files[file])
            || (file in s.writers && s.writers[file] == t.files[file])
  {
    hide PartOf, WholeOf, Seen, ParseGroup;
    NothingIsRaw();
    if f, text :| WritePart(s, t, f, text) {
      PartIsRaw(text, s.writers[f]);
    } else if f :| EndPut(s, t, f) {
      EndedDocument(s, t, f);
    }
  }

  /** The files being written hold no JSON. */
  ghost predicate WritersTorn(s: Sys) {
    forall file :: file in s.writers ==> file in s.files && s.files[file].Raw?
  }

  lemma StepKeepsTorn(s: Sys, t: Sys)
    requires Next(s, t) && WritersTorn(s)
    ensures WritersTorn(t)
  {
    hide PartOf, WholeOf, Seen, ParseGroup;
    NothingIsRaw();
    if f, text :| WritePart(s, t, f, text) {
      PartIsRaw(text, s.writers[f]);
    } else if f :| EndPut(s, t, f) {
      EndedDocument(s, t, f);
    }
  }

  /** From a moment at which no put is under way on, a file never parses while it is being written. */
  lemma WritingNeverParses(run: seq<Sys>, n: nat, file: string)
    requires n < |run| && run[0].writers == map[] && file in run[n].writers
    requires forall i :: 0 <= i < |run| - 1 ==> Next(run[i], run[i + 1])
    ensures WritersTorn(run[n]) && Contents(run[n], file).None?
  {
    hide Next;
    var k := 0;
    while k < n
      invariant 0 <= k <= n && WritersTorn(run[k])
    {
      assert Next(run[k], run[k + 1]);
      StepKeepsTorn(run[k], run[k + 1]);
      k := k + 1;
    }
  }

  /**
   Safety: a group of the list is a complete version of its file's document, which the file held at
   some moment of the call; it never mixes versions or comes from a torn file.
   */
  lemma ListedVersionsHeld(run: seq<Sys>, g: Group) returns (i: nat, file: string)
    requires ListRun(run) && g in Listed(run)
    ensures i < |run| && file in run[i].files && run[i].files[file].Encoded?
    ensures ParseGroup(run[i].files[file]) == Some(g) && Genuine(run, file, run[i].files[file])
  {
    hide ParseGroup, Next;
    VersionsHeldUpTo(run, |run| - 1);
    var got := run[|run| - 1].reader.got;
    var k :| 0 <= k < |got| && got[k].group == g;
    assert Held(run, |run|, got[k]);
    file := got[k].file;
    i :| 0 <= i < |run| && Contents(run[i], file) == Some(g);
    ParsedIsComplete(run[i], file);
    CompleteIsGenuine(run, i, file);
  }

  // ---------- every undisturbed group appears exactly once ----------

  /** `file` is never being written during the call. */
  ghost predicate Undisturbed(run: seq<Sys>, file: string) {
    forall i :: 0 <= i < |run| ==> file !in run[i].writers
  }

  lemma {:induction false} UndisturbedKept(run: seq<Sys>, file: string, n: nat)
    requires n < |run| && Undisturbed(run, file)
    requires forall i :: 0 <= i < |run| - 1 ==> Next(run[i], run[i + 1])
    ensures Contents(run[n], file) == Contents(run[0], file)
  {
    hide ParseGroup, Next;
    if n > 0 {
      UndisturbedKept(run, file, n - 1);
      StepKeeps(run[n - 1], run[n - 1 + 1], file);
    }
  }

  lemma StepKeeps(s: Sys, t: Sys, file: string)
    requires Next(s, t) && file !in s.writers && file !in t.writers
    ensures Contents(t, file) == Contents(s, file)
  {
    hide ParseGroup, PartOf, WholeOf, Seen;
    if f, data :| BeginPut(s, t, f, data) {
      assert f in t.writers;
    } else if f, text :| WritePart(s, t, f, text) {
    } else if f :| EndPut(s, t, f) {
    }
  }

  /** How many entries of `got` were read from `file`. */
  function Count(got: seq<Entry>, file: string): nat {
    if got == [] then 0 else Count(got[..|got| - 1], file) + if got[|got| - 1].file == file then 1 else 0
  }

  /** The directory was filled by puts only: every name is a document's. */
  ghost predicate PutOnly(names: seq<string>) {
    forall q :: 0 <= q < |names| ==> names[q] == FileOf(names[q])
  }

  lemma {:induction false} CountUpTo(run: seq<Sys>, n: nat, q: nat, g: Group)
    requires ListRun(run) && n < |run| && PutOnly(run[0].reader.names)
    requires q < |run[0].reader.names|
    requires Undisturbed(run, run[0].reader.names[q]) && Contents(run[0], run[0].reader.names[q]) == Some(g)
    ensures run[n].reader.names == run[0].reader.names
    ensures var file := run[0].reader.names[q];
            && Count(run[n].reader.got, file) == (if q < run[n].reader.next then 1 else 0)
            && forall k :: 0 <= k < |run[n].reader.got| && run[n].reader.got[k].file == file ==>
                             run[n].reader.got[k].group == g
  {
    hide ParseGroup, Stem, Ext;
    if n > 0 {
      CountUpTo(run, n - 1, q, g);
      var s, t, file := run[n - 1], run[n], run[0].reader.names[q];
      assert Next(run[n - 1], run[n - 1 + 1]);
      ReadOnlyByReader(s, t);
      if t.reader != s.reader {
        UndisturbedKept(run, file, n - 1);
        CountRead(s, t, q, g);
      }
    }
  }

  lemma CountRead(s: Sys, t: Sys, q: nat, g: Group)
    requires ReadNext(s, t) && PutOnly(s.reader.names) && q < |s.reader.names|
    requires forall i, j :: 0 <= i < j < |s.reader.names| ==> s.reader.names[i] != s.reader.names[j]
    requires var file := s.reader.names[q];
             && Contents(s, file) == Some(g)
             && Count(s.reader.got, file) == (if q < s.reader.next then 1 else 0)
             && forall k :: 0 <= k < |s.reader.got| && s.reader.got[k].file == file ==> s.reader.got[k].group == g
    ensures var file := s.reader.names[q];
            && Count(t.reader.got, file) == (if q < t.reader.next then 1 else 0)
            && forall k :: 0 <= k < |t.reader.got| && t.reader.got[k].file == file ==> t.reader.got[k].group == g
  {
    hide ParseGroup, FileOf;
    var name := s.reader.names[s.reader.next];
    assert name == FileOf(name);
    if Contents(s, name).Some? {
      assert t.reader.got[..|t.reader.got| - 1] == s.reader.got;
    } else {
      assert t.reader.got == s.reader.got;
    }
  }

  /**
   Completeness: a group that parses when the directory is read, in a directory filled by puts and
   not being written during the call, is in the list exactly once, in that version.
   */
  lemma UndisturbedListedOnce(run: seq<Sys>, file: string, g: Group)
    requires ListRun(run) && PutOnly(run[0].reader.names) && Undisturbed(run, file)
    requires Contents(run[0], file) == Some(g)
    ensures Count(run[|run| - 1].reader.got, file) == 1
    ensures Entry(file, g) in run[|run| - 1].reader.got && g in Listed(run)
  {
    assert file in run[0].files;
    assert file in run[0].reader.names;
    var q :| 0 <= q < |run[0].reader.names| && run[0].reader.names[q] == file;
    hide ParseGroup, Next, PutOnly;
    CountUpTo(run, |run| - 1, q, g);
    var got := run[|run| - 1].reader.got;
    Counted(got, file);
    var k :| 0 <= k < |got| && got[k].file == file;
    assert got[k] == Entry(file, g) && Listed(run)[k] == g;
  }

  lemma {:induction false} Counted(got: seq<Entry>, file: string)
    requires Count(got, file) > 0
    ensures exists k :: 0 <= k < |got| && got[k].file == file
  {
    var last := |got| - 1;
    if got[last].file != file {
      Counted(got[..last], file);
      var k :| 0 <= k < last && got[..last][k].file == file;
      assert got[k].file == file;
    }
  }

  /** So a matching group nobody is writing keeps its claim on the selection while other puts run. */
  lemma UndisturbedKeepsClaim(run: seq<Sys>, file: string, g: Group, labels: Labels, r: Result<Group, SelectError>)
    requires ListRun(run) && PutOnly(run[0].reader.names) && Undisturbed(run, file)
    requires Contents(run[0], file) == Some(g) && Matches(g.selector, labels)
    requires MaySelect(Listed(run), labels, r)
    ensures r.Ok? && !Less(r.value.selector, g.selector)
  {
    UndisturbedListedOnce(run, file, g);
  }

  /**
   Being undisturbed is needed: for every readable group there is a list call that finds nothing and
   leads to "no matching group", only because the group's file is being put again with the very same
   document.
   */
  lemma DisturbedMissed(g: Group, labels: Labels) returns (run: seq<Sys>)
    requires View(g).Some? && Matches(View(g).value.selector, labels)
    ensures ListRun(run) && PutOnly(run[0].reader.names)
    ensures forall file :: file in run[0].files <==> file == g.id + ".json"
    ensures forall s :: s in run ==>
                          s.writers == map[] || (g.id + ".json" in run[0].files &&
                                                 s.writers == map[g.id + ".json" := run[0].files[g.id + ".json"]])
    ensures Contents(run[0], g.id + ".json") == View(g) == Contents(run[|run| - 1], g.id + ".json")
    ensures Listed(run) == [] && MaySelect(Listed(run), labels, Err(NoMatchingGroup))
  {
    hide MaySelect, View, ParseGroup, WriteGroup, FileOf, Matches, ListRun, PutOnly, Listed;
    GroupRoundTrip(g);
    ViewNeedsWrite(g);
    NothingSelected(labels);
    OwnFile(g.id);
    run := RePut(g.id + ".json", WriteGroup(g).value);
  }

  /** While `data` is put again under a name, a list call of this one name reads the torn file. */
  lemma RePut(file: string, data: Bytes) returns (run: seq<Sys>)
    requires FileOf(file) == file && data.Encoded?
    ensures ListRun(run) && PutOnly(run[0].reader.names) && Listed(run) == []
    ensures run[0].files == run[|run| - 1].files == map[file := data]
    ensures forall s :: s in run ==> s.writers == map[] || s.writers == map[file := data]
  {
    hide FileOf, ParseGroup, Seen, WholeOf;
    var s0 := Sys(map[file := data], map[], Reader([file], 0, []));
    var s1 := Sys(map[file := Seen([])], map[file := data], Reader([file], 0, []));
    var s2 := Sys(map[file := Seen([])], map[file := data], Reader([file], 1, []));
    var s3 := Sys(map[file := data], map[], Reader([file], 1, []));
    assert BeginPut(s0, s1, file, data);
    assert ReadNext(s1, s2) by {
      NothingIsRaw();
      TornReadsNothing(s1, file);
    }
    assert EndPut(s2, s3, file) by {
      var text := WholeExists(data);
      WholeIsSeen(text, data);
      assert s2.files[file := data] == s3.files && s2.writers - {file} == map[];
    }
    run := [s0, s1, s2, s3];
    assert Next(s0, s1) && Next(s1, s2) && Next(s2, s3);
    hide Next;
    assert Lists([file], s0.files.Keys);
  }

  lemma OwnFile(id: string)
    ensures FileOf(id + ".json") == id + ".json"
  {
    hide Stem;
    StemOfJson(id);
  }

  lemma NothingSelected(labels: Labels)
    ensures MaySelect([], labels, Err(NoMatchingGroup))
  {
  }

  lemma TornReadsNothing(s: Sys, file: string)
    requires file in s.files && s.files[file].Raw?
    ensures Contents(s, file).None?
  {
  }
}

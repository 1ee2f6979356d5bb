/** The env file of the metadata endpoint: nested variables as upper-cased KEY=value lines. */
module EnvFile {
  import opened Results
  import opened Values
  import opened Enumerations
  import opened Variables
  import opened Formats
  import opened Groups
  import D = Documents
  import Text

  // ---------- reference: the leaf at a path ----------

  /** What `%v` prints for a string, bool or float64; nothing for other values. */
  function Shown(v: Value): Option<string> {
    match v
    case Str(s) => Some(s)
    case Bool(b) => Some(if b then "true" else "false")
    case Num(text) => Some(text)
    case _ => None
  }

  /** The text of the leaf that a path of keys leads to. */
  function LeafAt(v: Value, path: seq<string>): Option<string> {
    if path == [] then Shown(v)
    else match v
      case Obj(fields) => if path[0] in fields then LeafAt(fields[path[0]], path[1..]) else None
      case Labels(m) => if |path| == 1 && path[0] in m then Some(m[path[0]]) else None
      case _ => None
  }

  predicate IsLeaf(v: Value, path: seq<string>) {
    path != [] && LeafAt(v, path).Some?
  }

  /** The path's keys joined by underscores, behind a prefix. */
  function Name(prefix: string, path: seq<string>): string
    decreases |path|
  {
    if path == [] then prefix
    else if |path| == 1 then prefix + path[0]
    else Name(prefix + path[0] + "_", path[1..])
  }

  lemma {:induction false} NameJoins(prefix: string, path: seq<string>)
    requires path != []
    ensures Name(prefix, path) == prefix + Text.Join(path, '_')
    decreases |path|
  {
    if |path| > 1 {
      NameJoins(prefix + path[0] + "_", path[1..]);
    }
  }

  /** The line of one leaf, without its newline. */
  function LineOf(upper: CaseMap, prefix: string, v: Value, path: seq<string>): string {
    Fold(upper, Name(prefix, path)) + "=" + if LeafAt(v, path).Some? then LeafAt(v, path).value else ""
  }

  function Lines(upper: CaseMap, prefix: string, v: Value): seq<string> -> seq<string> {
    path => [LineOf(upper, prefix, v, path)]
  }

  /** `paths` lists every leaf below `v` once. */
  ghost predicate Covers(paths: seq<seq<string>>, v: Value) {
    && (forall i, j :: 0 <= i < j < |paths| ==> paths[i] != paths[j])
    && (forall p :: p in paths <==> IsLeaf(v, p))
  }

  /** A line: the path's keys joined by underscores behind the prefix, in upper case, an equals sign and the text. */
  lemma LineExact(upper: CaseMap, prefix: string, v: Value, path: seq<string>, name: string, text: string)
    requires IsLeaf(v, path) && LeafAt(v, path) == Some(text)
    requires var plain := prefix + Text.Join(path, '_');
             |name| == |plain| && forall i :: 0 <= i < |plain| ==> name[i] == upper(plain[i])
    ensures LineOf(upper, prefix, v, path) == name + "=" + text
  {
    NameJoins(prefix, path);
    assert Fold(upper, Name(prefix, path)) == name;
  }

  // ---------- the leaves of what is collected ----------

  /** The text of the string, bool or number that a path of keys leads to in a JSON value. */
  function JsonLeaf(j: D.Json, path: seq<string>): Option<string>
    decreases |path|
  {
    if path != [] then
      if j.Obj? && path[0] in j.fields then JsonLeaf(j.fields[path[0]], path[1..]) else None
    else if j == D.Bool(true) then Some("true")
    else if j == D.Bool(false) then Some("false")
    else if j.Num? then Some(j.text)
    else if j.Str? then Some(j.s)
    else None
  }

  lemma {:induction false} DecodedLeaf(j: D.Json, path: seq<string>)
    ensures LeafAt(Decoded(j), path) == JsonLeaf(j, path)
    decreases |path|
  {
    if path != [] && j.Obj? && path[0] in j.fields {
      DecodedLeaf(j.fields[path[0]], path[1..]);
    }
  }

  /** The text under a path below the reserved variable. */
  ghost predicate RequestLeaf(query: Query, rawQuery: string, path: seq<string>, leaf: Option<string>) {
    exists labels :: AreLabels(labels, query) &&
      leaf == if path == ["raw_query"] then Some(rawQuery)
              else if |path| == 2 && path[0] == "query" && path[1] in labels then Some(labels[path[1]])
              else None
  }

  lemma RequestLeaves(query: Query, rawQuery: string, path: seq<string>)
    ensures RequestLeaf(query, rawQuery, path, LeafAt(RequestVars(query, rawQuery), path))
  {
    hide AreLabels, RequestLabels;
    RequestLabelsExact(query);
    assert |"query"| == 5 && |"raw_query"| == 9;
    var v, labels := RequestVars(query, rawQuery), RequestLabels(query);
    if path != [] && path[0] == "raw_query" {
      assert LeafAt(v, path) == LeafAt(Str(rawQuery), path[1..]);
      assert |path| == 1 ==> path == ["raw_query"];
      assert |path| > 1 ==> LeafAt(Str(rawQuery), path[1..]).None?;
    } else if path != [] && path[0] == "query" {
      assert LeafAt(v, path) == LeafAt(Labels(labels), path[1..]);
      assert |path| == 2 ==> path[1..][0] == path[1];
    }
  }

  /**
   Every leaf of the collected variables, by its path: the request's labels and raw query under the
   reserved name; a selector's value, under its lower-cased key and nothing below it; and otherwise
   the strings, bools and numbers of the group's metadata where they stand there.
   */
  lemma CollectedLeaves(lower: CaseMap, query: Query, rawQuery: string, g: Group, order: seq<string>, p: seq<string>)
    requires Lists(order, g.selector.Keys) && p != []
    requires Collect(lower, RequestVars(query, rawQuery), g, order).Collected?
    ensures var leaf := LeafAt(Obj(Collect(lower, RequestVars(query, rawQuery), g, order).data), p);
            if p[0] == "request" then RequestLeaf(query, rawQuery, p[1..], leaf)
            else if exists k :: k in g.selector && Fold(lower, k) == p[0] then
              if |p| > 1 then leaf == None
              else exists k :: k in g.selector && Fold(lower, k) == p[0] && leaf == Some(g.selector[k])
            else leaf == if g.metadata.None? then None else JsonLeaf(g.metadata.value.json, p)
  {
    hide Fold, Collect, RequestLeaf, RequestVars, LeafAt, MetadataFields, JsonLeaf;
    var request := RequestVars(query, rawQuery);
    var data := Collect(lower, request, g, order).data;
    CollectSucceeds(lower, request, g, order);
    CollectPrecedence(lower, request, g, order, p[0]);
    RequestLeaves(query, rawQuery, p[1..]);
    FieldLeaf(data, p);
    if p[0] == "request" {
    } else if exists k :: k in g.selector && Fold(lower, k) == p[0] {
      var k :| k in g.selector && Fold(lower, k) == p[0] && data[p[0]] == Str(g.selector[k]);
      TextLeaf(g.selector[k], p[1..]);
    } else {
      MetadataLeaf(g, p);
    }
  }

  lemma FieldLeaf(data: Data, p: seq<string>)
    requires p != []
    ensures LeafAt(Obj(data), p) == if p[0] in data then LeafAt(data[p[0]], p[1..]) else None
  {
  }

  lemma TextLeaf(text: string, path: seq<string>)
    ensures LeafAt(Str(text), path) == if path == [] then Some(text) else None
  {
  }

  lemma MetadataLeaf(g: Group, p: seq<string>)
    requires p != [] && (g.metadata.None? || (g.metadata.value.Encoded? && g.metadata.value.json.Obj?))
    ensures MetadataFields(g.metadata).Some?
    ensures var metadata := MetadataFields(g.metadata).value;
            (if g.metadata.None? then None else JsonLeaf(g.metadata.value.json, p)) ==
            if p[0] in metadata then LeafAt(Decoded(metadata[p[0]]), p[1..]) else None
  {
    hide LeafAt, Decoded;
    var metadata := MetadataFields(g.metadata).value;
    if p[0] in metadata {
      DecodedLeaf(metadata[p[0]], p[1..]);
    }
  }

  // ---------- rendering ----------

  /** The shared writer; every `Fprintf` writes one line. */
  class LineWriter {
    var lines: seq<string>

    constructor ()
      ensures lines == []
    {
      lines := [];
    }

    method Print(line: string)
      modifies this
      ensures lines == old(lines) + [line]
    {
      lines := lines + [line];
    }
  }

  /** Leaves whose first key is among `done`. */
  ghost predicate CoversKeys(paths: seq<seq<string>>, v: Value, done: set<string>) {
    && (forall i, j :: 0 <= i < j < |paths| ==> paths[i] != paths[j])
    && (forall p :: p in paths <==> IsLeaf(v, p) && p[0] in done)
  }

  function Under(key: string, paths: seq<seq<string>>): seq<seq<string>> {
    seq(|paths|, i requires 0 <= i < |paths| => [key] + paths[i])
  }

  /** Adding one key: its own leaves, each behind the key. */
  lemma CoversNext(paths: seq<seq<string>>, v: Value, done: set<string>, key: string, below: seq<seq<string>>)
    requires CoversKeys(paths, v, done) && key !in done && v.Obj? && key in v.fields
    requires forall i, j :: 0 <= i < j < |below| ==> below[i] != below[j]
    requires forall p :: p in below <==> LeafAt(v.fields[key], p).Some?
    ensures CoversKeys(paths + Under(key, below), v, done + {key})
  {
    var added := Under(key, below);
    forall i, j | 0 <= i < j < |added| ensures added[i] != added[j] {
      assert added[i][1..] == below[i] && added[j][1..] == below[j];
    }
    forall p ensures p in added <==> IsLeaf(v, p) && p[0] == key {
      if p in added {
        var i :| 0 <= i < |added| && added[i] == p;
        assert p[1..] == below[i] && below[i] in below;
      }
      if IsLeaf(v, p) && p[0] == key {
        assert p[1..] in below;
        var i :| 0 <= i < |below| && below[i] == p[1..];
        assert added[i] == [key] + p[1..] == p;
      }
    }
    hide IsLeaf, LeafAt;
    forall i, j | 0 <= i < |paths| && 0 <= j < |added| ensures paths[i] != added[j] {
      assert paths[i] in paths && added[j] in added;
    }
  }

  lemma {:induction false} LinesUnder(upper: CaseMap, prefix: string, v: Value, key: string, below: seq<seq<string>>)
    requires v.Obj? && key in v.fields
    requires forall p :: p in below ==> p != []
    ensures FlatMap(Lines(upper, prefix, v), Under(key, below))
            == FlatMap(Lines(upper, prefix + key + "_", v.fields[key]), below)
  {
    if below != [] {
      var p := below[0];
      assert p in below;
      assert ([key] + p)[1..] == p;
      assert Under(key, below)[1..] == Under(key, below[1..]);
      assert forall q :: q in below[1..] ==> q in below;
      LinesUnder(upper, prefix, v, key, below[1..]);
    }
  }

  lemma LabelLine(upper: CaseMap, prefix: string, v: Value, paths: seq<seq<string>>, key: string)
    requires v.Labels? && key in v.labels
    ensures FlatMap(Lines(upper, prefix, v), paths + [[key]])
            == FlatMap(Lines(upper, prefix, v), paths) + [Fold(upper, prefix + key) + "=" + v.labels[key]]
  {
    hide Fold;
    FlatMapConcat(Lines(upper, prefix, v), paths, [[key]]);
    assert Name(prefix, [key]) == prefix + key;
    assert LineOf(upper, prefix, v, [key]) == Fold(upper, prefix + key) + "=" + v.labels[key];
    assert Lines(upper, prefix, v)([key]) == [LineOf(upper, prefix, v, [key])];
    assert FlatMap(Lines(upper, prefix, v), [[key]]) == [LineOf(upper, prefix, v, [key])] + [];
  }

  lemma ScalarLine(upper: CaseMap, prefix: string, v: Value, key: string)
    requires v.Obj? && key in v.fields && Shown(v.fields[key]).Some?
    ensures FlatMap(Lines(upper, prefix, v), Under(key, [[]]))
            == [Fold(upper, prefix + key) + "=" + Shown(v.fields[key]).value]
  {
    hide Fold;
    assert [key] + [] == [key] && [key][1..] == [];
    assert Under(key, [[]]) == [[key]];
    assert LeafAt(v, [key]) == LeafAt(v.fields[key], []) == Shown(v.fields[key]);
    assert LineOf(upper, prefix, v, [key]) == Fold(upper, prefix + key) + "=" + Shown(v.fields[key]).value;
    assert Lines(upper, prefix, v)([key]) == [LineOf(upper, prefix, v, [key])];
    assert FlatMap(Lines(upper, prefix, v), [[key]]) == [LineOf(upper, prefix, v, [key])] + [];
  }

  /** The one-key paths of `keys`, each once. */
  ghost predicate Singles(paths: seq<seq<string>>, keys: set<string>) {
    && (forall i, j :: 0 <= i < j < |paths| ==> paths[i] != paths[j])
    && (forall p :: p in paths <==> |p| == 1 && p[0] in keys)
  }

  lemma SinglesNext(paths: seq<seq<string>>, keys: set<string>, key: string)
    requires Singles(paths, keys) && key !in keys
    ensures Singles(paths + [[key]], keys + {key})
  {
    forall p ensures p in paths + [[key]] <==> |p| == 1 && p[0] in keys + {key} {
      assert p in paths + [[key]] <==> p in paths || p == [key];
      assert |p| == 1 && p[0] == key ==> p == [key];
    }
  }

  lemma SinglesCover(paths: seq<seq<string>>, v: Value)
    requires v.Labels? && Singles(paths, v.labels.Keys)
    ensures Covers(paths, v)
  {
  }

  /** The `map[string]string` case: the copied map has only string entries. */
  method RenderLabels(upper: CaseMap, w: LineWriter, prefix: string, v: Value) returns (ghost paths: seq<seq<string>>)
    requires v.Labels?
    modifies w
    ensures Covers(paths, v)
    ensures w.lines == old(w.lines) + FlatMap(Lines(upper, prefix, v), paths)
  {
    hide Covers, Singles, Lines, Fold;
    paths := [];
    SinglesCoverNothing();
    var pending := v.labels.Keys;
    assert v.labels.Keys - pending == {};
    while pending != {}
      invariant pending <= v.labels.Keys && Singles(paths, v.labels.Keys - pending)
      invariant w.lines == old(w.lines) + FlatMap(Lines(upper, prefix, v), paths)
      decreases pending
    {
      var key :| key in pending;
      LabelLine(upper, prefix, v, paths, key);
      SinglesNext(paths, v.labels.Keys - pending, key);
      w.Print(Fold(upper, prefix + key) + "=" + v.labels[key]);
      paths := paths + [[key]];
      assert v.labels.Keys - pending + {key} == v.labels.Keys - (pending - {key});
      pending := pending - {key};
    }
    assert v.labels.Keys - pending == v.labels.Keys;
    SinglesCover(paths, v);
  }

  lemma SinglesCoverNothing()
    ensures Singles([], {})
    ensures forall v: Value :: CoversKeys([], v, {})
  {
  }

  lemma AllKeysCover(paths: seq<seq<string>>, v: Value)
    requires v.Obj? && CoversKeys(paths, v, v.fields.Keys)
    ensures Covers(paths, v)
  {
  }

  /**
   `renderAsEnvFile`: for some listing of the leaves below `v`, exactly one line for each, in that
   order. It returns on every finite tree.
   */
  method Render(upper: CaseMap, w: LineWriter, prefix: string, v: Value) returns (ghost paths: seq<seq<string>>)
    requires v.Obj?
    modifies w
    ensures Covers(paths, v)
    ensures w.lines == old(w.lines) + FlatMap(Lines(upper, prefix, v), paths)
    decreases v
  {
    hide Covers, CoversKeys, Lines, Under, LeafAt, FlatMap, Fold;
    paths := [];
    SinglesCoverNothing();
    var pending := v.fields.Keys;
    assert v.fields.Keys - pending == {};
    ghost var lines := Lines(upper, prefix, v);
    NoLines(lines);
    while pending != {}
      invariant pending <= v.fields.Keys
      invariant CoversKeys(paths, v, v.fields.Keys - pending)
      invariant w.lines == old(w.lines) + FlatMap(lines, paths)
      decreases pending
    {
      var key :| key in pending;
      ghost var below := RenderEntry(upper, w, prefix, v, key);
      CoversNext(paths, v, v.fields.Keys - pending, key, below);
      FlatMapConcat(lines, paths, Under(key, below));
      paths := paths + Under(key, below);
      assert v.fields.Keys - pending + {key} == v.fields.Keys - (pending - {key});
      pending := pending - {key};
    }
    assert v.fields.Keys - pending == v.fields.Keys;
    AllKeysCover(paths, v);
  }

  lemma NoLines(lines: seq<string> -> seq<string>)
    ensures FlatMap(lines, []) == []
  {
  }

  /** One entry of the map: a line for a simple value, the nested lines for a map, nothing otherwise. */
  method RenderEntry(upper: CaseMap, w: LineWriter, prefix: string, v: Value, key: string)
    returns (ghost below: seq<seq<string>>)
    requires v.Obj? && key in v.fields
    modifies w
    ensures forall i, j :: 0 <= i < j < |below| ==> below[i] != below[j]
    ensures forall p :: p in below <==> LeafAt(v.fields[key], p).Some?
    ensures w.lines == old(w.lines) + FlatMap(Lines(upper, prefix, v), Under(key, below))
    decreases v, 0
  {
    var name := prefix + key;
    var val := v.fields[key];
    if Shown(val).Some? {
      w.Print(Fold(upper, name) + "=" + Shown(val).value);
      below := [[]];
      ScalarLine(upper, prefix, v, key);
    } else if val.Labels? {
      below := RenderLabels(upper, w, name + "_", val);
      LinesUnder(upper, prefix, v, key, below);
    } else if val.Obj? {
      below := Render(upper, w, name + "_", val);
      LinesUnder(upper, prefix, v, key, below);
    } else {
      below := [];
      assert Under(key, below) == [];
    }
  }

  /** The lines as a multiset do not depend on the order the maps were ranged over in. */
  lemma LinesAnyOrder(upper: CaseMap, prefix: string, v: Value, paths: seq<seq<string>>, paths': seq<seq<string>>)
    requires Covers(paths, v) && Covers(paths', v)
    ensures multiset(FlatMap(Lines(upper, prefix, v), paths)) == multiset(FlatMap(Lines(upper, prefix, v), paths'))
  {
    var leaves := set p | p in paths;
    ListsPermute(paths, paths', leaves);
    FlatMapPermute(Lines(upper, prefix, v), paths, paths');
  }

  // ---------- reading the file back ----------

  function Output(lines: seq<string>): string {
    if lines == [] then "" else lines[0] + "\n" + Output(lines[1..])
  }

  /** Every line is followed by a newline. */
  lemma {:induction false} OutputExact(lines: seq<string>)
    ensures Output(lines) == Text.Join(lines + [""], '\n')
  {
    if lines != [] {
      OutputExact(lines[1..]);
      assert (lines + [""])[1..] == lines[1..] + [""];
    }
  }

  /** Every line cut at its first equals sign, later lines overwriting earlier ones. */
  function Pairs(lines: seq<string>): map<string, string> {
    if lines == [] then map[]
    else
      var rest := Pairs(lines[..|lines| - 1]);
      match Text.Cut(lines[|lines| - 1], '=')
      case None => rest
      case Some(pair) => rest[pair.0 := pair.1]
  }

  function ParseEnv(text: string): map<string, string> {
    Pairs(Text.Split(text, '\n'))
  }

  lemma {:induction false} SplitOutput(lines: seq<string>)
    requires Text.Free(lines, '\n')
    ensures Text.Split(Output(lines), '\n') == lines + [""]
  {
    if lines != [] {
      SplitOutput(lines[1..]);
      Text.SplitPiece(lines[0], '\n');
      Text.SplitConcat(lines[0], Output(lines[1..]), '\n');
      assert lines[0] + ['\n'] + Output(lines[1..]) == Output(lines);
      assert [lines[0]] + (lines[1..] + [""]) == lines + [""];
    }
  }

  /** Letters are changed by upper-casing, the two separators are not made by it. */
  ghost predicate KeepsSeparators(upper: CaseMap) {
    forall c :: (upper(c) == '=' ==> c == '=') && (upper(c) == '\n' ==> c == '\n')
  }

  /** Keys without '=' and newline, values without newline, and a name for every leaf. */
  ghost predicate Readable(upper: CaseMap, v: Value) {
    && (forall p, i :: IsLeaf(v, p) && 0 <= i < |p| ==> '=' !in p[i] && '\n' !in p[i])
    && (forall p :: IsLeaf(v, p) ==> '\n' !in LeafAt(v, p).value)
    && (forall p, q :: IsLeaf(v, p) && IsLeaf(v, q) && Fold(upper, Name("", p)) == Fold(upper, Name("", q)) ==> p == q)
  }

  lemma {:induction false} NameChars(prefix: string, p: seq<string>, c: char)
    requires c != '_' && c !in prefix && forall i :: 0 <= i < |p| ==> c !in p[i]
    ensures c !in Name(prefix, p)
    decreases |p|
  {
    if |p| > 1 {
      assert forall i :: 0 <= i < |p| - 1 ==> p[1..][i] == p[i + 1];
      NameChars(prefix + p[0] + "_", p[1..], c);
    }
  }

  lemma FoldChars(upper: CaseMap, s: string, c: char)
    requires forall d :: upper(d) == c ==> d == c
    requires c !in s
    ensures c !in Fold(upper, s)
  {
  }

  lemma LineReads(upper: CaseMap, v: Value, p: seq<string>)
    requires KeepsSeparators(upper) && Readable(upper, v) && IsLeaf(v, p)
    ensures LeafAt(v, p).Some? && '\n' !in LineOf(upper, "", v, p)
    ensures Text.Cut(LineOf(upper, "", v, p), '=') == Some((Fold(upper, Name("", p)), LeafAt(v, p).value))
  {
    var name := Fold(upper, Name("", p));
    NameChars("", p, '=');
    NameChars("", p, '\n');
    FoldChars(upper, Name("", p), '=');
    FoldChars(upper, Name("", p), '\n');
    Text.CutAtFirst(name, '=', LeafAt(v, p).value);
  }

  /** `pairs` holds exactly the leaves `paths`, under their names. */
  ghost predicate HoldsLeaves(pairs: map<string, string>, upper: CaseMap, v: Value, paths: seq<seq<string>>) {
    && (forall p :: p in paths ==> Holds(pairs, upper, v, p))
    && (forall name :: name in pairs ==> exists p :: p in paths && name == Fold(upper, Name("", p)))
  }

  predicate Holds(pairs: map<string, string>, upper: CaseMap, v: Value, p: seq<string>) {
    var name := Fold(upper, Name("", p));
    name in pairs && Some(pairs[name]) == LeafAt(v, p)
  }

  lemma HoldsNext(pairs: map<string, string>, upper: CaseMap, v: Value, init: seq<seq<string>>, p: seq<string>)
    requires Readable(upper, v) && HoldsLeaves(pairs, upper, v, init)
    requires IsLeaf(v, p) && forall q :: q in init ==> IsLeaf(v, q)
    ensures HoldsLeaves(pairs[Fold(upper, Name("", p)) := LeafAt(v, p).value], upper, v, init + [p])
  {
    hide Fold, Name, LeafAt;
    var next := pairs[Fold(upper, Name("", p)) := LeafAt(v, p).value];
    forall q | q in init + [p] ensures Holds(next, upper, v, q) {
      if q != p {
        assert Holds(pairs, upper, v, q);
      }
    }
    forall name | name in next ensures exists q :: q in init + [p] && name == Fold(upper, Name("", q)) {
      if name == Fold(upper, Name("", p)) {
        assert p in init + [p];
      } else {
        var q :| q in init && name == Fold(upper, Name("", q));
        assert q in init + [p];
      }
    }
  }

  /** The pairs read from the lines of some leaves are exactly those leaves. */
  lemma {:induction false} PairsOfLeaves(upper: CaseMap, v: Value, paths: seq<seq<string>>)
    requires KeepsSeparators(upper) && Readable(upper, v)
    requires forall p :: p in paths ==> IsLeaf(v, p)
    ensures HoldsLeaves(Pairs(FlatMap(Lines(upper, "", v), paths)), upper, v, paths)
  {
    hide Fold, Name, LeafAt, HoldsLeaves, IsLeaf, Readable, KeepsSeparators;
    if paths == [] {
      NothingHeld(upper, v);
    } else {
      var last := |paths| - 1;
      var init, p := paths[..last], paths[last];
      assert forall q :: q in init ==> q in paths;
      assert p in paths && paths[..last + 1] == paths == init + [p];
      PairsOfLeaves(upper, v, init);
      FlatMapNext(Lines(upper, "", v), paths, last);
      PairsNext(upper, v, FlatMap(Lines(upper, "", v), init), p);
      hide Lines, Pairs, LineOf, FlatMap;
      HoldsNext(Pairs(FlatMap(Lines(upper, "", v), init)), upper, v, init, p);
    }
  }

  /** One more leaf's lines give one more pair. */
  lemma PairsNext(upper: CaseMap, v: Value, lines: seq<string>, p: seq<string>)
    requires KeepsSeparators(upper) && Readable(upper, v) && IsLeaf(v, p)
    ensures Pairs(lines + Lines(upper, "", v)(p)) == Pairs(lines)[Fold(upper, Name("", p)) := LeafAt(v, p).value]
  {
    hide Fold, Name, LeafAt, Readable, KeepsSeparators, LineOf;
    LineReads(upper, v, p);
    var line := LineOf(upper, "", v, p);
    assert Lines(upper, "", v)(p) == [line];
    assert (lines + [line])[..|lines|] == lines;
  }

  lemma NothingHeld(upper: CaseMap, v: Value)
    ensures HoldsLeaves(map[], upper, v, [])
  {
  }

  lemma LinesFree(upper: CaseMap, v: Value, paths: seq<seq<string>>)
    requires KeepsSeparators(upper) && Readable(upper, v)
    requires forall i :: 0 <= i < |paths| ==> IsLeaf(v, paths[i])
    ensures Text.Free(FlatMap(Lines(upper, "", v), paths), '\n')
  {
    hide Fold, Name, LeafAt, LineOf, Readable, KeepsSeparators;
    var lines := FlatMap(Lines(upper, "", v), paths);
    forall k | 0 <= k < |lines| ensures '\n' !in lines[k] {
      FlatMapMember(Lines(upper, "", v), paths, lines[k]);
      assert lines[k] in lines;
      hide IsLeaf;
      var i :| 0 <= i < |paths| && lines[k] in Lines(upper, "", v)(paths[i]);
      LineReads(upper, v, paths[i]);
    }
  }

  /**
   Reading the rendered file back gives the flattened variables exactly: every leaf under its name,
   and nothing else, whatever order the lines were written in.
   */
  lemma EnvRoundTrip(upper: CaseMap, v: Value, paths: seq<seq<string>>)
    requires KeepsSeparators(upper) && Readable(upper, v) && Covers(paths, v)
    ensures var env := ParseEnv(Output(FlatMap(Lines(upper, "", v), paths)));
            && (forall p :: IsLeaf(v, p) ==>
                              var name := Fold(upper, Name("", p)); name in env && env[name] == LeafAt(v, p).value)
            && (forall name :: name in env ==> exists p :: IsLeaf(v, p) && name == Fold(upper, Name("", p)))
  {
    hide Fold, Name, LeafAt, Lines, Readable, KeepsSeparators, Pairs, Output;
    var lines := FlatMap(Lines(upper, "", v), paths);
    forall i | 0 <= i < |paths| ensures IsLeaf(v, paths[i]) {
      assert paths[i] in paths;
    }
    LinesFree(upper, v, paths);
    SplitOutput(lines);
    BlankLine(lines);
    PairsOfLeaves(upper, v, paths);
    forall p | IsLeaf(v, p) ensures Holds(ParseEnv(Output(lines)), upper, v, p) {
      assert p in paths;
    }
  }

  lemma BlankLine(lines: seq<string>)
    ensures Pairs(lines + [""]) == Pairs(lines)
  {
    assert (lines + [""])[..|lines|] == lines;
  }
}

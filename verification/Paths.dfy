/**
 File paths: `path.Clean` by its documented rules, `filepath.Join`, and the `Dir.sanitize` that
 keeps every name of a request inside the data directory.
 */
module Paths {
  import opened Results
  import opened Text

  const NUL: char := '\0'

  /** What a path text denotes: a stack of components, below the file system root or not. */
  datatype Path = Path(rooted: bool, comps: seq<string>)

  datatype PathError = InvalidFilePathCharacter

  /** A component that names an entry of a directory. */
  predicate Proper(c: string) {
    c != "" && c != "." && c != ".." && '/' !in c
  }

  /** A name that stands for one file of its collection. */
  predicate Plain(name: string) {
    Proper(name) && NUL !in name
  }

  // ---------- Clean ----------

  /** One component read by `Clean`, on the stack of components kept so far. */
  function Push(rooted: bool, stack: seq<string>, c: string): seq<string> {
    if c == "" || c == "." then stack
    else if c != ".." then stack + [c]
    else if stack != [] && stack[|stack| - 1] != ".." then stack[..|stack| - 1]
    else if rooted then stack
    else stack + [".."]
  }

  function Walk(rooted: bool, stack: seq<string>, comps: seq<string>): seq<string>
    decreases |comps|
  {
    if comps == [] then stack else Walk(rooted, Push(rooted, stack, comps[0]), comps[1..])
  }

  function Resolve(s: string): Path {
    var rooted := s != "" && s[0] == '/';
    Path(rooted, Walk(rooted, [], Split(s, '/')))
  }

  function Render(p: Path): string {
    if p.rooted then "/" + Join(p.comps, '/')
    else if p.comps == [] then "." else Join(p.comps, '/')
  }

  function Clean(s: string): string {
    Render(Resolve(s))
  }

  /** `filepath.Join(a, b)` for a non-empty `a`. */
  function JoinPath(a: string, b: string): string
    requires a != ""
  {
    Clean(a + (if b == "" then "" else "/" + b))
  }

  /** The shape `Clean` promises: no empty, `.` or inner `..` component, no `..` below the root. */
  ghost predicate Normal(p: Path) {
    && (forall i :: 0 <= i < |p.comps| ==> Proper(p.comps[i]) || (p.comps[i] == ".." && !p.rooted))
    && (forall i, j :: 0 <= i < j < |p.comps| && p.comps[j] == ".." ==> p.comps[i] == "..")
  }

  lemma {:induction false} WalkConcat(rooted: bool, stack: seq<string>, xs: seq<string>, ys: seq<string>)
    ensures Walk(rooted, stack, xs + ys) == Walk(rooted, Walk(rooted, stack, xs), ys)
    decreases |xs|
  {
    if xs == [] {
      assert xs + ys == ys;
    } else {
      assert (xs + ys)[1..] == xs[1..] + ys;
      WalkConcat(rooted, Push(rooted, stack, xs[0]), xs[1..], ys);
    }
  }

  lemma {:induction false} WalkNormal(rooted: bool, stack: seq<string>, comps: seq<string>)
    requires Normal(Path(rooted, stack)) && Free(comps, '/')
    ensures Normal(Path(rooted, Walk(rooted, stack, comps)))
    decreases |comps|
  {
    if comps != [] {
      WalkNormal(rooted, Push(rooted, stack, comps[0]), comps[1..]);
    }
  }

  /** Components already in normal form are kept as they are. */
  lemma {:induction false} WalkKeeps(rooted: bool, stack: seq<string>, comps: seq<string>)
    requires Normal(Path(rooted, stack + comps))
    ensures Walk(rooted, stack, comps) == stack + comps
    decreases |comps|
  {
    if comps == [] {
      assert stack + comps == stack;
    } else {
      var c := comps[0];
      assert (stack + comps)[|stack|] == c;
      assert stack != [] ==> (stack + comps)[|stack| - 1] == stack[|stack| - 1];
      assert Push(rooted, stack, c) == stack + [c];
      assert stack + [c] + comps[1..] == stack + comps;
      WalkKeeps(rooted, stack + [c], comps[1..]);
    }
  }

  lemma ResolveNormal(s: string)
    ensures Normal(Resolve(s))
  {
    SplitParts(s, '/');
    WalkNormal(s != "" && s[0] == '/', [], Split(s, '/'));
  }

  /** `Render` loses nothing: the text of a normal path denotes that path again. */
  lemma ResolveRender(p: Path)
    requires Normal(p)
    ensures Resolve(Render(p)) == p
  {
    hide Join, Split, Walk;
    WalkKeeps(p.rooted, [], p.comps);
    assert [] + p.comps == p.comps;
    SplitBody(p.comps);
    if p.rooted {
      SplitRooted(Join(p.comps, '/'));
      WalkBlank(true, [], p.comps);
    } else if p.comps == [] {
      SplitPiece(".", '/');
      WalkDot();
    } else {
      RelativeStart(p.comps);
    }
  }

  lemma SplitBody(comps: seq<string>)
    requires forall i :: 0 <= i < |comps| ==> '/' !in comps[i]
    ensures Split(Join(comps, '/'), '/') == if comps == [] then [""] else comps
  {
    if comps != [] {
      SplitJoin(comps, '/');
    }
  }

  lemma SplitRooted(body: string)
    ensures Split("/" + body, '/') == [""] + Split(body, '/')
  {
    hide Split;
    SplitPiece("", '/');
    SplitConcat("", body, '/');
    assert "" + ['/'] + body == "/" + body;
  }

  lemma WalkDot()
    ensures Walk(false, [], ["."]) == []
  {
    assert ["."][1..] == [];
  }

  lemma RelativeStart(comps: seq<string>)
    requires Normal(Path(false, comps)) && comps != []
    ensures Render(Path(false, comps)) == Join(comps, '/') != "" && Join(comps, '/')[0] != '/'
  {
    assert comps[0] != "" && '/' !in comps[0];
    assert Join(comps, '/')[0] == comps[0][0];
  }

  /**
   The four rules of `path.Clean`, between any texts: doubled slashes and `.` vanish, an element
   takes the `..` after it along, and `..` does not climb above the root.
   */
  lemma CleanRules(x: string, a: string, y: string)
    requires Proper(a)
    ensures Resolve(x + "/" + ("/" + y)) == Resolve(x + "/" + y)
    ensures Resolve(x + "/" + ("." + "/" + y)) == Resolve(x + "/" + y)
    ensures Resolve(x + "/" + (a + "/" + (".." + "/" + y))) == Resolve(x + "/" + y)
    ensures Resolve("/" + (".." + "/" + y)) == Resolve("/" + y)
  {
    SplitPiece(a, '/');
    SplitPiece(".", '/');
    SplitPiece("..", '/');
    SplitPiece("", '/');
    var up := ".." + "/" + y;
    SplitSlash("..", y);
    SplitSlash("", y);
    SplitSlash(".", y);
    SplitSlash(a, up);
    assert "/" + y == "" + "/" + y && "/" + up == "" + "/" + up;
    SplitSlash("", up);
    ResolveAfter(x, y);
    ResolveAfter(x, "/" + y);
    ResolveAfter(x, "." + "/" + y);
    ResolveAfter(x, a + "/" + up);
    hide Split;
    var rooted := x == "" || x[0] == '/';
    var base := Walk(rooted, [], Split(x, '/'));
    WalkSkips(rooted, base, "", Split(y, '/'));
    WalkSkips(rooted, base, ".", Split(y, '/'));
    WalkCancels(rooted, base, a, Split(y, '/'));
    RootStays(Split(y, '/'));
  }

  /** And a slash at the end makes no difference, except to the empty text. */
  lemma TrailingSlash(x: string)
    requires x != ""
    ensures Resolve(x + "/") == Resolve(x)
  {
    assert x + "/" == x + "/" + "";
    SplitSlash(x, "");
    SplitPiece("", '/');
    var rooted := x[0] == '/';
    WalkConcat(rooted, [], Split(x, '/'), [""]);
    assert [""][1..] == [];
    hide Split;
    assert Walk(rooted, Walk(rooted, [], Split(x, '/')), [""]) == Walk(rooted, [], Split(x, '/'));
  }

  lemma SplitSlash(a: string, b: string)
    ensures Split(a + "/" + b, '/') == Split(a, '/') + Split(b, '/')
  {
    assert a + "/" + b == a + ['/'] + b;
    SplitConcat(a, b, '/');
  }

  lemma ResolveAfter(x: string, y: string)
    ensures var rooted := x == "" || x[0] == '/';
            Resolve(x + "/" + y) == Path(rooted, Walk(rooted, Walk(rooted, [], Split(x, '/')), Split(y, '/')))
  {
    SplitSlash(x, y);
    WalkConcat(x == "" || x[0] == '/', [], Split(x, '/'), Split(y, '/'));
    assert (x + "/" + y)[0] == if x == "" then '/' else x[0];
  }

  lemma WalkSkips(rooted: bool, stack: seq<string>, c: string, comps: seq<string>)
    requires c == "" || c == "."
    ensures Walk(rooted, stack, [c] + comps) == Walk(rooted, stack, comps)
  {
    assert ([c] + comps)[1..] == comps;
  }

  lemma WalkCancels(rooted: bool, stack: seq<string>, a: string, comps: seq<string>)
    requires Proper(a)
    ensures Walk(rooted, stack, [a] + ([".."] + comps)) == Walk(rooted, stack, comps)
  {
    assert ([a] + ([".."] + comps))[1..] == [".."] + comps && ([".."] + comps)[1..] == comps;
    assert (stack + [a])[..|stack|] == stack;
  }

  lemma RootStays(comps: seq<string>)
    ensures Walk(true, [], [""] + ([".."] + comps)) == Walk(true, [], [""] + comps)
  {
    assert ([""] + ([".."] + comps))[1..] == [".."] + comps && ([".."] + comps)[1..] == comps;
    assert ([""] + comps)[1..] == comps;
  }

  lemma CleanIdempotent(s: string)
    ensures Clean(Clean(s)) == Clean(s)
    ensures Resolve(Clean(s)) == Resolve(s)
  {
    ResolveNormal(s);
    ResolveRender(Resolve(s));
  }

  /** Walking a name from a directory `cwd` of the tree, with the root as its own parent. */
  function Reach(cwd: seq<string>, s: string): seq<string> {
    Walk(true, cwd, Split(s, '/'))
  }

  lemma {:induction false} ReachStep(cwd: seq<string>, stack: seq<string>, c: string)
    requires forall i :: 0 <= i < |stack| ==> stack[i] != "" && stack[i] != "."
    ensures Walk(true, cwd, Push(false, stack, c)) == Push(true, Walk(true, cwd, stack), c)
  {
    if c == ".." && stack != [] && stack[|stack| - 1] != ".." {
      var init, x := stack[..|stack| - 1], stack[|stack| - 1];
      assert stack == init + [x];
      WalkConcat(true, cwd, init, [x]);
      assert Walk(true, Walk(true, cwd, init), [x]) == Walk(true, cwd, init) + [x];
    } else if c != "" && c != "." {
      WalkConcat(true, cwd, stack, [c]);
      assert Walk(true, Walk(true, cwd, stack), [c]) == Push(true, Walk(true, cwd, stack), c);
    }
  }

  lemma {:induction false} ReachAbsorbs(cwd: seq<string>, stack: seq<string>, comps: seq<string>)
    requires Normal(Path(false, stack)) && Free(comps, '/')
    ensures Walk(true, cwd, Walk(false, stack, comps)) == Walk(true, Walk(true, cwd, stack), comps)
    decreases |comps|
  {
    hide Push;
    if comps != [] {
      assert Normal(Path(false, Push(false, stack, comps[0]))) by {
        WalkNormal(false, stack, [comps[0]]);
        assert Walk(false, stack, [comps[0]]) == Push(false, stack, comps[0]);
      }
      ReachStep(cwd, stack, comps[0]);
      ReachAbsorbs(cwd, Push(false, stack, comps[0]), comps[1..]);
    }
  }

  /** Cleaning a relative path keeps its meaning: it leads to the same place from every directory. */
  lemma CleanKeepsMeaning(cwd: seq<string>, s: string)
    requires s == "" || s[0] != '/'
    ensures Reach(cwd, Clean(s)) == Reach(cwd, s)
  {
    var p := Resolve(s);
    ResolveNormal(s);
    SplitParts(s, '/');
    ReachAbsorbs(cwd, [], Split(s, '/'));
    if p.comps == [] {
      SplitPiece(".", '/');
    } else {
      SplitJoin(p.comps, '/');
    }
  }

  ghost predicate Within(part: string, s: string) {
    forall c :: c in part ==> c in s || c == '.'
  }

  lemma CleanChars(s: string)
    ensures forall c :: c in Clean(s) ==> c in s || c == '/' || c == '.'
  {
    SplitParts(s, '/');
    WalkChars(s != "" && s[0] == '/', [], Split(s, '/'), s);
    JoinChars(Resolve(s).comps, '/');
  }

  lemma {:induction false} WalkChars(rooted: bool, stack: seq<string>, comps: seq<string>, s: string)
    requires forall i :: 0 <= i < |stack| ==> Within(stack[i], s)
    requires forall i :: 0 <= i < |comps| ==> Within(comps[i], s)
    ensures forall i :: 0 <= i < |Walk(rooted, stack, comps)| ==> Within(Walk(rooted, stack, comps)[i], s)
    decreases |comps|
  {
    if comps != [] {
      WalkChars(rooted, Push(rooted, stack, comps[0]), comps[1..], s);
    }
  }

  // ---------- sanitize ----------

  /** The root directory of a `Dir`; an empty directory is treated as ".". */
  function Root(dir: string): string {
    if dir == "" then "." else dir
  }

  function Sanitize(dir: string, name: string): Result<string, PathError> {
    if NUL in name then Err(InvalidFilePathCharacter)
    else Ok(JoinPath(Root(dir), Clean("/" + name)))
  }

  /** The place `name` denotes below the data directory, seen as the top of its own tree. */
  function Below(dir: string, inner: seq<string>): Path {
    Path(Resolve(Root(dir)).rooted, Resolve(Root(dir)).comps + inner)
  }

  /**
   Confinement: whatever the name, the sanitised path is the cleaned root followed by the place
   the name denotes in the data directory's own tree, and no component of that place climbs.
   */
  lemma SanitizeConfines(dir: string, name: string)
    ensures Sanitize(dir, name).Err? <==> NUL in name
    ensures var inner := Reach([], name);
            && (forall i :: 0 <= i < |inner| ==> Proper(inner[i]))
            && Normal(Below(dir, inner))
            && (NUL !in name ==> Sanitize(dir, name).value == Render(Below(dir, inner)))
  {
    var inner := Reach([], name);
    ResolveRooted(name);
    JoinsBelow(dir, inner);
  }

  /** The data directory, which is the current directory if it is not given. */
  ghost predicate IsBase(base: Path, dir: string) {
    base == if dir == "" then Resolve(".") else Resolve(dir)
  }

  /**
   Whatever the directory and the name, a name without NUL is put below that very directory, at the
   place it denotes when read from the top; a name with NUL is refused.
   */
  lemma SanitizeExact(dir: string, name: string, base: Path)
    requires IsBase(base, dir)
    ensures Sanitize(dir, name).Err? <==> '\0' in name
    ensures '\0' !in name ==>
              var inner := Resolve("/" + name).comps;
              && (forall i :: 0 <= i < |inner| ==> Proper(inner[i]))
              && Resolve(Sanitize(dir, name).value) == Path(base.rooted, base.comps + inner)
              && Clean(Sanitize(dir, name).value) == Sanitize(dir, name).value
  {
    SanitizeConfines(dir, name);
    ResolveRooted(name);
    ResolveRender(Below(dir, Reach([], name)));
  }

  /** So directories that are different places give different files for every name. */
  lemma SanitizeKeepsDirs(dir: string, dir': string, name: string, base: Path, base': Path)
    requires IsBase(base, dir) && IsBase(base', dir') && '\0' !in name
    ensures Sanitize(dir, name) == Sanitize(dir', name) <==> base == base'
  {
    hide Sanitize, Resolve, Clean;
    SanitizeExact(dir, name, base);
    SanitizeExact(dir', name, base');
    var inner := Resolve("/" + name).comps;
    var p, p' := base.comps + inner, base'.comps + inner;
    assert base.comps == p[..|p| - |inner|] && base'.comps == p'[..|p'| - |inner|];
    if base == base' {
      SanitizeRendered(dir, name, base);
      SanitizeRendered(dir', name, base');
    }
  }

  lemma SanitizeRendered(dir: string, name: string, base: Path)
    requires IsBase(base, dir) && '\0' !in name
    ensures Sanitize(dir, name) == Ok(Render(Path(base.rooted, base.comps + Resolve("/" + name).comps)))
  {
    SanitizeConfines(dir, name);
    ResolveRooted(name);
  }

  /** On texts: the proper components of a name behind those of the directory. */
  lemma SanitizeText(dirs: seq<string>, names: seq<string>)
    requires dirs != [] && names != []
    requires forall i :: 0 <= i < |dirs| ==> Proper(dirs[i])
    requires forall i :: 0 <= i < |names| ==> Plain(names[i])
    ensures Sanitize("/" + Join(dirs, '/'), Join(names, '/')) == Ok("/" + Join(dirs + names, '/'))
    ensures Sanitize(Join(dirs, '/'), Join(names, '/')) == Ok(Join(dirs + names, '/'))
    ensures Sanitize("", Join(names, '/')) == Ok(Join(names, '/'))
  {
    hide Sanitize, Join;
    var name := Join(names, '/');
    ResolveText(dirs);
    ResolveText(names);
    ResolveText([]);
    JoinChars(names, '/');
    assert '\0' !in name;
    JoinNotEmpty(dirs);
    assert [] + names == names;
    SanitizeRendered("/" + Join(dirs, '/'), name, Path(true, dirs));
    SanitizeRendered(Join(dirs, '/'), name, Path(false, dirs));
    SanitizeRendered("", name, Path(false, []));
  }

  lemma JoinNotEmpty(comps: seq<string>)
    requires comps != [] && comps[0] != ""
    ensures Join(comps, '/') != ""
  {
  }

  /** What a text of proper components denotes, from the top and as a relative path. */
  lemma ResolveText(comps: seq<string>)
    requires forall i :: 0 <= i < |comps| ==> Proper(comps[i])
    ensures Resolve("/" + Join(comps, '/')) == Path(true, comps)
    ensures comps != [] ==> Resolve(Join(comps, '/')) == Path(false, comps)
    ensures Resolve("") == Resolve(".") == Path(false, []) && Clean("") == "." && Clean("/") == "/"
  {
    hide Resolve, Join;
    ResolveRender(Path(true, comps));
    ResolveRender(Path(false, comps));
    ResolveRender(Path(true, []));
    ResolveRender(Path(false, []));
    JoinNothing();
    EmptyText();
  }

  lemma JoinNothing()
    ensures Join([], '/') == "" && "/" + Join([], '/') == "/"
  {
  }

  lemma EmptyText()
    ensures Resolve("") == Path(false, [])
  {
    assert [""][1..] == [];
  }

  lemma ResolveRooted(name: string)
    ensures Resolve("/" + name) == Path(true, Reach([], name))
    ensures Normal(Path(true, Reach([], name)))
  {
    ResolveNormal("/" + name);
    assert "/" + name == "" + ['/'] + name;
    SplitConcat("", name, '/');
    assert ([""] + Split(name, '/'))[1..] == Split(name, '/');
  }

  /** The outer `filepath.Join` of a root directory and a cleaned rooted path. */
  lemma JoinsBelow(dir: string, inner: seq<string>)
    requires Normal(Path(true, inner))
    ensures Normal(Below(dir, inner))
    ensures JoinPath(Root(dir), Render(Path(true, inner))) == Render(Below(dir, inner))
  {
    hide Split, Join, Walk, Normal;
    var root, body := Root(dir), Join(inner, '/');
    WalkJoined(root, inner);
    JoinedResolves(root, inner);
    assert root + "/" + ("/" + body) == root + ("/" + ("/" + body));
  }

  lemma JoinedResolves(root: string, inner: seq<string>)
    requires root != "" && Normal(Path(true, inner))
    ensures var base := Resolve(root);
            Resolve(root + "/" + ("/" + Join(inner, '/'))) == Path(base.rooted, base.comps + inner)
  {
    hide Split, Join, Walk, Normal;
    JoinedParts(root, inner);
    WalkJoined(root, inner);
  }

  lemma WalkJoined(root: string, inner: seq<string>)
    requires Normal(Path(true, inner))
    ensures var base := Resolve(root);
            && Normal(Path(base.rooted, base.comps + inner))
            && Walk(base.rooted, [], Split(root, '/') + ([""] + if inner == [] then [""] else inner)) ==
               base.comps + inner
  {
    hide Split;
    var base := Resolve(root);
    var parts := if inner == [] then [""] else inner;
    ResolveNormal(root);
    WalkConcat(base.rooted, [], Split(root, '/'), [""] + parts);
    WalkBlank(base.rooted, base.comps, inner);
    WalkKeeps(base.rooted, base.comps, inner);
  }

  lemma JoinedParts(root: string, inner: seq<string>)
    requires Normal(Path(true, inner))
    ensures Split(root + "/" + ("/" + Join(inner, '/')), '/')
            == Split(root, '/') + ([""] + if inner == [] then [""] else inner)
  {
    var body := Join(inner, '/');
    var parts := if inner == [] then [""] else inner;
    assert Split(body, '/') == parts by {
      if inner != [] {
        SplitJoin(inner, '/');
      }
    }
    assert Split("", '/') == [""];
    assert root + "/" + ("/" + body) == root + ['/'] + ("" + ['/'] + body);
    hide Split, Join;
    SplitConcat("", body, '/');
    SplitConcat(root, "" + ['/'] + body, '/');
  }

  /** Empty components are skipped. */
  lemma WalkBlank(rooted: bool, stack: seq<string>, comps: seq<string>)
    ensures Walk(rooted, stack, [""] + if comps == [] then [""] else comps) == Walk(rooted, stack, comps)
  {
    var parts := if comps == [] then [""] else comps;
    assert ([""] + parts)[1..] == parts && Push(rooted, stack, "") == stack;
    assert Walk(rooted, stack, [""] + parts) == Walk(rooted, stack, parts);
    assert comps == [] ==> Walk(rooted, stack, [""][1..]) == stack;
  }

  /**
   Cleaning twice is cleaning once: the `filepath.Join` in front of `sanitize` changes nothing,
   exactly unless it cleans a NUL byte away before `sanitize` can refuse it.
   */
  lemma SanitizeTwoStage(dir: string, collection: string, x: string)
    requires Plain(collection)
    ensures Sanitize(dir, JoinPath(collection, x)) == Sanitize(dir, collection + "/" + x)
            <==> (NUL in x ==> NUL in JoinPath(collection, x))
    ensures NUL !in x ==> NUL !in JoinPath(collection, x)
  {
    var name := collection + "/" + x;
    var joined := JoinPath(collection, x);
    JoinPathIsClean(collection, x);
    CleanChars(name);
    CleanKeepsMeaning([], name);
    SanitizeConfines(dir, name);
    SanitizeConfines(dir, joined);
  }

  lemma JoinPathIsClean(a: string, x: string)
    requires a != ""
    ensures JoinPath(a, x) == Clean(a + "/" + x)
  {
    if x == "" {
      assert a + ['/'] + "" == a + "/" + "" && a + "" == a;
      SplitConcat(a, "", '/');
      var rooted := a[0] == '/';
      WalkConcat(rooted, [], Split(a, '/'), [""]);
    } else {
      assert a + ("/" + x) == a + "/" + x;
    }
  }

  /** The NUL-free requirement of `SanitizeTwoStage` is not idle: "\0/.." is cleaned to nothing. */
  lemma SanitizeTwoStageNeedsNulFree(dir: string, collection: string)
    requires Plain(collection)
    ensures Sanitize(dir, JoinPath(collection, "\0/..")) != Sanitize(dir, collection + "/" + "\0/..")
  {
    var x := "\0/..";
    assert x == "\0" + ['/'] + ".." && NUL == x[0];
    assert Split(x, '/') == ["\0", ".."] by {
      SplitConcat("\0", "..", '/');
      SplitPiece("\0", '/');
      SplitPiece("..", '/');
    }
    UpAndDown(collection, "\0", x);
    SanitizeTwoStage(dir, collection, x);
  }

  lemma UpAndDown(collection: string, c: string, x: string)
    requires Proper(collection) && Proper(c) && Split(x, '/') == [c, ".."]
    ensures JoinPath(collection, x) == collection
  {
    JoinPathIsClean(collection, x);
    assert collection + "/" + x == collection + ['/'] + x;
    SplitConcat(collection, x, '/');
    SplitPiece(collection, '/');
    hide Split;
    WalkConcat(false, [], [collection], [c, ".."]);
    assert [c, ".."][1..] == [".."];
    assert Push(false, [collection], c) == [collection, c];
    assert [collection, c][..1] == [collection];
    assert Walk(false, [collection, c], [".."]) == [collection];
    assert Walk(false, [collection], [c, ".."]) == [collection];
  }

  // ---------- names of stored files ----------

  function FilePath(dir: string, collection: string, name: string): Result<string, PathError>
    requires collection != ""
  {
    Sanitize(dir, JoinPath(collection, name))
  }

  /** The file of a name lies at `collection/name`, taken as two components, exactly when the name is plain. */
  lemma FileInCollection(dir: string, collection: string, name: string)
    requires Plain(collection) && NUL !in name
    ensures FilePath(dir, collection, name).Ok?
    ensures Resolve(FilePath(dir, collection, name).value) == Below(dir, [collection, name]) <==> Plain(name)
  {
    var text := collection + "/" + name;
    SanitizeTwoStage(dir, collection, name);
    SanitizeConfines(dir, text);
    PlainReach(collection, name);
    hide Reach, Sanitize, JoinPath, Render, Below, Resolve;
    ResolveRender(Below(dir, Reach([], text)));
    BelowInjective(dir, Reach([], text), [collection, name]);
  }

  /** Walking `collection/name` ends at just these two components exactly for a plain name. */
  lemma PlainReach(collection: string, name: string)
    requires Plain(collection) && NUL !in name
    ensures Reach([], collection + "/" + name) == [collection, name] <==> Plain(name)
  {
    var text := collection + "/" + name;
    SanitizeConfines("", text);
    assert |Reach([], text)| == 2 ==> Proper(Reach([], text)[1]);
    if Plain(name) {
      SplitSlash(collection, name);
      SplitPiece(collection, '/');
      SplitPiece(name, '/');
      WalkKeeps(true, [], [collection, name]);
      assert Split(text, '/') == [collection, name] == [] + [collection, name];
    }
  }

  lemma BelowInjective(dir: string, xs: seq<string>, ys: seq<string>)
    ensures Below(dir, xs) == Below(dir, ys) ==> xs == ys
  {
    var base := Resolve(Root(dir)).comps;
    assert xs == (base + xs)[|base|..] && ys == (base + ys)[|base|..];
  }

  // ---------- where other names lead ----------

  /** The components of a name, cleaned as a relative path: some `..`, then proper ones. */
  function Inward(name: string): seq<string> {
    Walk(false, [], Split(name, '/'))
  }

  function DropClimbs(q: seq<string>): seq<string> {
    if q != [] && q[0] == ".." then DropClimbs(q[1..]) else q
  }

  /** Where cleaned components lead from a collection: its own tree, or the top once they climb. */
  function Landing(collection: string, q: seq<string>): seq<string> {
    if q != [] && q[0] == ".." then DropClimbs(q) else [collection] + q
  }

  lemma {:induction false} WalkFromTop(q: seq<string>)
    requires Normal(Path(false, q))
    ensures Walk(true, [], q) == DropClimbs(q)
    decreases |q|
  {
    if q != [] && q[0] == ".." {
      WalkFromTop(q[1..]);
    } else {
      assert forall i :: 0 < i < |q| && q[i] == ".." ==> q[0] == "..";
      WalkKeeps(true, [], q);
    }
  }

  lemma WalkFromCollection(collection: string, q: seq<string>)
    requires Plain(collection) && Normal(Path(false, q))
    ensures Walk(true, [collection], q) == Landing(collection, q)
  {
    if q != [] && q[0] == ".." {
      assert Push(true, [collection], q[0]) == [];
      WalkFromTop(q[1..]);
    } else {
      assert forall i :: 0 < i < |q| && q[i] == ".." ==> q[0] == "..";
      WalkKeeps(true, [collection], q);
    }
  }

  /** The exact place of every name: below its collection unless it climbs, and below the root if it does. */
  lemma PlaceOfName(dir: string, collection: string, name: string)
    requires Plain(collection) && NUL !in name
    ensures FilePath(dir, collection, name).Ok?
    ensures Resolve(FilePath(dir, collection, name).value) == Below(dir, Landing(collection, Inward(name)))
  {
    var text := collection + "/" + name;
    SanitizeTwoStage(dir, collection, name);
    SanitizeConfines(dir, text);
    ResolveRender(Below(dir, Reach([], text)));
    SplitSlash(collection, name);
    SplitPiece(collection, '/');
    WalkConcat(true, [], [collection], Split(name, '/'));
    assert Walk(true, [], [collection]) == [collection];
    SplitParts(name, '/');
    ReachAbsorbs([collection], [], Split(name, '/'));
    WalkNormal(false, [], Split(name, '/'));
    WalkFromCollection(collection, Inward(name));
  }

  /** `p` is `dir` or lies below it. */
  predicate Inside(p: Path, dir: Path) {
    p.rooted == dir.rooted && dir.comps <= p.comps
  }

  /**
   A name stays in its collection's directory exactly when its cleaned components do not climb, or
   climb and come back to the collection by its name.
   */
  lemma StaysInCollection(dir: string, collection: string, name: string)
    requires Plain(collection) && NUL !in name
    ensures FilePath(dir, collection, name).Ok?
    ensures var q := Inward(name);
            Inside(Resolve(FilePath(dir, collection, name).value), Below(dir, [collection])) <==>
            q == [] || q[0] != ".." || (DropClimbs(q) != [] && DropClimbs(q)[0] == collection)
  {
    PlaceOfName(dir, collection, name);
    InsideBelow(dir, collection, Landing(collection, Inward(name)));
  }

  lemma InsideBelow(dir: string, collection: string, inner: seq<string>)
    ensures Inside(Below(dir, inner), Below(dir, [collection])) <==> inner != [] && inner[0] == collection
  {
    var base := Resolve(Root(dir)).comps;
    if inner != [] {
      assert (base + inner)[..|base|] == base && (base + inner)[|base|] == inner[0];
      assert (base + [collection])[|base|] == collection;
    }
  }

  /** For instance, this name climbs out and reaches a sibling collection's file. */
  lemma NameLeavesCollection(dir: string, collection: string, other: string, name: string)
    requires Plain(collection) && Plain(other) && Plain(name)
    ensures FilePath(dir, collection, "../" + other + "/" + name) == FilePath(dir, other, name)
  {
    var inner := other + "/" + name;
    assert "../" + other + "/" + name == ".." + "/" + inner;
    CleanRules("", collection, inner);
    assert "" + "/" + (collection + "/" + (".." + "/" + inner)) == "/" + (collection + "/" + (".." + "/" + inner));
    assert "" + "/" + inner == "/" + inner;
    assert NUL !in ".." + "/" + inner;
    SanitizeTwoStage(dir, collection, ".." + "/" + inner);
    SanitizeTwoStage(dir, other, name);
    hide JoinPath, Resolve;
    assert Clean("/" + (collection + "/" + (".." + "/" + inner))) == Clean("/" + inner);
  }

  /** No two files of the store share a path, across collections and names. */
  lemma FilePathInjective(dir: string, c1: string, n1: string, c2: string, n2: string)
    requires Plain(c1) && Plain(c2) && Plain(n1) && Plain(n2)
    requires FilePath(dir, c1, n1) == FilePath(dir, c2, n2)
    ensures c1 == c2 && n1 == n2
  {
    FileInCollection(dir, c1, n1);
    FileInCollection(dir, c2, n2);
    BelowInjective(dir, [c1, n1], [c2, n2]);
    assert [c1, n1][0] == [c2, n2][0] && [c1, n1][1] == [c2, n2][1];
  }

  // ---------- file extensions ----------

  /** `filepath.Ext`: the name from its last dot on, or nothing. */
  function Ext(name: string): (ext: string)
    ensures |ext| <= |name| && ext == name[|name| - |ext|..]
  {
    if name == "" || name[|name| - 1] == '/' then ""
    else if name[|name| - 1] == '.' then "."
    else
      var init := name[..|name| - 1];
      var e := Ext(init);
      if e == "" then "" else
        assert name == init + [name[|name| - 1]];
        e + [name[|name| - 1]]
  }

  /** `strings.TrimSuffix(name, filepath.Ext(name))`. */
  function Stem(name: string): string {
    name[..|name| - |Ext(name)|]
  }

  lemma ExtEnds(init: string, c: char)
    requires c != '/'
    ensures Ext("") == ""
    ensures Ext(init + [c]) == if c == '.' then "." else if Ext(init) == "" then "" else Ext(init) + [c]
  {
    assert (init + [c])[..|init|] == init;
  }

  lemma {:induction false} ExtExact(name: string)
    requires '/' !in name
    ensures '.' !in name ==> Ext(name) == ""
    ensures '.' in name ==> Ext(name) != "" && Ext(name)[0] == '.' && '.' !in Ext(name)[1..]
  {
    hide Ext;
    ExtEnds("", 'x');
    if name != "" {
      var init, c := name[..|name| - 1], name[|name| - 1];
      assert name == init + [c];
      ExtExact(init);
      ExtEnds(init, c);
      var e := Ext(init);
      assert e != "" ==> (e + [c])[1..] == e[1..] + [c];
    }
  }

  /** Of a file name only the part from its last dot on is trimmed, and nothing if it has no dot. */
  lemma StemExact(name: string)
    requires '/' !in name
    ensures '.' !in name ==> Stem(name) == name
    ensures '.' in name ==> Stem(name) < name && name[|Stem(name)|] == '.' && '.' !in name[|Stem(name)| + 1..]
  {
    hide Ext;
    ExtExact(name);
    var n := |Stem(name)|;
    assert Ext(name) == name[n..];
    if '.' in name {
      assert name[n..][0] == name[n] && name[n..][1..] == name[n + 1..];
    }
  }

  lemma ExtNext(name: string, c: char)
    requires c != '/' && c != '.' && Ext(name) != ""
    ensures Ext(name + [c]) == Ext(name) + [c]
  {
    assert (name + [c])[..|name|] == name;
  }

  lemma ExtOfDot(name: string)
    ensures Ext(name + ".") == "."
  {
  }

  lemma JsonLetters(id: string)
    ensures id + ".json" == id + "." + ['j'] + ['s'] + ['o'] + ['n']
  {
  }

  lemma ExtOfJson(id: string)
    ensures |Ext(id + ".json")| == 5
  {
    hide Ext;
    var n := id + ".";
    ExtOfDot(id);
    ExtNext(n, 'j');
    ExtNext(n + ['j'], 's');
    ExtNext(n + ['j'] + ['s'], 'o');
    ExtNext(n + ['j'] + ['s'] + ['o'], 'n');
    JsonLetters(id);
  }

  lemma StemOfJson(id: string)
    ensures Stem(id + ".json") == id
  {
    hide Ext;
    ExtOfJson(id);
  }
}

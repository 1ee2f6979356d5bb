/** The two ways an operation of the system can come back without its usual answer. */
module Results {
  datatype Option<+T> = None | Some(value: T)

  datatype Result<+T, +E> = Ok(value: T) | Err(error: E)
}

/**
 Strings as the system handles them: Go's byte-wise order, splitting and joining on a
 separator, and the sorting of string slices.
 */
module Text {
  import opened Results

  /** Go's `<` on strings. */
  predicate Less(a: string, b: string) {
    b != "" && (a == "" || a[0] < b[0] || (a[0] == b[0] && Less(a[1..], b[1..])))
  }

  lemma {:induction false} LessTotal(a: string, b: string)
    ensures Less(a, b) || Less(b, a) || a == b
    ensures !(Less(a, b) && Less(b, a))
  {
    if a != "" && b != "" && a[0] == b[0] {
      LessTotal(a[1..], b[1..]);
      assert a == [a[0]] + a[1..] && b == [b[0]] + b[1..];
    }
  }

  lemma {:induction false} LessTransitive(a: string, b: string, c: string)
    requires !Less(b, a) && !Less(c, b)
    ensures !Less(c, a)
    ensures Less(a, b) || Less(b, c) ==> Less(a, c)
    decreases |a| + |b| + |c|
  {
    if a != "" && b != "" && c != "" && a[0] == b[0] == c[0] {
      LessTransitive(a[1..], b[1..], c[1..]);
    }
  }

  /** `a` and `b` agree before `i`, where `a` ends or has the smaller character. */
  ghost predicate DiffersAt(a: string, b: string, i: nat) {
    && i <= |a| && i < |b| && (forall k :: 0 <= k < i ==> a[k] == b[k])
    && (i == |a| || a[i] < b[i])
  }

  /** The order is the lexicographic one. */
  lemma {:induction false} LessIsLexicographic(a: string, b: string)
    ensures Less(a, b) <==> exists i: nat :: DiffersAt(a, b, i)
  {
    if a == "" && b != "" {
      assert DiffersAt(a, b, 0);
    } else if a != "" && b != "" && a[0] == b[0] {
      LessIsLexicographic(a[1..], b[1..]);
      if i: nat :| DiffersAt(a[1..], b[1..], i) {
        forall k | 0 <= k < i + 1 ensures a[k] == b[k] {
          assert k > 0 ==> a[k] == a[1..][k - 1] && b[k] == b[1..][k - 1];
        }
        assert DiffersAt(a, b, i + 1);
      }
      if i: nat :| DiffersAt(a, b, i) {
        assert DiffersAt(a[1..], b[1..], i - 1);
      }
    } else if a != "" && b != "" {
      assert a[0] < b[0] ==> DiffersAt(a, b, 0);
    }
  }

  // ---------- splitting and joining ----------

  function Split(s: string, sep: char): (parts: seq<string>)
    ensures |parts| >= 1
  {
    if s == "" then [""]
    else
      Prepend(s[0], Split(s[1..], sep), sep)
  }

  /** Reading `c` in front of text already split. */
  function Prepend(c: char, parts: seq<string>, sep: char): seq<string>
    requires |parts| >= 1
  {
    if c == sep then [""] + parts else [[c] + parts[0]] + parts[1..]
  }

  function Join(parts: seq<string>, sep: char): string {
    if |parts| == 0 then ""
    else if |parts| == 1 then parts[0]
    else parts[0] + [sep] + Join(parts[1..], sep)
  }

  ghost predicate Free(parts: seq<string>, sep: char) {
    forall i :: 0 <= i < |parts| ==> sep !in parts[i]
  }

  lemma {:induction false} SplitParts(s: string, sep: char)
    ensures Free(Split(s, sep), sep)
    ensures forall i, c :: 0 <= i < |Split(s, sep)| && c in Split(s, sep)[i] ==> c in s
  {
    if s != "" {
      SplitParts(s[1..], sep);
      var rest := Split(s[1..], sep);
      forall i, c | 0 <= i < |Split(s, sep)| && c in Split(s, sep)[i] ensures c in s {
        assert Split(s, sep)[i] ==
               if s[0] == sep then (if i == 0 then "" else rest[i - 1])
               else if i == 0 then [s[0]] + rest[0] else rest[i];
        assert c == s[0] || c in s[1..];
      }
    }
  }

  lemma {:induction false} SplitPiece(s: string, sep: char)
    requires sep !in s
    ensures Split(s, sep) == [s]
  {
    if s != "" {
      SplitPiece(s[1..], sep);
      assert s == [s[0]] + s[1..];
    }
  }

  lemma PrependConcat(c: char, xs: seq<string>, ys: seq<string>, sep: char)
    requires |xs| >= 1
    ensures Prepend(c, xs + ys, sep) == Prepend(c, xs, sep) + ys
  {
    assert (xs + ys)[0] == xs[0] && (xs + ys)[1..] == xs[1..] + ys;
  }

  lemma {:induction false} SplitConcat(a: string, b: string, sep: char)
    ensures Split(a + [sep] + b, sep) == Split(a, sep) + Split(b, sep)
  {
    var text := a + [sep] + b;
    if a == "" {
      assert text[1..] == b;
    } else {
      SplitConcat(a[1..], b, sep);
      assert text[0] == a[0] && text[1..] == a[1..] + [sep] + b;
      hide Prepend;
      PrependConcat(a[0], Split(a[1..], sep), Split(b, sep), sep);
    }
  }

  lemma {:induction false} SplitJoin(parts: seq<string>, sep: char)
    requires |parts| >= 1 && Free(parts, sep)
    ensures Split(Join(parts, sep), sep) == parts
  {
    SplitPiece(parts[0], sep);
    if |parts| > 1 {
      SplitJoin(parts[1..], sep);
      SplitConcat(parts[0], Join(parts[1..], sep), sep);
    } else {
      assert parts == [parts[0]];
    }
  }

  lemma {:induction false} JoinSplit(s: string, sep: char)
    ensures Join(Split(s, sep), sep) == s
  {
    if s != "" {
      JoinSplit(s[1..], sep);
      var rest := Split(s[1..], sep);
      if s[0] != sep {
        assert Split(s, sep)[1..] == rest[1..];
        assert rest == [rest[0]] + rest[1..];
      } else {
        assert Split(s, sep)[1..] == rest;
      }
    }
  }

  lemma {:induction false} JoinChars(parts: seq<string>, sep: char)
    ensures forall c :: c in Join(parts, sep) ==> c == sep || exists i :: 0 <= i < |parts| && c in parts[i]
  {
    if |parts| > 1 {
      JoinChars(parts[1..], sep);
      assert forall i :: 0 <= i < |parts| - 1 ==> parts[1..][i] == parts[i + 1];
    }
  }

  /** Everything before and after the first `c`, as `strings.SplitN(s, c, 2)` gives it. */
  function Cut(s: string, c: char): (r: Option<(string, string)>) {
    if s == "" then None
    else if s[0] == c then Some(("", s[1..]))
    else match Cut(s[1..], c)
      case None => None
      case Some(pair) => Some(([s[0]] + pair.0, pair.1))
  }

  lemma {:induction false} CutAtFirst(k: string, c: char, v: string)
    requires c !in k
    ensures Cut(k + [c] + v, c) == Some((k, v))
  {
    var t := k + [c] + v;
    if k == "" {
      assert t[1..] == v;
    } else {
      CutAtFirst(k[1..], c, v);
      assert t[1..] == k[1..] + [c] + v && t[0] == k[0];
      assert k == [k[0]] + k[1..];
    }
  }

  lemma {:induction false} CutNone(s: string, c: char)
    requires c !in s
    ensures Cut(s, c) == None
  {
    if s != "" {
      CutNone(s[1..], c);
    }
  }

  /** Two texts that start with pieces not containing `c`, each ended by `c` or the end of the text. */
  lemma {:induction false} PieceDetermined(k1: string, k2: string, c: char, rest1: string, rest2: string)
    requires c !in k1 && c !in k2
    requires rest1 != "" ==> rest1[0] == c
    requires rest2 != "" ==> rest2[0] == c
    requires k1 + rest1 == k2 + rest2
    ensures k1 == k2 && rest1 == rest2
  {
    var t := k1 + rest1;
    assert forall i :: 0 <= i < |k1| ==> t[i] == k1[i];
    assert forall i :: 0 <= i < |k2| ==> t[i] == (k2 + rest2)[i] == k2[i];
    assert |k1| < |t| ==> t[|k1|] == c;
    assert |k2| < |t| ==> t[|k2|] == (k2 + rest2)[|k2|] == c;
    assert |k1| == |k2|;
    assert k1 == t[..|k1|] == k2;
    assert rest1 == t[|k1|..] == rest2;
  }

  // ---------- sorting string slices ----------

  ghost predicate Sorted(s: seq<string>) {
    forall i, j :: 0 <= i < j < |s| ==> !Less(s[j], s[i])
  }

  function Insert(x: string, s: seq<string>): seq<string> {
    if s == [] || !Less(s[0], x) then [x] + s else [s[0]] + Insert(x, s[1..])
  }

  /** The contract of `sort.StringSlice.Sort`. */
  function SortStrings(s: seq<string>): seq<string> {
    if s == [] then [] else Insert(s[0], SortStrings(s[1..]))
  }

  lemma {:induction false} InsertSorted(x: string, s: seq<string>)
    requires Sorted(s)
    ensures Sorted(Insert(x, s)) && multiset(Insert(x, s)) == multiset(s) + multiset{x}
  {
    hide Less;
    if s == [] {
    } else if !Less(s[0], x) {
      forall j | 0 <= j < |s| ensures !Less(s[j], x) {
        LessTotal(s[0], s[j]);
        LessTransitive(x, s[0], s[j]);
      }
    } else {
      InsertSorted(x, s[1..]);
      var r := Insert(x, s[1..]);
      LessTotal(x, s[0]);
      assert s == [s[0]] + s[1..];
      forall j | 0 <= j < |r| ensures !Less(r[j], s[0]) {
        assert r[j] in multiset(r);
        assert r[j] == x || r[j] in s[1..];
      }
    }
  }

  lemma {:induction false} SortStringsSorts(s: seq<string>)
    ensures Sorted(SortStrings(s)) && multiset(SortStrings(s)) == multiset(s)
  {
    if s != [] {
      SortStringsSorts(s[1..]);
      InsertSorted(s[0], SortStrings(s[1..]));
      assert s == [s[0]] + s[1..];
    }
  }

  lemma SortedHead(a: seq<string>, b: seq<string>)
    requires Sorted(a) && Sorted(b) && multiset(a) == multiset(b) && a != [] && b != []
    ensures a[0] == b[0]
  {
    hide Less;
    assert a[0] in multiset(b) && b[0] in multiset(a);
    var i :| 0 <= i < |b| && b[i] == a[0];
    var j :| 0 <= j < |a| && a[j] == b[0];
    LessTotal(a[0], b[0]);
  }

  lemma TailMultiset(a: seq<string>)
    requires a != []
    ensures multiset(a[1..]) == multiset(a) - multiset{a[0]}
  {
    assert a == [a[0]] + a[1..];
  }

  /** A slice has only one sorted arrangement, so an unstable sort of strings loses nothing. */
  lemma {:induction false} SortedUnique(a: seq<string>, b: seq<string>)
    requires Sorted(a) && Sorted(b) && multiset(a) == multiset(b)
    ensures a == b
  {
    hide Less;
    assert |a| == |multiset(a)| == |multiset(b)| == |b|;
    if a != [] {
      SortedHead(a, b);
      TailMultiset(a);
      TailMultiset(b);
      SortedUnique(a[1..], b[1..]);
      assert a == [a[0]] + a[1..] && b == [b[0]] + b[1..];
    }
  }
}

/** Enumerations of finite sets: what ranging over a Go map can yield. */
module Enumerations {
  /** `xs` lists every element of `s` once: one order in which Go may range over a map with keys `s`. */
  ghost predicate Lists<T(!new)>(xs: seq<T>, s: set<T>) {
    (forall i, j :: 0 <= i < j < |xs| ==> xs[i] != xs[j]) && (forall x :: x in xs <==> x in s)
  }

  lemma {:induction false} ListsExist<T(!new)>(s: set<T>) returns (xs: seq<T>)
    ensures Lists(xs, s)
  {
    if s == {} {
      xs := [];
    } else {
      var x :| x in s;
      var rest := ListsExist(s - {x});
      xs := [x] + rest;
    }
  }

  /** An enumeration whose last element is chosen. */
  lemma ListsEndingIn<T(!new)>(s: set<T>, x: T) returns (xs: seq<T>)
    requires x in s
    ensures Lists(xs, s) && |xs| >= 1 && xs[|xs| - 1] == x
  {
    var rest := ListsExist(s - {x});
    xs := rest + [x];
  }

  /** Any two enumerations of a set are permutations of each other. */
  lemma {:induction false} ListsPermute<T(!new)>(xs: seq<T>, ys: seq<T>, s: set<T>)
    requires Lists(xs, s) && Lists(ys, s)
    ensures multiset(xs) == multiset(ys)
  {
    forall x ensures multiset(xs)[x] == multiset(ys)[x] {
      Multiplicity(xs, s, x);
      Multiplicity(ys, s, x);
    }
  }

  lemma {:induction false} Multiplicity<T(!new)>(xs: seq<T>, s: set<T>, x: T)
    requires Lists(xs, s)
    ensures multiset(xs)[x] == if x in s then 1 else 0
  {
    if xs != [] {
      assert xs == [xs[0]] + xs[1..];
      assert forall y :: y in xs[1..] <==> y in s - {xs[0]};
      Multiplicity(xs[1..], s - {xs[0]}, x);
    }
  }

  lemma Shift<T>(a: seq<T>, b: seq<T>, c: seq<T>)
    ensures a + b + c == a + (b + c)
  {
  }

  function FlatMap<A, B>(f: A -> seq<B>, xs: seq<A>): seq<B> {
    if xs == [] then [] else f(xs[0]) + FlatMap(f, xs[1..])
  }

  lemma {:induction false} FlatMapConcat<A, B>(f: A -> seq<B>, xs: seq<A>, ys: seq<A>)
    ensures FlatMap(f, xs + ys) == FlatMap(f, xs) + FlatMap(f, ys)
  {
    if xs == [] {
      assert xs + ys == ys;
    } else {
      FlatMapConcat(f, xs[1..], ys);
      assert (xs + ys)[1..] == xs[1..] + ys && (xs + ys)[0] == xs[0];
      hide FlatMap;
      assert f(xs[0]) + (FlatMap(f, xs[1..]) + FlatMap(f, ys)) == f(xs[0]) + FlatMap(f, xs[1..]) + FlatMap(f, ys);
    }
  }

  lemma FlatMapNext<A, B>(f: A -> seq<B>, xs: seq<A>, i: nat)
    requires i < |xs|
    ensures FlatMap(f, xs[..i + 1]) == FlatMap(f, xs[..i]) + f(xs[i])
  {
    FlatMapConcat(f, xs[..i], [xs[i]]);
    assert xs[..i + 1] == xs[..i] + [xs[i]];
    assert FlatMap(f, [xs[i]]) == f(xs[i]) + [];
  }

  lemma Extract<A>(xs: seq<A>, ys: seq<A>) returns (i: nat)
    requires multiset(xs) == multiset(ys) && xs != []
    ensures i < |ys| && ys[i] == xs[0]
    ensures multiset(xs[1..]) == multiset(ys[..i] + ys[i + 1..])
  {
    assert xs[0] in multiset(ys);
    i :| 0 <= i < |ys| && ys[i] == xs[0];
    assert ys == ys[..i] + [ys[i]] + ys[i + 1..];
    assert xs == [xs[0]] + xs[1..];
    assert multiset(xs) == multiset{xs[0]} + multiset(xs[1..]);
    assert multiset(ys) == multiset(ys[..i]) + multiset{xs[0]} + multiset(ys[i + 1..]);
    assert multiset(ys[..i] + ys[i + 1..]) == multiset(ys[..i]) + multiset(ys[i + 1..]);
    forall y ensures multiset(xs[1..])[y] == multiset(ys[..i] + ys[i + 1..])[y] {
      assert multiset(xs)[y] == multiset(ys)[y];
    }
  }

  /** Mapping over a permutation gives a permutation. */
  lemma {:induction false} FlatMapPermute<A, B>(f: A -> seq<B>, xs: seq<A>, ys: seq<A>)
    requires multiset(xs) == multiset(ys)
    ensures multiset(FlatMap(f, xs)) == multiset(FlatMap(f, ys))
  {
    assert |xs| == |multiset(xs)| == |multiset(ys)| == |ys|;
    if xs != [] {
      var i := Extract(xs, ys);
      FlatMapPermute(f, xs[1..], ys[..i] + ys[i + 1..]);
      FlatMapAround(f, ys, i);
    }
  }

  lemma FlatMapAround<A, B>(f: A -> seq<B>, ys: seq<A>, i: nat)
    requires i < |ys|
    ensures multiset(FlatMap(f, ys)) == multiset(f(ys[i])) + multiset(FlatMap(f, ys[..i] + ys[i + 1..]))
  {
    hide FlatMap;
    FlatMapConcat(f, ys[..i], ys[i + 1..]);
    FlatMapConcat(f, ys[..i + 1], ys[i + 1..]);
    FlatMapNext(f, ys, i);
    assert ys == ys[..i + 1] + ys[i + 1..];
    var p, q, t := FlatMap(f, ys[..i]), f(ys[i]), FlatMap(f, ys[i + 1..]);
    assert FlatMap(f, ys) == p + q + t;
  }

  lemma {:induction false} FlatMapMember<A, B>(f: A -> seq<B>, xs: seq<A>, y: B)
    ensures y in FlatMap(f, xs) <==> exists i :: 0 <= i < |xs| && y in f(xs[i])
  {
    if xs != [] {
      FlatMapMember(f, xs[1..], y);
      assert forall i :: 0 <= i < |xs| - 1 ==> xs[1..][i] == xs[i + 1];
      if exists i :: 0 <= i < |xs| && y in f(xs[i]) {
        var i :| 0 <= i < |xs| && y in f(xs[i]);
        assert i == 0 || xs[1..][i - 1] == xs[i];
      }
    }
  }
}

/** Sorted key lists, as `ioutil.ReadDir` and template ranges over maps produce them. */
module SortedKeys {
  import opened Enumerations
  import Text

  ghost function KeyOrder(s: set<string>): (keys: seq<string>)
    ensures Lists(keys, s)
  {
    OrderExists(s);
    var keys :| Lists(keys, s);
    keys
  }

  lemma OrderExists(s: set<string>)
    ensures exists keys :: Lists(keys, s)
  {
    var keys := ListsExist(s);
  }

  ghost function Sorted(s: set<string>): seq<string> {
    Text.SortStrings(KeyOrder(s))
  }

  /** Sorting any enumeration gives the same list, and it is an enumeration again. */
  lemma SortedAnyOrder(keys: seq<string>, s: set<string>)
    requires Lists(keys, s)
    ensures Text.SortStrings(keys) == Sorted(s)
    ensures Lists(Sorted(s), s)
  {
    ListsPermute(keys, KeyOrder(s), s);
    Text.SortStringsSorts(keys);
    Text.SortStringsSorts(KeyOrder(s));
    Text.SortedUnique(Text.SortStrings(keys), Sorted(s));
    PermutationLists(keys, Sorted(s), s);
  }

  /** The list is strictly ascending. */
  lemma SortedAscends(s: set<string>)
    ensures Lists(Sorted(s), s)
    ensures forall i, j :: 0 <= i < j < |Sorted(s)| ==> Text.Less(Sorted(s)[i], Sorted(s)[j])
  {
    SortedAnyOrder(KeyOrder(s), s);
    Text.SortStringsSorts(KeyOrder(s));
    hide Text.Less;
    forall i, j | 0 <= i < j < |Sorted(s)| ensures Text.Less(Sorted(s)[i], Sorted(s)[j]) {
      Text.LessTotal(Sorted(s)[i], Sorted(s)[j]);
    }
  }

  /** And the only one that is. */
  lemma AscendingIsSorted(keys: seq<string>, s: set<string>)
    requires Lists(keys, s) && forall i, j :: 0 <= i < j < |keys| ==> Text.Less(keys[i], keys[j])
    ensures keys == Sorted(s)
  {
    SortedAscends(s);
    ListsPermute(keys, Sorted(s), s);
    Text.SortStringsSorts(KeyOrder(s));
    hide Text.Less, Sorted;
    forall i, j | 0 <= i < j < |keys| ensures !Text.Less(keys[j], keys[i]) {
      Text.LessTotal(keys[i], keys[j]);
    }
    Text.SortedUnique(keys, Sorted(s));
  }

  lemma PermutationLists(xs: seq<string>, ys: seq<string>, s: set<string>)
    requires Lists(xs, s) && multiset(xs) == multiset(ys)
    ensures Lists(ys, s)
  {
    forall x ensures x in ys <==> x in s {
      assert x in ys <==> x in multiset(ys);
      assert x in xs <==> x in multiset(xs);
    }
    forall i, j | 0 <= i < j < |ys| ensures ys[i] != ys[j] {
      Multiplicity(xs, s, ys[i]);
      Repeated(ys, i, j);
    }
  }

  lemma Repeated(ys: seq<string>, i: nat, j: nat)
    requires i < j < |ys|
    ensures ys[i] == ys[j] ==> multiset(ys)[ys[i]] >= 2
  {
    assert ys == ys[..i] + [ys[i]] + ys[i + 1..j] + [ys[j]] + ys[j + 1..];
  }

  method SortKeys(s: set<string>) returns (keys: seq<string>)
    ensures keys == Sorted(s)
    ensures Lists(keys, s)
  {
    keys := [];
    var pending := s;
    while pending != {}
      invariant pending <= s && Lists(keys, s - pending)
      decreases pending
    {
      var key :| key in pending;
      keys := keys + [key];
      pending := pending - {key};
    }
    SortedAnyOrder(keys, s);
    keys := Text.SortStrings(keys);
  }
}

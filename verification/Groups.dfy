/** Groups: matching, normalising, and the order in which selectors are tried. */
module Groups {
  import opened Results
  import opened Documents
  import opened Enumerations
  import opened SortedKeys
  import Text
  import Mac

  type Selector = map<string, string>

  /** Request labels; `None` is Go's nil map. */
  type Labels = Option<map<string, string>>

  datatype Group = Group(id: string, name: string, profile: string, selector: Selector, metadata: Option<Bytes>)

  /** Go's `m[k]`, which reads a missing key as "". */
  function Lookup(m: map<string, string>, k: string): string {
    if k in m then m[k] else ""
  }

  predicate Matches(sel: Selector, labels: Labels) {
    forall k :: k in sel ==> labels.Some? && Lookup(labels.value, k) == sel[k]
  }

  /**
   Exactly the labels that have every entry's value match; an absent label counts as empty. Nil labels
   match the selector without entries and no other.
   */
  lemma MatchesExact(sel: Selector, labels: Labels)
    ensures labels.None? ==> (Matches(sel, labels) <==> sel == map[])
    ensures labels.Some? ==>
              (Matches(sel, labels) <==>
               forall k :: k in sel ==> (k in labels.value && labels.value[k] == sel[k]) ||
                                        (k !in labels.value && sel[k] == ""))
  {
    if sel != map[] {
      var k :| k in sel;
    }
  }

  // ---------- normalising ----------

  predicate IsMacKey(key: string) {
    Mac.Lower(key) == "mac"
  }

  /** The eight spellings of the reserved key. */
  lemma MacKeyExact(key: string)
    ensures IsMacKey(key) <==>
            |key| == 3 && key[0] in {'m', 'M'} && key[1] in {'a', 'A'} && key[2] in {'c', 'C'}
  {
    var low := Mac.Lower(key);
    assert low == "mac" <==> |low| == 3 && low[0] == 'm' && low[1] == 'a' && low[2] == 'c';
  }

  predicate Normalizable(sel: Selector) {
    forall k :: k in sel && IsMacKey(k) ==> Mac.ParseMAC(sel[k]).Some?
  }

  /** The value an entry has once normalised; only a parsable MAC entry changes. */
  function Canonical(key: string, value: string): string {
    if IsMacKey(key) && Mac.ParseMAC(value).Some? then Mac.PrintMAC(Mac.ParseMAC(value).value) else value
  }

  function Normalized(sel: Selector): (r: Selector)
    ensures r.Keys == sel.Keys
  {
    map k | k in sel :: Canonical(k, sel[k])
  }

  /** `t` is a MAC entry `s` once normalised: lower-case pairs of digits with colons, for the same octets. */
  ghost predicate IsCanonicalOf(t: string, s: string) {
    && Mac.ParseMAC(s).Some? && Mac.ParseMAC(t) == Mac.ParseMAC(s)
    && Mac.WritesPairs(t, Mac.ParseMAC(s).value, ':') && Mac.Lower(t) == t
  }

  /**
   Normalising, entry by entry: a MAC entry becomes the colon notation of its octets, and stays as it
   is if it is that already; any other entry stays as it is.
   */
  lemma NormalizedExact(sel: Selector, k: string)
    requires Normalizable(sel) && k in sel
    ensures IsMacKey(k) ==> IsCanonicalOf(Normalized(sel)[k], sel[k])
    ensures IsMacKey(k) && sel[k] == Mac.Lower(sel[k]) && sel[k][2] == ':' ==> Normalized(sel)[k] == sel[k]
    ensures !IsMacKey(k) ==> Normalized(sel)[k] == sel[k]
  {
    hide Mac.WritesPairs, Mac.PrintMAC, Mac.Lower;
    if IsMacKey(k) {
      Mac.CanonicalExact(sel[k]);
    }
  }

  /** A Group held by reference, as `Normalize` changes it in place. */
  class GroupCell {
    var group: Group

    constructor (g: Group)
      ensures group == g
    {
      group := g;
    }

    method Normalize() returns (ok: bool)
      modifies this
      ensures ok <==> forall k :: k in old(group.selector) && IsMacKey(k) ==>
                                    Mac.ParseMAC(old(group.selector)[k]).Some?
      ensures ok ==> group == old(group).(selector := Normalized(old(group.selector)))
      ensures ok ==> forall k :: k in group.selector ==>
                                   if IsMacKey(k) then IsCanonicalOf(group.selector[k], old(group.selector)[k])
                                   else group.selector[k] == old(group.selector)[k]
      // an early return leaves some entries rewritten, and no others
      ensures group == old(group).(selector := group.selector) && group.selector.Keys == old(group.selector.Keys)
      ensures forall k :: k in group.selector ==>
                            || group.selector[k] == old(group.selector[k])
                            || group.selector[k] == Normalized(old(group.selector))[k]
    {
      ghost var before := group.selector;
      var pending := group.selector.Keys;
      while pending != {}
        invariant pending <= group.selector.Keys == before.Keys
        invariant group == old(group).(selector := group.selector)
        invariant forall k :: k in before ==>
                                group.selector[k] == if k in pending then before[k] else Canonical(k, before[k])
        invariant forall k :: k in before && k !in pending && IsMacKey(k) ==> Mac.ParseMAC(before[k]).Some?
        decreases pending
      {
        var key :| key in pending;
        if IsMacKey(key) {
          var mac := Mac.ParseMAC(group.selector[key]);
          if mac.None? {
            return false;
          }
          group := group.(selector := group.selector[key := Mac.PrintMAC(mac.value)]);
        }
        pending := pending - {key};
      }
      assert group.selector == Normalized(before);
      forall k | k in before
        ensures if IsMacKey(k) then IsCanonicalOf(group.selector[k], before[k]) else group.selector[k] == before[k]
      {
        NormalizedExact(before, k);
      }
      return true;
    }
  }

  /** Normalising twice is normalising once, and never fails the second time. */
  lemma NormalizedIdempotent(sel: Selector)
    requires Normalizable(sel)
    ensures Normalizable(Normalized(sel)) && Normalized(Normalized(sel)) == Normalized(sel)
  {
    forall k | k in sel && IsMacKey(k)
      ensures Mac.ParseMAC(Normalized(sel)[k]) == Mac.ParseMAC(sel[k])
    {
      Mac.PrintParse(Mac.ParseMAC(sel[k]).value);
    }
  }

  // ---------- the order of selectors ----------

  /** The "key=value" requirement of one selector entry. */
  function Req(k: string, v: string): string {
    k + "=" + v
  }

  function ReqOf(sel: Selector): string -> seq<string> {
    k => if k in sel then [Req(k, sel[k])] else []
  }

  ghost function Reqs(sel: Selector): seq<string> {
    Text.SortStrings(FlatMap(ReqOf(sel), KeyOrder(sel.Keys)))
  }

  ghost function SelectorText(sel: Selector): string {
    Text.Join(Reqs(sel), ',')
  }

  /** The requirements come out the same whatever order the map is ranged over in. */
  lemma ReqsAnyOrder(sel: Selector, keys: seq<string>)
    requires Lists(keys, sel.Keys)
    ensures Text.SortStrings(FlatMap(ReqOf(sel), keys)) == Reqs(sel)
  {
    var xs, ys := FlatMap(ReqOf(sel), keys), FlatMap(ReqOf(sel), KeyOrder(sel.Keys));
    ListsPermute(keys, KeyOrder(sel.Keys), sel.Keys);
    FlatMapPermute(ReqOf(sel), keys, KeyOrder(sel.Keys));
    Text.SortStringsSorts(xs);
    Text.SortStringsSorts(ys);
    Text.SortedUnique(Text.SortStrings(xs), Text.SortStrings(ys));
  }

  method SelectorString(sel: Selector) returns (text: string)
    ensures text == SelectorText(sel)
    ensures forall rs :: AscendingEntries(rs, sel) ==> text == Text.Join(rs, ',')
  {
    var reqs := [];
    var pending := sel.Keys;
    ghost var seen := [];
    while pending != {}
      invariant pending <= sel.Keys
      invariant Lists(seen, sel.Keys - pending)
      invariant reqs == FlatMap(ReqOf(sel), seen)
      decreases pending
    {
      var key :| key in pending;
      FlatMapConcat(ReqOf(sel), seen, [key]);
      reqs := reqs + [Req(key, sel[key])];
      seen := seen + [key];
      pending := pending - {key};
    }
    ReqsAnyOrder(sel, seen);
    text := Text.Join(Text.SortStrings(reqs), ',');
    forall rs | AscendingEntries(rs, sel) ensures text == Text.Join(rs, ',') {
      SelectorTextExact(rs, sel);
    }
  }

  /** `rs` are the texts `key=value` of the entries, one for each, from the least to the greatest. */
  ghost predicate AscendingEntries(rs: seq<string>, sel: Selector) {
    && (forall i, j :: 0 <= i < j < |rs| ==> !Text.Less(rs[j], rs[i]))
    && exists keys :: Lists(keys, sel.Keys) && ListsEntries(rs, keys, sel)
  }

  /** `rs` holds the texts of the entries under `keys`, in any order. */
  ghost predicate ListsEntries(rs: seq<string>, keys: seq<string>, sel: Selector) {
    exists texts: seq<string> ::
      && multiset(texts) == multiset(rs)
      && |texts| == |keys|
      && forall i :: 0 <= i < |keys| ==> keys[i] in sel && texts[i] == keys[i] + "=" + sel[keys[i]]
  }

  lemma {:induction false} EntriesInOrder(sel: Selector, keys: seq<string>, texts: seq<string>)
    requires |texts| == |keys|
    requires forall i :: 0 <= i < |keys| ==> keys[i] in sel && texts[i] == keys[i] + "=" + sel[keys[i]]
    ensures FlatMap(ReqOf(sel), keys) == texts
  {
    if keys != [] {
      EntriesInOrder(sel, keys[1..], texts[1..]);
    }
  }

  /** The selector text joins the entries' texts by commas in ascending order, and so do all arrangements of them. */
  lemma SelectorTextExact(rs: seq<string>, sel: Selector)
    requires AscendingEntries(rs, sel)
    ensures SelectorText(sel) == Text.Join(rs, ',')
  {
    var keys :| Lists(keys, sel.Keys) && ListsEntries(rs, keys, sel);
    var texts: seq<string> :|
      && multiset(texts) == multiset(rs)
      && |texts| == |keys|
      && forall i :: 0 <= i < |keys| ==> keys[i] in sel && texts[i] == keys[i] + "=" + sel[keys[i]];
    EntriesInOrder(sel, keys, texts);
    ReqsAnyOrder(sel, keys);
    Text.SortStringsSorts(texts);
    Text.SortedUnique(rs, Reqs(sel));
  }

  lemma EntryTexts(sel: Selector, keys: seq<string>) returns (texts: seq<string>)
    requires Lists(keys, sel.Keys)
    ensures ListsEntries(texts, keys, sel)
  {
    forall i | 0 <= i < |keys| ensures keys[i] in sel {
      assert keys[i] in keys;
    }
    texts := seq(|keys|, i requires 0 <= i < |keys| => keys[i] + "=" + sel[keys[i]]);
  }

  lemma ListsEntriesPermuted(texts: seq<string>, rs: seq<string>, keys: seq<string>, sel: Selector)
    requires ListsEntries(texts, keys, sel) && multiset(rs) == multiset(texts)
    ensures ListsEntries(rs, keys, sel)
  {
  }

  /** There is such an arrangement for every selector. */
  lemma AscendingEntriesExist(sel: Selector) returns (rs: seq<string>)
    ensures AscendingEntries(rs, sel)
  {
    hide Text.Less, Text.SortStrings, Lists, ListsEntries;
    var keys := ListsExist(sel.Keys);
    var texts := EntryTexts(sel, keys);
    rs := Text.SortStrings(texts);
    Text.SortStringsSorts(texts);
    ListsEntriesPermuted(texts, rs, keys, sel);
  }

  /**
   The order of selectors in terms of the entries' texts: fewer entries first, and among equally many
   the lesser text of all entries in ascending order, joined by commas.
   */
  lemma LessExact(a: Selector, b: Selector, rs: seq<string>, ss: seq<string>)
    requires AscendingEntries(rs, a) && AscendingEntries(ss, b)
    ensures Less(a, b) <==> |a| < |b| || (|a| == |b| && Text.Less(Text.Join(rs, ','), Text.Join(ss, ',')))
  {
    hide AscendingEntries;
    SelectorTextExact(rs, a);
    SelectorTextExact(ss, b);
  }

  /** `ByReqs.Less`. */
  ghost predicate Less(a: Selector, b: Selector) {
    if |a| == |b| then Text.Less(SelectorText(a), SelectorText(b)) else |a| < |b|
  }

  /** A strict weak order on all selectors. */
  lemma LessIsStrictWeakOrder(a: Selector, b: Selector, c: Selector)
    ensures !(Less(a, b) && Less(b, a))
    ensures Less(a, b) && Less(b, c) ==> Less(a, c)
    ensures !Less(a, b) && !Less(b, c) ==> !Less(a, c)
    ensures !Less(a, b) && !Less(b, a) <==> |a| == |b| && SelectorText(a) == SelectorText(b)
  {
    var x, y, z := SelectorText(a), SelectorText(b), SelectorText(c);
    Text.LessTotal(x, y);
    Text.LessTotal(y, z);
    if !Text.Less(y, x) && !Text.Less(z, y) {
      Text.LessTransitive(x, y, z);
    }
    if !Text.Less(y, z) && !Text.Less(x, y) {
      Text.LessTransitive(z, y, x);
    }
  }

  /** Two selectors ask for the same: equal keys, the same octets for a MAC, the same text otherwise. */
  predicate SameEntries(a: Selector, b: Selector) {
    && a.Keys == b.Keys
    && forall k :: k in a ==> if IsMacKey(k) then Mac.ParseMAC(a[k]) == Mac.ParseMAC(b[k]) else a[k] == b[k]
  }

  /** Exactly then they are one selector once normalised, whatever notations their MACs are in. */
  lemma NormalizedSameExact(a: Selector, b: Selector)
    requires Normalizable(a) && Normalizable(b)
    ensures Normalized(a) == Normalized(b) <==> SameEntries(a, b)
  {
    assert a.Keys == b.Keys <==> Normalized(a).Keys == Normalized(b).Keys;
    forall k | k in a && k in b
      ensures Canonical(k, a[k]) == Canonical(k, b[k]) <==>
              if IsMacKey(k) then Mac.ParseMAC(a[k]) == Mac.ParseMAC(b[k]) else a[k] == b[k]
    {
      if IsMacKey(k) {
        Mac.CanonicalDecides(a[k], b[k]);
      }
    }
    if a.Keys == b.Keys {
      assert forall k :: k in a ==> Normalized(a)[k] == Canonical(k, a[k]) && Normalized(b)[k] == Canonical(k, b[k]);
    }
  }

  // ---------- when equal texts mean equal selectors ----------

  /** What follows a requirement in a selector text: nothing, or a comma and more. */
  ghost predicate IsRest(rest: string) {
    rest != "" ==> rest[0] == ','
  }

  ghost predicate SameText(k: string, v: string, rest: string, l: string, w: string, rest': string) {
    IsRest(rest) && IsRest(rest') && Req(k, v) + rest == Req(l, w) + rest'
  }

  /** Reading a text from the front can find at most one entry of `a` and `b` there. */
  ghost predicate Decodable(a: Selector, b: Selector) {
    forall k, l, rest, rest' ::
      k in a && l in b && SameText(k, a[k], rest, l, b[l], rest') ==> k == l && a[k] == b[l]
  }

  ghost predicate HasReq(sel: Selector, r: string) {
    exists k :: k in sel && r == Req(k, sel[k])
  }

  ghost predicate AreReqs(rs: seq<string>, sel: Selector) {
    forall i :: 0 <= i < |rs| ==> HasReq(sel, rs[i])
  }

  lemma ReqMember(sel: Selector, r: string)
    ensures r in Reqs(sel) <==> HasReq(sel, r)
  {
    var keys := KeyOrder(sel.Keys);
    var xs := FlatMap(ReqOf(sel), keys);
    Text.SortStringsSorts(xs);
    assert r in Reqs(sel) <==> r in multiset(Reqs(sel));
    assert r in xs <==> r in multiset(xs);
    FlatMapMember(ReqOf(sel), keys, r);
    if HasReq(sel, r) {
      var k :| k in sel && r == Req(k, sel[k]);
      var i :| 0 <= i < |keys| && keys[i] == k;
      assert r in ReqOf(sel)(keys[i]);
    }
  }

  /** The requirements are the entries' "key=value" texts in sorted order, one for each entry. */
  lemma ReqsShape(sel: Selector)
    ensures Text.Sorted(Reqs(sel)) && |Reqs(sel)| == |sel|
    ensures forall r :: r in Reqs(sel) <==> HasReq(sel, r)
  {
    var keys := KeyOrder(sel.Keys);
    var xs := FlatMap(ReqOf(sel), keys);
    Text.SortStringsSorts(xs);
    assert |multiset(Reqs(sel))| == |multiset(xs)|;
    SinglesLength(ReqOf(sel), keys);
    ListLength(keys, sel.Keys);
    forall r ensures r in Reqs(sel) <==> HasReq(sel, r) {
      ReqMember(sel, r);
    }
  }

  lemma {:induction false} SinglesLength(f: string -> seq<string>, keys: seq<string>)
    requires forall k :: k in keys ==> |f(k)| == 1
    ensures |FlatMap(f, keys)| == |keys|
  {
    if keys != [] {
      assert keys[0] in keys && forall k :: k in keys[1..] ==> k in keys;
      SinglesLength(f, keys[1..]);
    }
  }

  lemma {:induction false} ListLength(keys: seq<string>, s: set<string>)
    requires Lists(keys, s)
    ensures |keys| == |s|
  {
    if keys == [] {
      assert s == {};
    } else {
      assert keys[0] in keys && keys == [keys[0]] + keys[1..];
      ListLength(keys[1..], s - {keys[0]});
    }
  }

  lemma ReqsAreReqs(sel: Selector)
    ensures AreReqs(Reqs(sel), sel)
  {
    forall i | 0 <= i < |Reqs(sel)| ensures HasReq(sel, Reqs(sel)[i]) {
      ReqMember(sel, Reqs(sel)[i]);
    }
  }

  /** What stands before the requirements `rs` at the end of a text. */
  function RestText(rs: seq<string>): string {
    if rs == [] then "" else "," + Text.Join(rs, ',')
  }

  lemma RestStarts(rs: seq<string>)
    requires rs != []
    ensures RestText(rs) == "," + (rs[0] + RestText(rs[1..])) && IsRest(RestText(rs[1..]))
  {
  }

  /** Equal texts start with equal requirements, and go on equally. */
  lemma FirstReqDecodes(r: string, rest: string, s: string, rest': string, a: Selector, b: Selector)
    requires Decodable(a, b) && HasReq(a, r) && HasReq(b, s)
    requires IsRest(rest) && IsRest(rest') && r + rest == s + rest'
    ensures r == s && rest == rest'
  {
    var k :| k in a && r == Req(k, a[k]);
    var l :| l in b && s == Req(l, b[l]);
    assert SameText(k, a[k], rest, l, b[l], rest');
    assert r == s;
    hide *;
    assert rest == (r + rest)[|r|..] == (s + rest')[|s|..] == rest';
  }

  lemma {:induction false} TextDecodes(rs: seq<string>, ss: seq<string>, a: Selector, b: Selector)
    requires Decodable(a, b) && AreReqs(rs, a) && AreReqs(ss, b)
    requires RestText(rs) == RestText(ss)
    ensures rs == ss
  {
    if rs != [] && ss != [] {
      hide Decodable, HasReq, RestText, IsRest;
      RestStarts(rs);
      RestStarts(ss);
      var rest, rest' := RestText(rs[1..]), RestText(ss[1..]);
      assert rs[0] + rest == RestText(rs)[1..] == RestText(ss)[1..] == ss[0] + rest';
      FirstReqDecodes(rs[0], rest, ss[0], rest', a, b);
      TextDecodes(rs[1..], ss[1..], a, b);
      assert rs == [rs[0]] + rs[1..] && ss == [ss[0]] + ss[1..];
    }
  }

  /** Every entry of `a` is an entry of `b`. */
  lemma EntriesDecoded(a: Selector, b: Selector)
    requires Decodable(a, b) && Reqs(a) == Reqs(b)
    ensures forall k :: k in a ==> k in b && a[k] == b[k]
  {
    forall k | k in a ensures k in b && a[k] == b[k] {
      var r := Req(k, a[k]);
      ReqMember(a, r);
      ReqMember(b, r);
      var l :| l in b && r == Req(l, b[l]);
      assert SameText(k, a[k], "", l, b[l], "");
    }
  }

  lemma NonEmptyReqs(sel: Selector)
    ensures Reqs(sel) == [] <==> sel == map[]
  {
    if sel != map[] {
      var k :| k in sel;
      ReqMember(sel, Req(k, sel[k]));
    } else if Reqs(sel) != [] {
      ReqMember(sel, Reqs(sel)[0]);
    }
  }

  lemma TextDecides(a: Selector, b: Selector)
    requires Decodable(a, b) && Decodable(b, a) && SelectorText(a) == SelectorText(b) && |a| == |b|
    ensures a == b
  {
    ReqsAreReqs(a);
    ReqsAreReqs(b);
    NonEmptyReqs(a);
    NonEmptyReqs(b);
    assert a == map[] <==> b == map[];
    TextDecodes(Reqs(a), Reqs(b), a, b);
    EntriesDecoded(a, b);
    EntriesDecoded(b, a);
  }

  // ---------- (1) keys without '=' and values without ',' ----------

  ghost predicate Separable(sel: Selector) {
    forall k :: k in sel ==> '=' !in k && ',' !in sel[k]
  }

  lemma SeparableDecodes(a: Selector, b: Selector)
    requires Separable(a) && Separable(b)
    ensures Decodable(a, b)
  {
    forall k, l, rest, rest' | k in a && l in b && SameText(k, a[k], rest, l, b[l], rest')
      ensures k == l && a[k] == b[l]
    {
      var v, w := "=" + a[k] + rest, "=" + b[l] + rest';
      assert k + v == Req(k, a[k]) + rest && l + w == Req(l, b[l]) + rest';
      Text.PieceDetermined(k, l, '=', v, w);
      assert a[k] + rest == v[1..] && b[l] + rest' == w[1..];
      Text.PieceDetermined(a[k], b[l], ',', rest, rest');
    }
  }

  /** On selectors with '='-free keys and ','-free values `Less` is a strict total order. */
  lemma LessIsTotalOnSeparable(a: Selector, b: Selector)
    requires Separable(a) && Separable(b)
    ensures Less(a, b) || Less(b, a) || a == b
  {
    LessIsStrictWeakOrder(a, b, a);
    if !Less(a, b) && !Less(b, a) {
      SeparableDecodes(a, b);
      SeparableDecodes(b, a);
      TextDecides(a, b);
    }
  }

  // ---------- (2) selectors matched by the same labels ----------

  /** `l` starts with `k` and an equals sign. */
  predicate Extends(k: string, l: string) {
    |k| < |l| && l[..|k|] == k && l[|k|] == '='
  }

  ghost predicate Unambiguous(keys: set<string>) {
    forall k, l :: k in keys && l in keys ==> !Extends(k, l)
  }

  lemma EqualsFreeUnambiguous(keys: set<string>)
    requires forall k :: k in keys ==> '=' !in k
    ensures Unambiguous(keys)
  {
  }

  lemma MatchedDecodes(a: Selector, b: Selector, labels: Labels, keys: set<string>)
    requires Matches(a, labels) && Matches(b, labels)
    requires a.Keys <= keys && b.Keys <= keys && Unambiguous(keys)
    ensures Decodable(a, b)
  {
    forall k, l, rest, rest' | k in a && l in b && SameText(k, a[k], rest, l, b[l], rest')
      ensures k == l && a[k] == b[l]
    {
      SameStart(k, a[k], rest, l, b[l], rest');
      hide SameText, Extends;
      assert !Extends(k, l) && !Extends(l, k);
    }
  }

  lemma SameStart(k: string, v: string, rest: string, l: string, w: string, rest': string)
    requires SameText(k, v, rest, l, w, rest')
    ensures k == l || Extends(k, l) || Extends(l, k)
  {
    assert k + "=" + (v + rest) == Req(k, v) + rest;
    assert l + "=" + (w + rest') == Req(l, w) + rest';
    SharedStart(k, l, v + rest, w + rest');
  }

  /** Two keys in front of an equals sign at the start of one text: equal, or one extends the other. */
  lemma SharedStart(k: string, l: string, x: string, y: string)
    requires k + "=" + x == l + "=" + y
    ensures k == l || Extends(k, l) || Extends(l, k)
  {
    var t := k + "=" + x;
    assert t[..|k|] == k && t[|k|] == '=';
    assert t == l + "=" + y && t[..|l|] == l && t[|l|] == '=';
    if |k| < |l| {
      assert l[..|k|] == t[..|k|] && l[|k|] == t[|k|];
    } else if |l| < |k| {
      assert k[..|l|] == t[..|l|] && k[|l|] == t[|l|];
    }
  }

  /** Some labels match both selectors, and `Less` cannot tell them apart. */
  ghost predicate TiedMatches(a: Selector, b: Selector, labels: Labels) {
    Matches(a, labels) && Matches(b, labels) && !Less(a, b) && !Less(b, a)
  }

  /** Two selectors that match the same labels and tie under `Less` are the same selector. */
  lemma TiedMatchesAreEqual(a: Selector, b: Selector, labels: Labels, keys: set<string>)
    requires a.Keys <= keys && b.Keys <= keys && Unambiguous(keys)
    requires TiedMatches(a, b, labels)
    ensures a == b
  {
    LessIsStrictWeakOrder(a, b, a);
    MatchedDecodes(a, b, labels, keys);
    MatchedDecodes(b, a, labels, keys);
    TextDecides(a, b);
  }

  lemma SingletonText(k: string, v: string)
    ensures SelectorText(map[k := v]) == Req(k, v)
  {
    var sel := map[k := v];
    assert Lists([k], sel.Keys);
    ReqsAnyOrder(sel, [k]);
    assert FlatMap(ReqOf(sel), [k]) == [Req(k, v)];
    assert Reqs(sel) == [Req(k, v)];
  }

  /**
   The exact condition on the keys in use: tied matches are always equal if and only if no key is
   another key followed by '=' and more.
   */
  lemma UnambiguousExact(keys: set<string>)
    ensures Unambiguous(keys) <==>
            forall a: Selector, b: Selector, labels: Labels ::
              a.Keys <= keys && b.Keys <= keys && TiedMatches(a, b, labels) ==> a == b
  {
    if Unambiguous(keys) {
      forall a: Selector, b: Selector, labels: Labels | a.Keys <= keys && b.Keys <= keys && TiedMatches(a, b, labels)
        ensures a == b
      {
        TiedMatchesAreEqual(a, b, labels, keys);
      }
    } else {
      var k, l :| k in keys && l in keys && Extends(k, l);
      AmbiguousPair(k, l);
    }
  }

  /** A key with an equals sign in it is not "mac". */
  lemma ExtendingKeyIsNoMac(k: string, l: string)
    requires Extends(k, l)
    ensures !IsMacKey(l)
  {
    assert Mac.Lower(l)[|k|] == '=';
    assert forall i :: 0 <= i < |"mac"| ==> "mac"[i] != '=';
  }

  lemma AmbiguousPair(k: string, l: string)
    requires Extends(k, l)
    ensures var a, b := map[k := l[|k| + 1..] + "="], map[l := ""];
            a != b && TiedMatches(a, b, Some(a + b))
  {
    var v := l[|k| + 1..] + "=";
    var a, b := map[k := v], map[l := ""];
    SingletonText(k, v);
    SingletonText(l, "");
    assert l == k + "=" + l[|k| + 1..];
    assert Req(k, v) == Req(l, "");
    LessIsStrictWeakOrder(a, b, a);
    assert k in a && k !in b;
  }
}

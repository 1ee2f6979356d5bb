/** Choosing the Group for a machine: sort the listed groups by rank, take the first that matches. */
module Selection {
  import opened Results
  import opened Groups
  import Text

  datatype SelectError = NoMatchingGroup | NoMatchingProfile

  /** No later group outranks an earlier one: what `sort.Sort(sort.Reverse(ByReqs(...)))` leaves. */
  ghost predicate Ranked(gs: seq<Group>) {
    forall i, j :: 0 <= i < j < |gs| ==> !Less(gs[i].selector, gs[j].selector)
  }

  /** The answers that the sort's contract allows for one listing. */
  ghost predicate MaySelect(gs: seq<Group>, labels: Labels, r: Result<Group, SelectError>) {
    match r
    case Err(e) => e == NoMatchingGroup && forall h :: h in gs ==> !Matches(h.selector, labels)
    case Ok(g) =>
      && g in gs && Matches(g.selector, labels)
      && forall h :: h in gs && Matches(h.selector, labels) ==> !Less(g.selector, h.selector)
  }

  /** The scan over the sorted slice. */
  function FirstMatch(gs: seq<Group>, labels: Labels): Result<Group, SelectError> {
    if gs == [] then Err(NoMatchingGroup)
    else if Matches(gs[0].selector, labels) then Ok(gs[0])
    else FirstMatch(gs[1..], labels)
  }

  // ---------- the in-place sort and the scan ----------

  method LessAt(groups: array<Group>, i: nat, j: nat) returns (less: bool)
    requires i < groups.Length && j < groups.Length
    ensures less == Less(groups[i].selector, groups[j].selector)
  {
    if |groups[i].selector| == |groups[j].selector| {
      var a := SelectorString(groups[i].selector);
      var b := SelectorString(groups[j].selector);
      less := Text.Less(a, b);
    } else {
      less := |groups[i].selector| < |groups[j].selector|;
    }
  }

  method Swap(groups: array<Group>, i: nat, j: nat)
    requires i < groups.Length && j < groups.Length
    modifies groups
    ensures groups[..] == old(groups[..])[i := old(groups[j])][j := old(groups[i])]
    ensures multiset(groups[..]) == old(multiset(groups[..]))
  {
    groups[i], groups[j] := groups[j], groups[i];
  }

  /** Nothing in `gs[lo..hi]` outranks `g`. */
  ghost predicate Tops(g: Group, gs: seq<Group>, lo: nat, hi: nat)
    requires hi <= |gs|
  {
    forall k :: lo <= k < hi ==> !Less(g.selector, gs[k].selector)
  }

  lemma TopsExtend(g: Group, gs: seq<Group>, lo: nat, j: nat)
    requires lo <= j < |gs| && Tops(g, gs, lo, j)
    ensures Tops(if Less(g.selector, gs[j].selector) then gs[j] else g, gs, lo, j + 1)
  {
    var h := gs[j];
    LessIsStrictWeakOrder(h.selector, h.selector, h.selector);
    if Less(g.selector, h.selector) {
      forall k | lo <= k < j ensures !Less(h.selector, gs[k].selector) {
        LessIsStrictWeakOrder(g.selector, h.selector, gs[k].selector);
      }
    }
  }

  method FindTop(groups: array<Group>, from: nat) returns (m: nat)
    requires from < groups.Length
    ensures from <= m < groups.Length
    ensures Tops(groups[m], groups[..], from, groups.Length)
  {
    m := from;
    TopsExtend(groups[m], groups[..], from, from);
    var j := from + 1;
    while j < groups.Length
      invariant from <= m < j <= groups.Length
      invariant Tops(groups[m], groups[..], from, j)
    {
      TopsExtend(groups[m], groups[..], from, j);
      var less := LessAt(groups, m, j);
      if less {
        m := j;
      }
      j := j + 1;
    }
  }

  /** The state of the sort: the first `i` places are filled, by groups that nothing later outranks. */
  ghost predicate Filled(gs: seq<Group>, i: nat)
    requires i <= |gs|
  {
    forall k :: 0 <= k < i ==> Tops(gs[k], gs, k + 1, |gs|)
  }

  lemma FillNext(before: seq<Group>, i: nat, m: nat)
    requires i <= m < |before| && Filled(before, i) && Tops(before[m], before, i, |before|)
    ensures Filled(before[i := before[m]][m := before[i]], i + 1)
  {
    var after := before[i := before[m]][m := before[i]];
    forall k, j | 0 <= k <= i && k < j < |after| ensures !Less(after[k].selector, after[j].selector) {
      var source := if j == i then m else if j == m then i else j;
      assert after[j] == before[source];
      if k < i {
        assert Tops(before[k], before, k + 1, |before|);
      }
    }
  }

  /** One sort meeting the contract of `sort.Sort(sort.Reverse(ByReqs(groups)))`. */
  method SortByRank(groups: array<Group>)
    modifies groups
    ensures Ranked(groups[..])
    ensures multiset(groups[..]) == old(multiset(groups[..]))
  {
    var i := 0;
    while i < groups.Length
      invariant 0 <= i <= groups.Length
      invariant Filled(groups[..], i)
      invariant multiset(groups[..]) == old(multiset(groups[..]))
    {
      var m := FindTop(groups, i);
      FillNext(groups[..], i, m);
      Swap(groups, i, m);
      i := i + 1;
    }
    ghost var gs := groups[..];
    forall k, j | 0 <= k < j < |gs| ensures !Less(gs[k].selector, gs[j].selector) {
      assert Tops(gs[k], gs, k + 1, |gs|);
    }
  }

  /** `SelectGroup` on the slice the store listed; the slice is left sorted. */
  method SelectGroup(groups: array<Group>, labels: Labels) returns (r: Result<Group, SelectError>)
    modifies groups
    ensures Ranked(groups[..]) && multiset(groups[..]) == old(multiset(groups[..]))
    ensures r == FirstMatch(groups[..], labels)
    ensures MaySelect(old(groups[..]), labels, r)
  {
    SortByRank(groups);
    RankedAnswer(old(groups[..]), groups[..], labels);
    ghost var sorted := groups[..];
    var i := 0;
    while i < groups.Length
      invariant 0 <= i <= groups.Length
      invariant FirstMatch(sorted[i..], labels) == FirstMatch(sorted, labels)
      invariant groups[..] == sorted
    {
      assert sorted[i..][1..] == sorted[i + 1..];
      if Matches(groups[i].selector, labels) {
        return Ok(groups[i]);
      }
      i := i + 1;
    }
    return Err(NoMatchingGroup);
  }

  // ---------- exactly which answers an unstable sort allows ----------

  lemma {:induction false} FirstMatchAnswers(gs: seq<Group>, labels: Labels)
    requires Ranked(gs)
    ensures MaySelect(gs, labels, FirstMatch(gs, labels))
  {
    if gs != [] {
      FirstMatchAnswers(gs[1..], labels);
      LessIsStrictWeakOrder(gs[0].selector, gs[0].selector, gs[0].selector);
      assert gs == [gs[0]] + gs[1..];
      if Matches(gs[0].selector, labels) {
        forall h | h in gs ensures !Less(gs[0].selector, h.selector) {
          var k :| 0 <= k < |gs| && gs[k] == h;
        }
      }
    }
  }

  /** However the sort arranges equals, the first match of its result is an answer. */
  lemma RankedAnswer(gs: seq<Group>, sorted: seq<Group>, labels: Labels)
    requires Ranked(sorted) && multiset(sorted) == multiset(gs)
    ensures MaySelect(gs, labels, FirstMatch(sorted, labels))
  {
    FirstMatchAnswers(sorted, labels);
    assert forall g :: g in sorted <==> g in multiset(sorted);
    assert forall g :: g in gs <==> g in multiset(gs);
  }

  /** Insertion in front of all equals. */
  ghost function InsertFirst(g: Group, gs: seq<Group>): seq<Group> {
    if gs == [] || !Less(g.selector, gs[0].selector) then [g] + gs else [gs[0]] + InsertFirst(g, gs[1..])
  }

  ghost function RankSort(gs: seq<Group>): seq<Group> {
    if gs == [] then [] else InsertFirst(gs[0], RankSort(gs[1..]))
  }

  lemma {:induction false} InsertFirstPermutes(g: Group, gs: seq<Group>)
    ensures multiset(InsertFirst(g, gs)) == multiset(gs) + multiset{g}
    ensures forall h :: h in InsertFirst(g, gs) ==> h == g || h in gs
  {
    hide Less;
    if gs != [] && Less(g.selector, gs[0].selector) {
      InsertFirstPermutes(g, gs[1..]);
      assert gs == [gs[0]] + gs[1..];
    }
  }

  lemma RankedCons(g: Group, gs: seq<Group>)
    requires Ranked(gs) && forall h :: h in gs ==> !Less(g.selector, h.selector)
    ensures Ranked([g] + gs)
  {
  }

  lemma {:induction false} InsertFirstRanked(g: Group, gs: seq<Group>)
    requires Ranked(gs)
    ensures Ranked(InsertFirst(g, gs))
  {
    hide Less;
    if gs != [] {
      if Less(g.selector, gs[0].selector) {
        InsertFirstRanked(g, gs[1..]);
        InsertFirstPermutes(g, gs[1..]);
        LessIsStrictWeakOrder(g.selector, gs[0].selector, g.selector);
        RankedCons(gs[0], InsertFirst(g, gs[1..]));
      } else {
        forall h | h in gs ensures !Less(g.selector, h.selector) {
          LessIsStrictWeakOrder(gs[0].selector, gs[0].selector, gs[0].selector);
          LessIsStrictWeakOrder(g.selector, gs[0].selector, h.selector);
        }
        RankedCons(g, gs);
      }
    }
  }

  lemma {:induction false} RankSortRanks(gs: seq<Group>)
    ensures Ranked(RankSort(gs)) && multiset(RankSort(gs)) == multiset(gs)
  {
    hide Less, InsertFirst;
    if gs != [] {
      RankSortRanks(gs[1..]);
      InsertFirstRanked(gs[0], RankSort(gs[1..]));
      InsertFirstPermutes(gs[0], RankSort(gs[1..]));
      assert gs == [gs[0]] + gs[1..];
    }
  }

  lemma {:induction false} InsertFirstChosen(g: Group, gs: seq<Group>, labels: Labels)
    requires Matches(g.selector, labels)
    requires forall h :: h in gs && Matches(h.selector, labels) ==> !Less(g.selector, h.selector)
    ensures FirstMatch(InsertFirst(g, gs), labels) == Ok(g)
  {
    if gs != [] && Less(g.selector, gs[0].selector) {
      InsertFirstChosen(g, gs[1..], labels);
    }
  }

  /** Every answer arises: some arrangement that meets the sort's contract leads to it. */
  lemma AnswerArises(gs: seq<Group>, labels: Labels, r: Result<Group, SelectError>) returns (sorted: seq<Group>)
    requires MaySelect(gs, labels, r)
    ensures Ranked(sorted) && multiset(sorted) == multiset(gs) && FirstMatch(sorted, labels) == r
  {
    hide Less;
    if r.Ok? {
      var g := r.value;
      var i :| 0 <= i < |gs| && gs[i] == g;
      var others := gs[..i] + gs[i + 1..];
      assert gs == gs[..i] + [g] + gs[i + 1..];
      var ranked := RankSort(others);
      RankSortRanks(others);
      InsertFirstRanked(g, ranked);
      InsertFirstPermutes(g, ranked);
      forall h | h in ranked ensures h in gs {
        assert h in multiset(ranked) && h in multiset(others);
      }
      InsertFirstChosen(g, ranked, labels);
      sorted := InsertFirst(g, ranked);
    } else {
      sorted := RankSort(gs);
      RankSortRanks(gs);
      RankedAnswer(gs, sorted, labels);
    }
  }

  ghost predicate Reachable(gs: seq<Group>, labels: Labels, r: Result<Group, SelectError>) {
    exists sorted :: Ranked(sorted) && multiset(sorted) == multiset(gs) && FirstMatch(sorted, labels) == r
  }

  /** The answers are exactly the first matches of the ranked arrangements of the listing. */
  lemma AnswersExact(gs: seq<Group>, labels: Labels, r: Result<Group, SelectError>)
    ensures MaySelect(gs, labels, r) <==> Reachable(gs, labels, r)
  {
    if Reachable(gs, labels, r) {
      var sorted :| Ranked(sorted) && multiset(sorted) == multiset(gs) && FirstMatch(sorted, labels) == r;
      RankedAnswer(gs, sorted, labels);
    }
    if MaySelect(gs, labels, r) {
      var sorted := AnswerArises(gs, labels, r);
    }
  }

  // ---------- what the answer depends on ----------

  /** All keys used by the selectors of a listing. */
  ghost predicate KeysWithin(gs: seq<Group>, keys: set<string>) {
    forall g :: g in gs ==> g.selector.Keys <= keys
  }

  ghost predicate SameGroups(gs: seq<Group>, hs: seq<Group>) {
    forall g :: g in gs <==> g in hs
  }

  ghost predicate SameChoice(r: Result<Group, SelectError>, r': Result<Group, SelectError>) {
    r.Ok? == r'.Ok? && (r.Ok? ==> r.value.selector == r'.value.selector)
  }

  /**
   The selector chosen depends only on the set of listed groups and on the labels: not on the
   listing's order or duplicates, nor on what the sort does with equals.
   */
  lemma SelectionDetermined(gs: seq<Group>, hs: seq<Group>, labels: Labels,
                            r: Result<Group, SelectError>, r': Result<Group, SelectError>, keys: set<string>)
    requires SameGroups(gs, hs) && KeysWithin(gs, keys) && Unambiguous(keys)
    requires MaySelect(gs, labels, r) && MaySelect(hs, labels, r')
    ensures SameChoice(r, r')
  {
    if r.Ok? && r'.Ok? {
      TiedMatchesAreEqual(r.value.selector, r'.value.selector, labels, keys);
    }
  }

  /**
   With ambiguous keys one listing of two groups has two answers with different selectors. Unless the
   shorter key is a MAC key, the groups are normalised ones, as a store lists them.
   */
  lemma SelectionNeedsUnambiguousKeys(k: string, l: string) returns (g: Group, h: Group, labels: Labels)
    requires Extends(k, l)
    ensures g.selector.Keys == {k} && h.selector.Keys == {l} && g.selector != h.selector
    ensures MaySelect([g, h], labels, Ok(g)) && MaySelect([g, h], labels, Ok(h))
    ensures !IsMacKey(k) ==> && Normalizable(g.selector) && Normalized(g.selector) == g.selector
                             && Normalizable(h.selector) && Normalized(h.selector) == h.selector
  {
    hide MaySelect, TiedMatches, Normalizable, Normalized, IsMacKey, Extends;
    var a, b := AmbiguousSelectors(k, l);
    g, h, labels := Group("g", "", "p", a, None), Group("h", "", "p", b, None), Some(a + b);
    TiedSwap(a, b, labels);
    TiedPairAnswers(g, h, labels);
    TiedPairAnswers(h, g, labels);
  }

  lemma AmbiguousSelectors(k: string, l: string) returns (a: Selector, b: Selector)
    requires Extends(k, l)
    ensures a.Keys == {k} && b.Keys == {l} && a != b && TiedMatches(a, b, Some(a + b))
    ensures !IsMacKey(k) ==> && Normalizable(a) && Normalized(a) == a && Normalizable(b) && Normalized(b) == b
  {
    hide TiedMatches, Normalizable, Normalized, IsMacKey;
    a, b := map[k := l[|k| + 1..] + "="], map[l := ""];
    AmbiguousPair(k, l);
    NormalizedPair(k, l[|k| + 1..] + "=", l);
  }

  lemma TiedSwap(a: Selector, b: Selector, labels: Labels)
    ensures TiedMatches(a, b, labels) ==> TiedMatches(b, a, labels)
  {
    LessIsStrictWeakOrder(a, b, a);
  }

  lemma NormalizedPair(k: string, v: string, l: string)
    requires Extends(k, l)
    ensures !IsMacKey(k) ==> Normalizable(map[k := v]) && Normalized(map[k := v]) == map[k := v]
    ensures Normalizable(map[l := ""]) && Normalized(map[l := ""]) == map[l := ""]
  {
    ExtendingKeyIsNoMac(k, l);
  }

  lemma TiedPairAnswers(g: Group, h: Group, labels: Labels)
    requires TiedMatches(g.selector, h.selector, labels)
    ensures MaySelect([g, h], labels, Ok(g)) && MaySelect([h, g], labels, Ok(g))
  {
    LessIsStrictWeakOrder(g.selector, g.selector, g.selector);
    assert g in [g, h] && g in [h, g];
  }

  // ---------- how much of the group is determined ----------

  /** For every request, all answers have one value of `f`. */
  ghost predicate Determined<T>(gs: seq<Group>, f: Group -> T) {
    forall labels, r, r' :: MaySelect(gs, labels, r) && MaySelect(gs, labels, r') ==> AgreeOn(f, r, r')
  }

  ghost predicate AgreeOn<T>(f: Group -> T, r: Result<Group, SelectError>, r': Result<Group, SelectError>) {
    r.Ok? == r'.Ok? && (r.Ok? ==> f(r.value) == f(r'.value))
  }

  /** Listed groups with one selector have one value of `f`. */
  ghost predicate SelectorTells<T>(gs: seq<Group>, f: Group -> T) {
    forall g, h :: g in gs && h in gs && g.selector == h.selector ==> f(g) == f(h)
  }

  lemma {:induction false} LongerText(ss: set<string>) returns (t: string)
    ensures forall s :: s in ss ==> |s| < |t|
  {
    if ss == {} {
      t := "";
    } else {
      var s :| s in ss;
      var rest := LongerText(ss - {s});
      t := rest + s + "x";
    }
  }

  /** Labels that match `sel`, and that no entry under another of the `keys` matches. */
  function OnlyFor(sel: Selector, keys: set<string>, other: string): map<string, string> {
    map k | k in keys + sel.Keys :: if k in sel then sel[k] else other
  }

  lemma PartIsNotAbove(sel: Selector, part: Selector)
    requires forall k :: k in part ==> k in sel && part[k] == sel[k]
    ensures !Less(sel, part)
  {
    LessIsStrictWeakOrder(sel, sel, sel);
    assert part.Keys <= sel.Keys;
    SubsetSize(part.Keys, sel.Keys);
    if part.Keys == sel.Keys {
      assert part == sel;
    }
    hide SelectorText;
  }

  lemma SubsetSize(a: set<string>, b: set<string>)
    requires a <= b
    ensures |a| <= |b| && (|a| == |b| ==> a == b)
  {
    assert b == a + (b - a) && |b| == |a| + |b - a|;
  }

  /** Every selector of a listing is the choice for some labels, and then any group that has it may be the answer. */
  lemma EverySelectorChosen(gs: seq<Group>, sel: Selector) returns (labels: Labels)
    ensures forall g :: g in gs && g.selector == sel ==> MaySelect(gs, labels, Ok(g))
  {
    var values := set g, k | g in gs && k in g.selector :: g.selector[k];
    var keys := set g, k | g in gs && k in g.selector :: k;
    var other := LongerText(values);
    labels := Some(OnlyFor(sel, keys, other));
    forall h | h in gs && Matches(h.selector, labels) ensures !Less(sel, h.selector) {
      forall k | k in h.selector ensures k in sel && h.selector[k] == sel[k] {
        assert k in keys && h.selector[k] in values;
        assert Lookup(labels.value, k) == h.selector[k];
      }
      PartIsNotAbove(sel, h.selector);
    }
  }

  /** What the choice determines is told by the selectors, whatever their keys. */
  lemma DeterminedIsTold<T>(gs: seq<Group>, f: Group -> T)
    requires Determined(gs, f)
    ensures SelectorTells(gs, f)
  {
    hide MaySelect;
    forall g, h | g in gs && h in gs && g.selector == h.selector ensures f(g) == f(h) {
      var labels := EverySelectorChosen(gs, g.selector);
      assert AgreeOn(f, Result<Group, SelectError>.Ok(g), Result<Group, SelectError>.Ok(h));
    }
  }

  /**
   With unambiguous keys the choice determines exactly what the selectors of the listing tell: the
   group itself exactly when no two listed groups share a selector, its profile exactly when groups
   that share one have the same profile.
   */
  lemma DeterminedExact<T>(gs: seq<Group>, f: Group -> T, keys: set<string>)
    requires KeysWithin(gs, keys) && Unambiguous(keys)
    ensures Determined(gs, f) <==> SelectorTells(gs, f)
  {
    if Determined(gs, f) {
      DeterminedIsTold(gs, f);
    }
    if SelectorTells(gs, f) {
      forall labels, r, r' | MaySelect(gs, labels, r) && MaySelect(gs, labels, r') ensures AgreeOn(f, r, r') {
        SelectionDetermined(gs, gs, labels, r, r', keys);
      }
    }
  }

  function WholeGroup(): Group -> Group {
    g => g
  }

  /** And this needs the condition on the keys: exactly with it is every listing of distinct selectors determined. */
  lemma DistinctSelectorsExact(keys: set<string>)
    ensures Unambiguous(keys) <==>
            forall gs :: KeysWithin(gs, keys) && SelectorTells(gs, WholeGroup()) ==> Determined(gs, WholeGroup())
  {
    hide Determined, SelectorTells, WholeGroup, KeysWithin, Extends;
    if Unambiguous(keys) {
      hide Unambiguous;
      forall gs | KeysWithin(gs, keys) && SelectorTells(gs, WholeGroup()) ensures Determined(gs, WholeGroup()) {
        DeterminedExact(gs, WholeGroup(), keys);
      }
    } else {
      var k, l :| k in keys && l in keys && Extends(k, l);
      var gs := UndeterminedPair(k, l, keys);
    }
  }

  lemma UndeterminedPair(k: string, l: string, keys: set<string>) returns (gs: seq<Group>)
    requires k in keys && l in keys && Extends(k, l)
    ensures KeysWithin(gs, keys) && SelectorTells(gs, WholeGroup()) && !Determined(gs, WholeGroup())
  {
    hide MaySelect, SelectorTells, Determined, WholeGroup, Extends, Normalizable, Normalized, IsMacKey;
    var g, h, labels := SelectionNeedsUnambiguousKeys(k, l);
    gs := [g, h];
    PairUndetermined(g, h, labels);
  }

  lemma PairUndetermined(g: Group, h: Group, labels: Labels)
    requires g.selector != h.selector && MaySelect([g, h], labels, Ok(g)) && MaySelect([g, h], labels, Ok(h))
    ensures SelectorTells([g, h], WholeGroup()) && !Determined([g, h], WholeGroup())
  {
    hide MaySelect;
    assert !AgreeOn(WholeGroup(), Result<Group, SelectError>.Ok(g), Result<Group, SelectError>.Ok(h));
  }

  /**
   The most demanding match wins, and among equals the greatest text of its entries, joined by commas
   in ascending order; a group without selectors is chosen only for want of any other.
   */
  lemma MoreSelectorsWin(gs: seq<Group>, labels: Labels, g: Group, h: Group, rs: seq<string>, ss: seq<string>)
    requires MaySelect(gs, labels, Ok(g)) && h in gs && Matches(h.selector, labels)
    requires AscendingEntries(rs, g.selector) && AscendingEntries(ss, h.selector)
    ensures |h.selector| <= |g.selector|
    ensures |h.selector| == |g.selector| ==> !Text.Less(Text.Join(rs, ','), Text.Join(ss, ','))
    ensures g.selector == map[] ==> h.selector == map[]
  {
    assert !Less(g.selector, h.selector);
    SelectorTextExact(rs, g.selector);
    SelectorTextExact(ss, h.selector);
  }

  /**
   Of two matches with equally many entries, the one whose text is greater is selected before the other:
   whatever the listing, the other is no answer.
   */
  lemma GreaterTextWins(gs: seq<Group>, labels: Labels, g: Group, h: Group, rs: seq<string>, ss: seq<string>)
    requires g in gs && Matches(g.selector, labels) && |g.selector| == |h.selector|
    requires AscendingEntries(rs, g.selector) && AscendingEntries(ss, h.selector)
    requires Text.Less(Text.Join(ss, ','), Text.Join(rs, ','))
    ensures !MaySelect(gs, labels, Ok(h))
  {
    if MaySelect(gs, labels, Ok(h)) {
      MoreSelectorsWin(gs, labels, h, g, ss, rs);
    }
  }

  // ---------- adding and replacing a group ----------

  /** `hs` is `gs` without some groups other than the winner `g`, plus at most the group `added`. */
  ghost predicate Replaced(gs: seq<Group>, hs: seq<Group>, added: Option<Group>, winner: Result<Group, SelectError>) {
    && (forall h :: h in hs ==> h in gs || (added.Some? && h == added.value))
    && (added.Some? ==> added.value in hs)
    && (winner.Ok? ==> winner.value in hs)
  }

  /** The new group takes over from the winner `r`. */
  ghost predicate TakesOver(added: Option<Group>, labels: Labels, r: Result<Group, SelectError>) {
    && added.Some? && Matches(added.value.selector, labels)
    && (r.Ok? ==> Less(r.value.selector, added.value.selector))
  }

  /**
   A change that leaves the winner in place alters the choice exactly when the added group
   matches and outranks the winner (or nothing matched), and then the added selector is chosen.
   */
  lemma ReplacementEffect(gs: seq<Group>, hs: seq<Group>, labels: Labels, added: Option<Group>,
                          r: Result<Group, SelectError>, r': Result<Group, SelectError>, keys: set<string>)
    requires KeysWithin(gs, keys) && KeysWithin(hs, keys) && Unambiguous(keys)
    requires MaySelect(gs, labels, r) && MaySelect(hs, labels, r') && Replaced(gs, hs, added, r)
    ensures TakesOver(added, labels, r) ==> r' == Ok(added.value)
    ensures !TakesOver(added, labels, r) ==> SameChoice(r, r')
  {
    if r'.Ok? && r.Ok? {
      var s, t := r.value.selector, r'.value.selector;
      assert !Less(t, s);
      if TakesOver(added, labels, r) {
        var u := added.value.selector;
        assert !Less(t, u);
        LessIsStrictWeakOrder(s, u, t);
        LessIsStrictWeakOrder(u, t, s);
      } else if !Less(s, t) {
        TiedMatchesAreEqual(s, t, labels, keys);
      }
    }
  }
}

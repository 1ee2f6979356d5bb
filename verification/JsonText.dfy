/** The text of JSON documents, token by token, and what is left of it when its end is missing. */
module JsonText {
  import opened Documents
  import opened Enumerations
  import SortedKeys

  /** A leaf is a string, number, boolean or null, or the key of a field. */
  datatype Token = OpenObj | CloseObj | OpenArr | CloseArr | Comma | Colon | Leaf(value: Json)

  /** In which order the fields of each object are written. */
  type Order = Json -> seq<string>

  ghost predicate ValidOrder(order: Order) {
    forall j: Json :: j.Obj? ==> Lists(order(j), j.fields.Keys)
  }

  function Tokens(order: Order, j: Json): seq<Token>
    decreases j, 1, 0
  {
    match j
    case Arr(elems) => [OpenArr] + Elements(order, j, 0)
    case Obj(_) => [OpenObj] + Members(order, j, 0)
    case _ => [Leaf(j)]
  }

  function Separator(i: nat): seq<Token> {
    if i > 0 then [Comma] else []
  }

  /** An array's elements from the `i`-th on, and its end. */
  function Elements(order: Order, j: Json, i: nat): seq<Token>
    requires j.Arr? && i <= |j.elems|
    decreases j, 0, |j.elems| - i
  {
    if i == |j.elems| then [CloseArr]
    else Separator(i) + (Tokens(order, j.elems[i]) + Elements(order, j, i + 1))
  }

  /** An object's fields from the `i`-th on, and its end. */
  function Members(order: Order, j: Json, i: nat): seq<Token>
    requires j.Obj? && i <= |order(j)|
    decreases j, 0, |order(j)| - i
  {
    if i == |order(j)| then [CloseObj]
    else
      var k := order(j)[i];
      var field := if k in j.fields then Tokens(order, j.fields[k]) else [];
      Separator(i) + ([Leaf(Str(k)), Colon] + (field + Members(order, j, i + 1)))
  }

  /** Texts with a comma between any two. */
  function CommaJoin(parts: seq<seq<Token>>): seq<Token> {
    if |parts| == 0 then [] else if |parts| == 1 then parts[0] else parts[0] + [Comma] + CommaJoin(parts[1..])
  }

  lemma CommaJoinNothing()
    ensures CommaJoin([]) == []
  {
  }

  lemma CommaJoinFrom(parts: seq<seq<Token>>, i: nat)
    requires i < |parts|
    ensures CommaJoin(parts[i..]) ==
            if i + 1 == |parts| then parts[i] else parts[i] + ([Comma] + CommaJoin(parts[i + 1..]))
  {
    assert parts[i..][1..] == parts[i + 1..];
    if i + 1 < |parts| {
      Shift(parts[i], [Comma], CommaJoin(parts[i + 1..]));
    }
  }

  lemma {:induction false} ElementsText(order: Order, j: Json, parts: seq<seq<Token>>, i: nat)
    requires j.Arr? && |parts| == |j.elems| && i < |parts|
    requires forall n :: 0 <= n < |parts| ==> parts[n] == Tokens(order, j.elems[n])
    ensures Elements(order, j, i) == Separator(i) + (CommaJoin(parts[i..]) + [CloseArr])
    decreases |parts| - i
  {
    hide Tokens, CommaJoin;
    CommaJoinFrom(parts, i);
    if i + 1 < |parts| {
      ElementsText(order, j, parts, i + 1);
      Shift(parts[i], [Comma] + CommaJoin(parts[i + 1..]), [CloseArr]);
      Shift([Comma], CommaJoin(parts[i + 1..]), [CloseArr]);
    }
  }

  /** An array's text: its elements' texts in order with commas between, in square brackets. */
  lemma ArrayText(order: Order, j: Json, parts: seq<seq<Token>>)
    requires j.Arr? && |parts| == |j.elems|
    requires forall n :: 0 <= n < |parts| ==> parts[n] == Tokens(order, j.elems[n])
    ensures Tokens(order, j) == [OpenArr] + (CommaJoin(parts) + [CloseArr])
  {
    assert Tokens(order, j) == [OpenArr] + Elements(order, j, 0);
    hide Tokens;
    if parts != [] {
      hide Elements;
      ElementsText(order, j, parts, 0);
      assert parts[0..] == parts && Separator(0) == [];
    }
  }

  /** `text` is the field `k` of the object: its key, a colon and its value. */
  predicate IsFieldText(text: seq<Token>, order: Order, j: Json, k: string)
    requires j.Obj?
  {
    k in j.fields && text == [Leaf(Str(k)), Colon] + Tokens(order, j.fields[k])
  }

  lemma {:induction false} MembersText(order: Order, j: Json, parts: seq<seq<Token>>, i: nat)
    requires j.Obj? && |parts| == |order(j)| && i < |parts|
    requires forall n :: 0 <= n < |parts| ==> IsFieldText(parts[n], order, j, order(j)[n])
    ensures Members(order, j, i) == Separator(i) + (CommaJoin(parts[i..]) + [CloseObj])
    decreases |parts| - i
  {
    hide Tokens, CommaJoin;
    CommaJoinFrom(parts, i);
    var k := order(j)[i];
    if i + 1 < |parts| {
      MembersText(order, j, parts, i + 1);
      Shift(parts[i], [Comma] + CommaJoin(parts[i + 1..]), [CloseObj]);
      Shift([Comma], CommaJoin(parts[i + 1..]), [CloseObj]);
    }
    Shift([Leaf(Str(k)), Colon], Tokens(order, j.fields[k]), Members(order, j, i + 1));
  }

  lemma ObjectTokens(order: Order, j: Json)
    requires j.Obj?
    ensures Tokens(order, j) == [OpenObj] + Members(order, j, 0)
    ensures order(j) == [] ==> Members(order, j, 0) == [CloseObj]
  {
  }

  /** An object's text: every field as key, colon and value, with commas between, in braces. */
  lemma ObjectText(order: Order, j: Json, parts: seq<seq<Token>>)
    requires j.Obj? && |parts| == |order(j)|
    requires forall n :: 0 <= n < |parts| ==> IsFieldText(parts[n], order, j, order(j)[n])
    ensures Tokens(order, j) == [OpenObj] + (CommaJoin(parts) + [CloseObj])
  {
    hide Tokens, IsFieldText, CommaJoin, Members;
    ObjectTokens(order, j);
    if parts == [] {
      CommaJoinNothing();
    } else {
      MembersText(order, j, parts, 0);
      FirstPart(parts, CloseObj);
    }
  }

  lemma FirstPart(parts: seq<seq<Token>>, close: Token)
    ensures Separator(0) + (CommaJoin(parts[0..]) + [close]) == CommaJoin(parts) + [close]
  {
    hide CommaJoin;
    assert parts[0..] == parts;
  }

  // ---------- nesting ----------

  function Step(t: Token): int {
    match t
    case OpenObj => 1
    case OpenArr => 1
    case CloseObj => -1
    case CloseArr => -1
    case _ => 0
  }

  /** How many brackets are open after `ts`. */
  function Depth(ts: seq<Token>): int {
    if ts == [] then 0 else Depth(ts[..|ts| - 1]) + Step(ts[|ts| - 1])
  }

  lemma {:induction false} DepthConcat(a: seq<Token>, b: seq<Token>)
    ensures Depth(a + b) == Depth(a) + Depth(b)
    decreases |b|
  {
    if b == [] {
      assert a + b == a;
    } else {
      DepthConcat(a, b[..|b| - 1]);
      assert (a + b)[..|a + b| - 1] == a + b[..|b| - 1];
    }
  }

  /** Nothing but the last token closes more than was opened, and the last brings the depth to `d`. */
  ghost predicate Nested(ts: seq<Token>, d: int) {
    Depth(ts) == d && forall n :: 0 <= n < |ts| ==> Depth(ts[..n]) >= 0
  }

  lemma NestedConcat(a: seq<Token>, b: seq<Token>, d: int)
    requires Nested(a, 0) && Nested(b, d)
    ensures Nested(a + b, d)
  {
    DepthConcat(a, b);
    forall n | 0 <= n < |a + b| ensures Depth((a + b)[..n]) >= 0 {
      if n < |a| {
        assert (a + b)[..n] == a[..n];
      } else {
        assert (a + b)[..n] == a + b[..n - |a|];
        DepthConcat(a, b[..n - |a|]);
      }
    }
  }

  lemma NestedToken(t: Token)
    ensures Nested([t], Step(t))
  {
    assert [t][..0] == [] && Depth([t]) == Step(t);
  }

  /** After an opening bracket the depth is positive up to the last token. */
  lemma OpenUntilEnd(open: Token, ts: seq<Token>, n: nat)
    requires Step(open) == 1 && Nested(ts, -1) && 0 < n < |[open] + ts|
    ensures Depth(([open] + ts)[..n]) > 0
  {
    assert ([open] + ts)[..n] == [open] + ts[..n - 1];
    DepthConcat([open], ts[..n - 1]);
    NestedToken(open);
  }

  lemma NestedBrackets(open: Token, ts: seq<Token>)
    requires Step(open) == 1 && Nested(ts, -1)
    ensures Nested([open] + ts, 0)
  {
    NestedToken(open);
    DepthConcat([open], ts);
    forall n | 0 <= n < |[open] + ts| ensures Depth(([open] + ts)[..n]) >= 0 {
      if n > 0 {
        OpenUntilEnd(open, ts, n);
      }
    }
  }

  lemma NestedSeparator(i: nat)
    ensures Nested(Separator(i), 0)
  {
    if i > 0 {
      NestedToken(Comma);
    }
  }

  lemma {:induction false} TokensNested(order: Order, j: Json)
    ensures Nested(Tokens(order, j), 0)
    decreases j, 1, 0
  {
    hide Nested;
    match j {
      case Arr(elems) =>
        ElementsNested(order, j, 0);
        NestedBrackets(OpenArr, Elements(order, j, 0));
      case Obj(_) =>
        MembersNested(order, j, 0);
        NestedBrackets(OpenObj, Members(order, j, 0));
      case _ => NestedToken(Leaf(j));
    }
  }

  lemma {:induction false} ElementsNested(order: Order, j: Json, i: nat)
    requires j.Arr? && i <= |j.elems|
    ensures Nested(Elements(order, j, i), -1)
    decreases j, 0, |j.elems| - i
  {
    hide Nested, Separator;
    if i == |j.elems| {
      NestedToken(CloseArr);
    } else {
      TokensNested(order, j.elems[i]);
      ElementsNested(order, j, i + 1);
      NestedSeparator(i);
      NestedConcat(Tokens(order, j.elems[i]), Elements(order, j, i + 1), -1);
      NestedConcat(Separator(i), Tokens(order, j.elems[i]) + Elements(order, j, i + 1), -1);
    }
  }

  lemma {:induction false} MembersNested(order: Order, j: Json, i: nat)
    requires j.Obj? && i <= |order(j)|
    ensures Nested(Members(order, j, i), -1)
    decreases j, 0, |order(j)| - i
  {
    if i == |order(j)| {
      NestedToken(CloseObj);
    } else {
      var k := order(j)[i];
      var field := if k in j.fields then Tokens(order, j.fields[k]) else [];
      assert Nested(field, 0) by {
        if k in j.fields {
          TokensNested(order, j.fields[k]);
        }
      }
      hide Nested, Separator, Tokens;
      MembersNested(order, j, i + 1);
      NestedSeparator(i);
      NestedToken(Leaf(Str(k)));
      NestedToken(Colon);
      NestedConcat([Leaf(Str(k))], [Colon], 0);
      assert [Leaf(Str(k))] + [Colon] == [Leaf(Str(k)), Colon];
      NestedConcat(field, Members(order, j, i + 1), -1);
      NestedConcat([Leaf(Str(k)), Colon], field + Members(order, j, i + 1), -1);
      NestedConcat(Separator(i), [Leaf(Str(k)), Colon] + (field + Members(order, j, i + 1)), -1);
    }
  }

  // ---------- a text is the text of one value ----------

  lemma Cancel<T>(a: seq<T>, b: seq<T>, c: seq<T>)
    requires a + b == a + c
    ensures b == c
  {
    assert b == (a + b)[|a|..] && c == (a + c)[|a|..];
  }

  lemma TokensStart(order: Order, j: Json)
    ensures Tokens(order, j) != [] && Tokens(order, j)[0] !in {CloseArr, CloseObj, Comma, Colon}
    ensures Tokens(order, j)[0].OpenArr? <==> j.Arr?
    ensures Tokens(order, j)[0].OpenObj? <==> j.Obj?
  {
    hide Elements, Members;
  }

  /** The value at the front of a text, and what follows it, can be read in one way only. */
  lemma {:induction false} TokensDecode(o: Order, j: Json, r: seq<Token>, o': Order, j': Json, r': seq<Token>)
    requires ValidOrder(o) && ValidOrder(o')
    requires Tokens(o, j) + r == Tokens(o', j') + r'
    ensures j == j' && r == r'
    decreases j, 1, 0
  {
    hide ValidOrder, Elements, Members;
    TokensStart(o, j);
    TokensStart(o', j');
    assert Tokens(o, j)[0] == (Tokens(o, j) + r)[0] == Tokens(o', j')[0];
    match j {
      case Arr(elems) =>
        Shift([OpenArr], Elements(o, j, 0), r);
        Shift([OpenArr], Elements(o', j', 0), r');
        Cancel([OpenArr], Elements(o, j, 0) + r, Elements(o', j', 0) + r');
        ElementsDecode(o, j, r, o', j', r', 0);
        assert j.elems == j'.elems;
      case Obj(_) =>
        Shift([OpenObj], Members(o, j, 0), r);
        Shift([OpenObj], Members(o', j', 0), r');
        Cancel([OpenObj], Members(o, j, 0) + r, Members(o', j', 0) + r');
        MembersDecode(o, j, r, o', j', r', 0);
        FieldsListed(o, j, o', j');
      case _ =>
        Cancel([Leaf(j)], r, r');
    }
  }

  lemma {:induction false} ElementsDecode(o: Order, j: Json, r: seq<Token>, o': Order, j': Json, r': seq<Token>, i: nat)
    requires ValidOrder(o) && ValidOrder(o') && j.Arr? && j'.Arr? && i <= |j.elems| && i <= |j'.elems|
    requires Elements(o, j, i) + r == Elements(o', j', i) + r'
    ensures |j.elems| == |j'.elems| && r == r'
    ensures forall n :: i <= n < |j.elems| ==> j.elems[n] == j'.elems[n]
    decreases j, 0, |j.elems| - i
  {
    hide ValidOrder, Tokens;
    ElementsStart(o, j, i, r);
    ElementsStart(o', j', i, r');
    if i == |j.elems| {
      Cancel([CloseArr], r, r');
    } else {
      var rest, rest' := Elements(o, j, i + 1) + r, Elements(o', j', i + 1) + r';
      Cancel(Separator(i), Tokens(o, j.elems[i]) + rest, Tokens(o', j'.elems[i]) + rest');
      TokensDecode(o, j.elems[i], rest, o', j'.elems[i], rest');
      ElementsDecode(o, j, r, o', j', r', i + 1);
    }
  }

  /** How the rest of an array starts, which also tells whether it has ended. */
  lemma ElementsStart(o: Order, j: Json, i: nat, r: seq<Token>)
    requires j.Arr? && i <= |j.elems|
    ensures Elements(o, j, i) != []
    ensures (Elements(o, j, i) + r)[0] == CloseArr <==> i == |j.elems|
    ensures i < |j.elems| ==>
              Elements(o, j, i) + r == Separator(i) + (Tokens(o, j.elems[i]) + (Elements(o, j, i + 1) + r))
  {
    if i < |j.elems| {
      TokensStart(o, j.elems[i]);
      hide Tokens;
      var ts, rest := Tokens(o, j.elems[i]), Elements(o, j, i + 1);
      assert Elements(o, j, i) == Separator(i) + (ts + rest);
      hide Elements;
      Shift(Separator(i), ts + rest, r);
      Shift(ts, rest, r);
      assert (Separator(i) + (ts + rest))[0] != CloseArr;
    }
  }

  lemma {:induction false} MembersDecode(o: Order, j: Json, r: seq<Token>, o': Order, j': Json, r': seq<Token>, i: nat)
    requires ValidOrder(o) && ValidOrder(o') && j.Obj? && j'.Obj? && i <= |o(j)| && i <= |o'(j')|
    requires Members(o, j, i) + r == Members(o', j', i) + r'
    ensures |o(j)| == |o'(j')| && r == r'
    ensures forall n :: i <= n < |o(j)| ==> SameField(j, o(j)[n], j', o'(j')[n])
    decreases j, 0, |o(j)| - i
  {
    hide ValidOrder, Tokens;
    MembersStart(o, j, i, r);
    MembersStart(o', j', i, r');
    if i == |o(j)| {
      Cancel([CloseObj], r, r');
    } else {
      var k, k' := o(j)[i], o'(j')[i];
      var rest, rest' := Members(o, j, i + 1) + r, Members(o', j', i + 1) + r';
      var field, field' := Tokens(o, j.fields[k]) + rest, Tokens(o', j'.fields[k']) + rest';
      Cancel(Separator(i), [Leaf(Str(k)), Colon] + field, [Leaf(Str(k')), Colon] + field');
      assert Leaf(Str(k)) == ([Leaf(Str(k)), Colon] + field)[0] == ([Leaf(Str(k')), Colon] + field')[0];
      Cancel([Leaf(Str(k)), Colon], field, field');
      TokensDecode(o, j.fields[k], rest, o', j'.fields[k'], rest');
      MembersDecode(o, j, r, o', j', r', i + 1);
    }
  }

  /** Both objects have the field, with one value. */
  predicate SameField(j: Json, k: string, j': Json, k': string)
    requires j.Obj? && j'.Obj?
  {
    k == k' && k in j.fields && k in j'.fields && j.fields[k] == j'.fields[k]
  }

  lemma MembersStart(o: Order, j: Json, i: nat, r: seq<Token>)
    requires ValidOrder(o) && j.Obj? && i <= |o(j)|
    ensures Members(o, j, i) != []
    ensures (Members(o, j, i) + r)[0] == CloseObj <==> i == |o(j)|
    ensures i < |o(j)| ==>
              var k := o(j)[i];
              && k in j.fields
              && Members(o, j, i) + r ==
                 Separator(i) + ([Leaf(Str(k)), Colon] + (Tokens(o, j.fields[k]) + (Members(o, j, i + 1) + r)))
  {
    if i < |o(j)| {
      var k := o(j)[i];
      assert k in o(j);
      hide ValidOrder, Tokens;
      var name, ts, rest := [Leaf(Str(k)), Colon], Tokens(o, j.fields[k]), Members(o, j, i + 1);
      assert Members(o, j, i) == Separator(i) + (name + (ts + rest));
      hide Members;
      Shift(Separator(i), name + (ts + rest), r);
      Shift(name, ts + rest, r);
      Shift(ts, rest, r);
      assert (Separator(i) + (name + (ts + rest)))[0] != CloseObj;
    }
  }

  lemma FieldsListed(o: Order, j: Json, o': Order, j': Json)
    requires ValidOrder(o) && ValidOrder(o') && j.Obj? && j'.Obj? && |o(j)| == |o'(j')|
    requires forall n :: 0 <= n < |o(j)| ==> SameField(j, o(j)[n], j', o'(j')[n])
    ensures j == j'
  {
    forall k | k in j.fields || k in j'.fields ensures SameField(j, k, j', k) {
      assert k in j.fields <==> k in o(j);
      assert k in j'.fields <==> k in o'(j');
    }
    assert j.fields == j'.fields;
  }

  /** One text is the text of one value, whatever the order of the fields. */
  lemma TextDecides(o: Order, j: Json, o': Order, j': Json)
    requires ValidOrder(o) && ValidOrder(o') && Tokens(o, j) == Tokens(o', j')
    ensures j == j'
  {
    hide ValidOrder, Tokens;
    TokensDecode(o, j, [], o', j', []);
  }

  /** There is an order: `encoding/json` sorts the keys of maps. */
  lemma OrderExists() returns (order: Order)
    ensures ValidOrder(order)
  {
    order := (j: Json) => if j.Obj? then SortedKeys.Sorted(j.fields.Keys) else [];
    forall j: Json | j.Obj? ensures Lists(order(j), j.fields.Keys) {
      SortedKeys.SortedAnyOrder(SortedKeys.KeyOrder(j.fields.Keys), j.fields.Keys);
    }
  }

  // ---------- whole and torn text ----------

  /** What a reader makes of a file's text. */
  ghost function Seen(ts: seq<Token>): Bytes {
    if exists order, j :: ValidOrder(order) && Tokens(order, j) == ts
    then
      var order, j :| ValidOrder(order) && Tokens(order, j) == ts;
      Encoded(j)
    else Raw("")
  }

  /** `ts` is the whole text of a document. */
  ghost predicate WholeOf(ts: seq<Token>, data: Bytes) {
    data.Encoded? && exists order :: ValidOrder(order) && Tokens(order, data.json) == ts
  }

  /** A whole text reads back as the document it was written for. */
  lemma WholeIsSeen(ts: seq<Token>, data: Bytes)
    requires WholeOf(ts, data)
    ensures Seen(ts) == data
  {
    hide ValidOrder, Tokens;
    var o :| ValidOrder(o) && Tokens(o, data.json) == ts;
    var o', j' :| ValidOrder(o') && Tokens(o', j') == ts && Seen(ts) == Encoded(j');
    TextDecides(o, data.json, o', j');
  }

  lemma WholeExists(data: Bytes) returns (ts: seq<Token>)
    requires data.Encoded?
    ensures WholeOf(ts, data)
  {
    hide ValidOrder, Tokens;
    var order := OrderExists();
    ts := Tokens(order, data.json);
  }

  /** A text cut off somewhere: whole tokens, then perhaps the start of a leaf, which may read as a leaf itself. */
  ghost predicate Torn(ts: seq<Token>, order: Order, j: Json) {
    exists n: nat, cut :: IsCut(ts, Tokens(order, j), n, cut)
  }

  ghost predicate IsCut(ts: seq<Token>, whole: seq<Token>, n: nat, cut: seq<Token>) {
    && n < |whole|
    && ts == whole[..n] + cut
    && |cut| <= 1
    && (cut != [] ==> cut[0].Leaf? && whole[n].Leaf?)
  }

  lemma TornDepth(ts: seq<Token>, inner: seq<Token>, n: nat, cut: seq<Token>)
    requires Nested(inner, -1) && IsCut(ts, [OpenObj] + inner, n, cut)
    ensures ts == [] || Depth(ts) > 0
  {
    var whole := [OpenObj] + inner;
    if n == 0 {
      assert whole[0] == OpenObj;
    } else {
      OpenUntilEnd(OpenObj, inner, n);
      hide Nested;
      DepthConcat(whole[..n], cut);
      assert cut != [] ==> cut[..0] == [];
    }
  }

  /** The torn text of an object is the text of no value: its first brace is still open. */
  lemma TornIsNoJson(ts: seq<Token>, order: Order, j: Json, order': Order, j': Json)
    requires j.Obj? && Torn(ts, order, j)
    ensures ts != Tokens(order', j')
  {
    hide Members, Elements, IsCut;
    var n: nat, cut :| IsCut(ts, Tokens(order, j), n, cut);
    MembersNested(order, j, 0);
    TornDepth(ts, Members(order, j, 0), n, cut);
    TokensNested(order', j');
    TokensStart(order', j');
  }

  lemma TornIsRaw(ts: seq<Token>, order: Order, j: Json)
    requires j.Obj? && Torn(ts, order, j)
    ensures Seen(ts) == Raw("")
  {
    hide Tokens, Torn;
    forall order', j' ensures Tokens(order', j') != ts {
      TornIsNoJson(ts, order, j, order', j');
    }
  }

  /** `ts` is what has been written so far of a document, which is an object, and not all of it. */
  ghost predicate PartOf(ts: seq<Token>, data: Bytes) {
    data.Encoded? && data.json.Obj? && exists order :: ValidOrder(order) && Torn(ts, order, data.json)
  }

  lemma PartIsRaw(ts: seq<Token>, data: Bytes)
    requires PartOf(ts, data)
    ensures Seen(ts) == Raw("")
  {
    hide Torn, Seen, ValidOrder;
    var order :| ValidOrder(order) && Torn(ts, order, data.json);
    TornIsRaw(ts, order, data.json);
  }

  lemma NothingIsRaw()
    ensures Seen([]) == Raw("")
  {
    hide Tokens;
    forall order, j ensures Tokens(order, j) != [] {
      TokensStart(order, j);
    }
  }
}

/** The values that templates and the env file see: decoded JSON, and Go's `map[string]string`. */
module Values {
  import D = Documents

  /** A number is held as the text that `%v` prints for it. */
  datatype Value =
    | Nil
    | Bool(b: bool)
    | Num(text: string)
    | Str(s: string)
    | Arr(elems: seq<Value>)
    | Obj(fields: map<string, Value>)
    | Labels(labels: map<string, string>)

  /** What decoding a document into an empty interface yields. */
  function Decoded(j: D.Json): Value {
    match j
    case Null => Nil
    case Bool(b) => Bool(b)
    case Num(text) => Num(text)
    case Str(s) => Str(s)
    case Arr(elems) => Arr(seq(|elems|, i requires 0 <= i < |elems| => Decoded(elems[i])))
    case Obj(fields) => Obj(map k | k in fields :: Decoded(fields[k]))
  }

  /** Decoding loses nothing. */
  lemma {:induction false} DecodedInjective(j: D.Json, k: D.Json)
    requires Decoded(j) == Decoded(k)
    ensures j == k
    decreases j
  {
    match j {
      case Arr(elems) =>
        assert |Decoded(j).elems| == |Decoded(k).elems|;
        forall i | 0 <= i < |elems| ensures elems[i] == k.elems[i] {
          assert Decoded(j).elems[i] == Decoded(k).elems[i];
          DecodedInjective(elems[i], k.elems[i]);
        }
      case Obj(fields) =>
        assert fields.Keys == Decoded(j).fields.Keys == Decoded(k).fields.Keys == k.fields.Keys;
        forall x | x in fields ensures x in k.fields && fields[x] == k.fields[x] {
          assert x in k.fields.Keys;
          assert Decoded(j).fields[x] == Decoded(k).fields[x];
          DecodedInjective(fields[x], k.fields[x]);
        }
        assert fields == k.fields;
      case _ =>
    }
  }

  function DecodedFields(fields: map<string, D.Json>): map<string, Value> {
    map k | k in fields :: Decoded(fields[k])
  }
}

/** Request labels, and the variables collected for templates and metadata. */
module Variables {
  import opened Results
  import opened Enumerations
  import opened Groups
  import opened Formats
  import opened Values
  import D = Documents
  import Mac

  /** The parsed query of a request: every key has the list of its values. */
  type Query = map<string, seq<string>>

  /** `url.Values.Get`: the first value, or "". */
  function Get(query: Query, key: string): string {
    if key in query && query[key] != [] then query[key][0] else ""
  }

  // ---------- labels ----------

  predicate Kept(query: Query, key: string) {
    key in query && (IsMacKey(key) ==> Mac.ParseMAC(Get(query, key)).Some?)
  }

  function RequestLabels(query: Query): map<string, string> {
    map key | key in query && Kept(query, key) :: Canonical(key, Get(query, key))
  }

  /**
   The labels of a request: the first value of every key, or "" for a key without values; a MAC key
   only if that value is an address, and then in canonical form.
   */
  ghost predicate AreLabels(labels: map<string, string>, query: Query) {
    && labels.Keys <= query.Keys
    && forall k :: k in query ==>
                     var first := if |query[k]| > 0 then query[k][0] else "";
                     if IsMacKey(k) then
                       if Mac.ParseMAC(first).Some? then k in labels && IsCanonicalOf(labels[k], first)
                       else k !in labels
                     else k in labels && labels[k] == first
  }

  lemma RequestLabelsExact(query: Query)
    ensures AreLabels(RequestLabels(query), query)
  {
    hide Mac.ParseMAC, Mac.PrintMAC, Mac.WritesPairs, Mac.Lower, IsMacKey;
    forall k | k in query && IsMacKey(k) && Mac.ParseMAC(Get(query, k)).Some?
      ensures IsCanonicalOf(Canonical(k, Get(query, k)), Get(query, k))
    {
      Mac.CanonicalExact(Get(query, k));
    }
  }

  method LabelsFromRequest(query: Query) returns (labels: map<string, string>)
    ensures labels == RequestLabels(query) && AreLabels(labels, query)
  {
    RequestLabelsExact(query);
    labels := map[];
    var pending := query.Keys;
    while pending != {}
      invariant pending <= query.Keys
      invariant forall k :: k in labels <==> k in query && k !in pending && Kept(query, k)
      invariant forall k :: k in labels ==> labels[k] == Canonical(k, Get(query, k))
      decreases pending
    {
      var key :| key in pending;
      if IsMacKey(key) {
        var hw := Mac.ParseMAC(Get(query, key));
        if hw.Some? {
          labels := labels[key := Mac.PrintMAC(hw.value)];
        }
      } else {
        labels := labels[key := Get(query, key)];
      }
      pending := pending - {key};
    }
  }

  /** The requirement of one selector entry, in terms of what the request and the group said. */
  predicate EntryMet(query: Query, key: string, value: string) {
    if IsMacKey(key) then Mac.ParseMAC(Get(query, key)).Some? && Mac.ParseMAC(Get(query, key)) == Mac.ParseMAC(value)
    else Get(query, key) == value
  }

  lemma EntryMetExact(query: Query, key: string, value: string)
    requires IsMacKey(key) ==> Mac.ParseMAC(value).Some?
    ensures Lookup(RequestLabels(query), key) == Canonical(key, value) <==> EntryMet(query, key, value)
  {
    assert key in RequestLabels(query) <==> Kept(query, key);
    hide Mac.ParseMAC, Mac.PrintMAC;
    if IsMacKey(key) {
      Mac.ParsedLength(value);
      Mac.PrintParse(Mac.ParseMAC(value).value);
      NoMacInEmpty();
      if Kept(query, key) {
        Mac.CanonicalDecides(Get(query, key), value);
      }
    }
  }

  lemma NoMacInEmpty()
    ensures Mac.ParseMAC("").None?
  {
  }

  /**
   A request matches a normalised selector exactly when every entry is met by the request: MAC entries
   by the same octets in whatever notation, so never by an unparsable address; others by equal text.
   */
  lemma RequestMatchesExact(query: Query, sel: Selector)
    requires Normalizable(sel)
    ensures Matches(Normalized(sel), Some(RequestLabels(query))) <==>
            forall key :: key in sel ==> EntryMet(query, key, sel[key])
  {
    forall key | key in sel
      ensures Lookup(RequestLabels(query), key) == Normalized(sel)[key] <==> EntryMet(query, key, sel[key])
    {
      EntryMetExact(query, key, sel[key]);
    }
    hide RequestLabels, EntryMet, Normalizable, Lookup;
    var normal := Normalized(sel);
    assert forall key :: key in normal <==> key in sel;
  }

  // ---------- collecting variables ----------

  type Data = map<string, Value>

  /** Assigning into the nil map that JSON null leaves behind panics. */
  datatype Collected = Collected(data: Data) | BadMetadata | Panic

  /** The system's `strings.ToLower`, letter by letter. */
  type CaseMap = char -> char

  function Fold(lower: CaseMap, s: string): (r: string)
    ensures |r| == |s| && forall i :: 0 <= i < |s| ==> r[i] == lower(s[i])
  {
    seq(|s|, i requires 0 <= i < |s| => lower(s[i]))
  }

  function RequestVars(query: Query, rawQuery: string): Value {
    Obj(map["query" := Labels(RequestLabels(query)), "raw_query" := Str(rawQuery)])
  }

  /** The reserved variable: the labels of the query, and the query as it came. */
  ghost predicate IsRequest(v: Value, query: Query, rawQuery: string) {
    && v.Obj? && v.fields.Keys == {"query", "raw_query"}
    && v.fields["query"].Labels? && AreLabels(v.fields["query"].labels, query)
    && v.fields["raw_query"] == Str(rawQuery)
  }

  lemma RequestVarsExact(query: Query, rawQuery: string)
    ensures IsRequest(RequestVars(query, rawQuery), query, rawQuery)
  {
    hide AreLabels, RequestLabels;
    RequestLabelsExact(query);
    assert |"query"| != |"raw_query"|;
  }

  /** Unmarshalling the metadata into the map that holds the empty "request". */
  function Unmarshalled(metadata: Option<D.Bytes>): Collected {
    var data := map["request" := Obj(map[])];
    match metadata
    case None => Collected(data)
    case Some(Encoded(Obj(fields))) => Collected(data + DecodedFields(fields))
    case Some(Encoded(Null)) => Panic
    case Some(_) => BadMetadata
  }

  /** The selector loop, for one order of the keys. */
  function Overwrite(lower: CaseMap, data: Data, sel: Selector, order: seq<string>): Data {
    if order == [] then data
    else
      var init, key := order[..|order| - 1], order[|order| - 1];
      Overwrite(lower, data, sel, init)[Fold(lower, key) := Str(Lookup(sel, key))]
  }

  function Collect(lower: CaseMap, request: Value, g: Group, order: seq<string>): Collected {
    match Unmarshalled(g.metadata)
    case Collected(data) => Collected(Overwrite(lower, data, g.selector, order)["request" := request])
    case failed => failed
  }

  method CollectVariables(lower: CaseMap, query: Query, rawQuery: string, g: Group)
    returns (r: Collected, ghost order: seq<string>)
    ensures Lists(order, g.selector.Keys)
    ensures r == Collect(lower, RequestVars(query, rawQuery), g, order)
    ensures r.Collected? ==> "request" in r.data && IsRequest(r.data["request"], query, rawQuery)
  {
    hide AreLabels, RequestLabels;
    RequestVarsExact(query, rawQuery);
    order := ListsExist(g.selector.Keys);
    var start := Unmarshalled(g.metadata);
    if !start.Collected? {
      return start, order;
    }
    var data := start.data;
    var pending := g.selector.Keys;
    order := [];
    while pending != {}
      invariant pending <= g.selector.Keys && Lists(order, g.selector.Keys - pending)
      invariant data == Overwrite(lower, start.data, g.selector, order)
      decreases pending
    {
      var key :| key in pending;
      data := data[Fold(lower, key) := Str(g.selector[key])];
      assert (order + [key])[..|order|] == order;
      order := order + [key];
      pending := pending - {key};
    }
    assert order == order[..];
    var labels := LabelsFromRequest(query);
    data := data["request" := Obj(map["query" := Labels(labels), "raw_query" := Str(rawQuery)])];
    r := Collected(data);
  }

  /** Collecting succeeds exactly for nil metadata and encoded objects. */
  lemma CollectSucceeds(lower: CaseMap, request: Value, g: Group, order: seq<string>)
    ensures Collect(lower, request, g, order).Collected? <==>
            g.metadata.None? || (g.metadata.value.Encoded? && g.metadata.value.json.Obj?)
    ensures Collect(lower, request, g, order).Panic? <==> g.metadata == Some(D.Encoded(D.Null))
  {
  }

  /** So it succeeds for every group that is parsed from a stored document. */
  lemma StoredGroupsCollect(lower: CaseMap, request: Value, document: D.Bytes, order: seq<string>)
    requires ParseGroup(document).Some?
    ensures Collect(lower, request, ParseGroup(document).value, order).Collected?
  {
    ParsedGroup(document);
  }

  lemma {:induction false} OverwriteExact(lower: CaseMap, data: Data, sel: Selector, order: seq<string>, name: string)
    ensures var r := Overwrite(lower, data, sel, order);
            if exists i :: 0 <= i < |order| && Fold(lower, order[i]) == name then
              name in r &&
              exists i :: 0 <= i < |order| && Fold(lower, order[i]) == name && r[name] == Str(Lookup(sel, order[i]))
            else (name in r <==> name in data) && (name in r ==> r[name] == data[name])
  {
    if order != [] {
      var init, key := order[..|order| - 1], order[|order| - 1];
      OverwriteExact(lower, data, sel, init, name);
      if Fold(lower, key) != name && exists i :: 0 <= i < |order| && Fold(lower, order[i]) == name {
        var i :| 0 <= i < |order| && Fold(lower, order[i]) == name;
        assert Fold(lower, init[i]) == name;
        var j :| 0 <= j < |init| && Fold(lower, init[j]) == name &&
        Overwrite(lower, data, sel, init)[name] == Str(Lookup(sel, init[j]));
        assert order[j] == init[j];
      } else if Fold(lower, key) != name {
        assert forall i :: 0 <= i < |init| ==> init[i] == order[i];
      }
    }
  }

  /** Precedence: "request", then lower-cased selectors, then metadata. */
  lemma CollectPrecedence(lower: CaseMap, request: Value, g: Group, order: seq<string>, name: string)
    requires Lists(order, g.selector.Keys) && Collect(lower, request, g, order).Collected?
    ensures var data := Collect(lower, request, g, order).data;
            var metadata := MetadataFields(g.metadata).value;
            if name == "request" then name in data && data[name] == request
            else if exists k :: k in g.selector && Fold(lower, k) == name then
              name in data && exists k :: k in g.selector && Fold(lower, k) == name && data[name] == Str(g.selector[k])
            else (name in data <==> name in metadata) && (name in data ==> data[name] == Decoded(metadata[name]))
  {
    hide Fold;
    var start := Unmarshalled(g.metadata).data;
    OverwriteExact(lower, start, g.selector, order, name);
    if name != "request" {
      if k :| k in g.selector && Fold(lower, k) == name {
        assert k in order;
        var i :| 0 <= i < |order| && order[i] == k;
        assert Fold(lower, order[i]) == name;
        var j :| 0 <= j < |order| && Fold(lower, order[j]) == name &&
        Overwrite(lower, start, g.selector, order)[name] == Str(Lookup(g.selector, order[j]));
        assert order[j] in order;
      } else {
        forall i | 0 <= i < |order| ensures Fold(lower, order[i]) != name {
          assert order[i] in order;
        }
      }
    }
  }

  // ---------- when the order of the selectors does not show ----------

  /** Keys that fold together, other than to the reserved name, have equal values. */
  ghost predicate Consistent(lower: CaseMap, sel: Selector) {
    forall k, l :: k in sel && l in sel && Fold(lower, k) == Fold(lower, l) != "request" ==> sel[k] == sel[l]
  }

  ghost predicate OrderFree(lower: CaseMap, request: Value, g: Group) {
    forall order, order' :: Lists(order, g.selector.Keys) && Lists(order', g.selector.Keys) ==>
                              Collect(lower, request, g, order) == Collect(lower, request, g, order')
  }

  lemma SameForAllOrders(lower: CaseMap, request: Value, g: Group, order: seq<string>, order': seq<string>)
    requires Consistent(lower, g.selector) && Collect(lower, request, g, order).Collected?
    requires Lists(order, g.selector.Keys) && Lists(order', g.selector.Keys)
    ensures Collect(lower, request, g, order) == Collect(lower, request, g, order')
  {
    CollectSucceeds(lower, request, g, order);
    CollectSucceeds(lower, request, g, order');
    hide Collect, Fold;
    var data, data' := Collect(lower, request, g, order).data, Collect(lower, request, g, order').data;
    forall name ensures (name in data <==> name in data') && (name in data ==> data[name] == data'[name]) {
      CollectPrecedence(lower, request, g, order, name);
      CollectPrecedence(lower, request, g, order', name);
    }
    assert data == data';
  }

  lemma LastWins(lower: CaseMap, request: Value, g: Group, order: seq<string>)
    requires order != [] && order[|order| - 1] in g.selector && Collect(lower, request, g, order).Collected?
    requires Fold(lower, order[|order| - 1]) != "request"
    ensures var name := Fold(lower, order[|order| - 1]);
            name in Collect(lower, request, g, order).data &&
            Collect(lower, request, g, order).data[name] == Str(g.selector[order[|order| - 1]])
  {
  }

  /** The result is free of the iteration order exactly for consistent selectors (or if it fails anyway). */
  lemma OrderFreeExact(lower: CaseMap, request: Value, g: Group)
    ensures OrderFree(lower, request, g) <==> Consistent(lower, g.selector) || !Unmarshalled(g.metadata).Collected?
  {
    hide Fold, MetadataFields;
    if Unmarshalled(g.metadata).Collected? {
      if Consistent(lower, g.selector) {
        forall order, order' | Lists(order, g.selector.Keys) && Lists(order', g.selector.Keys)
          ensures Collect(lower, request, g, order) == Collect(lower, request, g, order')
        {
          SameForAllOrders(lower, request, g, order, order');
        }
      } else {
        var k, l :| k in g.selector && l in g.selector && Fold(lower, k) == Fold(lower, l) != "request" &&
        g.selector[k] != g.selector[l];
        var order := ListsEndingIn(g.selector.Keys, k);
        var order' := ListsEndingIn(g.selector.Keys, l);
        LastWins(lower, request, g, order);
        LastWins(lower, request, g, order');
        assert Collect(lower, request, g, order) != Collect(lower, request, g, order');
      }
    }
  }

  /** In particular when the lower-cased keys are distinct. */
  lemma DistinctKeysOrderFree(lower: CaseMap, request: Value, g: Group)
    requires forall k, l :: k in g.selector && l in g.selector && Fold(lower, k) == Fold(lower, l) ==> k == l
    ensures OrderFree(lower, request, g)
  {
    OrderFreeExact(lower, request, g);
  }
}

/** JSON values, and byte strings seen through what `encoding/json` makes of them. */
module Documents {
  /** A number is a float64, held as the text Go prints for it. */
  datatype Json =
    | Null
    | Bool(b: bool)
    | Num(text: string)
    | Str(s: string)
    | Arr(elems: seq<Json>)
    | Obj(fields: map<string, Json>)

  /** A byte string: the JSON text of some value, or bytes that are not JSON. */
  datatype Bytes = Encoded(json: Json) | Raw(text: string)
}

/** The JSON documents of the data directory: what is written for a Group or Profile, and read back. */
module Formats {
  import opened Results
  import opened Documents
  import opened Groups

  datatype NetBoot = NetBoot(kernel: string, initrd: seq<string>, cmdline: map<string, string>)

  datatype Profile = Profile(id: string, name: string, ignitionId: string, cloudId: string, genericId: string,
                             boot: Option<NetBoot>)

  type Fields = map<string, Json>

  // ---------- fields with `omitempty` ----------

  function StrField(k: string, v: string): Fields {
    if v == "" then map[] else map[k := Str(v)]
  }

  function MapField(k: string, m: map<string, string>): Fields {
    if m == map[] then map[] else map[k := Obj(map x | x in m :: Str(m[x]))]
  }

  function ListField(k: string, xs: seq<string>): Fields {
    if xs == [] then map[] else map[k := Arr(seq(|xs|, i requires 0 <= i < |xs| => Str(xs[i])))]
  }

  function ObjField(k: string, fields: Fields): Fields {
    if fields == map[] then map[] else map[k := Obj(fields)]
  }

  // ---------- reading fields; `None` is a type error ----------

  function AsStr(j: Json): Option<string> {
    match j
    case Null => Some("")
    case Str(s) => Some(s)
    case _ => None
  }

  function ReadStr(fields: Fields, k: string): Option<string> {
    if k in fields then AsStr(fields[k]) else Some("")
  }

  function ReadMap(fields: Fields, k: string): Option<map<string, string>> {
    if k !in fields || fields[k].Null? then Some(map[])
    else if fields[k].Obj? && forall x :: x in fields[k].fields ==> AsStr(fields[k].fields[x]).Some? then
      var m := fields[k].fields;
      Some(map x | x in m :: AsStr(m[x]).value)
    else None
  }

  function ReadList(fields: Fields, k: string): Option<seq<string>> {
    if k !in fields || fields[k].Null? then Some([])
    else if fields[k].Arr? && forall i :: 0 <= i < |fields[k].elems| ==> AsStr(fields[k].elems[i]).Some? then
      var xs := fields[k].elems;
      Some(seq(|xs|, i requires 0 <= i < |xs| => AsStr(xs[i]).value))
    else None
  }

  /** A `map[string]interface{}` field: nil, or the object's fields. */
  function ReadObj(fields: Fields, k: string): Option<Option<Fields>> {
    if k !in fields || fields[k].Null? then Some(None)
    else if fields[k].Obj? then Some(Some(fields[k].fields))
    else None
  }

  // ---------- groups ----------

  /** `ToRichGroup`'s view of the metadata bytes: the fields they encode, or an error. */
  function MetadataFields(metadata: Option<Bytes>): Option<Fields> {
    match metadata
    case None => Some(map[])
    case Some(Encoded(Null)) => Some(map[])
    case Some(Encoded(Obj(fields))) => Some(fields)
    case Some(_) => None
  }

  function WriteGroup(g: Group): Option<Bytes> {
    match MetadataFields(g.metadata)
    case None => None
    case Some(fields) =>
      Some(Encoded(Obj(
        StrField("id", g.id) + StrField("name", g.name) + StrField("profile", g.profile) +
        MapField("selector", g.selector) + ObjField("metadata", fields))))
  }

  /** Unmarshalling into a `RichGroup` followed by `ToGroup`. */
  function DecodeGroup(data: Bytes): Option<Group> {
    match data
    case Encoded(Null) => Some(Group("", "", "", map[], None))
    case Encoded(Obj(fields)) =>
      var id, name, profile := ReadStr(fields, "id"), ReadStr(fields, "name"), ReadStr(fields, "profile");
      var selector, metadata := ReadMap(fields, "selector"), ReadObj(fields, "metadata");
      if id.None? || name.None? || profile.None? || selector.None? || metadata.None? then None
      else Some(Group(id.value, name.value, profile.value, selector.value,
                      if metadata.value.None? then None else Some(Encoded(Obj(metadata.value.value)))))
    case _ => None
  }

  /** `ParseGroup`. */
  function ParseGroup(data: Bytes): Option<Group> {
    match DecodeGroup(data)
    case None => None
    case Some(g) => if Normalizable(g.selector) then Some(g.(selector := Normalized(g.selector))) else None
  }

  /** What a stored Group is read back as: MAC selectors canonical, empty metadata nil; or unreadable. */
  function View(g: Group): Option<Group> {
    if !Normalizable(g.selector) || MetadataFields(g.metadata).None? then None
    else
      var fields := MetadataFields(g.metadata).value;
      Some(g.(selector := Normalized(g.selector),
              metadata := if fields == map[] then None else Some(Encoded(Obj(fields)))))
  }

  /** `fields` says about key `k` what `part` says. */
  ghost predicate Agrees(fields: Fields, part: Fields, k: string) {
    (k in fields <==> k in part) && (k in part ==> fields[k] == part[k])
  }

  /** Five fields under different keys can be read back from their union. */
  lemma FiveFields(ka: string, kb: string, kc: string, kd: string, ke: string,
                   a: Fields, b: Fields, c: Fields, d: Fields, e: Fields)
    requires ka != kb && ka != kc && ka != kd && ka != ke && kb != kc && kb != kd && kb != ke
    requires kc != kd && kc != ke && kd != ke
    requires a.Keys <= {ka} && b.Keys <= {kb} && c.Keys <= {kc} && d.Keys <= {kd} && e.Keys <= {ke}
    ensures var f := a + b + c + d + e;
            && Agrees(f, a, ka) && Agrees(f, b, kb) && Agrees(f, c, kc) && Agrees(f, d, kd) && Agrees(f, e, ke)
            && f.Keys <= {ka, kb, kc, kd, ke}
  {
  }

  lemma StrFieldRead(k: string, v: string, fields: Fields)
    requires Agrees(fields, StrField(k, v), k)
    ensures ReadStr(fields, k) == Some(v)
  {
  }

  lemma MapFieldRead(k: string, m: map<string, string>, fields: Fields)
    requires Agrees(fields, MapField(k, m), k)
    ensures ReadMap(fields, k) == Some(m)
  {
    if m != map[] {
      assert ReadMap(fields, k).value == m;
    }
  }

  lemma ListFieldRead(k: string, xs: seq<string>, fields: Fields)
    requires Agrees(fields, ListField(k, xs), k)
    ensures ReadList(fields, k) == Some(xs)
  {
    if xs != [] {
      assert ReadList(fields, k).value == xs;
    }
  }

  lemma GroupKeysDiffer()
    ensures "id" != "name" && "id" != "profile" && "id" != "selector" && "id" != "metadata"
    ensures "name" != "profile" && "name" != "selector" && "name" != "metadata"
    ensures "profile" != "selector" && "profile" != "metadata" && "selector" != "metadata"
  {
    assert |"id"| == 2 && |"name"| == 4 && |"profile"| == 7 && |"selector"| == 8 && |"metadata"| == 8;
    assert "selector"[0] == 's' && "metadata"[0] == 'm';
  }

  lemma GroupDecodes(g: Group)
    requires WriteGroup(g).Some?
    ensures DecodeGroup(WriteGroup(g).value) ==
            Some(g.(metadata := if MetadataFields(g.metadata).value == map[] then None
                                else Some(Encoded(Obj(MetadataFields(g.metadata).value)))))
  {
    GroupKeysDiffer();
    var fields := WriteGroup(g).value.json.fields;
    var metadata := MetadataFields(g.metadata).value;
    FiveFields("id", "name", "profile", "selector", "metadata",
               StrField("id", g.id), StrField("name", g.name), StrField("profile", g.profile),
               MapField("selector", g.selector), ObjField("metadata", metadata));
    StrFieldRead("id", g.id, fields);
    StrFieldRead("name", g.name, fields);
    StrFieldRead("profile", g.profile, fields);
    MapFieldRead("selector", g.selector, fields);
    assert ReadObj(fields, "metadata") == Some(if metadata == map[] then None else Some(metadata));
  }

  /** A Group that can be written is read back as its view. */
  lemma GroupRoundTrip(g: Group)
    ensures WriteGroup(g).Some? <==> MetadataFields(g.metadata).Some?
    ensures WriteGroup(g).Some? ==> ParseGroup(WriteGroup(g).value) == View(g)
  {
    if WriteGroup(g).Some? {
      GroupDecodes(g);
    }
  }

  lemma ViewNeedsWrite(g: Group)
    ensures View(g).Some? ==> WriteGroup(g).Some? && WriteGroup(g).value.Encoded?
  {
    GroupRoundTrip(g);
  }

  /** Reading back settles: a group as read back is written and read without further change. */
  lemma ViewSettles(g: Group)
    requires View(g).Some?
    ensures View(View(g).value) == View(g)
  {
    NormalizedIdempotent(g.selector);
  }

  /** Whatever the document, a parsed group has canonical selectors and its metadata are nil or an object. */
  lemma ParsedGroup(data: Bytes)
    requires ParseGroup(data).Some?
    ensures var g := ParseGroup(data).value;
            && (g.metadata.None? || (g.metadata.value.Encoded? && g.metadata.value.json.Obj?))
            && Normalizable(g.selector) && Normalized(g.selector) == g.selector
  {
    NormalizedIdempotent(DecodeGroup(data).value.selector);
  }

  // ---------- profiles ----------

  function BootJson(b: NetBoot): Json {
    Obj(StrField("kernel", b.kernel) + ListField("initrd", b.initrd) + MapField("cmdline", b.cmdline))
  }

  function BootField(boot: Option<NetBoot>): Fields {
    if boot.None? then map[] else map["boot" := BootJson(boot.value)]
  }

  function WriteProfile(p: Profile): Bytes {
    Encoded(Obj(
      StrField("id", p.id) + StrField("name", p.name) + StrField("ignition_id", p.ignitionId) +
      StrField("cloud_id", p.cloudId) + BootField(p.boot) +
      StrField("generic_id", p.genericId)))
  }

  function ReadBoot(fields: Fields): Option<Option<NetBoot>> {
    if "boot" !in fields || fields["boot"].Null? then Some(None)
    else if !fields["boot"].Obj? then None
    else
      var b := fields["boot"].fields;
      var kernel, initrd, cmdline := ReadStr(b, "kernel"), ReadList(b, "initrd"), ReadMap(b, "cmdline");
      if kernel.None? || initrd.None? || cmdline.None? then None
      else Some(Some(NetBoot(kernel.value, initrd.value, cmdline.value)))
  }

  function DecodeProfile(data: Bytes): Option<Profile> {
    match data
    case Encoded(Null) => Some(Profile("", "", "", "", "", None))
    case Encoded(Obj(fields)) =>
      var id, name, ignition := ReadStr(fields, "id"), ReadStr(fields, "name"), ReadStr(fields, "ignition_id");
      var cloud, generic, boot := ReadStr(fields, "cloud_id"), ReadStr(fields, "generic_id"), ReadBoot(fields);
      if id.None? || name.None? || ignition.None? || cloud.None? || generic.None? || boot.None? then None
      else Some(Profile(id.value, name.value, ignition.value, cloud.value, generic.value, boot.value))
    case _ => None
  }

  /** Unmarshalling a Profile and its `AssertValid`. */
  function ParseProfile(data: Bytes): Option<Profile> {
    match DecodeProfile(data)
    case None => None
    case Some(p) => if p.id == "" then None else Some(p)
  }

  lemma BootKeysDiffer()
    ensures "kernel" != "initrd" && "kernel" != "cmdline" && "initrd" != "cmdline"
  {
    assert "kernel"[0] == 'k' && "initrd"[0] == 'i' && "cmdline"[0] == 'c';
  }

  lemma ProfileKeysDiffer()
    ensures "id" != "name" && "id" != "ignition_id" && "id" != "cloud_id" && "id" != "boot" && "id" != "generic_id"
    ensures "name" != "ignition_id" && "name" != "cloud_id" && "name" != "boot" && "name" != "generic_id"
    ensures "ignition_id" != "cloud_id" && "ignition_id" != "boot" && "ignition_id" != "generic_id"
    ensures "cloud_id" != "boot" && "cloud_id" != "generic_id" && "boot" != "generic_id"
  {
    assert |"id"| == 2 && |"name"| == 4 && |"ignition_id"| == 11;
    assert |"cloud_id"| == 8 && |"boot"| == 4 && |"generic_id"| == 10;
    assert "name"[0] == 'n' && "boot"[0] == 'b';
  }

  lemma BootDecodes(b: NetBoot, fields: Fields)
    requires "boot" in fields && fields["boot"] == BootJson(b)
    ensures ReadBoot(fields) == Some(Some(b))
  {
    BootKeysDiffer();
    var inner := BootJson(b).fields;
    StrFieldRead("kernel", b.kernel, inner);
    ListFieldRead("initrd", b.initrd, inner);
    MapFieldRead("cmdline", b.cmdline, inner);
  }

  lemma ProfileFields(p: Profile)
    ensures var fields := WriteProfile(p).json.fields;
            && Agrees(fields, StrField("id", p.id), "id")
            && Agrees(fields, StrField("name", p.name), "name")
            && Agrees(fields, StrField("ignition_id", p.ignitionId), "ignition_id")
            && Agrees(fields, StrField("cloud_id", p.cloudId), "cloud_id")
            && Agrees(fields, BootField(p.boot), "boot")
            && Agrees(fields, StrField("generic_id", p.genericId), "generic_id")
  {
    ProfileKeysDiffer();
    var first := StrField("id", p.id) + StrField("name", p.name) + StrField("ignition_id", p.ignitionId) +
    StrField("cloud_id", p.cloudId) + BootField(p.boot);
    FiveFields("id", "name", "ignition_id", "cloud_id", "boot",
               StrField("id", p.id), StrField("name", p.name), StrField("ignition_id", p.ignitionId),
               StrField("cloud_id", p.cloudId), BootField(p.boot));
    AddField(first, "generic_id", StrField("generic_id", p.genericId));
  }

  lemma AddField(first: Fields, k: string, part: Fields)
    requires k !in first && part.Keys <= {k}
    ensures Agrees(first + part, part, k)
    ensures forall l, field :: l != k && Agrees(first, field, l) ==> Agrees(first + part, field, l)
  {
  }

  /** A Profile is read back unchanged, unless it has no id. */
  lemma ProfileRoundTrip(p: Profile)
    ensures ParseProfile(WriteProfile(p)) == if p.id == "" then None else Some(p)
  {
    ProfileFields(p);
    var fields := WriteProfile(p).json.fields;
    StrFieldRead("id", p.id, fields);
    StrFieldRead("name", p.name, fields);
    StrFieldRead("ignition_id", p.ignitionId, fields);
    StrFieldRead("cloud_id", p.cloudId, fields);
    StrFieldRead("generic_id", p.genericId, fields);
    assert ReadBoot(fields) == Some(p.boot) by {
      if p.boot.Some? {
        BootDecodes(p.boot.value, fields);
      }
    }
  }
}

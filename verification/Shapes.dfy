/** The stored documents, field by field: which JSON is written for a Group or Profile, and which is read as one. */
module Shapes {
  import opened Results
  import opened Documents
  import opened Groups
  import opened Formats

  // ---------- one field ----------

  /** The text `v` under `k`; nothing and `null` stand for the empty text. */
  predicate HasText(fields: Fields, k: string, v: string) {
    if k in fields then fields[k] == Str(v) || (fields[k] == Null && v == "") else v == ""
  }

  /** The map of texts `m` under `k`; a `null` entry stands for the empty text. */
  predicate HasTexts(fields: Fields, k: string, m: map<string, string>) {
    if k in fields && fields[k] != Null then
      && fields[k].Obj? && fields[k].fields.Keys == m.Keys
      && forall x :: x in m ==> HasText(fields[k].fields, x, m[x])
    else m == map[]
  }

  predicate HasList(fields: Fields, k: string, xs: seq<string>) {
    if k in fields && fields[k] != Null then
      && fields[k].Arr? && |fields[k].elems| == |xs|
      && forall i :: 0 <= i < |xs| ==> fields[k].elems[i] == Str(xs[i]) || (fields[k].elems[i] == Null && xs[i] == "")
    else xs == []
  }

  lemma ReadStrExact(fields: Fields, k: string, v: string)
    ensures ReadStr(fields, k) == Some(v) <==> HasText(fields, k, v)
  {
  }

  lemma ReadMapExact(fields: Fields, k: string, m: map<string, string>)
    ensures ReadMap(fields, k) == Some(m) <==> HasTexts(fields, k, m)
  {
    if HasTexts(fields, k, m) && k in fields && fields[k] != Null {
      assert ReadMap(fields, k).value == m;
    }
  }

  lemma ReadListExact(fields: Fields, k: string, xs: seq<string>)
    ensures ReadList(fields, k) == Some(xs) <==> HasList(fields, k, xs)
  {
    if HasList(fields, k, xs) && k in fields && fields[k] != Null {
      assert ReadList(fields, k).value == xs;
    }
  }

  // ---------- groups ----------

  /** The object describes the group, before its selectors are normalised. Other fields do not matter. */
  predicate DescribesGroup(fields: Fields, g: Group) {
    && HasText(fields, "id", g.id) && HasText(fields, "name", g.name) && HasText(fields, "profile", g.profile)
    && HasTexts(fields, "selector", g.selector)
    && if "metadata" in fields && fields["metadata"] != Null
       then fields["metadata"].Obj? && g.metadata == Some(Encoded(fields["metadata"]))
       else g.metadata == None
  }

  predicate GroupDocument(data: Bytes, g: Group) {
    || (data == Encoded(Null) && g == Group("", "", "", map[], None))
    || (data.Encoded? && data.json.Obj? && DescribesGroup(data.json.fields, g))
  }

  lemma DecodeGroupExact(data: Bytes, g: Group)
    ensures DecodeGroup(data) == Some(g) <==> GroupDocument(data, g)
  {
    if data.Encoded? && data.json.Obj? {
      var fields := data.json.fields;
      ReadStrExact(fields, "id", g.id);
      ReadStrExact(fields, "name", g.name);
      ReadStrExact(fields, "profile", g.profile);
      ReadMapExact(fields, "selector", g.selector);
      hide ReadStr, ReadMap, HasText, HasTexts;
      assert ReadObj(fields, "metadata").Some? ==>
          (g.metadata == (if ReadObj(fields, "metadata").value.None? then None
                          else Some(Encoded(Obj(ReadObj(fields, "metadata").value.value)))) <==>
           if "metadata" in fields && fields["metadata"] != Null
           then fields["metadata"].Obj? && g.metadata == Some(Encoded(fields["metadata"])) else g.metadata == None);
    }
  }

  /**
   A document is read as the group it describes, normalised; it is refused exactly when it describes
   none or a MAC in it does not parse.
   */
  lemma ParseGroupExact(data: Bytes, v: Group)
    ensures ParseGroup(data) == Some(v) <==>
            exists g :: GroupDocument(data, g) && Normalizable(g.selector) &&
                        v == g.(selector := Normalized(g.selector))
  {
    hide GroupDocument, Normalizable, Normalized, DecodeGroup;
    if ParseGroup(data) == Some(v) {
      DecodeGroupExact(data, DecodeGroup(data).value);
    }
    if g :| GroupDocument(data, g) && Normalizable(g.selector) && v == g.(selector := Normalized(g.selector)) {
      DecodeGroupExact(data, g);
    }
  }

  /** The names of the fields that are written: those that are not empty. */
  predicate GroupFieldsWritten(fields: Fields, g: Group) {
    && ("id" in fields <==> g.id != "") && ("name" in fields <==> g.name != "")
    && ("profile" in fields <==> g.profile != "") && ("selector" in fields <==> g.selector != map[])
    && fields.Keys <= {"id", "name", "profile", "selector", "metadata"}
    && NoNull(fields)
  }

  /**
   A group is written exactly when its metadata are nil, `null` or an object: as an object that
   describes it, without empty fields, and without the metadata if they are nil, `null` or empty.
   */
  lemma WriteGroupExact(g: Group)
    ensures WriteGroup(g).Some? <==>
            || g.metadata.None?
            || (g.metadata.value.Encoded? && (g.metadata.value.json.Obj? || g.metadata.value.json.Null?))
    ensures WriteGroup(g).Some? ==>
              && WriteGroup(g).value.Encoded? && WriteGroup(g).value.json.Obj?
              && var fields := WriteGroup(g).value.json.fields;
                 && GroupFieldsWritten(fields, g)
                 && DescribesGroup(fields, if g.metadata in {None, Some(Encoded(Null)), Some(Encoded(Obj(map[])))}
                                           then g.(metadata := None) else g)
  {
    if WriteGroup(g).Some? {
      WrittenGroupFields(g);
      GroupDecodes(g);
      var v := g.(metadata := if g.metadata in {None, Some(Encoded(Null)), Some(Encoded(Obj(map[])))} then None
                              else g.metadata);
      DecodeGroupExact(WriteGroup(g).value, v);
      hide DecodeGroup, DescribesGroup, GroupFieldsWritten;
    }
  }

  lemma WrittenGroupFields(g: Group)
    requires WriteGroup(g).Some?
    ensures WriteGroup(g).value.Encoded? && WriteGroup(g).value.json.Obj?
    ensures GroupFieldsWritten(WriteGroup(g).value.json.fields, g)
  {
    var metadata := MetadataFields(g.metadata).value;
    var a, b, c := StrField("id", g.id), StrField("name", g.name), StrField("profile", g.profile);
    var d, e := MapField("selector", g.selector), ObjField("metadata", metadata);
    assert WriteGroup(g).value == Encoded(Obj(a + b + c + d + e));
    GroupKeysDiffer();
    hide StrField, MapField, ObjField, NoNull, WriteGroup, MetadataFields;
    PartShape("id", g.id);
    PartShape("name", g.name);
    PartShape("profile", g.profile);
    MapPartShape("selector", g.selector);
    ObjPartShape("metadata", metadata);
    FiveParts("id", "name", "profile", "selector", "metadata", a, b, c, d, e);
  }

  lemma FiveParts(ka: string, kb: string, kc: string, kd: string, ke: string,
                  a: Fields, b: Fields, c: Fields, d: Fields, e: Fields)
    requires ka != kb && ka != kc && ka != kd && ka != ke && kb != kc && kb != kd && kb != ke
    requires kc != kd && kc != ke && kd != ke
    requires a.Keys <= {ka} && b.Keys <= {kb} && c.Keys <= {kc} && d.Keys <= {kd} && e.Keys <= {ke}
    requires NoNull(a) && NoNull(b) && NoNull(c) && NoNull(d) && NoNull(e)
    ensures var f := a + b + c + d + e;
            && (ka in f <==> a.Keys != {}) && (kb in f <==> b.Keys != {}) && (kc in f <==> c.Keys != {})
            && (kd in f <==> d.Keys != {}) && NoNull(f) && f.Keys <= {ka, kb, kc, kd, ke}
  {
    hide NoNull;
    NoNullUnion(a, b, c, d, e);
    FiveFields(ka, kb, kc, kd, ke, a, b, c, d, e);
  }

  lemma PartShape(k: string, v: string)
    ensures NoNull(StrField(k, v)) && StrField(k, v).Keys == if v == "" then {} else {k}
  {
  }

  lemma MapPartShape(k: string, m: map<string, string>)
    ensures NoNull(MapField(k, m)) && MapField(k, m).Keys == if m == map[] then {} else {k}
  {
  }

  lemma ObjPartShape(k: string, m: Fields)
    ensures NoNull(ObjField(k, m)) && ObjField(k, m).Keys <= {k}
  {
  }

  predicate NoNull(fields: Fields) {
    forall k :: k in fields ==> fields[k] != Null
  }

  lemma NoNullUnion(a: Fields, b: Fields, c: Fields, d: Fields, e: Fields)
    requires NoNull(a) && NoNull(b) && NoNull(c) && NoNull(d) && NoNull(e)
    ensures NoNull(a + b + c + d + e)
  {
  }

  // ---------- profiles ----------

  predicate DescribesBoot(fields: Fields, b: NetBoot) {
    HasText(fields, "kernel", b.kernel) && HasList(fields, "initrd", b.initrd) && HasTexts(fields, "cmdline", b.cmdline)
  }

  predicate DescribesProfile(fields: Fields, p: Profile) {
    && HasText(fields, "id", p.id) && HasText(fields, "name", p.name)
    && HasText(fields, "ignition_id", p.ignitionId) && HasText(fields, "cloud_id", p.cloudId)
    && HasText(fields, "generic_id", p.genericId)
    && if "boot" in fields && fields["boot"] != Null
       then fields["boot"].Obj? && p.boot.Some? && DescribesBoot(fields["boot"].fields, p.boot.value)
       else p.boot == None
  }

  lemma ReadBootExact(fields: Fields, boot: Option<NetBoot>)
    ensures ReadBoot(fields) == Some(boot) <==>
            if "boot" in fields && fields["boot"] != Null
            then fields["boot"].Obj? && boot.Some? && DescribesBoot(fields["boot"].fields, boot.value)
            else boot == None
  {
    if "boot" in fields && fields["boot"].Obj? && boot.Some? {
      var b := fields["boot"].fields;
      ReadStrExact(b, "kernel", boot.value.kernel);
      ReadListExact(b, "initrd", boot.value.initrd);
      ReadMapExact(b, "cmdline", boot.value.cmdline);
      hide ReadStr, ReadList, ReadMap, HasText, HasList, HasTexts;
    }
    hide ReadStr, ReadList, ReadMap, HasText, HasList, HasTexts;
  }

  /** A document is read as the profile it describes; it is refused exactly when it describes none with an id. */
  lemma ParseProfileExact(data: Bytes, p: Profile)
    ensures ParseProfile(data) == Some(p) <==>
            data.Encoded? && data.json.Obj? && DescribesProfile(data.json.fields, p) && p.id != ""
  {
    if data.Encoded? && data.json.Obj? {
      var fields := data.json.fields;
      ReadStrExact(fields, "id", p.id);
      ReadStrExact(fields, "name", p.name);
      ReadStrExact(fields, "ignition_id", p.ignitionId);
      ReadStrExact(fields, "cloud_id", p.cloudId);
      ReadStrExact(fields, "generic_id", p.genericId);
      ReadBootExact(fields, p.boot);
      hide ReadStr, ReadBoot, HasText, DescribesBoot;
    }
    hide ReadStr, ReadBoot, HasText, DescribesBoot;
  }

  predicate ProfileFieldsWritten(fields: Fields, p: Profile) {
    && ("id" in fields <==> p.id != "") && ("name" in fields <==> p.name != "")
    && ("ignition_id" in fields <==> p.ignitionId != "") && ("cloud_id" in fields <==> p.cloudId != "")
    && ("generic_id" in fields <==> p.genericId != "") && ("boot" in fields <==> p.boot.Some?)
  }

  /** A profile is written as an object that describes it, without empty fields. */
  lemma WriteProfileExact(p: Profile)
    ensures WriteProfile(p).Encoded? && WriteProfile(p).json.Obj?
    ensures ProfileFieldsWritten(WriteProfile(p).json.fields, p) && DescribesProfile(WriteProfile(p).json.fields, p)
  {
    ProfileFields(p);
    assert WriteProfile(p).Encoded? && WriteProfile(p).json.Obj?;
    hide WriteProfile, BootJson;
    var fields := WriteProfile(p).json.fields;
    TextWritten(fields, "id", p.id);
    TextWritten(fields, "name", p.name);
    TextWritten(fields, "ignition_id", p.ignitionId);
    TextWritten(fields, "cloud_id", p.cloudId);
    TextWritten(fields, "generic_id", p.genericId);
    if p.boot.Some? {
      BootDescribed(p.boot.value);
    }
    hide StrField, HasText, DescribesBoot;
  }

  lemma TextWritten(fields: Fields, k: string, v: string)
    requires Agrees(fields, StrField(k, v), k)
    ensures HasText(fields, k, v) && (k in fields <==> v != "")
  {
  }

  lemma BootDescribed(b: NetBoot)
    ensures DescribesBoot(BootJson(b).fields, b)
  {
    BootKeysDiffer();
    var fields := BootJson(b).fields;
    StrFieldRead("kernel", b.kernel, fields);
    ListFieldRead("initrd", b.initrd, fields);
    MapFieldRead("cmdline", b.cmdline, fields);
    ReadStrExact(fields, "kernel", b.kernel);
    ReadListExact(fields, "initrd", b.initrd);
    ReadMapExact(fields, "cmdline", b.cmdline);
  }
}

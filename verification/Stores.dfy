/** The store interface: its errors, and the plain map store used as its specification. */
module Stores {
  import opened Results
  import opened Documents
  import opened Enumerations
  import opened Groups
  import opened Formats

  datatype StoreError = InvalidPath | NoSuchFile | NotWritable | NotADirectory | BadDocument | BadMetadata | NotFound

  /** The contents of a map store. */
  datatype Maps = Maps(groups: map<string, Group>, profiles: map<string, Profile>,
                       ignition: map<string, Bytes>, cloud: map<string, Bytes>, generic: map<string, Bytes>)

  /** `gs` are the values of `m`, in some order of its keys. */
  ghost predicate ListsValues<T>(gs: seq<T>, m: map<string, T>) {
    exists keys :: Lists(keys, m.Keys) && |gs| == |keys| && forall i :: 0 <= i < |keys| ==> gs[i] == m[keys[i]]
  }

  class FixedStore {
    var groups: map<string, Group>
    var profiles: map<string, Profile>
    var ignitionConfigs: map<string, Bytes>
    var cloudConfigs: map<string, Bytes>
    var genericConfigs: map<string, Bytes>

    ghost function State(): Maps
      reads this
    {
      Maps(groups, profiles, ignitionConfigs, cloudConfigs, genericConfigs)
    }

    constructor ()
      ensures State() == Maps(map[], map[], map[], map[], map[])
    {
      groups, profiles := map[], map[];
      ignitionConfigs, cloudConfigs, genericConfigs := map[], map[], map[];
    }

    method GroupPut(g: Group)
      modifies this
      ensures State() == old(State()).(groups := old(groups)[g.id := g])
    {
      groups := groups[g.id := g];
    }

    method GroupGet(id: string) returns (r: Result<Group, StoreError>)
      ensures r == if id in groups then Ok(groups[id]) else Err(NotFound)
    {
      r := if id in groups then Ok(groups[id]) else Err(NotFound);
    }

    method GroupList() returns (listed: array<Group>)
      ensures fresh(listed) && ListsValues(listed[..], groups)
    {
      listed := Values(groups);
    }

    method ProfilePut(p: Profile)
      modifies this
      ensures State() == old(State()).(profiles := old(profiles)[p.id := p])
    {
      profiles := profiles[p.id := p];
    }

    method ProfileGet(id: string) returns (r: Result<Profile, StoreError>)
      ensures r == if id in profiles then Ok(profiles[id]) else Err(NotFound)
    {
      r := if id in profiles then Ok(profiles[id]) else Err(NotFound);
    }

    method ProfileList() returns (listed: array<Profile>)
      ensures fresh(listed) && ListsValues(listed[..], profiles)
    {
      listed := Values(profiles);
    }

    method IgnitionPut(name: string, config: Bytes)
      modifies this
      ensures State() == old(State()).(ignition := old(ignitionConfigs)[name := config])
    {
      ignitionConfigs := ignitionConfigs[name := config];
    }

    method CloudPut(name: string, config: Bytes)
      modifies this
      ensures State() == old(State()).(cloud := old(cloudConfigs)[name := config])
    {
      cloudConfigs := cloudConfigs[name := config];
    }

    method IgnitionGet(name: string) returns (r: Result<Bytes, StoreError>)
      ensures r == Template(ignitionConfigs, name)
    {
      r := Template(ignitionConfigs, name);
    }

    method CloudGet(name: string) returns (r: Result<Bytes, StoreError>)
      ensures r == Template(cloudConfigs, name)
    {
      r := Template(cloudConfigs, name);
    }

    method GenericGet(name: string) returns (r: Result<Bytes, StoreError>)
      ensures r == Template(genericConfigs, name)
    {
      r := Template(genericConfigs, name);
    }
  }

  function Template(configs: map<string, Bytes>, name: string): Result<Bytes, StoreError> {
    if name in configs then Ok(configs[name]) else Err(NotFound)
  }

  /** Ranging over a map and filling a slice by index. */
  method Values<T(0)>(m: map<string, T>) returns (values: array<T>)
    ensures fresh(values) && ListsValues(values[..], m)
  {
    values := new T[|m.Keys|];
    var i := 0;
    var pending := m.Keys;
    ghost var keys := [];
    while pending != {}
      invariant pending <= m.Keys && Lists(keys, m.Keys - pending)
      invariant i == |keys| && i + |pending| == values.Length
      invariant forall j :: 0 <= j < i ==> keys[j] in m && values[j] == m[keys[j]]
      decreases pending
    {
      var key :| key in pending;
      values[i] := m[key];
      i := i + 1;
      keys := keys + [key];
      pending := pending - {key};
    }
    assert Lists(keys, m.Keys);
    assert |values[..]| == |keys| && forall j :: 0 <= j < |keys| ==> values[..][j] == m[keys[j]];
  }
}

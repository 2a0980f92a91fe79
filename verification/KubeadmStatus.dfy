/**
 The kubeadm ClusterStatus document (pkg/cluster/purge_node.go): reading a well-formed or an all-lowercase
 document, writing it back in its proper form, and taking one API endpoint out of it.
 */
module KubeadmStatus {
  import opened Prelude

  // ---------- documents: YAML mappings with optional keys ----------

  datatype EndpointDoc = EndpointDoc(advertiseAddress: Option<string>, advertiseaddress: Option<string>,
                                     bindPort: Option<int>, bindport: Option<int>)

  datatype TypeMetaDoc = TypeMetaDoc(kind: Option<string>, apiversion: Option<string>)

  datatype Doc = Doc(kind: Option<string>, apiVersion: Option<string>, typemeta: Option<TypeMetaDoc>,
                     apiEndpoints: Option<map<string, EndpointDoc>>, apiendpoints: Option<map<string, EndpointDoc>>)

  // ---------- the records they decode into; None is a nil map ----------

  datatype Endpoint = Endpoint(advertiseAddress: string, advertiseAddressLC: string, bindPort: int, bindPortLC: int) {
    function Address(): string {
      if advertiseAddressLC != "" then advertiseAddressLC else advertiseAddress
    }

    function Port(): int {
      if bindPortLC != 0 then bindPortLC else bindPort
    }
  }

  datatype ClusterStatus = ClusterStatus(metaKind: string, metaApiVersion: string, kind: string, apiVersion: string,
                                         endpoints: Option<map<string, Endpoint>>,
                                         endpointsLC: Option<map<string, Endpoint>>) {
    function Kind(): string {
      if metaKind != "" then metaKind else kind
    }

    function ApiVersion(): string {
      if metaApiVersion != "" then metaApiVersion else apiVersion
    }

    function ApiEndpoints(): Option<map<string, Endpoint>> {
      if endpointsLC.Some? then endpointsLC else endpoints
    }

    predicate IsMalformed() {
      metaKind != "" || metaApiVersion != ""
    }

    /** A nil map has no entries. */
    function Entries(): map<string, Endpoint> {
      match ApiEndpoints()
      case Some(m) => m
      case None => map[]
    }

    /** Deleting through the map that ApiEndpoints returned changes the field it came from. */
    function Without(name: string): ClusterStatus {
      if endpointsLC.Some? then this.(endpointsLC := Some(endpointsLC.value - {name}))
      else if endpoints.Some? then this.(endpoints := Some(endpoints.value - {name}))
      else this
    }
  }

  function OrEmpty(s: Option<string>): string {
    if s.Some? then s.value else ""
  }

  function OrZero(n: Option<int>): int {
    if n.Some? then n.value else 0
  }

  function DecodeEndpoint(d: EndpointDoc): Endpoint {
    Endpoint(OrEmpty(d.advertiseAddress), OrEmpty(d.advertiseaddress), OrZero(d.bindPort), OrZero(d.bindport))
  }

  function DecodeEndpoints(d: Option<map<string, EndpointDoc>>): Option<map<string, Endpoint>> {
    match d
    case None => None
    case Some(m) => Some(map k | k in m :: DecodeEndpoint(m[k]))
  }

  function Decode(d: Doc): ClusterStatus {
    var meta := if d.typemeta.Some? then d.typemeta.value else TypeMetaDoc(None, None);
    ClusterStatus(OrEmpty(meta.kind), OrEmpty(meta.apiversion), OrEmpty(d.kind), OrEmpty(d.apiVersion),
                  DecodeEndpoints(d.apiEndpoints), DecodeEndpoints(d.apiendpoints))
  }

  function EncodeEndpoint(e: Endpoint): EndpointDoc {
    EndpointDoc(Some(e.advertiseAddress), if e.advertiseAddressLC == "" then None else Some(e.advertiseAddressLC),
                Some(e.bindPort), if e.bindPortLC == 0 then None else Some(e.bindPortLC))
  }

  function EncodeEndpoints(m: map<string, Endpoint>): map<string, EndpointDoc> {
    map k | k in m :: EncodeEndpoint(m[k])
  }

  /** Keys marked omitempty are left out when their value is empty; a nil map is written as an empty one. */
  function Encode(cs: ClusterStatus): Doc {
    Doc(Some(cs.kind), Some(cs.apiVersion),
        if cs.metaKind == "" && cs.metaApiVersion == "" then None
        else Some(TypeMetaDoc(Some(cs.metaKind), Some(cs.metaApiVersion))),
        Some(if cs.endpoints.Some? then EncodeEndpoints(cs.endpoints.value) else map[]),
        if cs.endpointsLC.Some? && cs.endpointsLC.value != map[] then Some(EncodeEndpoints(cs.endpointsLC.value)) else None)
  }

  // ---------- what a document says ----------

  datatype Meaning = Meaning(kind: string, apiVersion: string, endpoints: map<string, (string, int)>)

  function MeaningOf(cs: ClusterStatus): Meaning {
    Meaning(cs.Kind(), cs.ApiVersion(), map k | k in cs.Entries() :: (cs.Entries()[k].Address(), cs.Entries()[k].Port()))
  }

  method MarshalClusterStatus(cs: ClusterStatus) returns (d: Doc)
    ensures MeaningOf(Decode(d)) == MeaningOf(cs)
    ensures !Decode(d).IsMalformed()
    ensures d == Encode(Normalized(cs))
  {
    var entries := cs.Entries();
    var copy: map<string, Endpoint> := map[];
    var todo := entries.Keys;
    while todo != {}
      invariant todo <= entries.Keys
      invariant copy == PlainAll(entries - todo)
      decreases todo
    {
      var k :| k in todo;
      copy := copy[k := Plain(entries[k])];
      todo := todo - {k};
    }
    assert entries - todo == entries;
    var written := ClusterStatus("", "", cs.Kind(), cs.ApiVersion(), Some(copy), None);
    d := Encode(written);
    NormalizedKeepsMeaning(cs);
  }

  function Plain(e: Endpoint): Endpoint {
    Endpoint(e.Address(), "", e.Port(), 0)
  }

  function PlainAll(m: map<string, Endpoint>): map<string, Endpoint> {
    map k | k in m :: Plain(m[k])
  }

  function Normalized(cs: ClusterStatus): ClusterStatus {
    ClusterStatus("", "", cs.Kind(), cs.ApiVersion(), Some(PlainAll(cs.Entries())), None)
  }

  /** Reading back what is written gives the same kind, version and endpoints, and a well-formed document,
      whatever mixture of spellings was read before. */
  lemma NormalizedKeepsMeaning(cs: ClusterStatus)
    ensures MeaningOf(Decode(Encode(Normalized(cs)))) == MeaningOf(cs)
    ensures !Decode(Encode(Normalized(cs))).IsMalformed()
  {
    var back := Decode(Encode(Normalized(cs)));
    assert back.Entries().Keys == cs.Entries().Keys;
    forall k | k in cs.Entries()
      ensures back.Entries()[k].Address() == cs.Entries()[k].Address() && back.Entries()[k].Port() == cs.Entries()[k].Port()
    {
      assert Normalized(cs).endpoints.value[k] == Plain(cs.Entries()[k]);
    }
  }

  // ---------- what the two spellings say ----------

  /** The malformed form has every key in lower case. */
  lemma LowercaseDoc(kind: string, version: string, m: map<string, (string, int)>)
    ensures var d := Doc(None, None, Some(TypeMetaDoc(Some(kind), Some(version))), None,
                         Some(map k | k in m :: EndpointDoc(None, Some(m[k].0), None, Some(m[k].1))));
            MeaningOf(Decode(d)) == Meaning(kind, version, m) && (Decode(d).IsMalformed() <==> kind != "" || version != "")
  {
    var d := Doc(None, None, Some(TypeMetaDoc(Some(kind), Some(version))), None,
                 Some(map k | k in m :: EndpointDoc(None, Some(m[k].0), None, Some(m[k].1))));
    assert MeaningOf(Decode(d)).endpoints == m;
  }

  function WellFormed(m: Meaning): Doc {
    Doc(Some(m.kind), Some(m.apiVersion), None,
        Some(map k | k in m.endpoints :: EndpointDoc(Some(m.endpoints[k].0), None, Some(m.endpoints[k].1), None)), None)
  }

  lemma WellFormedDoc(m: Meaning)
    ensures MeaningOf(Decode(WellFormed(m))) == m && !Decode(WellFormed(m)).IsMalformed()
  {
    assert MeaningOf(Decode(WellFormed(m))).endpoints == m.endpoints;
  }

  /** Whatever was read, the well-formed document with its meaning is written. */
  lemma NormalizedDoc(cs: ClusterStatus)
    ensures Encode(Normalized(cs)) == WellFormed(MeaningOf(cs))
  {
    assert EncodeEndpoints(PlainAll(cs.Entries())) == WellFormed(MeaningOf(cs)).apiEndpoints.value;
  }

  /** What is listed in the lower-case spelling of the keys counts before what is listed in the other. */
  lemma LowercaseFirst(d: Doc)
    ensures Decode(d).IsMalformed()
       <==> d.typemeta.Some? && (d.typemeta.value.kind !in {None, Some("")} || d.typemeta.value.apiversion !in {None, Some("")})
    ensures Listed(Present(d)).Keys == if d.apiendpoints.Some? then d.apiendpoints.value.Keys
                                       else if d.apiEndpoints.Some? then d.apiEndpoints.value.Keys
                                       else {}
  {
  }

  lemma WithoutMeaning(cs: ClusterStatus, name: string)
    ensures MeaningOf(cs.Without(name)) == MeaningOf(cs).(endpoints := MeaningOf(cs).endpoints - {name})
  {
    assert cs.Without(name).Entries() == cs.Entries() - {name};
  }

  /** Normalising twice changes nothing more. */
  lemma NormalizedIsFixed(cs: ClusterStatus)
    ensures Encode(Normalized(Decode(Encode(Normalized(cs))))) == Encode(Normalized(cs))
  {
    NormalizedKeepsMeaning(cs);
    var back := Decode(Encode(Normalized(cs)));
    assert back.Entries().Keys == cs.Entries().Keys;
    forall k | k in cs.Entries() ensures Plain(back.Entries()[k]) == Plain(cs.Entries()[k]) {
      assert Normalized(cs).endpoints.value[k] == Plain(cs.Entries()[k]);
    }
    assert PlainAll(back.Entries()) == PlainAll(cs.Entries());
  }

  // ---------- addresses ----------

  ghost function Addresses(m: map<string, Endpoint>): multiset<string> {
    AddressesAt(m, m.Keys)
  }

  ghost function AddressesAt(m: map<string, Endpoint>, names: set<string>): multiset<string>
    requires names <= m.Keys
  {
    if names == {} then multiset{}
    else
      var k :| k in names;
      AddressesAt(m, names - {k}) + multiset{m[k].Address()}
  }

  lemma {:induction false} AddressesSplit(m: map<string, Endpoint>, names: set<string>, k: string)
    requires names <= m.Keys && k in names
    ensures AddressesAt(m, names) == AddressesAt(m, names - {k}) + multiset{m[k].Address()}
    decreases names
  {
    var j :| j in names && AddressesAt(m, names) == AddressesAt(m, names - {j}) + multiset{m[j].Address()};
    if j != k {
      AddressesSplit(m, names - {j}, k);
      AddressesSplit(m, names - {k}, j);
      assert names - {j} - {k} == names - {k} - {j};
    }
  }

  // ---------- the config map ----------

  /** The ClusterStatus key of the kubeadm-config map: absent since Kubernetes 1.22, possibly unreadable. */
  datatype Stored = Absent | Unreadable | Present(doc: Doc)

  datatype Call = GetConfigMap | UpdateConfigMap

  function Listed(s: Stored): map<string, Endpoint> {
    if s.Present? then Decode(s.doc).Entries() else map[]
  }

  /** What removing `name` stores when the update succeeds. */
  function Removed(s: Stored, name: string): Stored {
    if !s.Present? then s
    else
      var cs := Decode(s.doc);
      if name in cs.Entries() then Present(Encode(Normalized(cs.Without(name))))
      else if cs.IsMalformed() then Present(Encode(Normalized(cs)))
      else s
  }

  /** A document that lists the name or is malformed is written anew, well-formed and without the name; any other
      is left as it is. */
  lemma RemovedIsWritten(s: Stored, name: string)
    ensures s.Present? && (name in Listed(s) || Decode(s.doc).IsMalformed()) ==>
      var m := MeaningOf(Decode(s.doc));
      Removed(s, name) == Present(WellFormed(m.(endpoints := m.endpoints - {name})))
    ensures !(s.Present? && (name in Listed(s) || Decode(s.doc).IsMalformed())) ==> Removed(s, name) == s
  {
    if s.Present? {
      var cs := Decode(s.doc);
      WithoutMeaning(cs, name);
      NormalizedDoc(cs.Without(name));
      NormalizedDoc(cs);
      if name !in Listed(s) {
        assert MeaningOf(cs).endpoints - {name} == MeaningOf(cs).endpoints;
      }
    }
  }

  /** Removing an endpoint leaves exactly the other endpoints. */
  lemma RemovedMeaning(s: Stored, name: string)
    requires s.Present?
    ensures Removed(s, name).Present? && !Decode(Removed(s, name).doc).IsMalformed()
    ensures MeaningOf(Decode(Removed(s, name).doc))
         == MeaningOf(Decode(s.doc)).(endpoints := MeaningOf(Decode(s.doc)).endpoints - {name})
  {
    var cs := Decode(s.doc);
    WithoutMeaning(cs, name);
    NormalizedKeepsMeaning(cs.Without(name));
    NormalizedKeepsMeaning(cs);
    if name !in cs.Entries() {
      assert MeaningOf(cs).endpoints - {name} == MeaningOf(cs).endpoints;
    }
  }

  lemma RemovedListing(s: Stored, name: string)
    ensures Listed(Removed(s, name)).Keys == Listed(s).Keys - {name}
    ensures forall k :: k in Listed(s) && k != name ==>
      && Listed(Removed(s, name))[k].Address() == Listed(s)[k].Address()
      && Listed(Removed(s, name))[k].Port() == Listed(s)[k].Port()
  {
    if s.Present? {
      RemovedMeaning(s, name);
      var before, after := MeaningOf(Decode(s.doc)), MeaningOf(Decode(Removed(s, name).doc));
      assert after.endpoints.Keys == Listed(Removed(s, name)).Keys;
      assert before.endpoints.Keys == Listed(s).Keys;
      forall k | k in Listed(s) && k != name
        ensures Listed(Removed(s, name))[k].Address() == Listed(s)[k].Address()
        ensures Listed(Removed(s, name))[k].Port() == Listed(s)[k].Port()
      {
        assert after.endpoints[k] == before.endpoints[k];
      }
    }
  }

  class ConfigMap {
    var stored: Stored

    /** Takes `name` out of the stored document. Returns its address, or the empty string, and the addresses
        left, in any order. */
    method RemoveKubeadmEndpoint(name: string, faults: set<Call>) returns (ip: string, remaining: seq<string>, ok: bool)
      modifies this
      ensures ok <==> GetConfigMap !in faults && stored != Unreadable
                      && (UpdateConfigMap in faults ==> Removed(old(stored), name) == old(stored))
      ensures stored == if ok then Removed(old(stored), name) else old(stored)
      ensures ok ==> ip == if name in Listed(old(stored)) then Listed(old(stored))[name].Address() else ""
      ensures ok && name in Listed(old(stored)) ==> multiset(remaining) + multiset{ip} == Addresses(Listed(old(stored)))
      ensures ok && name !in Listed(old(stored)) ==> multiset(remaining) == Addresses(Listed(old(stored)))
      ensures !ok ==> ip == "" && remaining == []
    {
      if GetConfigMap in faults {
        return "", [], false;
      }
      if stored == Absent {
        return "", [], true;
      }
      if stored == Unreadable {
        return "", [], false;
      }
      var cs := Decode(stored.doc);
      ip := "";
      var entries := cs.Entries();
      var found := name in entries;
      var left := entries.Keys;
      if found {
        AddressesSplit(entries, entries.Keys, name);
        ip := entries[name].Address();
        cs := cs.Without(name);
        left := left - {name};
        var written := MarshalClusterStatus(cs);
        WithoutChanges(stored, name);
        if UpdateConfigMap in faults {
          return "", [], false;
        }
        stored := Present(written);
      }
      if !found && cs.IsMalformed() {
        var written := MarshalClusterStatus(cs);
        NormalizedKeepsMeaning(cs);
        if UpdateConfigMap in faults {
          return "", [], false;
        }
        stored := Present(written);
      }
      remaining := CollectAddresses(entries, left);
      ok := true;
    }
  }

  /** Taking a listed name out does change the document. */
  lemma WithoutChanges(s: Stored, name: string)
    requires name in Listed(s)
    ensures Removed(s, name) != s
  {
    RemovedListing(s, name);
  }

  /** Map iteration: the addresses come in any order. */
  method CollectAddresses(entries: map<string, Endpoint>, names: set<string>) returns (addresses: seq<string>)
    requires names <= entries.Keys
    ensures multiset(addresses) == AddressesAt(entries, names)
  {
    addresses := [];
    var todo := names;
    while todo != {}
      invariant todo <= names
      invariant multiset(addresses) + AddressesAt(entries, todo) == AddressesAt(entries, names)
      decreases todo
    {
      var k :| k in todo;
      AddressesSplit(entries, todo, k);
      addresses := addresses + [entries[k].Address()];
      todo := todo - {k};
    }
  }
}

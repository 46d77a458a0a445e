/** The manifest's nodes: the validator that accepts them, and the VM-creation options built from an accepted
    manifest. */
module Manifest {
  import opened Wrappers
  import opened CreateVM
  import Text
  import Numbers
  import Lifecycle
  import MultiNode
  import FanOut

  datatype Resources = Resources(memory: Numbers.Int, cores: Numbers.Int, sockets: Numbers.Int, cpu: string, bios: string, machine: string)

  /** `address` is absent when the interface has no IPv4 configuration. */
  datatype NIC = NIC(bridge: string, mac: string, network: string, address: Option<string>)

  datatype Disk = Disk(size: string, storageClass: string, storage: string, iface: string, shared: bool)

  datatype Node = Node(
    host: string, vmid: Numbers.Int, ips: map<string, string>, resources: Option<Resources>, nics: seq<NIC>, disks: seq<Disk>, tags: seq<string>)

  datatype ISO = ISO(storage: string, image: string, kickstartStorage: string)

  datatype StorageClass = StorageClass(backend: string, shared: bool)

  /** `nodes` and `classes` are absent when the manifest's references did not resolve to a value. */
  datatype Manifest = Manifest(nodes: Option<map<string, Node>>, classes: Option<map<string, StorageClass>>, iso: Option<ISO>)

  // --- field tags --------------------------------------------------------------------

  predicate ScsiName(k: string) { |k| == 5 && k[..4] == "scsi" && Numbers.IsDigit(k[4]) }

  predicate DiskTags(d: Disk) { d.size != "" && (d.iface == "" || ScsiName(d.iface)) }

  predicate ResourceTags(r: Resources) {
    r.memory >= 512 && r.cores >= 1 && r.sockets >= 1 && r.bios in {"", "seabios", "ovmf"}
  }

  predicate NodeTags(n: Node) {
    n.host != "" && 100 <= n.vmid <= 999999 && (n.resources.Some? ==> ResourceTags(n.resources.value)) &&
    (forall d :: d in n.disks ==> DiskTags(d)) &&
    (forall nic :: nic in n.nics && nic.address.Some? ==> nic.address.value != "")
  }

  /** What the struct tags establish about the fields that matter later. The references to the hypervisor and to the
      storage classes are required, and the loader gives every reference a value. */
  predicate TagsHold(m: Manifest) {
    (m.nodes.Some? && |m.nodes.value| >= 1 && forall k :: k in m.nodes.value ==> NodeTags(m.nodes.value[k])) &&
    (m.classes.Some? && |m.classes.value| >= 1 && forall k :: k in m.classes.value ==> m.classes.value[k].backend != "") &&
    (m.iso.Some? ==> m.iso.value.storage != "" && m.iso.value.image != "")
  }

  // --- uniqueness --------------------------------------------------------------------

  /** What a node claims for itself alone. */
  datatype Claim = OwnVMID(id: int) | MAC(mac: string) | Address(network: string, ip: string)

  function MACClaim(nic: NIC): seq<Claim> {
    if nic.mac != "" && nic.mac != "auto" then [MAC(nic.mac)] else []
  }

  function AddressClaim(nic: NIC): seq<Claim> {
    if nic.network != "" && nic.address.Some? && nic.address.value != "" then
      [Address(nic.network, Text.Split(nic.address.value, '/')[0])]
    else []
  }

  function NICClaims(nics: seq<NIC>): seq<Claim> {
    if nics == [] then [] else MACClaim(nics[0]) + (AddressClaim(nics[0]) + NICClaims(nics[1..]))
  }

  function Claims(n: Node): seq<Claim> { [OwnVMID(n.vmid)] + NICClaims(n.nics) }

  predicate NoRepeats(cs: seq<Claim>) {
    forall i, j :: 0 <= i < j < |cs| ==> cs[i] != cs[j]
  }

  ghost predicate Disjoint(a: seq<Claim>, b: seq<Claim>) {
    forall c :: c in a ==> c !in b
  }

  /** No two claims anywhere in the manifest are the same. */
  ghost predicate Unique(nodes: map<string, Node>) {
    (forall a :: a in nodes ==> NoRepeats(Claims(nodes[a]))) &&
    (forall a, b :: a in nodes && b in nodes && a != b ==> Disjoint(Claims(nodes[a]), Claims(nodes[b])))
  }

  /** An order in which the map of nodes may be gone through. */
  ghost predicate Enumerates(order: seq<string>, nodes: map<string, Node>) {
    (forall i, j :: 0 <= i < j < |order| ==> order[i] != order[j]) && (forall k :: k in order <==> k in nodes)
  }

  function AllClaims(nodes: map<string, Node>, order: seq<string>): seq<Claim>
    requires forall k :: k in order ==> k in nodes
  {
    if order == [] then [] else Claims(nodes[order[0]]) + AllClaims(nodes, order[1..])
  }

  lemma NoRepeatsConcat(a: seq<Claim>, b: seq<Claim>)
    ensures NoRepeats(a + b) <==> NoRepeats(a) && NoRepeats(b) && Disjoint(a, b)
  {
    var all := a + b;
    assert forall i :: 0 <= i < |a| ==> all[i] == a[i];
    assert forall j :: 0 <= j < |b| ==> all[|a| + j] == b[j];
    if NoRepeats(all) {
      forall i, j | 0 <= i < j < |a| ensures a[i] != a[j] { assert all[i] != all[j]; }
      forall i, j | 0 <= i < j < |b| ensures b[i] != b[j] { assert all[|a| + i] != all[|a| + j]; }
      forall i, j | 0 <= i < |a| && 0 <= j < |b| ensures a[i] != b[j] { assert all[i] != all[|a| + j]; }
    }
    if NoRepeats(a) && NoRepeats(b) && Disjoint(a, b) {
      forall i, j | 0 <= i < j < |all| ensures all[i] != all[j] {
        if i < |a| <= j { assert all[i] in a && all[j] in b; }
      }
    }
  }

  lemma {:induction false} AllClaimsMember(nodes: map<string, Node>, order: seq<string>, c: Claim)
    requires forall k :: k in order ==> k in nodes
    ensures c in AllClaims(nodes, order) <==> exists k :: k in order && c in Claims(nodes[k])
  {
    if order != [] {
      AllClaimsMember(nodes, order[1..], c);
      assert forall k :: k in order <==> k == order[0] || k in order[1..];
    }
  }

  /** The nodes in `order` are unique among themselves. */
  ghost predicate UniqueAmong(nodes: map<string, Node>, order: seq<string>)
    requires forall k :: k in order ==> k in nodes
  {
    (forall i :: 0 <= i < |order| ==> NoRepeats(Claims(nodes[order[i]]))) &&
    (forall i, j :: 0 <= i < j < |order| ==> Disjoint(Claims(nodes[order[i]]), Claims(nodes[order[j]])))
  }

  lemma {:induction false} NoRepeatsIffAmong(nodes: map<string, Node>, order: seq<string>)
    requires forall k :: k in order ==> k in nodes
    ensures NoRepeats(AllClaims(nodes, order)) <==> UniqueAmong(nodes, order)
  {
    if order != [] {
      var first, rest := Claims(nodes[order[0]]), order[1..];
      NoRepeatsIffAmong(nodes, rest);
      NoRepeatsConcat(first, AllClaims(nodes, rest));
      FirstDisjoint(nodes, order);
      AmongStep(nodes, order);
    }
  }

  lemma FirstDisjoint(nodes: map<string, Node>, order: seq<string>)
    requires order != [] && forall k :: k in order ==> k in nodes
    ensures Disjoint(Claims(nodes[order[0]]), AllClaims(nodes, order[1..]))
       <==> forall j :: 0 < j < |order| ==> Disjoint(Claims(nodes[order[0]]), Claims(nodes[order[j]]))
  {
    var first, rest := Claims(nodes[order[0]]), order[1..];
    forall c ensures c in AllClaims(nodes, rest) <==> exists k :: k in rest && c in Claims(nodes[k]) {
      AllClaimsMember(nodes, rest, c);
    }
    assert forall j :: 0 < j < |order| ==> order[j] == rest[j - 1] && order[j] in rest;
    forall k | k in rest ensures exists j :: 0 < j < |order| && order[j] == k {
      var i :| 0 <= i < |rest| && rest[i] == k;
      assert order[i + 1] == k;
    }
  }

  lemma AmongStep(nodes: map<string, Node>, order: seq<string>)
    requires order != [] && forall k :: k in order ==> k in nodes
    ensures UniqueAmong(nodes, order) <==>
              NoRepeats(Claims(nodes[order[0]])) && UniqueAmong(nodes, order[1..]) &&
              forall j :: 0 < j < |order| ==> Disjoint(Claims(nodes[order[0]]), Claims(nodes[order[j]]))
  {
    var rest := order[1..];
    assert forall j :: 0 <= j < |rest| ==> rest[j] == order[j + 1];
    if UniqueAmong(nodes, order) {
      forall i, j | 0 <= i < j < |rest| ensures Disjoint(Claims(nodes[rest[i]]), Claims(nodes[rest[j]])) {
        assert rest[i] == order[i + 1] && rest[j] == order[j + 1];
      }
    }
    if NoRepeats(Claims(nodes[order[0]])) && UniqueAmong(nodes, rest) {
      forall i | 0 <= i < |order| ensures NoRepeats(Claims(nodes[order[i]])) {
        if i > 0 { assert order[i] == rest[i - 1]; }
      }
      forall i, j | 0 < i < j < |order| ensures Disjoint(Claims(nodes[order[i]]), Claims(nodes[order[j]])) {
        assert order[i] == rest[i - 1] && order[j] == rest[j - 1];
      }
    }
  }

  /** Whatever order the map is gone through in, its claims have no repetition exactly when it is unique. */
  lemma OrderDoesNotMatter(nodes: map<string, Node>, order: seq<string>)
    requires Enumerates(order, nodes)
    ensures NoRepeats(AllClaims(nodes, order)) <==> Unique(nodes)
  {
    NoRepeatsIffAmong(nodes, order);
    if UniqueAmong(nodes, order) {
      forall a, b | a in nodes && b in nodes && a != b ensures Disjoint(Claims(nodes[a]), Claims(nodes[b])) {
        AmongAll(nodes, order, a, b);
      }
    }
    assert forall i :: 0 <= i < |order| ==> order[i] in nodes;
  }

  lemma AmongAll(nodes: map<string, Node>, order: seq<string>, a: string, b: string)
    requires Enumerates(order, nodes) && UniqueAmong(nodes, order) && a in nodes && b in nodes && a != b
    ensures Disjoint(Claims(nodes[a]), Claims(nodes[b]))
  {
    var i :| 0 <= i < |order| && order[i] == a;
    var j :| 0 <= j < |order| && order[j] == b;
    if i < j {
      assert Disjoint(Claims(nodes[order[i]]), Claims(nodes[order[j]]));
    } else {
      assert Disjoint(Claims(nodes[order[j]]), Claims(nodes[order[i]]));
    }
  }

  // --- uniqueness, without the claims -----------------------------------------------------

  /** The two interfaces have one hardware address, or one address within one network. */
  predicate NICsClash(x: NIC, y: NIC) {
    || (x.mac == y.mac && x.mac != "" && x.mac != "auto")
    || (x.network == y.network && x.network != "" && x.address.Some? && y.address.Some? && x.address.value != "" && y.address.value != "" &&
        Text.Split(x.address.value, '/')[0] == Text.Split(y.address.value, '/')[0])
  }

  function OwnClaims(x: NIC): seq<Claim> { MACClaim(x) + AddressClaim(x) }

  lemma OwnClaimsMean(x: NIC, y: NIC)
    ensures NoRepeats(OwnClaims(x)) && (Disjoint(OwnClaims(x), OwnClaims(y)) <==> !NICsClash(x, y))
  {
    if NICsClash(x, y) {
      if x.mac == y.mac && x.mac != "" && x.mac != "auto" {
        assert MAC(x.mac) in OwnClaims(x) && MAC(x.mac) in OwnClaims(y);
      } else {
        assert AddressClaim(x)[0] in OwnClaims(x) && AddressClaim(y)[0] in OwnClaims(y);
      }
    }
  }

  lemma {:induction false} NICClaimsMember(nics: seq<NIC>, c: Claim)
    ensures c in NICClaims(nics) <==> exists i :: 0 <= i < |nics| && c in OwnClaims(nics[i])
  {
    if nics != [] {
      NICClaimsMember(nics[1..], c);
      assert forall i :: 0 < i < |nics| ==> nics[i] == nics[1..][i - 1];
      assert c in NICClaims(nics) <==> c in OwnClaims(nics[0]) || c in NICClaims(nics[1..]);
      if i :| 0 <= i < |nics[1..]| && c in OwnClaims(nics[1..][i]) { assert c in OwnClaims(nics[i + 1]); }
    }
  }

  predicate NoneClash(xs: seq<NIC>, ys: seq<NIC>) {
    forall i, j :: 0 <= i < |xs| && 0 <= j < |ys| ==> !NICsClash(xs[i], ys[j])
  }

  lemma DisjointMeans(xs: seq<NIC>, ys: seq<NIC>)
    ensures Disjoint(NICClaims(xs), NICClaims(ys)) <==> NoneClash(xs, ys)
  {
    if Disjoint(NICClaims(xs), NICClaims(ys)) {
      forall i, j | 0 <= i < |xs| && 0 <= j < |ys| ensures !NICsClash(xs[i], ys[j]) {
        forall c | c in OwnClaims(xs[i]) ensures c !in OwnClaims(ys[j]) {
          NICClaimsMember(xs, c);
          NICClaimsMember(ys, c);
        }
        OwnClaimsMean(xs[i], ys[j]);
      }
    }
    if NoneClash(xs, ys) {
      forall c | c in NICClaims(xs) ensures c !in NICClaims(ys) {
        NICClaimsMember(xs, c);
        NICClaimsMember(ys, c);
        var i :| 0 <= i < |xs| && c in OwnClaims(xs[i]);
        forall j | 0 <= j < |ys| ensures c !in OwnClaims(ys[j]) { OwnClaimsMean(xs[i], ys[j]); }
      }
    }
  }

  predicate NoneClashWithin(nics: seq<NIC>) {
    forall i, j :: 0 <= i < j < |nics| ==> !NICsClash(nics[i], nics[j])
  }

  lemma {:induction false} NoRepeatsMeans(nics: seq<NIC>)
    ensures NoRepeats(NICClaims(nics)) <==> NoneClashWithin(nics)
  {
    if nics != [] {
      NoRepeatsMeans(nics[1..]);
      FirstNICClaims(nics);
      WithinStep(nics);
    }
  }

  lemma FirstNICClaims(nics: seq<NIC>)
    requires nics != []
    ensures NoRepeats(NICClaims(nics)) <==> NoneClash([nics[0]], nics[1..]) && NoRepeats(NICClaims(nics[1..]))
  {
    var own, rest := OwnClaims(nics[0]), NICClaims(nics[1..]);
    OwnClaimsMean(nics[0], nics[0]);
    RegroupClaims(MACClaim(nics[0]), AddressClaim(nics[0]), rest);
    NoRepeatsConcat(own, rest);
    DisjointMeans([nics[0]], nics[1..]);
    OneNICClaims(nics[0]);
  }

  lemma RegroupClaims(a: seq<Claim>, b: seq<Claim>, c: seq<Claim>)
    ensures a + (b + c) == a + b + c
  {
  }

  lemma OneNICClaims(x: NIC)
    ensures NICClaims([x]) == OwnClaims(x)
  {
    assert [x][1..] == [] && NICClaims([x][1..]) == [];
  }

  lemma WithinStep(nics: seq<NIC>)
    requires nics != []
    ensures NoneClashWithin(nics) <==> NoneClash([nics[0]], nics[1..]) && NoneClashWithin(nics[1..])
  {
    var rest := nics[1..];
    assert forall j :: 0 < j < |nics| ==> nics[j] == rest[j - 1];
    if NoneClashWithin(nics) {
      forall i, j | 0 <= i < j < |rest| ensures !NICsClash(rest[i], rest[j]) { assert !NICsClash(nics[i + 1], nics[j + 1]); }
      forall j | 0 <= j < |rest| ensures !NICsClash(nics[0], rest[j]) { assert !NICsClash(nics[0], nics[j + 1]); }
    }
    if NoneClash([nics[0]], rest) && NoneClashWithin(rest) {
      forall i, j | 0 <= i < j < |nics| ensures !NICsClash(nics[i], nics[j]) {
        if i == 0 { assert !NICsClash([nics[0]][0], rest[j - 1]); } else { assert !NICsClash(rest[i - 1], rest[j - 1]); }
      }
    }
  }

  /** Unique means: no VMID twice, no hardware address twice, no address twice within a network, whether on one node or
      on two. */
  lemma UniqueMeans(nodes: map<string, Node>)
    ensures Unique(nodes) <==>
              && (forall a :: a in nodes ==> NoneClashWithin(nodes[a].nics))
              && (forall a, b :: a in nodes && b in nodes && a != b ==>
                    nodes[a].vmid != nodes[b].vmid && NoneClash(nodes[a].nics, nodes[b].nics))
  {
    forall a | a in nodes ensures NoRepeats(Claims(nodes[a])) <==> NoneClashWithin(nodes[a].nics) {
      NoRepeatsMeans(nodes[a].nics);
      OwnVMIDFirst(nodes[a]);
      NoRepeatsConcat([OwnVMID(nodes[a].vmid)], NICClaims(nodes[a].nics));
    }
    forall a, b | a in nodes && b in nodes
      ensures Disjoint(Claims(nodes[a]), Claims(nodes[b])) <==> nodes[a].vmid != nodes[b].vmid && NoneClash(nodes[a].nics, nodes[b].nics)
    {
      TwoNodesDisjoint(nodes[a], nodes[b]);
    }
  }

  lemma OwnVMIDFirst(n: Node)
    ensures forall id :: OwnVMID(id) !in NICClaims(n.nics)
  {
    forall id ensures OwnVMID(id) !in NICClaims(n.nics) { NICClaimsMember(n.nics, OwnVMID(id)); }
  }

  lemma TwoNodesDisjoint(a: Node, b: Node)
    ensures Disjoint(Claims(a), Claims(b)) <==> a.vmid != b.vmid && NoneClash(a.nics, b.nics)
  {
    OwnVMIDFirst(a);
    OwnVMIDFirst(b);
    DisjointMeans(a.nics, b.nics);
    assert forall c :: c in Claims(a) <==> c == OwnVMID(a.vmid) || c in NICClaims(a.nics);
    assert forall c :: c in Claims(b) <==> c == OwnVMID(b.vmid) || c in NICClaims(b.nics);
  }

  /** The validator's three maps, each from what is claimed to the claiming node. */
  datatype Seen = Seen(vmIDs: map<int, string>, macs: map<string, string>, ipByZone: map<string, map<string, string>>) {
    function Owner(c: Claim): Option<string> {
      match c
      case OwnVMID(id) => if id in vmIDs then Some(vmIDs[id]) else None
      case MAC(mac) => if mac in macs then Some(macs[mac]) else None
      case Address(network, ip) =>
        if network in ipByZone && ip in ipByZone[network] then Some(ipByZone[network][ip]) else None
    }

    function Record(c: Claim, name: string): Seen {
      match c
      case OwnVMID(id) => this.(vmIDs := vmIDs[id := name])
      case MAC(mac) => this.(macs := macs[mac := name])
      case Address(network, ip) =>
        var zone := if network in ipByZone then ipByZone[network] else map[];
        this.(ipByZone := ipByZone[network := zone[ip := name]])
    }
  }

  /** The maps hold exactly the claims gone through, each with a node that makes it. */
  ghost predicate Holds(s: Seen, past: seq<Claim>, nodes: map<string, Node>) {
    forall c :: (s.Owner(c).Some? <==> c in past) &&
                (s.Owner(c).Some? ==> s.Owner(c).value in nodes && c in Claims(nodes[s.Owner(c).value]))
  }

  /** A claim made by two nodes, or twice by one. */
  datatype Clash = Clash(claim: Claim, previous: string, name: string)

  ghost predicate Real(clash: Clash, nodes: map<string, Node>) {
    clash.previous in nodes && clash.name in nodes &&
    clash.claim in Claims(nodes[clash.previous]) && clash.claim in Claims(nodes[clash.name])
  }

  /** `past` has been gone through without a clash and `rest` is still to come. */
  ghost predicate Progress(s: Seen, nodes: map<string, Node>, all: seq<Claim>, past: seq<Claim>, rest: seq<Claim>) {
    Holds(s, past, nodes) && NoRepeats(past) && all == past + rest
  }

  lemma RecordOwner(s: Seen, c: Claim, name: string, d: Claim)
    ensures s.Record(c, name).Owner(d) == if d == c then Some(name) else s.Owner(d)
  {
  }

  lemma NextClaim(s: Seen, nodes: map<string, Node>, all: seq<Claim>, past: seq<Claim>, c: Claim, name: string, rest: seq<Claim>)
    requires Progress(s, nodes, all, past, [c] + rest) && name in nodes && c in Claims(nodes[name])
    ensures s.Owner(c).Some? ==> !NoRepeats(all) && Real(Clash(c, s.Owner(c).value, name), nodes)
    ensures s.Owner(c) == None ==> Progress(s.Record(c, name), nodes, all, past + [c], rest)
  {
    NoRepeatsConcat(past, [c] + rest);
    NoRepeatsConcat(past, [c]);
    assert c in [c] + rest;
    assert past + ([c] + rest) == past + [c] + rest;
    if s.Owner(c) == None {
      var s' := s.Record(c, name);
      forall d
        ensures s'.Owner(d).Some? <==> d in past + [c]
        ensures s'.Owner(d).Some? ==> s'.Owner(d).value in nodes && d in Claims(nodes[s'.Owner(d).value])
      {
        RecordOwner(s, c, name, d);
        assert s.Owner(d).Some? <==> d in past;
      }
    }
  }

  /** One look-up and, when the claim is new, one entry. */
  method Register(s: Seen, c: Claim, name: string, nodes: map<string, Node>,
                  ghost all: seq<Claim>, ghost past: seq<Claim>, ghost rest: seq<Claim>)
    returns (clash: Option<Clash>, s': Seen, ghost past': seq<Claim>)
    requires Progress(s, nodes, all, past, [c] + rest) && name in nodes && c in Claims(nodes[name])
    ensures clash.Some? ==> !NoRepeats(all) && Real(clash.value, nodes)
    ensures clash == None ==> Progress(s', nodes, all, past', rest)
  {
    NextClaim(s, nodes, all, past, c, name, rest);
    var previous := s.Owner(c);
    if previous.Some? {
      return Some(Clash(c, previous.value, name)), s, past;
    }
    return None, s.Record(c, name), past + [c];
  }

  lemma NICClaimsAt(n: Node, i: nat, c: Claim)
    requires i < |n.nics| && (c in MACClaim(n.nics[i]) || c in AddressClaim(n.nics[i]))
    ensures c in Claims(n)
  {
    NICClaimsSuffix(n.nics, i, c);
  }

  lemma {:induction false} NICClaimsSuffix(nics: seq<NIC>, i: nat, c: Claim)
    requires i < |nics| && (c in MACClaim(nics[i]) || c in AddressClaim(nics[i]))
    ensures c in NICClaims(nics)
  {
    if i > 0 { NICClaimsSuffix(nics[1..], i - 1, c); }
  }

  method RegisterMAC(s: Seen, name: string, i: nat, nodes: map<string, Node>,
                     ghost all: seq<Claim>, ghost past: seq<Claim>, ghost rest: seq<Claim>)
    returns (clash: Option<Clash>, s': Seen, ghost past': seq<Claim>)
    requires name in nodes && i < |nodes[name].nics| && Progress(s, nodes, all, past, MACClaim(nodes[name].nics[i]) + rest)
    ensures clash.Some? ==> !NoRepeats(all) && Real(clash.value, nodes)
    ensures clash == None ==> Progress(s', nodes, all, past', rest)
  {
    var nic := nodes[name].nics[i];
    if nic.mac != "" && nic.mac != "auto" {
      NICClaimsAt(nodes[name], i, MAC(nic.mac));
      clash, s', past' := Register(s, MAC(nic.mac), name, nodes, all, past, rest);
    } else {
      assert [] + rest == rest;
      clash, s', past' := None, s, past;
    }
  }

  method RegisterAddress(s: Seen, name: string, i: nat, nodes: map<string, Node>,
                         ghost all: seq<Claim>, ghost past: seq<Claim>, ghost rest: seq<Claim>)
    returns (clash: Option<Clash>, s': Seen, ghost past': seq<Claim>)
    requires name in nodes && i < |nodes[name].nics| && Progress(s, nodes, all, past, AddressClaim(nodes[name].nics[i]) + rest)
    ensures clash.Some? ==> !NoRepeats(all) && Real(clash.value, nodes)
    ensures clash == None ==> Progress(s', nodes, all, past', rest)
  {
    var nic := nodes[name].nics[i];
    if nic.network != "" && nic.address.Some? && nic.address.value != "" {
      var c := Address(nic.network, Text.Split(nic.address.value, '/')[0]);
      NICClaimsAt(nodes[name], i, c);
      clash, s', past' := Register(s, c, name, nodes, all, past, rest);
    } else {
      assert [] + rest == rest;
      clash, s', past' := None, s, past;
    }
  }

  lemma NICClaimsStep(nics: seq<NIC>, i: nat, rest: seq<Claim>)
    requires i < |nics|
    ensures NICClaims(nics[i..]) + rest
         == MACClaim(nics[i]) + (AddressClaim(nics[i]) + (NICClaims(nics[i + 1..]) + rest))
  {
    assert nics[i..][1..] == nics[i + 1..];
    var a, b, c := MACClaim(nics[i]), AddressClaim(nics[i]), NICClaims(nics[i + 1..]);
    assert (a + (b + c)) + rest == a + (b + (c + rest));
  }

  /** The claims of one node's interfaces. */
  method RegisterNICs(s: Seen, name: string, nodes: map<string, Node>,
                      ghost all: seq<Claim>, ghost past: seq<Claim>, ghost rest: seq<Claim>)
    returns (clash: Option<Clash>, s': Seen, ghost past': seq<Claim>)
    requires name in nodes && Progress(s, nodes, all, past, NICClaims(nodes[name].nics) + rest)
    ensures clash.Some? ==> !NoRepeats(all) && Real(clash.value, nodes)
    ensures clash == None ==> Progress(s', nodes, all, past', rest)
  {
    var nics := nodes[name].nics;
    clash, s', past' := None, s, past;
    assert nics[0..] == nics;
    for i := 0 to |nics|
      invariant clash == None && Progress(s', nodes, all, past', NICClaims(nics[i..]) + rest)
    {
      NICClaimsStep(nics, i, rest);
      ghost var later := NICClaims(nics[i + 1..]) + rest;
      clash, s', past' := RegisterMAC(s', name, i, nodes, all, past', AddressClaim(nics[i]) + later);
      if clash.Some? { return; }
      clash, s', past' := RegisterAddress(s', name, i, nodes, all, past', later);
      if clash.Some? { return; }
    }
    assert nics[|nics|..] == [] && [] + rest == rest;
  }

  lemma AllClaimsStep(nodes: map<string, Node>, order: seq<string>, i: nat)
    requires i < |order| && forall k :: k in order ==> k in nodes
    ensures order[i] in nodes && (forall k :: k in order[i + 1..] ==> k in nodes) && (forall k :: k in order[i..] ==> k in nodes)
    ensures AllClaims(nodes, order[i..])
         == [OwnVMID(nodes[order[i]].vmid)] + (NICClaims(nodes[order[i]].nics) + AllClaims(nodes, order[i + 1..]))
  {
    assert order[i..][1..] == order[i + 1..];
    var a, b, c := [OwnVMID(nodes[order[i]].vmid)], NICClaims(nodes[order[i]].nics), AllClaims(nodes, order[i + 1..]);
    assert (a + b) + c == a + (b + c);
  }

  /** The loops of `validateUniqueness` over the nodes in `order`. */
  method RegisterNodes(nodes: map<string, Node>, order: seq<string>) returns (clash: Option<Clash>)
    requires forall k :: k in order ==> k in nodes
    ensures clash == None <==> NoRepeats(AllClaims(nodes, order))
    ensures clash.Some? ==> Real(clash.value, nodes)
  {
    ghost var all, past := AllClaims(nodes, order), [];
    var s := Seen(map[], map[], map[]);
    clash := None;
    assert order[0..] == order && [] + all == all;
    for i := 0 to |order|
      invariant clash == None && Progress(s, nodes, all, past, AllClaims(nodes, order[i..]))
    {
      AllClaimsStep(nodes, order, i);
      ghost var later := AllClaims(nodes, order[i + 1..]);
      clash, s, past := RegisterNode(s, order[i], nodes, all, past, later);
      if clash.Some? { return; }
    }
    assert order[|order|..] == [] && past + [] == past;
  }

  method RegisterNode(s: Seen, name: string, nodes: map<string, Node>,
                      ghost all: seq<Claim>, ghost past: seq<Claim>, ghost rest: seq<Claim>)
    returns (clash: Option<Clash>, s': Seen, ghost past': seq<Claim>)
    requires name in nodes
    requires Progress(s, nodes, all, past, [OwnVMID(nodes[name].vmid)] + (NICClaims(nodes[name].nics) + rest))
    ensures clash.Some? ==> !NoRepeats(all) && Real(clash.value, nodes)
    ensures clash == None ==> Progress(s', nodes, all, past', rest)
  {
    clash, s', past' := Register(s, OwnVMID(nodes[name].vmid), name, nodes, all, past, NICClaims(nodes[name].nics) + rest);
    if clash.Some? { return; }
    clash, s', past' := RegisterNICs(s', name, nodes, all, past', rest);
  }

  /** `validateUniqueness`: whatever order the nodes come in, it accepts exactly the unique ones, and what it
      reports is a claim that two nodes make, or one node twice. */
  method ValidateUniqueness(nodes: map<string, Node>, order: seq<string>) returns (clash: Option<Clash>)
    requires Enumerates(order, nodes)
    ensures clash == None <==> Unique(nodes)
    ensures clash.Some? ==> Real(clash.value, nodes)
  {
    OrderDoesNotMatter(nodes, order);
    clash := RegisterNodes(nodes, order);
  }

  // --- storage references ------------------------------------------------------------

  predicate RefsKnown(n: Node, classes: map<string, StorageClass>) {
    forall d :: d in n.disks ==> d.storageClass == "" || d.storageClass in classes
  }

  /** `validateDiskStorageRefs`: the first unknown class found, if any. */
  method ValidateDiskStorageRefs(nodes: map<string, Node>, order: seq<string>, classes: map<string, StorageClass>)
    returns (unknown: Option<string>)
    requires Enumerates(order, nodes)
    ensures unknown == None <==> forall k :: k in nodes ==> RefsKnown(nodes[k], classes)
    ensures unknown.Some? ==> unknown.value != "" && unknown.value !in classes
  {
    for i := 0 to |order|
      invariant forall j :: 0 <= j < i ==> RefsKnown(nodes[order[j]], classes)
    {
      var disks := nodes[order[i]].disks;
      for j := 0 to |disks|
        invariant forall d :: d in disks[..j] ==> d.storageClass == "" || d.storageClass in classes
      {
        var class_ := disks[j].storageClass;
        if class_ != "" && class_ !in classes {
          assert !RefsKnown(nodes[order[i]], classes);
          return Some(class_);
        }
        assert disks[..j + 1] == disks[..j] + [disks[j]];
      }
      assert disks[..|disks|] == disks;
    }
    return None;
  }

  /** What `Validate` accepts, as far as the nodes and their disks are concerned. */
  ghost predicate Accepted(m: Manifest) {
    TagsHold(m) && Unique(m.nodes.value) && forall k :: k in m.nodes.value ==> RefsKnown(m.nodes.value[k], m.classes.value)
  }

  // --- creation options --------------------------------------------------------------

  function FirstNonEmpty(a: string, b: string): string { if a != "" then a else b }

  const LOCAL := "local-lvm"

  /** The storage and whether it is shared: an explicit one first, then the class's, then the fallback. */
  function ResolveStorage(d: Disk, classes: Option<map<string, StorageClass>>): (string, bool) {
    if d.storage != "" then (d.storage, d.shared)
    else if d.storageClass != "" && classes.Some? && d.storageClass in classes.value then
      var class_ := classes.value[d.storageClass];
      (class_.backend, class_.shared || d.shared)
    else (LOCAL, d.shared)
  }

  function EffectiveInterface(d: Disk, index: nat): string {
    if d.iface != "" then d.iface else "scsi" + Numbers.Itoa(index)
  }

  function DiskSpecOf(d: Disk, index: nat, classes: Option<map<string, StorageClass>>): DiskSpec {
    var (backend, shared) := ResolveStorage(d, classes);
    DiskSpec(EffectiveInterface(d, index), backend, d.size, shared, "")
  }

  function NICSpecOf(nic: NIC, index: nat): NICSpec {
    NICSpec(index, FirstNonEmpty(nic.bridge, "vmbr0"), "virtio", nic.mac, false, 0)
  }

  function DiskSpecs(disks: seq<Disk>, classes: Option<map<string, StorageClass>>): (specs: seq<DiskSpec>)
    ensures |specs| == |disks|
  {
    seq(|disks|, i requires 0 <= i < |disks| => DiskSpecOf(disks[i], i, classes))
  }

  function NICSpecs(nics: seq<NIC>): (specs: seq<NICSpec>)
    ensures |specs| == |nics|
  {
    seq(|nics|, i requires 0 <= i < |nics| => NICSpecOf(nics[i], i))
  }

  function EFIDiskOf(n: Node, classes: Option<map<string, StorageClass>>): EFIDiskSpec {
    var backend := if n.disks != [] then FirstNonEmpty(ResolveStorage(n.disks[0], classes).0, LOCAL) else LOCAL;
    EFIDiskSpec(backend, "raw", false)
  }

  function OptsOf(m: Manifest, name: string, n: Node): CreateOpts {
    var r := if n.resources.Some? then n.resources.value else Resources(0, 0, 0, "", "", "");
    CreateOpts(
      n.host, n.vmid, name, r.memory, r.cores, r.sockets, r.cpu, r.bios, r.machine, "virtio-scsi-single", "l26", n.tags,
      false, false, if Lower(r.bios) == "ovmf" then Some(EFIDiskOf(n, m.classes)) else None,
      DiskSpecs(n.disks, m.classes), NICSpecs(n.nics),
      if m.iso.Some? && m.iso.value.image != "" && m.iso.value.storage != "" then m.iso.value.storage + ":iso/" + m.iso.value.image else "")
  }

  /** `buildCreateOpts`: the two loops that fill the lists. */
  method BuildCreateOpts(m: Manifest, name: string, n: Node) returns (opts: CreateOpts)
    ensures opts == OptsOf(m, name, n)
  {
    var r := if n.resources.Some? then n.resources.value else Resources(0, 0, 0, "", "", "");
    var efiDisk := None;
    if Lower(r.bios) == "ovmf" {
      efiDisk := Some(EFIDiskOf(n, m.classes));
    }
    var disks: seq<DiskSpec> := [];
    for i := 0 to |n.disks|
      invariant disks == DiskSpecs(n.disks, m.classes)[..i]
    {
      var d := n.disks[i];
      var iface := d.iface;
      if iface == "" { iface := "scsi" + Numbers.Itoa(i); }
      var (backend, shared) := ResolveStorage(d, m.classes);
      disks := disks + [DiskSpec(iface, backend, d.size, shared, "")];
    }
    var nics: seq<NICSpec> := [];
    for i := 0 to |n.nics|
      invariant nics == NICSpecs(n.nics)[..i]
    {
      nics := nics + [NICSpec(i, FirstNonEmpty(n.nics[i].bridge, "vmbr0"), "virtio", n.nics[i].mac, false, 0)];
    }
    var isoFile := "";
    if m.iso.Some? && m.iso.value.image != "" && m.iso.value.storage != "" {
      isoFile := m.iso.value.storage + ":iso/" + m.iso.value.image;
    }
    opts := CreateOpts(n.host, n.vmid, name, r.memory, r.cores, r.sockets, r.cpu, r.bios, r.machine, "virtio-scsi-single", "l26",
                       n.tags, false, false, efiDisk, disks, nics, isoFile);
  }

  // --- from the validator to the form ----------------------------------------------------

  lemma EffectiveInterfaceShape(d: Disk, index: nat)
    requires DiskTags(d)
    ensures IsDiskKey(EffectiveInterface(d, index))
  {
    Numbers.ReadDigits(index);
  }

  lemma SpecShapes(m: Manifest, n: Node)
    requires NodeTags(n)
    ensures DiskKeysOnly(DiskSpecs(n.disks, m.classes)) && DistinctIndexes(NICSpecs(n.nics))
  {
    forall d | d in DiskSpecs(n.disks, m.classes) ensures IsDiskKey(d.iface) {
      var i :| 0 <= i < |n.disks| && DiskSpecs(n.disks, m.classes)[i] == d;
      assert n.disks[i] in n.disks;
      EffectiveInterfaceShape(n.disks[i], i);
    }
  }

  /** The options built for a node of an accepted manifest pass the later check exactly when the node has a
      name. */
  lemma AcceptedOptsValidIff(m: Manifest, name: string)
    requires Accepted(m) && name in m.nodes.value
    ensures ValidOpts(OptsOf(m, name, m.nodes.value[name])) <==> name != ""
  {
    var n := m.nodes.value[name];
    var o := OptsOf(m, name, n);
    SpecShapes(m, n);
    forall d | d in o.disks ensures d.iface != "" && d.storage != "" && d.size != "" {
      var i :| 0 <= i < |n.disks| && o.disks[i] == d;
      assert n.disks[i] in n.disks;
    }
  }

  /** The disk is given the fallback storage. */
  predicate UsesFallback(d: Disk, classes: map<string, StorageClass>) {
    d.storage == "" && !(d.storageClass != "" && d.storageClass in classes)
  }

  /** In an accepted manifest with a catalogue the fallback storage is for exactly the disks that name neither
      a storage nor a class. It is not out of reach: acceptance asks no disk to name one. */
  lemma FallbackIff(m: Manifest, name: string, d: Disk)
    requires Accepted(m) && name in m.nodes.value && d in m.nodes.value[name].disks
    ensures UsesFallback(d, m.classes.value) <==> d.storage == "" && d.storageClass == ""
    ensures !UsesFallback(d, m.classes.value) ==>
              ResolveStorage(d, m.classes).0 == if d.storage != "" then d.storage else m.classes.value[d.storageClass].backend
  {
    assert RefsKnown(m.nodes.value[name], m.classes.value);
  }

  /** A manifest that is accepted although its one disk names neither: the disk is put on the fallback storage. */
  lemma AcceptedFallsBack(m: Manifest, name: string, d: Disk, class_: string, backend: string)
    requires d.size != "" && d.iface == "" && d.storage == "" && d.storageClass == "" && backend != ""
    requires m == Manifest(Some(map[name := Node("pve", 100, map[], None, [], [d], [])]), Some(map[class_ := StorageClass(backend, false)]), None)
    ensures Accepted(m) && UsesFallback(d, m.classes.value) && ResolveStorage(d, m.classes).0 == "local-lvm"
  {
    var n := Node("pve", 100, map[], None, [], [d], []);
    assert NICClaims([]) == [];
    assert NodeTags(n) && NoRepeats(Claims(n));
    assert name in m.nodes.value && class_ in m.classes.value;
    assert RefsKnown(n, m.classes.value);
  }

  predicate DistinctEffective(disks: seq<Disk>) {
    forall i, j :: 0 <= i < j < |disks| ==> EffectiveInterface(disks[i], i) != EffectiveInterface(disks[j], j)
  }

  /** Each disk has its entry in the form, and the entry describes it. */
  predicate EachSubmitted(form: map<string, string>, disks: seq<Disk>, classes: Option<map<string, StorageClass>>) {
    forall i :: 0 <= i < |disks| ==>
      EffectiveInterface(disks[i], i) in form && form[EffectiveInterface(disks[i], i)] == DiskString(DiskSpecOf(disks[i], i, classes))
  }

  lemma SameInterfaces(disks: seq<Disk>, classes: Option<map<string, StorageClass>>)
    ensures DistinctInterfaces(DiskSpecs(disks, classes)) <==> DistinctEffective(disks)
  {
    assert forall i :: 0 <= i < |disks| ==> DiskSpecs(disks, classes)[i].iface == EffectiveInterface(disks[i], i);
  }

  lemma DisksSubmitted(o: CreateOpts, disks: seq<Disk>, classes: Option<map<string, StorageClass>>)
    requires o.disks == DiskSpecs(disks, classes) && DiskKeysOnly(o.disks)
    ensures |DiskEntries(FormOf(o))| == |disks| <==> DistinctEffective(disks)
    ensures DistinctEffective(disks) ==> EachSubmitted(FormOf(o), disks, classes)
  {
    SameInterfaces(disks, classes);
    NoDiskLostIff(o);
    ScsiOwnKeys(o);
    if DistinctEffective(disks) {
      forall i | 0 <= i < |disks|
        ensures EffectiveInterface(disks[i], i) in FormOf(o)
        ensures FormOf(o)[EffectiveInterface(disks[i], i)] == DiskString(DiskSpecOf(disks[i], i, classes))
      {
        assert o.disks[i] == DiskSpecOf(disks[i], i, classes);
        assert o.disks[i] in o.disks && o.disks[i].iface in Interfaces(o.disks);
        LastDiskKept(o, i);
      }
    }
  }

  /** The form submitted for a node of an accepted manifest has an entry for each disk exactly when the
      effective interfaces are pairwise distinct, and each then describes its own disk. */
  lemma EveryDiskSubmittedIff(m: Manifest, name: string)
    requires Accepted(m) && name in m.nodes.value
    ensures var n, form := m.nodes.value[name], FormOf(OptsOf(m, name, m.nodes.value[name]));
            (|DiskEntries(form)| == |n.disks| <==> DistinctEffective(n.disks)) &&
            (DistinctEffective(n.disks) ==> EachSubmitted(form, n.disks, m.classes))
  {
    var n := m.nodes.value[name];
    SpecShapes(m, n);
    DisksSubmitted(OptsOf(m, name, n), n.disks, m.classes);
  }

  /** A disk put on the second interface, and another one, second in the list, left to its default; both name the
      class. */
  function TwoDisks(size: string, class_: string): Node {
    Node("pve", 100, map[], None, [], [Disk(size, class_, "", "scsi1", false), Disk(size, class_, "", "", false)], [])
  }

  lemma TwoDisksTags(size: string, class_: string)
    requires size != ""
    ensures NodeTags(TwoDisks(size, class_)) && NoRepeats(Claims(TwoDisks(size, class_)))
  {
    assert "scsi1"[..4] == "scsi";
    assert NICClaims([]) == [];
  }

  lemma TwoDisksShareInterface(size: string, class_: string)
    ensures !DistinctEffective(TwoDisks(size, class_).disks)
  {
    assert Numbers.Digits(1) == [Numbers.DigitOf(1)];
    assert "scsi" + ['1'] == "scsi1";
    var disks := TwoDisks(size, class_).disks;
    assert EffectiveInterface(disks[0], 0) == EffectiveInterface(disks[1], 1);
  }

  /** Acceptance does not rule a loss out: with a catalogue that has the class of both disks, the two still land on
      one interface. */
  lemma AcceptedDiskLost(m: Manifest, name: string, size: string, class_: string, backend: string)
    requires m == Manifest(Some(map[name := TwoDisks(size, class_)]), Some(map[class_ := StorageClass(backend, false)]), None)
    requires size != "" && class_ != "" && backend != ""
    ensures Accepted(m) && |DiskEntries(FormOf(OptsOf(m, name, m.nodes.value[name])))| != |m.nodes.value[name].disks|
  {
    TwoDisksTags(size, class_);
    TwoDisksShareInterface(size, class_);
    assert name in m.nodes.value && class_ in m.classes.value;
    assert RefsKnown(m.nodes.value[name], m.classes.value);
    EveryDiskSubmittedIff(m, name);
  }

  /** The numbers a node asks for; a size that is not given is 0. */
  function Asked(vmid: Numbers.Int, r: Option<Resources>, f: Field): Option<Numbers.Int> {
    match f
    case VMID => Some(vmid)
    case Memory => Some(if r.Some? then r.value.memory else 0)
    case Cores => Some(if r.Some? then r.value.cores else 0)
    case Sockets => Some(if r.Some? then r.value.sockets else 0)
    case _ => None
  }

  /** The form has this name and these numbers, and no key for a number that is 0. */
  predicate DescribesMachine(form: map<string, string>, vmid: Numbers.Int, name: string, r: Option<Resources>) {
    At(form, KeyOf(Name)) == Some(name) &&
    forall f :: Asked(vmid, r, f).Some? ==> ReadsBack(form, f, Asked(vmid, r, f).value)
  }

  predicate DescribesNICs(form: map<string, string>, nics: seq<NIC>) {
    forall i :: 0 <= i < |nics| ==> At(form, NICKey(i)) == Some(NICString(NICSpecOf(nics[i], i)))
  }

  predicate DescribesMedium(form: map<string, string>, iso: Option<ISO>) {
    At(form, "ide2") == if iso.Some? then Some(iso.value.storage + ":iso/" + iso.value.image + ",media=cdrom") else None
  }

  predicate Sized(o: CreateOpts, r: Option<Resources>) {
    o.memory == (if r.Some? then r.value.memory else 0) && o.cores == (if r.Some? then r.value.cores else 0) &&
    o.sockets == (if r.Some? then r.value.sockets else 0)
  }

  lemma AskedIsNumber(o: CreateOpts, r: Option<Resources>, f: Field)
    requires Sized(o, r)
    ensures Asked(o.vmid, r, f) == NumberOf(o, f)
  {
  }

  lemma AskedReadsBack(o: CreateOpts, r: Option<Resources>, f: Field)
    requires DiskKeysOnly(o.disks) && o.vmid > 0 && Sized(o, r) && Asked(o.vmid, r, f).Some?
    ensures ReadsBack(FormOf(o), f, Asked(o.vmid, r, f).value)
  {
    AskedIsNumber(o, r, f);
    ScsiOwnKeys(o);
    NumbersReadBack(o, f);
  }

  lemma MachineDescribed(o: CreateOpts, r: Option<Resources>)
    requires DiskKeysOnly(o.disks) && o.vmid > 0 && Sized(o, r)
    ensures DescribesMachine(FormOf(o), o.vmid, o.name, r)
  {
    ScsiOwnKeys(o);
    FieldSubmitted(o, Name);
    assert Wanted(o, Name) == Some(o.name);
    var form := FormOf(o);
    forall f | Asked(o.vmid, r, f).Some? ensures ReadsBack(form, f, Asked(o.vmid, r, f).value) {
      AskedReadsBack(o, r, f);
    }
  }

  lemma NICsDescribed(o: CreateOpts, nics: seq<NIC>)
    requires o.nics == NICSpecs(nics) && DistinctIndexes(o.nics)
    ensures DescribesNICs(FormOf(o), nics)
  {
    forall i | 0 <= i < |nics| ensures At(FormOf(o), NICKey(i)) == Some(NICString(NICSpecOf(nics[i], i))) {
      NICKept(o, i);
    }
  }

  /** The form submitted for a node of an accepted manifest reads back as that node: its VMID, its name, the
      sizes it asks for and no others, each of its interfaces, and the installation medium. */
  lemma FormDescribesNode(m: Manifest, name: string)
    requires Accepted(m) && name in m.nodes.value
    ensures var n, form := m.nodes.value[name], FormOf(OptsOf(m, name, m.nodes.value[name]));
            DescribesMachine(form, n.vmid, name, n.resources) && DescribesNICs(form, n.nics) && DescribesMedium(form, m.iso)
  {
    var n := m.nodes.value[name];
    var o := OptsOf(m, name, n);
    SpecShapes(m, n);
    MachineDescribed(o, n.resources);
    NICsDescribed(o, n.nics);
    ScsiOwnKeys(o);
    MediumKept(o);
  }

  /** Where a disk goes and whether it is shared. */
  lemma ResolveStorageMeans(d: Disk, classes: map<string, StorageClass>)
    ensures var (storage, shared) := ResolveStorage(d, Some(classes));
            && (d.storage != "" ==> storage == d.storage && shared == d.shared)
            && (d.storage == "" && d.storageClass != "" && d.storageClass in classes ==>
                  storage == classes[d.storageClass].backend && (shared <==> d.shared || classes[d.storageClass].shared))
            && (UsesFallback(d, classes) ==> storage == "local-lvm" && shared == d.shared)
  {
  }

  lemma NoFieldIsDisk(o: CreateOpts)
    requires DiskKeysOnly(o.disks)
    ensures forall f: Field :: KeyOf(f) !in Interfaces(o.disks)
  {
    forall f: Field ensures KeyOf(f) !in Interfaces(o.disks) { FieldKey(f); }
  }

  /** What a node's form says beside its sizes: the processor, the firmware and the fixed settings, the tags, and an EFI
      disk exactly for ovmf. */
  lemma NodeHardware(m: Manifest, name: string)
    requires Accepted(m) && name in m.nodes.value
    ensures var n, form := m.nodes.value[name], FormOf(OptsOf(m, name, m.nodes.value[name]));
            var r := n.resources;
            && At(form, "cpu") == Some(if r.Some? && r.value.cpu != "" then r.value.cpu else "host")
            && At(form, "bios") == (if r.Some? then Given(r.value.bios) else None)
            && At(form, "machine") == (if r.Some? then Given(r.value.machine) else None)
            && At(form, "scsihw") == Some("virtio-scsi-single") && At(form, "ostype") == Some("l26") && At(form, "agent") == Some("1")
            && At(form, "tags") == (if n.tags != [] then Some(Text.Join(n.tags, ',')) else None)
            && At(form, "onboot") == None && At(form, "protection") == None
            && (At(form, "efidisk0").Some? <==> r.Some? && r.value.bios == "ovmf")
  {
    var n := m.nodes.value[name];
    var o := OptsOf(m, name, n);
    SpecShapes(m, n);
    NoFieldIsDisk(o);
    FormReads(o);
    if n.resources.Some? { BIOSNames(n.resources.value.bios); } else { assert Lower("") == ""; }
  }

  lemma BIOSNames(bios: string)
    requires bios in {"", "seabios", "ovmf"}
    ensures Lower(bios) == "ovmf" <==> bios == "ovmf"
  {
    LowerKeeps(bios);
  }

  lemma {:induction false} LowerKeeps(s: string)
    requires forall c :: c in s ==> 'a' <= c <= 'z'
    ensures Lower(s) == s
  {
    if s != "" {
      assert s[0] in s && forall c :: c in s[1..] ==> c in s;
      LowerKeeps(s[1..]);
      assert [s[0]] + s[1..] == s;
    }
  }

  /** The EFI disk of an ovmf node lies where its first disk does, and on local storage when it has none. */
  lemma NodeEFIDisk(m: Manifest, name: string)
    requires Accepted(m) && name in m.nodes.value
    requires m.nodes.value[name].resources.Some? && m.nodes.value[name].resources.value.bios == "ovmf"
    ensures var n, entry := m.nodes.value[name], At(FormOf(OptsOf(m, name, m.nodes.value[name])), "efidisk0");
            var storage := if n.disks == [] then "local-lvm" else ResolveStorage(n.disks[0], m.classes).0;
            entry.Some? && (',' !in storage && ':' !in storage ==> ReadEFIDisk(entry.value) == EFIDiskEntry(storage, "1", "raw", "4m", "0"))
  {
    var n := m.nodes.value[name];
    SpecShapes(m, n);
    BIOSNames("ovmf");
    EFIDiskGiven(OptsOf(m, name, n), EFIDiskOf(n, m.classes));
    EFIDiskPlace(m, name);
    EFIEntryReads(EFIDiskOf(n, m.classes));
  }

  lemma EFIDiskGiven(o: CreateOpts, e: EFIDiskSpec)
    requires DiskKeysOnly(o.disks) && o.efiDisk == Some(e)
    ensures At(FormOf(o), "efidisk0") == Some(EFIDiskString(e))
  {
    NoFieldIsDisk(o);
    FormReads(o);
  }

  lemma EFIDiskPlace(m: Manifest, name: string)
    requires Accepted(m) && name in m.nodes.value
    ensures var n := m.nodes.value[name];
            EFIDiskOf(n, m.classes) == EFIDiskSpec(if n.disks == [] then "local-lvm" else ResolveStorage(n.disks[0], m.classes).0, "raw", false)
  {
    var n := m.nodes.value[name];
    if n.disks != [] {
      assert n.disks[0] in n.disks;
      assert RefsKnown(n, m.classes.value);
    }
  }

  lemma EFIEntryReads(e: EFIDiskSpec)
    ensures ',' !in e.storage && ':' !in e.storage && ',' !in e.format ==>
              ReadEFIDisk(EFIDiskString(e)) == EFIDiskEntry(e.storage, "1", e.format, "4m", if e.preEnrolledKeys then "1" else "0")
  {
    if ',' !in e.storage && ':' !in e.storage && ',' !in e.format { EFIDiskReadsBack(e); }
  }

  /** Every interface of a node reads back from its entry: a virtio one on its bridge, with its address if it has one. */
  lemma NodeNIC(m: Manifest, name: string, i: nat)
    requires Accepted(m) && name in m.nodes.value && i < |m.nodes.value[name].nics|
    requires var nic := m.nodes.value[name].nics[i]; forall s :: s in {nic.mac, nic.bridge} ==> ',' !in s && '=' !in s
    ensures var nic, entry := m.nodes.value[name].nics[i], At(FormOf(OptsOf(m, name, m.nodes.value[name])), "net" + Numbers.Itoa(i));
            entry.Some? && ReadNIC(entry.value) ==
              NICEntry("virtio", if Lower(nic.mac) == "auto" then "" else nic.mac, if nic.bridge != "" then nic.bridge else "vmbr0", false, None)
  {
    var n := m.nodes.value[name];
    var o := OptsOf(m, name, n);
    SpecShapes(m, n);
    NICsDescribed(o, n.nics);
    NICEntryReads(n.nics[i], i);
  }

  lemma NICEntryReads(nic: NIC, i: nat)
    requires forall s :: s in {nic.mac, nic.bridge} ==> ',' !in s && '=' !in s
    ensures ReadNIC(NICString(NICSpecOf(nic, i)))
         == NICEntry("virtio", if Lower(nic.mac) == "auto" then "" else nic.mac, if nic.bridge != "" then nic.bridge else "vmbr0", false, None)
  {
    NICReadsBack(NICSpecOf(nic, i));
  }

  /** Every disk of a node reads back from its own entry when no two have one interface: where it goes, its size in GiB, and
      whether it is shared. */
  lemma NodeDisk(m: Manifest, name: string, i: nat)
    requires Accepted(m) && name in m.nodes.value && i < |m.nodes.value[name].disks| && DistinctEffective(m.nodes.value[name].disks)
    requires var d := m.nodes.value[name].disks[i];
             forall s :: s in {d.size, ResolveStorage(d, m.classes).0} ==> ',' !in s && ':' !in s
    ensures var d := m.nodes.value[name].disks[i];
            var entry := At(FormOf(OptsOf(m, name, m.nodes.value[name])), if d.iface != "" then d.iface else "scsi" + Numbers.Itoa(i));
            entry.Some? && ReadDisk(entry.value) ==
              DiskEntry(ResolveStorage(d, m.classes).0, NormalizedSize(d.size), "", ResolveStorage(d, m.classes).1)
  {
    var n := m.nodes.value[name];
    var d := n.disks[i];
    EveryDiskSubmittedIff(m, name);
    SizePlain(d.size, ',');
    SizePlain(d.size, ':');
    DiskReadsBack(DiskSpecOf(d, i, m.classes));
  }

  // --- from the manifest to the executor -----------------------------------------------

  /** The form `CreateVM` submits for a node, `None` when its check fails. */
  function SubmittedForm(m: Manifest, name: string, n: Node): Option<map<string, string>> {
    if ValidOpts(OptsOf(m, name, n)) then Some(FormOf(OptsOf(m, name, n))) else None
  }

  function TargetOf(m: Manifest, name: string, n: Node): Lifecycle.Target {
    Lifecycle.Target(name, n.host, n.vmid, if m.iso.Some? then m.iso.value.kickstartStorage else "", SubmittedForm(m, name, n), n.ips)
  }

  function TargetsOf(m: Manifest, names: seq<string>): (targets: seq<Lifecycle.Target>)
    requires m.nodes.Some? && forall k :: k in names ==> k in m.nodes.value
    ensures |targets| == |names|
  {
    seq(|names|, i requires 0 <= i < |names| => TargetOf(m, names[i], m.nodes.value[names[i]]))
  }

  /** The executor's targets are the manifest's nodes, each with its own form. */
  lemma TargetsKeep(m: Manifest, names: seq<string>, i: nat)
    requires Accepted(m) && Enumerates(names, m.nodes.value) && "" !in m.nodes.value && i < |names|
    ensures names[i] in m.nodes.value
    ensures var t, n := TargetsOf(m, names)[i], m.nodes.value[names[i]];
            && t.name == names[i] && t.host == n.host && t.vmid == n.vmid && t.ips == n.ips
            && t.kickstartStorage == (if m.iso.Some? then m.iso.value.kickstartStorage else "")
            && t.form == Some(FormOf(OptsOf(m, names[i], n)))
  {
    assert names[i] in names;
    AcceptedOptsValidIff(m, names[i]);
  }

  /** An accepted manifest with named nodes gives the executor what every theorem about it asks for: nodes that
      are distinct, forms that will be accepted, and so plans whose operations commute. */
  lemma AcceptedRunsInAnyOrder(m: Manifest, names: seq<string>, s: Lifecycle.Settings)
    requires Accepted(m) && Enumerates(names, m.nodes.value) && "" !in m.nodes.value
    ensures var targets := TargetsOf(m, names);
            MultiNode.DistinctNodes(targets) && MultiNode.Ready(targets) &&
            FanOut.IndependentPlans(MultiNode.PlansOf(targets, s))
  {
    var targets := TargetsOf(m, names);
    forall i, j | 0 <= i < |names| && 0 <= j < |names| && i != j ensures targets[i].vmid != targets[j].vmid {
      assert names[i] in names && names[j] in names;
      assert names[i] != names[j];
      var a, b := m.nodes.value[names[i]], m.nodes.value[names[j]];
      assert Disjoint(Claims(a), Claims(b));
      assert Claims(a)[0] == OwnVMID(a.vmid) && Claims(b)[0] == OwnVMID(b.vmid);
      assert OwnVMID(a.vmid) in Claims(a);
    }
    forall i | 0 <= i < |names| ensures targets[i].form.Some? {
      assert names[i] in names;
      AcceptedOptsValidIff(m, names[i]);
    }
    MultiNode.DistinctNodesIndependent(targets, s);
  }
}

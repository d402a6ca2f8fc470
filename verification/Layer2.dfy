// The layer-2 database: networks, neighbors and their addresses, linked into several indices.
module Layer2 {
  import opened Layer2Data

  method ClearSlots(data: seq<Slot>, o: Source) returns (r: seq<Slot>, changed: bool)
    ensures r == Cleared(data, o) && (changed <==> SlotsCarry(data, o))
  {
    r, changed := data, false;
    for i := 0 to |data|
      invariant |r| == |data|
      invariant r[..i] == Cleared(data, o)[..i] && r[i..] == data[i..]
      invariant changed <==> exists j :: 0 <= j < i && data[j].origin == o
    {
      if r[i].origin == o {
        r := r[i := Reset(r[i])];
        changed := true;
      }
    }
  }

  method FindValue(data: seq<Slot>) returns (found: bool)
    ensures found <==> AnyValue(data)
  {
    for i := 0 to |data|
      invariant forall j | 0 <= j < i :: !HasValue(data[j])
    {
      if HasValue(data[i]) {
        return true;
      }
    }
    return false;
  }

  method RelabelSlots(data: seq<Slot>, name: Source, stale: Source) returns (r: seq<Slot>)
    ensures r == SlotsRenamed(data, stale, name)
  {
    r := data;
    for i := 0 to |data|
      invariant |r| == |data|
      invariant r[..i] == SlotsRenamed(data, stale, name)[..i] && r[i..] == data[i..]
    {
      if r[i].origin == stale {
        r := r[i := r[i].(origin := name)];
      }
    }
  }

  class RemoteAddress {
    const ip: Netaddr
    const neigh: Neighbor
    var origin: Origin

    constructor (ip: Netaddr, neigh: Neighbor, origin: Source)
      ensures this.ip == ip && this.neigh == neigh && this.origin == origin
    {
      this.ip, this.neigh, this.origin := ip, neigh, origin;
    }
  }

  class PeerAddress {
    const ip: Netaddr
    const net: Network
    var origin: Origin

    constructor (ip: Netaddr, net: Network, origin: Source)
      ensures this.ip == ip && this.net == net && this.origin == origin
    {
      this.ip, this.net, this.origin := ip, net, origin;
    }
  }

  class Destination {
    const ip: Netaddr
    const neighbor: Neighbor
    var origin: Origin

    constructor (ip: Netaddr, neighbor: Neighbor, origin: Source)
      ensures this.ip == ip && this.neighbor == neighbor && this.origin == origin
    {
      this.ip, this.neighbor, this.origin := ip, neighbor, origin;
    }
  }

  class Neighbor {
    const key: NeighKey
    const network: Network
    var destinations: map<Netaddr, Destination>
    var ips: map<Netaddr, RemoteAddress>
    var data: seq<Slot>

    constructor (key: NeighKey, network: Network, data: seq<Slot>)
      ensures this.key == key && this.network == network && this.data == data
      ensures destinations == map[] && ips == map[]
    {
      this.key, this.network, this.data := key, network, data;
      destinations, ips := map[], map[];
    }

    ghost predicate Linked()
      reads this`destinations, this`ips
    {
      && (forall a | a in destinations :: destinations[a].ip == a && destinations[a].neighbor == this)
      && (forall a | a in ips :: ips[a].ip == a && ips[a].neigh == this)
    }

    ghost function Shown(): NeighView
      reads this, destinations.Values, ips.Values
    {
      NeighView(DestinationOrigins(), IpOrigins(), data)
    }

    ghost function DestinationOrigins(): map<Netaddr, Origin>
      reads this`destinations, destinations.Values
    {
      map a | a in destinations :: destinations[a].origin
    }

    ghost function IpOrigins(): map<Netaddr, Origin>
      reads this`ips, ips.Values
    {
      map a | a in ips :: ips[a].origin
    }

    // The neighbor is in the tree of its network.
    ghost predicate Added()
      reads network`neighbors
    {
      key in network.neighbors && network.neighbors[key] == this
    }

    // oonf_layer2_destination_remove
    method RemoveDestination(d: Destination)
      requires network.Linked() && Added() && d.ip in destinations && destinations[d.ip] == d
      modifies this`destinations
      ensures destinations == old(destinations) - {d.ip}
      ensures network.Linked()
    {
      destinations := destinations - {d.ip};
    }

    // oonf_layer2_neigh_remove_ip: the address leaves both indices
    method RemoveIp(a: RemoteAddress, o: Origin) returns (removed: bool)
      requires network.Linked() && Added() && a.ip in ips && ips[a.ip] == a
      modifies this`ips, network`remote
      ensures removed <==> a.origin == o
      ensures ips == if removed then old(ips) - {a.ip} else old(ips)
      ensures network.Linked()
    {
      if a.origin != o {
        return false;
      }
      ips := ips - {a.ip};
      network.remote := network.remote - {a};
      return true;
    }

    // The neighbor has one place in the tree.
    lemma Once(k: NeighKey)
      requires network.Linked() && k in network.neighbors && k != key
      ensures network.neighbors[k] != this
    {
    }

    lemma OwnLinks()
      requires network.Linked() && Added()
      ensures Linked()
    {
    }

    method RemoveDestinations()
      requires network.Linked() && Added()
      modifies this`destinations
      ensures network.Linked() && destinations == map[]
    {
      hide Network.Linked, Network.Indexed;
      var todo := destinations.Keys;
      while todo != {}
        invariant todo == destinations.Keys && network.Linked()
      {
        OwnLinks();
        var a :| a in todo;
        RemoveDestination(destinations[a]);
        todo := todo - {a};
      }
    }

    method RemoveIps()
      requires network.Linked() && Added()
      modifies this`ips, network`remote
      ensures network.Linked() && ips == map[]
    {
      hide Network.Linked, Network.Indexed;
      var todo := ips.Keys;
      while todo != {}
        invariant todo == ips.Keys && network.Linked()
      {
        OwnLinks();
        var a :| a in todo;
        var _ := RemoveIp(ips[a], ips[a].origin);
        todo := todo - {a};
      }
    }

    // The neighbor leaves the tree of its network.
    method Detach()
      requires network.Linked() && Added() && ips == map[]
      modifies network`neighbors
      ensures network.Linked() && network.neighbors == old(network.neighbors) - {key}
    {
      network.neighbors := network.neighbors - {key};
    }

    // _neigh_remove
    method Drop()
      requires network.Linked() && Added()
      modifies this, network`remote, network`neighbors
      ensures network.Linked() && network.neighbors == old(network.neighbors) - {key}
      ensures network.Neighbors() == old(network.Neighbors()) - {key}
    {
      hide Network.Linked, Network.Indexed, Shown;
      forall k | k in network.neighbors && k != key ensures network.neighbors[k] != this {
        Once(k);
      }
      RemoveDestinations();
      RemoveIps();
      Detach();
    }

    // oonf_layer2_neigh_cleanup
    method Cleanup(o: Source) returns (changed: bool)
      modifies this`data
      ensures changed <==> SlotsCarry(old(Shown()).data, o)
      ensures Shown() == NeighCleaned(old(Shown()), o)
    {
      data, changed := ClearSlots(data, o);
    }

    lemma BlankWhen()
      ensures NeighBlank(Shown()) <==> destinations == map[] && ips == map[] && !AnyValue(data)
    {
      assert DestinationOrigins().Keys == destinations.Keys && IpOrigins().Keys == ips.Keys;
    }

    // oonf_layer2_neigh_commit
    method Commit() returns (dropped: bool)
      requires network.Linked() && Added()
      modifies this, network`remote, network`neighbors
      ensures network.Linked() && (dropped <==> NeighBlank(old(Shown())))
      ensures network.neighbors == if dropped then old(network.neighbors) - {key} else old(network.neighbors)
      ensures network.Neighbors() == if dropped then old(network.Neighbors()) - {key} else old(network.Neighbors())
    {
      hide Network.Linked, Network.Indexed, Shown, NeighBlank, AnyValue;
      BlankWhen();
      if destinations != map[] || ips != map[] {
        return false;
      }
      var some := FindValue(data);
      if some {
        return false;
      }
      Drop();
      return true;
    }

    method RemoveDestinationsOf(o: Source) returns (changed: bool)
      requires network.Linked() && Added()
      modifies this`destinations
      ensures network.Linked() && DestinationOrigins() == Without(old(DestinationOrigins()), o)
      ensures changed <==> AddressesCarry(old(DestinationOrigins()), o)
    {
      hide Network.Linked, Network.Indexed;
      ghost var start := DestinationOrigins();
      var todo := destinations.Keys;
      changed := false;
      while todo != {}
        invariant todo <= destinations.Keys && network.Linked()
        invariant forall a | a in destinations :: a in start && start[a] == destinations[a].origin
        invariant forall a | a in start && a !in todo :: a in destinations <==> start[a] != o
        invariant changed <==> exists a :: a in start && a !in todo && start[a] == o
      {
        OwnLinks();
        var a :| a in todo;
        if destinations[a].origin == o {
          RemoveDestination(destinations[a]);
          changed := true;
        }
        todo := todo - {a};
      }
    }

    method RemoveIpsOf(o: Source) returns (changed: bool)
      requires network.Linked() && Added()
      modifies this`ips, network`remote
      ensures network.Linked() && IpOrigins() == Without(old(IpOrigins()), o)
      ensures changed <==> AddressesCarry(old(IpOrigins()), o)
    {
      hide Network.Linked, Network.Indexed;
      ghost var start := IpOrigins();
      var todo := ips.Keys;
      changed := false;
      while todo != {}
        invariant todo <= ips.Keys && network.Linked()
        invariant forall a | a in ips :: a in start && start[a] == ips[a].origin
        invariant forall a | a in start && a !in todo :: a in ips <==> start[a] != o
        invariant changed <==> exists a :: a in start && a !in todo && start[a] == o
      {
        OwnLinks();
        var a :| a in todo;
        var removed := RemoveIp(ips[a], o);
        if removed {
          changed := true;
        }
        todo := todo - {a};
      }
    }

    // Everything of the originator goes.
    method Purge(o: Source) returns (changed: bool)
      requires network.Linked() && Added()
      modifies this, network`remote
      ensures network.Linked() && network.neighbors == old(network.neighbors)
      ensures Shown() == NeighPurged(old(Shown()), o) && (changed <==> NeighCarries(old(Shown()), o))
    {
      hide Network.Linked, Network.Indexed, DestinationOrigins, IpOrigins, AddressesCarry, SlotsCarry;
      var gone := RemoveDestinationsOf(o);
      var lost := RemoveIpsOf(o);
      var reset := Cleanup(o);
      changed := gone || lost || reset;
    }

    // oonf_layer2_neigh_remove
    method Remove(o: Source) returns (changed: bool)
      requires network.Linked()
      modifies this, network`remote, network`neighbors
      ensures network.Linked() && (changed <==> old(Added()) && NeighCarries(old(Shown()), o))
      ensures !changed ==> network.neighbors == old(network.neighbors)
      ensures !changed ==> network.Neighbors() == old(network.Neighbors())
      ensures
        changed ==>
          && network.Neighbors() == NeighborPurged(old(network.Neighbors()), key, o)
          && network.neighbors
          == if NeighDropped(old(Shown()), o) then old(network.neighbors) - {key} else old(network.neighbors)
    {
      hide Network.Linked, Network.Indexed, Shown, NeighBlank, NeighCarries, NeighPurged;
      if key !in network.neighbors || network.neighbors[key] != this {
        return false;
      }
      ghost var before := network.Neighbors();
      forall k | k in network.neighbors && k != key ensures network.neighbors[k] != this {
        Once(k);
      }
      changed := Purge(o);
      assert network.Neighbors() == before[key := NeighPurged(before[key], o)];
      if changed {
        var _ := Commit();
      } else {
        UntouchedNeighbor(before[key], o);
      }
    }

    // The address enters both indices.
    method EnterIp(a: RemoteAddress)
      requires network.Linked() && Added() && a.neigh == this && a.ip !in ips
      modifies this`ips, network`remote
      ensures network.Linked() && ips == old(ips)[a.ip := a]
    {
      ips := ips[a.ip := a];
      network.remote := network.remote + {a};
    }

    // oonf_layer2_neigh_add_ip: a known address only changes its originator
    method AddIp(o: Source, ip: Netaddr) returns (a: RemoteAddress)
      requires network.Linked() && Added()
      modifies this`ips, network`remote, ips.Values
      ensures network.Linked() && ip in ips && ips[ip] == a && (ip in old(ips) ==> a == old(ips)[ip])
      ensures Shown() == old(Shown()).(ips := old(Shown()).ips[ip := o])
    {
      hide Network.Linked, Network.Indexed;
      OwnLinks();
      if ip in ips {
        a := ips[ip];
        a.origin := o;
      } else {
        a := new RemoteAddress(ip, this, o);
        EnterIp(a);
      }
      assert IpOrigins() == old(IpOrigins())[ip := o];
    }

    // oonf_layer2_destination_add: a known destination stays with its originator
    method AddDestination(ip: Netaddr, o: Source) returns (d: Destination)
      requires network.Linked() && Added()
      modifies this`destinations
      ensures network.Linked() && ip in destinations && destinations[ip] == d
      ensures
        && Shown()
        == if ip in old(Shown()).destinations then old(Shown())
           else old(Shown()).(destinations := old(Shown()).destinations[ip := o])
    {
      OwnLinks();
      if ip in destinations {
        return destinations[ip];
      }
      d := new Destination(ip, this, o);
      destinations := destinations[ip := d];
      assert DestinationOrigins() == old(DestinationOrigins())[ip := o];
    }

    // oonf_layer2_neigh_relabel
    method Relabel(name: Source, stale: Source)
      requires Linked()
      modifies this`data, ips.Values`origin, destinations.Values`origin
      ensures Shown() == NeighRenamed(old(Shown()), stale, name)
    {
      hide AddressesRenamed, SlotsRenamed, Linked, IpOrigins, DestinationOrigins;
      data := RelabelSlots(data, name, stale);
      RelabelIps(name, stale);
      RelabelDestinations(name, stale);
    }

    method RelabelIps(name: Source, stale: Source)
      requires Linked()
      modifies ips.Values`origin
      ensures IpOrigins() == AddressesRenamed(old(IpOrigins()), stale, name)
    {
      ghost var start := IpOrigins();
      var todo := ips.Keys;
      while todo != {}
        invariant todo <= ips.Keys
        invariant forall a | a in ips :: ips[a].origin == if a in todo then start[a] else Renamed(start[a], stale, name)
      {
        var a :| a in todo;
        if ips[a].origin == stale {
          ips[a].origin := name;
        }
        todo := todo - {a};
      }
    }

    method RelabelDestinations(name: Source, stale: Source)
      requires Linked()
      modifies destinations.Values`origin
      ensures DestinationOrigins() == AddressesRenamed(old(DestinationOrigins()), stale, name)
    {
      ghost var start := DestinationOrigins();
      var todo := destinations.Keys;
      while todo != {}
        invariant todo <= destinations.Keys
        invariant
          forall a | a in destinations ::
            destinations[a].origin == if a in todo then start[a] else Renamed(start[a], stale, name)
      {
        var a :| a in todo;
        if destinations[a].origin == stale {
          destinations[a].origin := name;
        }
        todo := todo - {a};
      }
    }

    // oonf_layer2_data_set on a slot of the neighbor
    method SetSlot(i: nat, w: Write)
      modifies this`data
      ensures Shown() == old(Shown()).(data := SlotSet(old(Shown()).data, i, w))
    {
      if i < |data| {
        data := data[i := DataSet(data[i], w.origin, Typed(w.index), w.value).0];
      }
    }

    // Every change of a neighbor does what it says and keeps the index of its network.
    method Perform(e: NeighEdit)
      requires network.Linked() && Added()
      modifies this, network`remote, ips.Values
      ensures network.Linked() && Shown() == NeighEdited(old(Shown()), e)
    {
      hide Network.Linked, Network.Indexed;
      OwnLinks();
      match e
      case AddIp(o, a) =>
        var _ := AddIp(o, a);
      case RemoveIp(a, o) =>
        if a in ips {
          var _ := RemoveIp(ips[a], o);
        }
      case AddDestination(a, o) =>
        var _ := AddDestination(a, o);
      case RemoveDestination(a) =>
        if a in destinations {
          RemoveDestination(destinations[a]);
        }
      case SetSlot(i, w) =>
        SetSlot(i, w);
    }
  }

  class Network {
    const name: Name
    var neighbors: map<NeighKey, Neighbor>
    var peers: map<Netaddr, PeerAddress>
    // every address of a neighbor, equal ones of different neighbors side by side
    var remote: set<RemoteAddress>
    var data: seq<Slot>
    var neighdata: seq<Slot>

    constructor (name: Name, data: seq<Slot>, neighdata: seq<Slot>)
      ensures this.name == name && this.data == data && this.neighdata == neighdata
      ensures neighbors == map[] && peers == map[] && remote == {}
    {
      this.name, this.data, this.neighdata := name, data, neighdata;
      neighbors, peers, remote := map[], map[], {};
    }

    ghost predicate Attached(a: RemoteAddress)
      reads this`neighbors, this`remote, neighbors.Values`ips
    {
      && a.neigh.key in neighbors && neighbors[a.neigh.key] == a.neigh
      && a.ip in a.neigh.ips && a.neigh.ips[a.ip] == a
    }

    // The index of addresses is the union of the trees of the neighbors.
    ghost predicate Indexed()
      reads this`neighbors, this`remote, neighbors.Values`ips
    {
      && (forall a | a in remote :: Attached(a))
      && (forall k, i | k in neighbors && i in neighbors[k].ips :: neighbors[k].ips[i] in remote)
    }

    ghost predicate Linked()
      reads this`neighbors, this`peers, this`remote, neighbors.Values`ips, neighbors.Values`destinations
    {
      && (forall k | k in neighbors :: neighbors[k].key == k && neighbors[k].network == this && neighbors[k].Linked())
      && (forall a | a in peers :: peers[a].ip == a && peers[a].net == this)
      && Indexed()
    }

    ghost function RemoteObjects(): set<RemoteAddress>
      reads this`neighbors, neighbors.Values`ips
    {
      set k, i | k in neighbors && i in neighbors[k].ips :: neighbors[k].ips[i]
    }

    ghost function DestinationObjects(): set<Destination>
      reads this`neighbors, neighbors.Values`destinations
    {
      set k, i | k in neighbors && i in neighbors[k].destinations :: neighbors[k].destinations[i]
    }

    ghost function Neighbors(): map<NeighKey, NeighView>
      reads this`neighbors, neighbors.Values, RemoteObjects(), DestinationObjects()
    {
      map k | k in neighbors :: neighbors[k].Shown()
    }

    ghost function Shown(): NetView
      reads this, neighbors.Values, peers.Values, RemoteObjects(), DestinationObjects()
    {
      NetView(Neighbors(), PeerOrigins(), data, neighdata)
    }

    lemma Own(k: NeighKey)
      requires Linked() && k in neighbors
      ensures neighbors[k].key == k && neighbors[k].network == this && neighbors[k].Linked()
    {
    }

    // Different neighbors share no objects.
    lemma Apart(k: NeighKey)
      requires Linked() && k in neighbors
      ensures neighbors[k].key == k && neighbors[k].network == this && neighbors[k].Linked()
      ensures
        forall j | j in neighbors && j != k ::
          && neighbors[k] != neighbors[j]
          && neighbors[k].ips.Values !! neighbors[j].ips.Values
          && neighbors[k].destinations.Values !! neighbors[j].destinations.Values
    {
    }

    // The index is the disjoint union of the trees of the neighbors.
    lemma IndexIsUnion()
      requires Linked()
      ensures remote == RemoteObjects()
      ensures
        forall j, k | j in neighbors && k in neighbors && j != k ::
          neighbors[j].ips.Values !! neighbors[k].ips.Values
    {
    }

    lemma Objects(k: NeighKey)
      requires k in neighbors
      ensures neighbors[k].ips.Values <= RemoteObjects()
      ensures neighbors[k].destinations.Values <= DestinationObjects()
    {
    }

    method EnterNeighbor(n: Neighbor)
      requires Linked() && n.network == this && n.key !in neighbors && n.ips == map[] && n.destinations == map[]
      modifies this`neighbors
      ensures Linked() && neighbors == old(neighbors)[n.key := n]
    {
      neighbors := neighbors[n.key := n];
    }

    // oonf_layer2_neigh_add_lid
    method AddNeighbor(key: NeighKey) returns (n: Neighbor?)
      requires Linked()
      modifies this`neighbors
      ensures Linked() && (n == null <==> !IsMac(key.addr))
      ensures n != null ==> key in neighbors && neighbors[key] == n && (key !in old(neighbors) ==> fresh(n))
      ensures neighbors == if n == null || key in old(neighbors) then old(neighbors) else old(neighbors)[key := n]
      ensures
        && Neighbors()
        == if n == null || key in old(neighbors) then old(Neighbors())
           else old(Neighbors())[key := NeighView(map[], map[], NewSlots(|neighdata|))]
    {
      hide Linked, Indexed;
      if !IsMac(key.addr) {
        return null;
      }
      if key in neighbors {
        return neighbors[key];
      }
      n := new Neighbor(key, this, NewSlots(|neighdata|));
      assert n.DestinationOrigins() == map[] && n.IpOrigins() == map[];
      EnterNeighbor(n);
    }

    // A new neighbor that nobody uses is gone with the next commit.
    method AddAndCommitNeighbor(key: NeighKey) returns (dropped: bool)
      requires Linked() && IsMac(key.addr) && key !in neighbors
      modifies this`neighbors, this`remote
      ensures Linked() && dropped && neighbors == old(neighbors) && Neighbors() == old(Neighbors())
    {
      hide Linked, Indexed, NeighBlank;
      ghost var before := Neighbors();
      assert before.Keys == neighbors.Keys;
      var n := AddNeighbor(key);
      NewBlank(0, |neighdata|);
      Own(key);
      assert n.Shown() == Neighbors()[key];
      dropped := n.Commit();
      assert before[key := NeighView(map[], map[], NewSlots(|neighdata|))] - {key} == before;
    }

    method PurgeNeighbors(o: Source) returns (changed: bool)
      requires Linked()
      modifies this`neighbors, this`remote, neighbors.Values
      ensures Linked() && Neighbors() == NeighborsPurged(old(Neighbors()), o)
      ensures changed <==> NeighborsCarry(old(Neighbors()), o)
      ensures forall k | k in neighbors :: k in old(neighbors) && neighbors[k] == old(neighbors)[k]
    {
      hide Linked, Indexed, NeighCarries, NeighborPurged, Partly, NeighborsPurged;
      ghost var start := Neighbors();
      changed := false;
      var todo := neighbors.Keys;
      assert start.Keys == neighbors.Keys;
      PartlyEnds(start, o);
      while todo != {}
        invariant Linked() && todo <= neighbors.Keys
        invariant forall k | k in neighbors :: k in old(neighbors) && neighbors[k] == old(neighbors)[k]
        invariant Neighbors() == Partly(start, todo, o)
        invariant changed <==> exists k :: k in start && k !in todo && NeighCarries(start[k], o)
      {
        var k :| k in todo;
        PartlyStep(start, todo, k, o);
        Own(k);
        var lost := neighbors[k].Remove(o);
        if lost {
          changed := true;
        }
        todo := todo - {k};
      }
    }

    method DropNeighbors()
      requires Linked()
      modifies this`neighbors, this`remote, neighbors.Values
      ensures Linked() && neighbors == map[]
    {
      hide Linked, Indexed;
      var todo := neighbors.Keys;
      while todo != {}
        invariant Linked() && todo == neighbors.Keys
        invariant forall k | k in neighbors :: k in old(neighbors) && neighbors[k] == old(neighbors)[k]
      {
        var k :| k in todo;
        Own(k);
        neighbors[k].Drop();
        todo := todo - {k};
      }
    }

    // oonf_layer2_net_cleanup
    method Cleanup(o: Source, deep: bool) returns (changed: bool)
      requires Linked()
      modifies this`data, this`neighdata, neighbors.Values`data
      ensures Shown() == NetCleaned(old(Shown()), o, deep)
      ensures
        && changed
        <==> SlotsCarry(old(data), o) || SlotsCarry(old(neighdata), o) || (deep && NeighborSlots(old(Neighbors()), o))
    {
      hide Linked, Indexed, SlotsCarry, NeighborSlots, Neighbor.Shown, PeerOrigins;
      ghost var ns, ps := Neighbors(), PeerOrigins();
      var reset, lost;
      data, reset := ClearSlots(data, o);
      neighdata, lost := ClearSlots(neighdata, o);
      changed := reset || lost;
      assert Neighbors() == ns && PeerOrigins() == ps;
      if deep {
        var more := CleanupNeighbors(o);
        changed := changed || more;
      }
    }

    // Everything of the originator goes, except the addresses of local peers.
    method Purge(o: Source) returns (changed: bool)
      requires Linked()
      modifies this`neighbors, this`remote, this`data, this`neighdata, neighbors.Values
      ensures Linked() && Shown() == NetPurged(old(Shown()), o)
      ensures changed <==> NetCarries(old(Shown()), o)
      ensures neighbors.Values <= old(neighbors.Values)
    {
      hide Linked, Indexed, SlotsCarry, NeighborsCarry, NeighborsPurged, Neighbor.Shown, PeerOrigins;
      ghost var ps := PeerOrigins();
      var lost := PurgeNeighbors(o);
      assert PeerOrigins() == ps;
      var reset := Cleanup(o, false);
      changed := lost || reset;
    }

    method CleanupNeighbor(k: NeighKey, o: Source) returns (changed: bool)
      requires Linked() && k in neighbors
      modifies {neighbors[k]}`data
      ensures Neighbors() == old(Neighbors())[k := NeighCleaned(old(Neighbors())[k], o)]
      ensures changed <==> SlotsCarry(old(Neighbors())[k].data, o)
    {
      hide Linked, Indexed, SlotsCarry, NeighCleaned, Neighbor.Shown;
      Apart(k);
      changed := neighbors[k].Cleanup(o);
    }

    method CleanupNeighbors(o: Source) returns (changed: bool)
      requires Linked()
      modifies neighbors.Values`data
      ensures Neighbors() == map k | k in old(Neighbors()) :: NeighCleaned(old(Neighbors())[k], o)
      ensures changed <==> NeighborSlots(old(Neighbors()), o)
    {
      hide Linked, Indexed, SlotsCarry, NeighCleaned, Neighbor.Shown;
      ghost var start := Neighbors();
      changed := false;
      var todo := neighbors.Keys;
      while todo != {}
        invariant todo <= neighbors.Keys
        invariant Neighbors() == map k | k in start :: if k in todo then start[k] else NeighCleaned(start[k], o)
        invariant changed <==> exists k :: k in start && k !in todo && SlotsCarry(start[k].data, o)
      {
        var k :| k in todo;
        assert k in Neighbors();
        var reset := CleanupNeighbor(k, o);
        changed := changed || reset;
        todo := todo - {k};
      }
    }

    method RelabelOwn(name: Source, stale: Source)
      modifies this`data, this`neighdata
      ensures data == SlotsRenamed(old(data), stale, name) && neighdata == SlotsRenamed(old(neighdata), stale, name)
      ensures Neighbors() == old(Neighbors()) && PeerOrigins() == old(PeerOrigins())
    {
      hide SlotsRenamed, Neighbor.Shown;
      data := RelabelSlots(data, name, stale);
      neighdata := RelabelSlots(neighdata, name, stale);
    }

    // oonf_layer2_net_relabel
    method Relabel(name: Source, stale: Source)
      requires Linked()
      modifies this`data, this`neighdata, neighbors.Values`data
      modifies peers.Values`origin, RemoteObjects()`origin, DestinationObjects()`origin
      ensures Shown() == NetRenamed(old(Shown()), stale, name)
    {
      hide Linked, Indexed, AddressesRenamed, SlotsRenamed, NeighborsRenamed, Neighbor.Shown, PeerOrigins;
      ghost var ns := Neighbors();
      RelabelOwn(name, stale);
      RelabelPeers(name, stale);
      assert Neighbors() == ns;
      RelabelNeighbors(name, stale);
    }

    ghost function PeerOrigins(): map<Netaddr, Origin>
      reads this`peers, peers.Values
    {
      map a | a in peers :: peers[a].origin
    }

    method RelabelPeers(name: Source, stale: Source)
      requires Linked()
      modifies peers.Values`origin
      ensures PeerOrigins() == AddressesRenamed(old(PeerOrigins()), stale, name)
    {
      ghost var start := PeerOrigins();
      var todo := peers.Keys;
      while todo != {}
        invariant todo <= peers.Keys
        invariant
          forall a | a in peers :: peers[a].origin == if a in todo then start[a] else Renamed(start[a], stale, name)
      {
        hide Indexed;
        var a :| a in todo;
        if peers[a].origin == stale {
          peers[a].origin := name;
        }
        todo := todo - {a};
      }
    }

    method RelabelNeighbor(k: NeighKey, name: Source, stale: Source)
      requires Linked() && k in neighbors
      modifies {neighbors[k]}`data, neighbors[k].ips.Values`origin, neighbors[k].destinations.Values`origin
      ensures Neighbors() == old(Neighbors())[k := NeighRenamed(old(Neighbors())[k], stale, name)]
    {
      hide Linked, Indexed, NeighRenamed, Neighbor.Shown, Neighbor.Linked;
      Own(k);
      Apart(k);
      neighbors[k].Relabel(name, stale);
    }

    lemma NeighborKeys()
      ensures Neighbors().Keys == neighbors.Keys
    {
    }

    method RelabelNeighbors(name: Source, stale: Source)
      requires Linked()
      modifies neighbors.Values`data, RemoteObjects()`origin, DestinationObjects()`origin
      ensures Neighbors() == NeighborsRenamed(old(Neighbors()), stale, name)
    {
      hide Linked, Indexed, NeighRenamed, Neighbor.Shown, Neighbor.Linked, RemoteObjects, DestinationObjects;
      hide PartlyRenamed, Neighbors, NeighborsRenamed;
      ghost var start := Neighbors();
      var todo := neighbors.Keys;
      NeighborKeys();
      PartlyRenamedEnds(start, stale, name);
      while todo != {}
        invariant todo <= neighbors.Keys
        invariant RemoteObjects() == old(RemoteObjects()) && DestinationObjects() == old(DestinationObjects())
        invariant Neighbors() == PartlyRenamed(start, todo, stale, name)
      {
        var k :| k in todo;
        PartlyRenamedStep(start, todo, k, stale, name);
        Objects(k);
        RelabelNeighbor(k, name, stale);
        todo := todo - {k};
      }
    }

    method EditNeighbor(k: NeighKey, e: NeighEdit)
      requires Linked() && k in neighbors
      modifies neighbors[k], this`remote, neighbors[k].ips.Values
      ensures Linked() && Neighbors() == old(Neighbors())[k := NeighEdited(old(Neighbors())[k], e)]
    {
      hide Linked, Indexed, NeighEdited, Neighbor.Shown;
      Apart(k);
      neighbors[k].Perform(e);
    }

    method RemoveNeighbor(k: NeighKey, o: Source)
      requires Linked() && k in neighbors
      modifies this`neighbors, this`remote, neighbors.Values
      ensures Linked() && Neighbors() == NeighborPurged(old(Neighbors()), k, o)
    {
      hide Linked, Indexed, Neighbor.Shown, NeighCarries;
      ghost var ns := Neighbors();
      Own(k);
      var lost := neighbors[k].Remove(o);
      if !lost {
        UntouchedNeighbor(ns[k], o);
      }
    }

    // Every change inside a network does what it says and keeps its index.
    method Perform(e: NetEdit)
      requires Linked()
      modifies this`neighbors, this`remote, this`data, this`neighdata
      modifies neighbors.Values, RemoteObjects()
      ensures Linked() && Shown() == NetEdited(old(Shown()), e)
    {
      hide Linked, Indexed, Neighbor.Shown, PeerOrigins, NeighEdited, NeighborPurged, NetRenamed, NetCleaned;
      ghost var ps, ns := PeerOrigins(), Neighbors();
      assert ns.Keys == neighbors.Keys;
      match e
      case AddNeighbor(k) =>
        var _ := AddNeighbor(k);
      case EditNeighbor(k, n) =>
        if k in neighbors {
          Objects(k);
          EditNeighbor(k, n);
        }
      case RemoveNeighbor(k, o) =>
        if k in neighbors {
          RemoveNeighbor(k, o);
        }
      case Cleanup(o, deep) =>
        var _ := Cleanup(o, deep);
      case SetNetSlot(i, w) =>
        if i < |data| {
          data := data[i := DataSet(data[i], w.origin, Typed(w.index), w.value).0];
        }
      case SetDefaultSlot(i, w) =>
        if i < |neighdata| {
          neighdata := neighdata[i := DataSet(neighdata[i], w.origin, Typed(w.index), w.value).0];
        }
    }
  }

  class Database {
    var nets: map<Name, Network>
    // every address of a local peer, equal ones of different nets side by side
    var peers: set<PeerAddress>
    var origins: map<string, Source>

    constructor ()
      ensures Valid() && Shown() == map[] && origins == map[]
    {
      nets, peers, origins := map[], {}, map[];
    }

    ghost function AllNeighbors(): set<Neighbor>
      reads this`nets, nets.Values`neighbors
    {
      set n, k | n in nets && k in nets[n].neighbors :: nets[n].neighbors[k]
    }

    ghost function AllRemotes(): set<RemoteAddress>
      reads this`nets, nets.Values`neighbors, AllNeighbors()`ips
    {
      set m, i | m in AllNeighbors() && i in m.ips :: m.ips[i]
    }

    ghost function AllDestinations(): set<Destination>
      reads this`nets, nets.Values`neighbors, AllNeighbors()`destinations
    {
      set m, i | m in AllNeighbors() && i in m.destinations :: m.destinations[i]
    }

    ghost predicate Known(p: PeerAddress)
      reads this`nets, nets.Values`peers
    {
      p.net.name in nets && nets[p.net.name] == p.net && p.ip in p.net.peers && p.net.peers[p.ip] == p
    }

    // The index of peer addresses is the union of the trees of the nets.
    ghost predicate PeersIndexed()
      reads this`nets, this`peers, nets.Values`peers
    {
      && (forall p | p in peers :: Known(p))
      && (forall n, a | n in nets && a in nets[n].peers :: nets[n].peers[a] in peers)
    }

    ghost predicate NetsLinked()
      reads this`nets, nets.Values`neighbors, nets.Values`peers, nets.Values`remote
      reads AllNeighbors()`ips, AllNeighbors()`destinations
    {
      forall n | n in nets :: nets[n].name == n && nets[n].Linked()
    }

    ghost predicate Valid()
      reads this`nets, this`peers, nets.Values`neighbors, nets.Values`peers, nets.Values`remote
      reads AllNeighbors()`ips, AllNeighbors()`destinations
    {
      NetsLinked() && PeersIndexed()
    }

    ghost function AllPeers(): set<PeerAddress>
      reads this`nets, nets.Values`peers
    {
      set n, a | n in nets && a in nets[n].peers :: nets[n].peers[a]
    }

    ghost function Shown(): View
      reads this`nets, nets.Values, AllNeighbors(), AllPeers(), AllRemotes(), AllDestinations()
    {
      map n | n in nets :: nets[n].Shown()
    }

    // The net is in the tree of nets.
    ghost predicate Added(net: Network)
      reads this`nets
    {
      net.name in nets && nets[net.name] == net
    }

    lemma Own(n: Name)
      requires Valid() && n in nets
      ensures nets[n].name == n && nets[n].Linked()
    {
    }

    // The index of peer addresses is the disjoint union of the trees of the nets.
    lemma IndexIsUnion()
      requires Valid()
      ensures peers == AllPeers()
      ensures forall n, m | n in nets && m in nets && n != m :: nets[n].peers.Values !! nets[m].peers.Values
    {
    }

    // Different nets share no objects.
    lemma Apart(net: Network)
      requires Valid() && Added(net)
      ensures
        forall m | m in nets && m != net.name ::
          && nets[m] != net && net.neighbors.Values !! nets[m].neighbors.Values
          && net.peers.Values !! nets[m].peers.Values
          && net.RemoteObjects() !! nets[m].RemoteObjects()
          && net.DestinationObjects() !! nets[m].DestinationObjects()
    {
    }

    ghost function Others(net: Network): set<Network>
      reads this`nets
    {
      set n | n in nets && n != net.name :: nets[n]
    }

    ghost predicate OthersLinked(net: Network)
      reads this`nets, Others(net)`neighbors, Others(net)`peers, Others(net)`remote
      reads set m, k | m in Others(net) && k in m.neighbors :: m.neighbors[k]
    {
      forall n | n in nets && n != net.name :: nets[n].name == n && nets[n].Linked()
    }

    // What one net does to itself does not touch the order of the others.
    lemma Split(net: Network)
      requires Valid() && Added(net)
      ensures OthersLinked(net) && net.Linked() && PeersIndexed()
      ensures forall m, k | m in Others(net) && k in m.neighbors :: m.neighbors[k] !in net.neighbors.Values
    {
    }

    lemma Join(net: Network)
      requires Added(net) && OthersLinked(net) && net.Linked() && PeersIndexed()
      ensures Valid()
    {
    }

    // oonf_layer2_net_remove_ip: the address leaves both indices
    method RemovePeer(p: PeerAddress, o: Origin) returns (removed: bool)
      requires Valid() && Known(p)
      modifies this`peers, p.net`peers
      ensures Valid() && (removed <==> p.origin == o)
      ensures p.net.peers == if removed then old(p.net.peers) - {p.ip} else old(p.net.peers)
      ensures Shown() - {p.net.name} == old(Shown()) - {p.net.name}
    {
      if p.origin != o {
        return false;
      }
      TakePeer(p);
      return true;
    }

    method Unpeer(p: PeerAddress)
      requires Valid() && Known(p)
      modifies this`peers, p.net`peers
      ensures Valid() && p.net.peers == old(p.net.peers) - {p.ip}
    {
      p.net.peers := p.net.peers - {p.ip};
      peers := peers - {p};
    }

    method TakePeer(p: PeerAddress)
      requires Valid() && Known(p)
      modifies this`peers, p.net`peers
      ensures Valid() && p.net.peers == old(p.net.peers) - {p.ip}
      ensures Shown() - {p.net.name} == old(Shown()) - {p.net.name}
    {
      hide Valid, Network.Shown;
      Apart(p.net);
      Unpeer(p);
    }

    method RemovePeers(net: Network)
      requires Valid() && Added(net)
      modifies this`peers, net`peers
      ensures Valid() && net.peers == map[]
      ensures Shown() - {net.name} == old(Shown()) - {net.name}
    {
      hide PeersIndexed, NetsLinked, Network.Indexed, Network.Shown;
      var todo := net.peers.Keys;
      while todo != {}
        invariant Valid() && todo == net.peers.Keys
        invariant Shown() - {net.name} == old(Shown()) - {net.name}
      {
        var a :| a in todo;
        Own(net.name);
        var _ := RemovePeer(net.peers[a], net.peers[a].origin);
        todo := todo - {a};
      }
    }

    method Unlist(net: Network)
      requires Valid() && Added(net) && net.peers == map[]
      modifies this`nets
      ensures Valid() && nets == old(nets) - {net.name}
    {
      nets := nets - {net.name};
    }

    method Forget(net: Network)
      requires Valid() && Added(net) && net.peers == map[]
      modifies this`nets
      ensures Valid() && nets == old(nets) - {net.name}
      ensures Shown() == old(Shown()) - {net.name}
    {
      hide Valid, Network.Shown;
      Apart(net);
      Unlist(net);
    }

    method DropNeighbors(net: Network)
      requires Valid() && Added(net)
      modifies net`neighbors, net`remote, net.neighbors.Values
      ensures Valid() && Shown() - {net.name} == old(Shown()) - {net.name}
    {
      hide Valid, OthersLinked, Network.Linked, Network.Shown, PeersIndexed;
      Split(net);
      Apart(net);
      net.DropNeighbors();
      Join(net);
    }

    // _net_remove
    method DropNet(net: Network)
      requires Valid() && Added(net)
      modifies this`nets, this`peers, net, net.neighbors.Values
      ensures Valid() && nets == old(nets) - {net.name}
      ensures Shown() == old(Shown()) - {net.name}
    {
      hide Valid, Shown;
      DropNeighbors(net);
      RemovePeers(net);
      Forget(net);
    }

    // oonf_layer2_net_commit
    method CommitNet(net: Network) returns (dropped: bool)
      requires Valid() && Added(net)
      modifies this`nets, this`peers, net, net.neighbors.Values
      ensures Valid() && (dropped <==> NetBlank(old(net.Shown())))
      ensures nets == if dropped then old(nets) - {net.name} else old(nets)
      ensures Shown() == if dropped then old(Shown()) - {net.name} else old(Shown())
    {
      hide Valid, Shown, AnyValue;
      ghost var ns, rs, ds, ps := AllNeighbors(), AllRemotes(), AllDestinations(), AllPeers();
      if net.neighbors != map[] {
        assert net.Neighbors().Keys == net.neighbors.Keys;
        return false;
      }
      assert net.Neighbors() == map[];
      var some := FindValue(net.data);
      if some {
        return false;
      }
      some := FindValue(net.neighdata);
      if some {
        return false;
      }
      DropNet(net);
      return true;
    }

    // What the other networks show.
    ghost function Rest(net: Network): map<Name, NetView>
      reads this`nets, Others(net), set m, k | m in Others(net) && k in m.neighbors :: m.neighbors[k]
      reads set m, a | m in Others(net) && a in m.peers :: m.peers[a]
      reads set m, r | m in Others(net) && r in m.RemoteObjects() :: r
      reads set m, d | m in Others(net) && d in m.DestinationObjects() :: d
    {
      map m | m in nets && m != net.name :: nets[m].Shown()
    }

    lemma RestShown(net: Network)
      ensures Rest(net) == Shown() - {net.name}
    {
    }

    method PurgeNet(net: Network, o: Source) returns (changed: bool)
      requires Valid() && Added(net)
      modifies net, net.neighbors.Values
      ensures Valid() && net.Shown() == NetPurged(old(net.Shown()), o)
      ensures changed <==> NetCarries(old(net.Shown()), o)
      ensures Shown() - {net.name} == old(Shown()) - {net.name}
      ensures net.neighbors.Values <= old(net.neighbors.Values)
    {
      hide Valid, OthersLinked, PeersIndexed, AllNeighbors, AllRemotes, AllDestinations, AllPeers, NetsLinked;
      hide Rest, Shown;
      hide Known, NetPurged;
      hide Network.Linked, Network.Shown, Network.Indexed, Network.Neighbors, Network.PeerOrigins, Network.Attached;
      Split(net);
      Apart(net);
      RestShown(net);
      changed := net.Purge(o);
      Join(net);
      RestShown(net);
    }

    // oonf_layer2_net_remove
    method RemoveNet(net: Network, o: Source) returns (changed: bool)
      requires Valid()
      modifies this`nets, this`peers, net, net.neighbors.Values
      ensures Valid() && (changed <==> old(Added(net)) && NetCarries(old(net.Shown()), o))
      ensures !changed ==> nets == old(nets) && Shown() == old(Shown())
      ensures
        changed ==>
          && Shown() == OneNetPurged(old(Shown()), net.name, o)
          && nets == if NetDropped(old(net.Shown()), o) then old(nets) - {net.name} else old(nets)
    {
      hide Valid, Network.Shown, NetCarries, NetPurged, NetBlank;
      if net.name !in nets || nets[net.name] != net {
        return false;
      }
      ghost var before := Shown();
      changed := PurgeNet(net, o);
      Patched(Shown(), before, net.name);
      if changed {
        var _ := CommitNet(net);
      } else {
        UntouchedNet(before[net.name], o);
      }
    }

    // oonf_layer2_origin_add: a name can be taken once
    method AddOrigin(o: Source)
      modifies this`origins
      ensures origins == if o.name in old(origins) then old(origins) else old(origins)[o.name := o]
    {
      if o.name !in origins {
        origins := origins[o.name := o];
      }
    }

    method RemoveFromNets(o: Source)
      requires Valid()
      modifies this`nets, this`peers, nets.Values, AllNeighbors()
      ensures Valid() && Shown() == Purged(old(Shown()), o)
    {
      hide Valid, Network.Shown, PartlyNets, OneNetPurged, Purged, NetCarries;
      ghost var start := Shown();
      var todo := nets.Keys;
      assert start.Keys == nets.Keys;
      PartlyNetsEnds(start, o);
      while todo != {}
        invariant Valid() && todo <= nets.Keys
        invariant forall n | n in nets :: n in old(nets) && nets[n] == old(nets)[n]
        invariant forall n | n in todo :: nets[n].neighbors == old(nets[n].neighbors)
        invariant Shown() == PartlyNets(start, todo, o)
      {
        var n :| n in todo;
        Own(n);
        Apart(nets[n]);
        assert nets[n].neighbors.Values <= old(AllNeighbors());
        PartlyNetsStep(start, todo, n, o);
        var _ := RemoveNet(nets[n], o);
        todo := todo - {n};
      }
    }

    // oonf_layer2_origin_remove
    method RemoveOrigin(o: Source)
      requires Valid()
      modifies this, nets.Values, AllNeighbors()
      ensures Valid()
      ensures
        if o.name in old(origins) && old(origins)[o.name] == o
        then origins == old(origins) - {o.name} && Shown() == Purged(old(Shown()), o)
        else origins == old(origins) && Shown() == old(Shown())
    {
      hide Valid, Shown;
      if o.name !in origins || origins[o.name] != o {
        return;
      }
      RemoveFromNets(o);
      ghost var ns, rs, ds, ps := AllNeighbors(), AllRemotes(), AllDestinations(), AllPeers();
      origins := origins - {o.name};
    }

    method ListNet(net: Network)
      requires Valid() && net.name !in nets && net.neighbors == map[] && net.peers == map[] && net.remote == {}
      modifies this`nets
      ensures Valid() && nets == old(nets)[net.name := net]
    {
      nets := nets[net.name := net];
    }

    lemma ApartNew(net: Network)
      requires Valid() && net.name !in nets && net.neighbors == map[]
      ensures
        forall m | m in nets ::
          && nets[m] != net && net.RemoteObjects() !! nets[m].RemoteObjects()
          && net.DestinationObjects() !! nets[m].DestinationObjects()
    {
    }

    method ShowNet(net: Network)
      requires Valid() && net.name !in nets && net.neighbors == map[] && net.peers == map[] && net.remote == {}
      modifies this`nets
      ensures Valid() && nets == old(nets)[net.name := net]
      ensures Shown() == old(Shown())[net.name := NetView(map[], map[], net.data, net.neighdata)]
    {
      hide Valid, Network.Shown;
      ApartNew(net);
      ListNet(net);
      NewNet(net);
    }

    // oonf_layer2_net_add
    method AddNet(name: Name, count: nat, neighCount: nat) returns (net: Network)
      requires Valid()
      modifies this`nets
      ensures Valid() && name in nets && nets[name] == net && net.name == name
      ensures name !in old(nets) ==> fresh(net) && net.neighbors == map[]
      ensures nets == if name in old(nets) then old(nets) else old(nets)[name := net]
      ensures
        && Shown()
        == if name in old(nets) then old(Shown())
           else old(Shown())[name := NetView(map[], map[], NewSlots(count), NewSlots(neighCount))]
    {
      hide Valid, Shown;
      if name in nets {
        Own(name);
        return nets[name];
      }
      ghost var ns, rs, ds, ps := AllNeighbors(), AllRemotes(), AllDestinations(), AllPeers();
      net := new Network(name, NewSlots(count), NewSlots(neighCount));
      ShowNet(net);
    }

    lemma NewNet(net: Network)
      requires net.neighbors == map[] && net.peers == map[]
      ensures net.Shown() == NetView(map[], map[], net.data, net.neighdata)
    {
      assert net.Neighbors() == map[] && net.PeerOrigins() == map[];
    }

    method EnterPeer(p: PeerAddress)
      requires Valid() && Added(p.net) && p.ip !in p.net.peers
      modifies this`peers, p.net`peers
      ensures Valid() && p.net.peers == old(p.net.peers)[p.ip := p]
    {
      hide Valid, NetsLinked, OthersLinked, Network.Indexed;
      Split(p.net);
      p.net.peers := p.net.peers[p.ip := p];
      peers := peers + {p};
      Join(p.net);
    }

    method CreatePeer(net: Network, o: Source, ip: Netaddr) returns (p: PeerAddress)
      requires Valid() && Added(net) && ip !in net.peers
      modifies this`peers, net`peers
      ensures Valid() && p.ip == ip && p.origin == o && net.peers == old(net.peers)[ip := p] && fresh(p)
      ensures Shown() - {net.name} == old(Shown()) - {net.name}
    {
      hide Valid, Network.Shown;
      ghost var ns := AllNeighbors();
      Apart(net);
      p := new PeerAddress(ip, net, o);
      EnterPeer(p);
    }

    method TouchPeer(net: Network, o: Source, ip: Netaddr)
      requires Valid() && Added(net) && ip in net.peers
      modifies net.peers[ip]
      ensures Valid() && net.peers[ip].origin == o
      ensures Shown() - {net.name} == old(Shown()) - {net.name}
    {
      hide Valid, Network.Shown;
      ghost var ns := AllNeighbors();
      Apart(net);
      net.peers[ip].origin := o;
    }

    // oonf_layer2_net_add_ip: a known address only changes its originator
    method AddPeer(net: Network, o: Source, ip: Netaddr) returns (p: PeerAddress)
      requires Valid() && Added(net)
      modifies this`peers, net`peers, net.peers.Values
      ensures Valid() && ip in net.peers && net.peers[ip] == p && (ip in old(net.peers) ==> p == old(net.peers)[ip])
      ensures net.PeerOrigins() == old(net.PeerOrigins())[ip := o]
      ensures Shown() - {net.name} == old(Shown()) - {net.name}
    {
      hide Valid, Shown, Network.Linked;
      Own(net.name);
      OwnPeers(net);
      if ip in net.peers {
        p := net.peers[ip];
        TouchPeer(net, o, ip);
      } else {
        p := CreatePeer(net, o, ip);
      }
    }

    lemma OwnPeers(net: Network)
      requires Valid() && Added(net)
      ensures forall a | a in net.peers :: net.peers[a].ip == a
    {
    }

    method PerformIn(net: Network, e: NetEdit)
      requires Valid() && Added(net)
      modifies net`neighbors, net`remote, net`data, net`neighdata
      modifies net.neighbors.Values, net.RemoteObjects()
      ensures Valid() && net.Shown() == NetEdited(old(net.Shown()), e)
      ensures Shown() - {net.name} == old(Shown()) - {net.name}
    {
      hide Valid, OthersLinked, PeersIndexed, AllNeighbors, AllRemotes, AllDestinations, AllPeers, NetsLinked;
      hide Rest, Shown;
      hide Known, NetEdited;
      hide Network.Linked, Network.Shown, Network.Indexed, Network.Neighbors, Network.PeerOrigins, Network.Attached;
      Split(net);
      Apart(net);
      RestShown(net);
      net.Perform(e);
      Join(net);
      RestShown(net);
    }

    method RelabelIn(net: Network, name: Source, stale: Source)
      requires Valid() && Added(net)
      modifies net`data, net`neighdata, net.neighbors.Values`data
      modifies net.RemoteObjects()`origin, net.DestinationObjects()`origin, net.peers.Values`origin
      ensures Valid() && net.Shown() == NetRenamed(old(net.Shown()), stale, name)
      ensures Shown() - {net.name} == old(Shown()) - {net.name}
    {
      hide Valid, OthersLinked, PeersIndexed, AllNeighbors, AllRemotes, AllDestinations, AllPeers, NetsLinked;
      hide Rest, Shown;
      hide NetRenamed, AddressesRenamed, Network.Linked, Network.Shown, Network.PeerOrigins, Network.Attached;
      Split(net);
      Apart(net);
      RestShown(net);
      net.Relabel(name, stale);
      Join(net);
      RestShown(net);
    }

    // oonf_layer2_net_relabel
    method RelabelNet(net: Network, name: Source, stale: Source)
      requires Valid() && Added(net)
      modifies net`data, net`neighdata, net.neighbors.Values`data
      modifies net.RemoteObjects()`origin, net.DestinationObjects()`origin, net.peers.Values`origin
      ensures Valid()
      ensures Shown() == old(Shown())[net.name := NetRenamed(old(Shown())[net.name], stale, name)]
    {
      hide Valid, Network.Shown, NetRenamed;
      ghost var before := Shown();
      RelabelIn(net, name, stale);
      Patched(Shown(), before, net.name);
    }

    // Every change inside one network leaves all other networks alone and keeps all indices.
    method EditNet(net: Network, e: NetEdit)
      requires Valid() && Added(net)
      modifies net`neighbors, net`remote, net`data, net`neighdata
      modifies net.neighbors.Values, net.RemoteObjects()
      ensures Valid()
      ensures Shown() == old(Shown())[net.name := NetEdited(old(Shown())[net.name], e)]
    {
      hide Valid, Network.Shown, NetEdited;
      ghost var before := Shown();
      PerformIn(net, e);
      Patched(Shown(), before, net.name);
    }

    // A new network that nobody uses is gone with the next commit.
    method AddAndCommit(name: Name, count: nat, neighCount: nat) returns (dropped: bool)
      requires Valid() && name !in nets
      modifies this`nets, this`peers
      ensures Valid() && dropped && nets == old(nets) && Shown() == old(Shown())
    {
      hide Valid, Network.Shown;
      ghost var before := Shown();
      assert before.Keys == nets.Keys;
      var net := AddNet(name, count, neighCount);
      assert net.Shown() == Shown()[name];
      NewBlank(count, neighCount);
      dropped := CommitNet(net);
      assert before[name := net.Shown()] - {name} == before;
    }

    // A new network with one value.
    method AddAndWrite(name: Name, count: nat, neighCount: nat, i: nat, w: Write) returns (net: Network)
      requires Valid() && name !in nets && i < count
      modifies this`nets
      ensures Valid() && fresh(net) && nets == old(nets)[name := net] && net.neighbors == map[]
      ensures
        var v := NetView(map[], map[], NewSlots(count), NewSlots(neighCount));
        Shown() == old(Shown())[name := NetEdited(v, SetNetSlot(i, w))]
    {
      hide Valid, Network.Shown;
      net := AddNet(name, count, neighCount);
      NoObjects(net);
      EditNet(net, SetNetSlot(i, w));
      NoNeighbors(net);
    }

    // A new network with one value of an originator is gone with the originator, and nothing else is, when
    // nothing else is its own.
    method AddAndRemoveOrigin(name: Name, count: nat, neighCount: nat, i: nat, w: Write)
      requires Valid() && name !in nets && i < count
      requires w.origin.name in origins && origins[w.origin.name] == w.origin
      requires forall n | n in nets :: !NetCarries(Shown()[n], w.origin)
      modifies this, nets.Values, AllNeighbors()
      ensures Valid() && Shown() == old(Shown())
    {
      hide Valid, Network.Shown, NetCarries, Owns, NetDropped, NetEdited, Purged;
      ghost var before := Shown();
      assert before.Keys == nets.Keys;
      var net := AddAndWrite(name, count, neighCount, i, w);
      OneWrite(count, neighCount, i, w);
      ghost var v := NetEdited(NetView(map[], map[], NewSlots(count), NewSlots(neighCount)), SetNetSlot(i, w));
      DroppedWhen(v, w.origin);
      OwnGone(before, name, v, w.origin);
      RemoveOrigin(w.origin);
    }

    lemma NoObjects(net: Network)
      requires net.neighbors == map[]
      ensures net.RemoteObjects() == {} && net.neighbors.Values == {}
    {
    }

    lemma NoNeighbors(net: Network)
      requires Added(net) && Shown()[net.name].neighbors == map[]
      ensures net.neighbors == map[]
    {
      assert net.Neighbors().Keys == net.neighbors.Keys;
    }
  }
}

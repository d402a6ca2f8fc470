// The layer-2 database as values, and what removing or renaming an originator does to it.
module Layer2Data {

  // An originator is compared by identity; priorities decide who may overwrite whom.
  datatype Origin = Null | Origin(name: string, id: nat, priority: nat)
  type Source = o: Origin | o.Origin? witness Origin("", 0, 0)

  datatype Family = Inet | Inet6 | Mac48 | Eui64 | Unspecified
  datatype Netaddr = Netaddr(family: Family, bytes: seq<bv8>, prefix: nat)
  datatype NeighKey = NeighKey(addr: Netaddr, linkId: seq<bv8>)
  type Name = string

  datatype Meta = Untyped | Typed(index: nat)
  datatype Slot = Slot(value: int, meta: Meta, origin: Origin)

  predicate HasValue(s: Slot) {
    s.origin.Origin? && s.meta.Typed?
  }

  function Reset(s: Slot): Slot {
    s.(meta := Untyped, origin := Null)
  }

  // oonf_layer2_data_set: an originator replaces its own data and data of lower priority
  function DataSet(s: Slot, origin: Source, meta: Meta, value: int): (Slot, bool)
    requires meta.Typed? || s.meta.Typed?
  {
    var used := if meta.Untyped? then s.meta else meta;
    if s.meta.Untyped? || s.origin.Null? || s.origin == origin || s.origin.priority < origin.priority then
      (Slot(value, used, origin), s.meta != used || s.value != value)
    else (s, false)
  }

  datatype Write = Write(origin: Source, index: nat, value: int)

  function Stored(w: Write): Slot {
    Slot(w.value, Typed(w.index), w.origin)
  }

  function Written(s: Slot, ws: seq<Write>): Slot {
    if ws == [] then s
    else
      var w := ws[|ws| - 1];
      DataSet(Written(s, ws[..|ws| - 1]), w.origin, Typed(w.index), w.value).0
  }

  // Write f is the first one of the highest priority, and i is the last one of the same originator.
  predicate Wins(ws: seq<Write>, f: nat, i: nat) {
    && f <= i < |ws|
    && (forall j | 0 <= j < f :: ws[j].origin.priority < ws[f].origin.priority)
    && (forall j | f < j < |ws| :: ws[j].origin.priority <= ws[f].origin.priority)
    && ws[i].origin == ws[f].origin
    && (forall j | i < j < |ws| :: ws[j].origin != ws[f].origin)
  }

  // A slot that starts empty ends with the last word of whoever first had the highest priority.
  lemma {:induction false} LastWord(s: Slot, ws: seq<Write>) returns (f: nat, i: nat)
    requires s.origin.Null? && ws != []
    ensures Wins(ws, f, i) && Written(s, ws) == Stored(ws[i])
  {
    var last: nat := |ws| - 1;
    if last == 0 {
      f, i := 0, 0;
    } else {
      f, i := LastWord(s, ws[..last]);
      if ws[f].origin == ws[last].origin {
        i := last;
      } else if ws[f].origin.priority < ws[last].origin.priority {
        f, i := last, last;
      }
    }
  }

  // Two maps that agree outside of one key.
  lemma Patched<K, V>(a: map<K, V>, b: map<K, V>, k: K)
    requires k in a && a - {k} == b - {k}
    ensures a == b[k := a[k]]
  {
    forall j | j != k ensures j in a <==> j in b && (j in a ==> a[j] == b[j]) {
      assert j in a <==> j in a - {k};
      assert j in b <==> j in b - {k};
      assert j in a && j in b ==> (a - {k})[j] == (b - {k})[j];
    }
  }

  // What the database shows. A neighbor has destinations, addresses and data slots.
  datatype NeighView = NeighView(destinations: map<Netaddr, Origin>, ips: map<Netaddr, Origin>, data: seq<Slot>)

  datatype NetView = NetView(
    neighbors: map<NeighKey, NeighView>, peers: map<Netaddr, Origin>, data: seq<Slot>, neighdata: seq<Slot>)

  type View = map<Name, NetView>

  // Removing an originator

  function Cleared(data: seq<Slot>, o: Source): (r: seq<Slot>)
    ensures |r| == |data|
  {
    seq(|data|, i requires 0 <= i < |data| => if data[i].origin == o then Reset(data[i]) else data[i])
  }

  function Without(m: map<Netaddr, Origin>, o: Source): map<Netaddr, Origin> {
    map a | a in m && m[a] != o :: m[a]
  }

  predicate SlotsCarry(data: seq<Slot>, o: Source) {
    exists i :: 0 <= i < |data| && data[i].origin == o
  }

  predicate AddressesCarry(m: map<Netaddr, Origin>, o: Source) {
    exists a :: a in m && m[a] == o
  }

  predicate AnyValue(data: seq<Slot>) {
    exists i :: 0 <= i < |data| && HasValue(data[i])
  }

  predicate NeighCarries(v: NeighView, o: Source) {
    AddressesCarry(v.destinations, o) || AddressesCarry(v.ips, o) || SlotsCarry(v.data, o)
  }

  function NeighPurged(v: NeighView, o: Source): NeighView {
    NeighView(Without(v.destinations, o), Without(v.ips, o), Cleared(v.data, o))
  }

  predicate NeighBlank(v: NeighView) {
    v.destinations == map[] && v.ips == map[] && !AnyValue(v.data)
  }

  // A commit drops a neighbor that has lost something and has nothing left.
  predicate NeighDropped(v: NeighView, o: Source) {
    NeighCarries(v, o) && NeighBlank(NeighPurged(v, o))
  }

  function NeighborsPurged(ns: map<NeighKey, NeighView>, o: Source): map<NeighKey, NeighView> {
    map k | k in ns && !NeighDropped(ns[k], o) :: NeighPurged(ns[k], o)
  }

  // One neighbor at a time.
  function NeighborPurged(ns: map<NeighKey, NeighView>, k: NeighKey, o: Source): map<NeighKey, NeighView>
    requires k in ns
  {
    if NeighDropped(ns[k], o) then ns - {k} else ns[k := NeighPurged(ns[k], o)]
  }

  // The neighbors that have been handled so far, and those still to do.
  function Partly(ns: map<NeighKey, NeighView>, todo: set<NeighKey>, o: Source): map<NeighKey, NeighView> {
    map k | k in ns && (k in todo || !NeighDropped(ns[k], o)) :: if k in todo then ns[k] else NeighPurged(ns[k], o)
  }

  lemma PartlyStep(ns: map<NeighKey, NeighView>, todo: set<NeighKey>, k: NeighKey, o: Source)
    requires k in ns && k in todo
    ensures k in Partly(ns, todo, o) && Partly(ns, todo, o)[k] == ns[k]
    ensures Partly(ns, todo - {k}, o) == NeighborPurged(Partly(ns, todo, o), k, o)
    ensures !NeighCarries(ns[k], o) ==> Partly(ns, todo - {k}, o) == Partly(ns, todo, o)
  {
    if !NeighCarries(ns[k], o) {
      UntouchedNeighbor(ns[k], o);
    }
  }

  lemma PartlyEnds(ns: map<NeighKey, NeighView>, o: Source)
    ensures Partly(ns, ns.Keys, o) == ns && Partly(ns, {}, o) == NeighborsPurged(ns, o)
  {
  }

  predicate NeighborsCarry(ns: map<NeighKey, NeighView>, o: Source) {
    exists k :: k in ns && NeighCarries(ns[k], o)
  }

  predicate NetCarries(v: NetView, o: Source) {
    NeighborsCarry(v.neighbors, o) || SlotsCarry(v.data, o) || SlotsCarry(v.neighdata, o)
  }

  // The addresses of local peers are kept.
  function NetPurged(v: NetView, o: Source): NetView {
    NetView(NeighborsPurged(v.neighbors, o), v.peers, Cleared(v.data, o), Cleared(v.neighdata, o))
  }

  predicate NetBlank(v: NetView) {
    v.neighbors == map[] && !AnyValue(v.data) && !AnyValue(v.neighdata)
  }

  predicate NetDropped(v: NetView, o: Source) {
    NetCarries(v, o) && NetBlank(NetPurged(v, o))
  }

  function Purged(db: View, o: Source): View {
    map n | n in db && !NetDropped(db[n], o) :: NetPurged(db[n], o)
  }

  // One net at a time.
  function OneNetPurged(db: View, n: Name, o: Source): View
    requires n in db
  {
    if NetDropped(db[n], o) then db - {n} else db[n := NetPurged(db[n], o)]
  }

  // The nets that have been handled so far, and those still to do.
  function PartlyNets(db: View, todo: set<Name>, o: Source): View {
    map n | n in db && (n in todo || !NetDropped(db[n], o)) :: if n in todo then db[n] else NetPurged(db[n], o)
  }

  lemma PartlyNetsStep(db: View, todo: set<Name>, n: Name, o: Source)
    requires n in db && n in todo
    ensures n in PartlyNets(db, todo, o) && PartlyNets(db, todo, o)[n] == db[n]
    ensures PartlyNets(db, todo - {n}, o) == OneNetPurged(PartlyNets(db, todo, o), n, o)
    ensures !NetCarries(db[n], o) ==> PartlyNets(db, todo - {n}, o) == PartlyNets(db, todo, o)
  {
    if !NetCarries(db[n], o) {
      UntouchedNet(db[n], o);
    }
  }

  lemma PartlyNetsEnds(db: View, o: Source)
    ensures PartlyNets(db, db.Keys, o) == db && PartlyNets(db, {}, o) == Purged(db, o)
  {
  }

  // A neighbor without the originator is left as it is.
  lemma UntouchedNeighbor(v: NeighView, o: Source)
    requires !NeighCarries(v, o)
    ensures NeighPurged(v, o) == v
  {
    assert Without(v.destinations, o) == v.destinations;
    assert Without(v.ips, o) == v.ips;
    assert Cleared(v.data, o) == v.data;
  }

  lemma PurgedNeighbor(v: NeighView, o: Source)
    ensures !NeighCarries(NeighPurged(v, o), o)
  {
    var p := NeighPurged(v, o);
    assert !AddressesCarry(p.destinations, o) && !AddressesCarry(p.ips, o);
    assert !SlotsCarry(p.data, o);
  }

  lemma PurgedNet(v: NetView, o: Source)
    ensures !NetCarries(NetPurged(v, o), o)
  {
    var p := NetPurged(v, o);
    forall k | k in p.neighbors ensures !NeighCarries(p.neighbors[k], o) {
      PurgedNeighbor(v.neighbors[k], o);
    }
  }

  // No net data, neighbor data, neighbor address or destination of the originator is left.
  lemma {:induction false} PurgedClean(db: View, o: Source, n: Name)
    requires n in Purged(db, o)
    ensures !NetCarries(Purged(db, o)[n], o)
  {
    PurgedNet(db[n], o);
  }

  predicate IsMac(a: Netaddr) {
    a.family == Mac48 || a.family == Eui64
  }

  // The data slots of a new object have their metadata and no value.
  function NewSlots(count: nat): seq<Slot> {
    seq(count, i requires i >= 0 => Slot(0, Typed(i), Null))
  }

  // One thing in the database that belongs to an originator.
  datatype Item =
    | NetSlot(index: nat, slot: Slot)
    | DefaultSlot(index: nat, slot: Slot)
    | NeighSlot(key: NeighKey, index: nat, slot: Slot)
    | NeighIp(key: NeighKey, ip: Netaddr, origin: Origin)
    | Destination(key: NeighKey, ip: Netaddr, origin: Origin)
    | Peer(ip: Netaddr, origin: Origin)

  function Owner(i: Item): Origin {
    match i
    case NetSlot(_, s) => s.origin
    case DefaultSlot(_, s) => s.origin
    case NeighSlot(_, _, s) => s.origin
    case NeighIp(_, _, o) => o
    case Destination(_, _, o) => o
    case Peer(_, o) => o
  }

  predicate SlotHeld(data: seq<Slot>, i: nat, s: Slot) {
    i < |data| && data[i] == s && HasValue(s)
  }

  predicate Held(v: NetView, i: Item) {
    match i
    case NetSlot(k, s) => SlotHeld(v.data, k, s)
    case DefaultSlot(k, s) => SlotHeld(v.neighdata, k, s)
    case NeighSlot(n, k, s) => n in v.neighbors && SlotHeld(v.neighbors[n].data, k, s)
    case NeighIp(n, a, o) => n in v.neighbors && a in v.neighbors[n].ips && v.neighbors[n].ips[a] == o
    case Destination(n, a, o) =>
      n in v.neighbors && a in v.neighbors[n].destinations && v.neighbors[n].destinations[a] == o
    case Peer(a, o) => a in v.peers && v.peers[a] == o
  }

  predicate Holds(db: View, n: Name, i: Item) {
    n in db && Held(db[n], i)
  }

  // Inside a net that stays, exactly the items of the originator disappear, but no peer address does.
  lemma NetExact(v: NetView, o: Source, i: Item)
    ensures Held(NetPurged(v, o), i) <==> Held(v, i) && (Owner(i) != o || i.Peer?)
  {
    var p := NetPurged(v, o);
    if (i.NeighSlot? || i.NeighIp? || i.Destination?) && i.key in v.neighbors {
      var w := NeighPurged(v.neighbors[i.key], o);
      if Held(v, i) && Owner(i) != o {
        assert match i
          case NeighSlot(_, k, s) => w.data[k] == s && AnyValue(w.data)
          case NeighIp(_, a, _) => a in w.ips
          case Destination(_, a, _) => a in w.destinations;
        assert i.key in p.neighbors;
      }
    }
  }

  // The items of others are never lost: a net that holds one is not dropped.
  lemma OthersStay(v: NetView, o: Source, i: Item)
    requires Held(v, i) && Owner(i) != o && !i.Peer?
    ensures !NetDropped(v, o)
  {
    NetExact(v, o, i);
  }

  // Removing an originator removes exactly its items, except that peer addresses, whoever owns them,
  // go if and only if their net is dropped.
  lemma {:induction false} PurgedExact(db: View, o: Source, n: Name, i: Item)
    ensures !i.Peer? ==> (Holds(Purged(db, o), n, i) <==> Holds(db, n, i) && Owner(i) != o)
    ensures i.Peer? ==> (Holds(Purged(db, o), n, i) <==> Holds(db, n, i) && !NetDropped(db[n], o))
  {
    if n in db {
      NetExact(db[n], o, i);
      if Held(db[n], i) && Owner(i) != o && !i.Peer? {
        OthersStay(db[n], o, i);
      }
    }
  }

  // The originator has something in the net, and in each of its neighbors, and nobody else has anything.
  ghost predicate Owns(v: NetView, o: Source) {
    && NetCarries(v, o) && (forall k | k in v.neighbors :: NeighCarries(v.neighbors[k], o))
    && forall i | Held(v, i) && !i.Peer? :: Owner(i) == o
  }

  lemma BlankWithoutItems(v: NetView)
    ensures NetBlank(v) ==> forall i | Held(v, i) :: i.Peer?
    ensures (forall i | Held(v, i) :: i.Peer?) ==> !AnyValue(v.data) && !AnyValue(v.neighdata)
    ensures (forall i | Held(v, i) :: i.Peer?) ==> forall k | k in v.neighbors :: NeighBlank(v.neighbors[k])
  {
    if forall i | Held(v, i) :: i.Peer? {
      if j :| 0 <= j < |v.data| && HasValue(v.data[j]) {
        assert Held(v, NetSlot(j, v.data[j]));
      }
      if j :| 0 <= j < |v.neighdata| && HasValue(v.neighdata[j]) {
        assert Held(v, DefaultSlot(j, v.neighdata[j]));
      }
      forall k | k in v.neighbors ensures NeighBlank(v.neighbors[k]) {
        NeighWithoutItems(v, k);
      }
    }
  }

  lemma NeighWithoutItems(v: NetView, k: NeighKey)
    requires k in v.neighbors && forall i | Held(v, i) :: i.Peer?
    ensures NeighBlank(v.neighbors[k])
  {
    var n := v.neighbors[k];
    if a :| a in n.destinations {
      assert Held(v, Destination(k, a, n.destinations[a]));
    }
    if a :| a in n.ips {
      assert Held(v, NeighIp(k, a, n.ips[a]));
    }
    if j :| 0 <= j < |n.data| && HasValue(n.data[j]) {
      assert Held(v, NeighSlot(k, j, n.data[j]));
    }
  }

  // A net is dropped if and only if the originator owns all of it.
  lemma DroppedWhen(v: NetView, o: Source)
    ensures NetDropped(v, o) <==> Owns(v, o)
  {
    var p := NetPurged(v, o);
    forall i ensures Held(p, i) <==> Held(v, i) && (Owner(i) != o || i.Peer?) {
      NetExact(v, o, i);
    }
    hide Held;
    BlankWithoutItems(p);
    if NetDropped(v, o) {
      forall k | k in v.neighbors ensures NeighCarries(v.neighbors[k], o) {
        assert k !in p.neighbors;
      }
    }
    if Owns(v, o) {
      assert forall k | k in v.neighbors :: k !in p.neighbors;
      assert p.neighbors == map[];
    }
  }

  // The net keeps a peer address of the originator: somebody else has something in it, too, or the
  // originator has nothing but peer addresses.
  ghost predicate PeerLeft(db: View, o: Source, n: Name) {
    n in db && AddressesCarry(db[n].peers, o) && !Owns(db[n], o)
  }

  // All data of the originator is gone if and only if it owns every net with one of its peer addresses.
  lemma {:induction false} PurgedAll(db: View, o: Source)
    ensures (forall n, i | Owner(i) == o :: !Holds(Purged(db, o), n, i)) <==> (forall n :: !PeerLeft(db, o, n))
  {
    hide Owns, NetDropped;
    forall n | n in db ensures NetDropped(db[n], o) <==> Owns(db[n], o) {
      DroppedWhen(db[n], o);
    }
    forall n, i | Owner(i) == o && Holds(Purged(db, o), n, i) ensures PeerLeft(db, o, n) {
      PurgedExact(db, o, n, i);
    }
    forall n | PeerLeft(db, o, n) ensures exists i :: Owner(i) == o && Holds(Purged(db, o), n, i) {
      var a :| a in db[n].peers && db[n].peers[a] == o;
      PurgedExact(db, o, n, Peer(a, o));
      assert Holds(Purged(db, o), n, Peer(a, o));
    }
  }

  // A peer address outlives its originator.
  lemma PeerSurvives() returns (db: View, o: Source, n: Name, i: Item)
    ensures i.Peer? && Owner(i) == o && Holds(db, n, i) && Holds(Purged(db, o), n, i)
  {
    o := Origin("radio", 1, 10);
    n := "wlan0";
    var a := Netaddr(Inet, [10, 0, 0, 1], 32);
    db := map[n := NetView(map[], map[a := o], [], [])];
    i := Peer(a, o);
    assert !NetCarries(db[n], o);
  }

  // The order in which originators leave does not matter

  lemma PurgedTwice(v: NeighView, o: Source, p: Source)
    ensures NeighPurged(NeighPurged(v, o), p) == NeighPurged(NeighPurged(v, p), o)
  {
    assert Cleared(Cleared(v.data, o), p) == Cleared(Cleared(v.data, p), o);
    assert Without(Without(v.ips, o), p) == Without(Without(v.ips, p), o);
    assert Without(Without(v.destinations, o), p) == Without(Without(v.destinations, p), o);
  }

  // A neighbor is gone after two originators have left.
  predicate NeighGone(v: NeighView, o: Source, p: Source) {
    NeighDropped(v, o) || NeighDropped(NeighPurged(v, o), p)
  }

  lemma AddressesKept(m: map<Netaddr, Origin>, o: Source, p: Source)
    requires o != p
    ensures AddressesCarry(Without(m, o), p) <==> AddressesCarry(m, p)
  {
    forall a | a in m && m[a] == p ensures a in Without(m, o) && Without(m, o)[a] == p {
    }
  }

  lemma SlotsKept(data: seq<Slot>, o: Source, p: Source)
    requires o != p
    ensures SlotsCarry(Cleared(data, o), p) <==> SlotsCarry(data, p)
  {
    forall i | 0 <= i < |data| && data[i].origin == p ensures Cleared(data, o)[i].origin == p {
    }
  }

  lemma CarriesKept(v: NeighView, o: Source, p: Source)
    requires o != p
    ensures NeighCarries(NeighPurged(v, o), p) <==> NeighCarries(v, p)
  {
    AddressesKept(v.destinations, o, p);
    AddressesKept(v.ips, o, p);
    SlotsKept(v.data, o, p);
  }

  lemma NeighGoneWhen(v: NeighView, o: Source, p: Source)
    requires o != p
    ensures
      && NeighGone(v, o, p)
      <==> (NeighCarries(v, o) || NeighCarries(v, p)) && NeighBlank(NeighPurged(NeighPurged(v, o), p))
  {
    var w := NeighPurged(v, o);
    CarriesKept(v, o, p);
    if !NeighCarries(v, o) {
      UntouchedNeighbor(v, o);
    }
    if !NeighCarries(v, p) {
      UntouchedNeighbor(w, p);
    }
  }

  lemma NeighGoneSame(v: NeighView, o: Source, p: Source)
    ensures NeighGone(v, o, p) <==> NeighGone(v, p, o)
  {
    if o != p {
      NeighGoneWhen(v, o, p);
      NeighGoneWhen(v, p, o);
      PurgedTwice(v, o, p);
    }
  }

  lemma NeighborsTwice(ns: map<NeighKey, NeighView>, o: Source, p: Source)
    ensures NeighborsPurged(NeighborsPurged(ns, o), p) == NeighborsPurged(NeighborsPurged(ns, p), o)
  {
    forall k | k in ns
      ensures NeighGone(ns[k], o, p) <==> NeighGone(ns[k], p, o)
      ensures NeighPurged(NeighPurged(ns[k], o), p) == NeighPurged(NeighPurged(ns[k], p), o)
    {
      NeighGoneSame(ns[k], o, p);
      PurgedTwice(ns[k], o, p);
    }
  }

  lemma NetTwice(v: NetView, o: Source, p: Source)
    ensures NetPurged(NetPurged(v, o), p) == NetPurged(NetPurged(v, p), o)
  {
    NeighborsTwice(v.neighbors, o, p);
    assert Cleared(Cleared(v.data, o), p) == Cleared(Cleared(v.data, p), o);
    assert Cleared(Cleared(v.neighdata, o), p) == Cleared(Cleared(v.neighdata, p), o);
  }

  predicate NetGone(v: NetView, o: Source, p: Source) {
    NetDropped(v, o) || NetDropped(NetPurged(v, o), p)
  }

  lemma UntouchedNet(v: NetView, o: Source)
    requires !NetCarries(v, o)
    ensures NetPurged(v, o) == v
  {
    forall k | k in v.neighbors
      ensures !NeighCarries(v.neighbors[k], o) && NeighPurged(v.neighbors[k], o) == v.neighbors[k]
    {
      UntouchedNeighbor(v.neighbors[k], o);
    }
    assert NeighborsPurged(v.neighbors, o) == v.neighbors;
    assert Cleared(v.data, o) == v.data && Cleared(v.neighdata, o) == v.neighdata;
  }

  // Whatever the second removal finds in a net was there before the first.
  lemma NetCarriesBefore(v: NetView, o: Source, p: Source)
    requires o != p && NetCarries(NetPurged(v, o), p)
    ensures NetCarries(v, p)
  {
    SlotsKept(v.data, o, p);
    SlotsKept(v.neighdata, o, p);
    var ns := NetPurged(v, o).neighbors;
    if k :| k in ns && NeighCarries(ns[k], p) {
      CarriesKept(v.neighbors[k], o, p);
    }
  }

  // Values that only the second removal makes disappear carry its originator.
  lemma ValuesGone(data: seq<Slot>, p: Source)
    requires AnyValue(data) && !AnyValue(Cleared(data, p))
    ensures SlotsCarry(data, p)
  {
    var i :| 0 <= i < |data| && HasValue(data[i]);
    assert Cleared(data, p)[i] == data[i] || data[i].origin == p;
  }

  lemma BlankedBySecond(v: NetView, p: Source)
    requires !NetBlank(v) && NetBlank(NetPurged(v, p))
    ensures NetDropped(v, p)
  {
    if v.neighbors != map[] {
      var k :| k in v.neighbors;
      assert k !in NetPurged(v, p).neighbors;
      assert NeighCarries(v.neighbors[k], p);
    } else if AnyValue(v.data) {
      ValuesGone(v.data, p);
    } else {
      ValuesGone(v.neighdata, p);
    }
  }

  lemma BlankStays(v: NetView, p: Source)
    requires NetBlank(v)
    ensures NetBlank(NetPurged(v, p))
  {
  }

  lemma NetGoneWhen(v: NetView, o: Source, p: Source)
    requires o != p
    ensures
      && NetGone(v, o, p)
      <==> (NetCarries(v, o) || NetCarries(v, p)) && NetBlank(NetPurged(NetPurged(v, o), p))
  {
    var w := NetPurged(v, o);
    if NetGone(v, o, p) {
      if NetDropped(v, o) {
        BlankStays(w, p);
      } else {
        NetCarriesBefore(v, o, p);
      }
    }
    if (NetCarries(v, o) || NetCarries(v, p)) && NetBlank(NetPurged(w, p)) {
      if !NetCarries(v, o) {
        UntouchedNet(v, o);
      } else if !NetBlank(w) {
        BlankedBySecond(w, p);
      }
    }
  }

  lemma NetGoneSame(v: NetView, o: Source, p: Source)
    ensures NetGone(v, o, p) <==> NetGone(v, p, o)
  {
    if o != p {
      NetGoneWhen(v, o, p);
      NetGoneWhen(v, p, o);
      NetTwice(v, o, p);
    }
  }

  lemma {:induction false} PurgesCommute(db: View, o: Source, p: Source)
    ensures Purged(Purged(db, o), p) == Purged(Purged(db, p), o)
  {
    forall n | n in db
      ensures NetGone(db[n], o, p) <==> NetGone(db[n], p, o)
      ensures NetPurged(NetPurged(db[n], o), p) == NetPurged(NetPurged(db[n], p), o)
    {
      NetGoneSame(db[n], o, p);
      NetTwice(db[n], o, p);
    }
  }

  // Clearing data slots only

  function NeighCleaned(v: NeighView, o: Source): NeighView {
    v.(data := Cleared(v.data, o))
  }

  function NetCleaned(v: NetView, o: Source, deep: bool): NetView {
    v.(data := Cleared(v.data, o), neighdata := Cleared(v.neighdata, o),
       neighbors := if deep then map k | k in v.neighbors :: NeighCleaned(v.neighbors[k], o) else v.neighbors)
  }

  predicate NeighborSlots(ns: map<NeighKey, NeighView>, o: Source) {
    exists k :: k in ns && SlotsCarry(ns[k].data, o)
  }

  // Renaming an originator

  function Renamed(o: Origin, stale: Source, name: Source): Origin {
    if o == stale then name else o
  }

  function SlotsRenamed(data: seq<Slot>, stale: Source, name: Source): (r: seq<Slot>)
    ensures |r| == |data|
  {
    seq(|data|, i requires 0 <= i < |data| => data[i].(origin := Renamed(data[i].origin, stale, name)))
  }

  function AddressesRenamed(m: map<Netaddr, Origin>, stale: Source, name: Source): map<Netaddr, Origin> {
    map a | a in m :: Renamed(m[a], stale, name)
  }

  function NeighRenamed(v: NeighView, stale: Source, name: Source): NeighView {
    NeighView(AddressesRenamed(v.destinations, stale, name), AddressesRenamed(v.ips, stale, name),
              SlotsRenamed(v.data, stale, name))
  }

  // The neighbors that have been renamed so far, and those still to do.
  function PartlyRenamed(ns: map<NeighKey, NeighView>, todo: set<NeighKey>, stale: Source, name: Source)
    : map<NeighKey, NeighView>
  {
    map k | k in ns :: if k in todo then ns[k] else NeighRenamed(ns[k], stale, name)
  }

  lemma PartlyRenamedStep(ns: map<NeighKey, NeighView>, todo: set<NeighKey>, k: NeighKey, stale: Source, name: Source)
    requires k in todo && k in ns
    ensures PartlyRenamed(ns, todo, stale, name)[k := NeighRenamed(ns[k], stale, name)]
         == PartlyRenamed(ns, todo - {k}, stale, name)
    ensures PartlyRenamed(ns, todo, stale, name)[k] == ns[k]
  {
  }

  lemma PartlyRenamedEnds(ns: map<NeighKey, NeighView>, stale: Source, name: Source)
    ensures PartlyRenamed(ns, ns.Keys, stale, name) == ns
    ensures PartlyRenamed(ns, {}, stale, name) == NeighborsRenamed(ns, stale, name)
  {
  }

  function NeighborsRenamed(ns: map<NeighKey, NeighView>, stale: Source, name: Source): map<NeighKey, NeighView> {
    map k | k in ns :: NeighRenamed(ns[k], stale, name)
  }

  // Unlike a removal, a relabel also reaches the addresses of local peers.
  function NetRenamed(v: NetView, stale: Source, name: Source): NetView {
    NetView(NeighborsRenamed(v.neighbors, stale, name), AddressesRenamed(v.peers, stale, name),
            SlotsRenamed(v.data, stale, name), SlotsRenamed(v.neighdata, stale, name))
  }

  lemma NeighRenamedPurged(v: NeighView, stale: Source, name: Source)
    requires stale != name && !NeighCarries(v, name)
    ensures NeighPurged(NeighRenamed(v, stale, name), name) == NeighPurged(v, stale)
    ensures NeighCarries(NeighRenamed(v, stale, name), name) <==> NeighCarries(v, stale)
  {
    var w := NeighRenamed(v, stale, name);
    assert Without(w.destinations, name) == Without(v.destinations, stale);
    assert Without(w.ips, name) == Without(v.ips, stale);
    assert Cleared(w.data, name) == Cleared(v.data, stale);
    assert forall a | a in v.destinations :: w.destinations[a] == name <==> v.destinations[a] == stale;
    assert forall a | a in v.ips :: w.ips[a] == name <==> v.ips[a] == stale;
    assert forall i | 0 <= i < |v.data| :: w.data[i].origin == name <==> v.data[i].origin == stale;
  }

  lemma NeighborsRenamedPurged(ns: map<NeighKey, NeighView>, stale: Source, name: Source)
    requires stale != name && !NeighborsCarry(ns, name)
    ensures NeighborsPurged(NeighborsRenamed(ns, stale, name), name) == NeighborsPurged(ns, stale)
    ensures NeighborsCarry(NeighborsRenamed(ns, stale, name), name) <==> NeighborsCarry(ns, stale)
  {
    var rs := NeighborsRenamed(ns, stale, name);
    forall k | k in ns
      ensures NeighDropped(rs[k], name) <==> NeighDropped(ns[k], stale)
      ensures NeighPurged(rs[k], name) == NeighPurged(ns[k], stale)
      ensures NeighCarries(rs[k], name) <==> NeighCarries(ns[k], stale)
    {
      NeighRenamedPurged(ns[k], stale, name);
    }
  }

  lemma SlotsRenamedCleared(data: seq<Slot>, stale: Source, name: Source)
    requires stale != name && !SlotsCarry(data, name)
    ensures Cleared(SlotsRenamed(data, stale, name), name) == Cleared(data, stale)
    ensures SlotsCarry(SlotsRenamed(data, stale, name), name) <==> SlotsCarry(data, stale)
  {
    var w := SlotsRenamed(data, stale, name);
    assert forall i | 0 <= i < |data| :: w[i].origin == name <==> data[i].origin == stale;
  }

  // Handing everything to a new originator and removing that one is the same as removing the old one.
  lemma {:induction false} RelabelThenRemove(v: NetView, stale: Source, name: Source)
    requires stale != name && !NetCarries(v, name)
    ensures NetDropped(NetRenamed(v, stale, name), name) <==> NetDropped(v, stale)
    ensures
      && NetPurged(NetRenamed(v, stale, name), name)
      == NetPurged(v, stale).(peers := AddressesRenamed(v.peers, stale, name))
  {
    NeighborsRenamedPurged(v.neighbors, stale, name);
    SlotsRenamedCleared(v.data, stale, name);
    SlotsRenamedCleared(v.neighdata, stale, name);
  }

  lemma NeighRelabeledBack(v: NeighView, stale: Source, name: Source)
    requires !NeighCarries(v, name)
    ensures NeighRenamed(NeighRenamed(v, stale, name), name, stale) == v
  {
    var w := NeighRenamed(v, stale, name);
    assert SlotsRenamed(w.data, name, stale) == v.data;
    assert AddressesRenamed(w.ips, name, stale) == v.ips;
    assert AddressesRenamed(w.destinations, name, stale) == v.destinations;
  }

  // A relabel to an originator that the net does not know can be taken back.
  lemma {:induction false} RelabeledBack(v: NetView, stale: Source, name: Source)
    requires !NetCarries(v, name) && !AddressesCarry(v.peers, name)
    ensures NetRenamed(NetRenamed(v, stale, name), name, stale) == v
  {
    var w := NetRenamed(v, stale, name);
    forall k | k in v.neighbors ensures NeighRenamed(w.neighbors[k], name, stale) == v.neighbors[k] {
      NeighRelabeledBack(v.neighbors[k], stale, name);
    }
    assert NeighborsRenamed(w.neighbors, name, stale) == v.neighbors;
    assert SlotsRenamed(w.data, name, stale) == v.data;
    assert SlotsRenamed(w.neighdata, name, stale) == v.neighdata;
    assert AddressesRenamed(w.peers, name, stale) == v.peers;
  }

  // The operations on values

  // What can be done to one neighbor; an address or destination that is unknown cannot be removed.
  datatype NeighEdit =
    | AddIp(origin: Source, ip: Netaddr)
    | RemoveIp(ip: Netaddr, origin: Source)
    | AddDestination(ip: Netaddr, origin: Source)
    | RemoveDestination(ip: Netaddr)
    | SetSlot(index: nat, write: Write)

  function SlotSet(data: seq<Slot>, i: nat, w: Write): (r: seq<Slot>)
    ensures |r| == |data|
  {
    if i < |data| then data[i := DataSet(data[i], w.origin, Typed(w.index), w.value).0] else data
  }

  function NeighEdited(v: NeighView, e: NeighEdit): NeighView {
    match e
    case AddIp(o, a) => v.(ips := v.ips[a := o])
    case RemoveIp(a, o) => if a in v.ips && v.ips[a] == o then v.(ips := v.ips - {a}) else v
    case AddDestination(a, o) => if a in v.destinations then v else v.(destinations := v.destinations[a := o])
    case RemoveDestination(a) => v.(destinations := v.destinations - {a})
    case SetSlot(i, w) => v.(data := SlotSet(v.data, i, w))
  }

  datatype NetEdit =
    | AddNeighbor(key: NeighKey)
    | EditNeighbor(key: NeighKey, edit: NeighEdit)
    | RemoveNeighbor(key: NeighKey, origin: Source)
    | Cleanup(origin: Source, deep: bool)
    | SetNetSlot(index: nat, write: Write)
    | SetDefaultSlot(index: nat, write: Write)

  function NetEdited(v: NetView, e: NetEdit): NetView {
    match e
    case AddNeighbor(k) =>
      if !IsMac(k.addr) || k in v.neighbors then v
      else v.(neighbors := v.neighbors[k := NeighView(map[], map[], NewSlots(|v.neighdata|))])
    case EditNeighbor(k, n) =>
      if k in v.neighbors then v.(neighbors := v.neighbors[k := NeighEdited(v.neighbors[k], n)]) else v
    case RemoveNeighbor(k, o) => if k in v.neighbors then v.(neighbors := NeighborPurged(v.neighbors, k, o)) else v
    case Cleanup(o, deep) => NetCleaned(v, o, deep)
    case SetNetSlot(i, w) => v.(data := SlotSet(v.data, i, w))
    case SetDefaultSlot(i, w) => v.(neighdata := SlotSet(v.neighdata, i, w))
  }

  // New objects have no values

  lemma {:induction false} NewBlank(count: nat, neighCount: nat)
    ensures NetBlank(NetView(map[], map[], NewSlots(count), NewSlots(neighCount)))
    ensures NeighBlank(NeighView(map[], map[], NewSlots(neighCount)))
  {
  }

  // Whatever is held is somebody's, as far as data goes.
  lemma HeldOwned(v: NetView, i: Item)
    requires Held(v, i) && (i.NetSlot? || i.DefaultSlot? || i.NeighSlot?)
    ensures Owner(i).Origin?
  {
  }

  // A write into a slot without a value gives it one, and a reset takes any value away.
  lemma WriteAndReset(s: Slot, w: Write)
    requires s.origin.Null?
    ensures !HasValue(s) && HasValue(DataSet(s, w.origin, Typed(w.index), w.value).0) && !HasValue(Reset(s))
  {
  }

  // A new net with one value in it is not blank; without the writer it is blank again.
  lemma OneWrite(count: nat, neighCount: nat, i: nat, w: Write)
    requires i < count
    ensures
      var v := NetEdited(NetView(map[], map[], NewSlots(count), NewSlots(neighCount)), SetNetSlot(i, w));
      !NetBlank(v) && NetDropped(v, w.origin)
  {
    var v := NetEdited(NetView(map[], map[], NewSlots(count), NewSlots(neighCount)), SetNetSlot(i, w));
    assert v.data[i] == Stored(w);
    NewBlank(count, neighCount);
    assert forall j | 0 <= j < count :: Cleared(v.data, w.origin)[j].origin.Null?;
    assert Cleared(v.neighdata, w.origin) == v.neighdata;
  }

  // Adding a net that belongs to an originator alone, and removing the originator, changes nothing.
  lemma OwnGone(db: View, n: Name, v: NetView, o: Source)
    requires n !in db && Owns(v, o) && forall m | m in db :: !NetCarries(db[m], o)
    ensures Purged(db[n := v], o) == db
  {
    DroppedWhen(v, o);
    forall m | m in db
      ensures NetPurged(db[m], o) == db[m]
    {
      UntouchedNet(db[m], o);
    }
  }

  // The originator carries something exactly when it holds something else than a peer address.
  lemma CarriesHeld(v: NetView, o: Source)
    requires forall s: Slot | s in v.data || s in v.neighdata :: s.origin.Origin? ==> s.meta.Typed?
    requires forall k, s: Slot | k in v.neighbors && s in v.neighbors[k].data :: s.origin.Origin? ==> s.meta.Typed?
    ensures NetCarries(v, o) <==> exists i :: Held(v, i) && !i.Peer? && Owner(i) == o
  {
    if j :| 0 <= j < |v.data| && v.data[j].origin == o {
      assert v.data[j] in v.data && Held(v, NetSlot(j, v.data[j]));
    }
    if j :| 0 <= j < |v.neighdata| && v.neighdata[j].origin == o {
      assert v.neighdata[j] in v.neighdata && Held(v, DefaultSlot(j, v.neighdata[j]));
    }
    if k :| k in v.neighbors && NeighCarries(v.neighbors[k], o) {
      NeighHolds(v, k, o);
    }
    if i :| Held(v, i) && !i.Peer? && Owner(i) == o {
      assert i.NeighSlot? || i.NeighIp? || i.Destination? ==> NeighCarries(v.neighbors[i.key], o);
    }
  }

  lemma NeighHolds(v: NetView, k: NeighKey, o: Source)
    requires k in v.neighbors && NeighCarries(v.neighbors[k], o)
    requires forall s: Slot | s in v.neighbors[k].data :: s.origin.Origin? ==> s.meta.Typed?
    ensures exists i :: Held(v, i) && !i.Peer? && Owner(i) == o
  {
    var n := v.neighbors[k];
    if AddressesCarry(n.destinations, o) {
      var a :| a in n.destinations && n.destinations[a] == o;
      assert Held(v, Destination(k, a, o));
    } else if AddressesCarry(n.ips, o) {
      var a :| a in n.ips && n.ips[a] == o;
      assert Held(v, NeighIp(k, a, o));
    } else {
      var j :| 0 <= j < |n.data| && n.data[j].origin == o;
      assert n.data[j] in n.data && Held(v, NeighSlot(k, j, n.data[j]));
    }
  }

  // Addresses and destinations that come and go

  // An address is its last originator's, and only that one can remove it; then all is as before.
  lemma IpUndone(v: NeighView, a: Netaddr, o: Source, p: Source)
    ensures NeighEdited(NeighEdited(v, AddIp(p, a)), AddIp(o, a)) == NeighEdited(v, AddIp(o, a))
    ensures a !in v.ips ==> NeighEdited(NeighEdited(v, AddIp(o, a)), RemoveIp(a, o)) == v
    ensures p != o ==> NeighEdited(NeighEdited(v, AddIp(o, a)), RemoveIp(a, p)) == NeighEdited(v, AddIp(o, a))
  {
    assert a !in v.ips ==> v.ips[a := o] - {a} == v.ips;
  }

  // A destination stays its first originator's until it is removed; then all is as before.
  lemma DestinationUndone(v: NeighView, a: Netaddr, o: Source, p: Source)
    requires a !in v.destinations
    ensures NeighEdited(v, AddDestination(a, o)).destinations == v.destinations[a := o]
    ensures
      NeighEdited(NeighEdited(v, AddDestination(a, o)), AddDestination(a, p)) == NeighEdited(v, AddDestination(a, o))
    ensures NeighEdited(NeighEdited(v, AddDestination(a, o)), RemoveDestination(a)) == v
  {
    assert v.destinations[a := o] - {a} == v.destinations;
  }
}

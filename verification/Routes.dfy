/** Installing, removing and losing the tunnel's routes, and where they send traffic. */
module Routes {
  import opened Bytes
  import opened Addresses

  // ---- The kernel's table ----

  /** A network: its family, its length and its leading `len` bits. */
  datatype Prefix = Prefix(v6: bool, len: nat, head: int)

  function Octets(ip: IpAddr): seq<Byte> {
    match ip
    case V4(o) => o
    case V6(o) => o
  }

  function Width(ip: IpAddr): nat { 8 * |Octets(ip)| }

  function Shift(x: nat, k: nat): int { x / Pow2(k) }

  /** The network of length `len` that holds `ip`. */
  function PrefixOf(ip: IpAddr, len: nat): Prefix
    requires len <= Width(ip)
  {
    Prefix(ip.V6?, len, Shift(BigEndian(Octets(ip)), Width(ip) - len))
  }

  predicate Covers(p: Prefix, ip: IpAddr) { p.len <= Width(ip) && p == PrefixOf(ip, p.len) }

  /** A route of the main table: its interface, who put it there, and how far its targets are. */
  datatype Route = Route(dev: nat, protocol: nat, scope: nat)

  const STATIC: nat := 4
  const LINK: nat := 253

  /** The kind of route the tunnel installs. */
  function OnLink(dev: nat): Route { Route(dev, STATIC, LINK) }

  type Table = map<Prefix, Route>

  datatype Handle = Handle(prefix: Prefix, dev: nat)

  /** A route that cannot be told from one of the listed. */
  predicate IsListed(hs: seq<Handle>, p: Prefix, r: Route) { r == OnLink(r.dev) && Handle(p, r.dev) in hs }

  /** A network that already has a route keeps it. */
  function Install(t: Table, h: Handle): Table { if h.prefix in t then t else t[h.prefix := OnLink(h.dev)] }

  /** Only a route like the handle's, in interface, protocol and scope, is deleted. */
  function Remove(t: Table, h: Handle): Table {
    if h.prefix in t && t[h.prefix] == OnLink(h.dev) then t - {h.prefix} else t
  }

  function InstallAll(t: Table, hs: seq<Handle>): Table {
    if hs == [] then t else Install(InstallAll(t, hs[..|hs| - 1]), hs[|hs| - 1])
  }

  /** Last installed, first removed. */
  function RemoveAll(t: Table, hs: seq<Handle>): Table {
    if hs == [] then t else RemoveAll(Remove(t, hs[|hs| - 1]), hs[..|hs| - 1])
  }

  // ---- What the tunnel installs ----

  const MULTICAST_V4: IpAddr := V4([224, 0, 0, 0])
  const MULTICAST_V6: IpAddr := V6([255, 0, 0, 0, 0, 0, 0, 0, 0, 0, 0, 0, 0, 0, 0, 0])
  const LOW_V4: IpAddr := V4([0, 0, 0, 0])
  const HIGH_V4: IpAddr := V4([128, 0, 0, 0])
  const LOW_V6: IpAddr := V6([0, 0, 0, 0, 0, 0, 0, 0, 0, 0, 0, 0, 0, 0, 0, 0])
  const HIGH_V6: IpAddr := V6([128, 0, 0, 0, 0, 0, 0, 0, 0, 0, 0, 0, 0, 0, 0, 0])

  function GroupV4(iface: Interface): seq<Handle> {
    if iface.v4.Some? then [Handle(PrefixOf(MULTICAST_V4, 4), iface.v4.value)] else []
  }

  function GroupV6(ipv6: bool, iface: Interface): seq<Handle> {
    if ipv6 && iface.v6.Some? then [Handle(PrefixOf(MULTICAST_V6, 8), iface.v6.value)] else []
  }

  function SplitV4(tun: nat): seq<Handle> { [Handle(PrefixOf(LOW_V4, 1), tun), Handle(PrefixOf(HIGH_V4, 1), tun)] }

  function SplitV6(ipv6: bool, tun: nat): seq<Handle> {
    if ipv6 then [Handle(PrefixOf(LOW_V6, 1), tun), Handle(PrefixOf(HIGH_V6, 1), tun)] else []
  }

  function Groups(ipv6: bool, iface: Interface): seq<Handle> { GroupV4(iface) + GroupV6(ipv6, iface) }
  function Splits(ipv6: bool, tun: nat): seq<Handle> { SplitV4(tun) + SplitV6(ipv6, tun) }

  /** Everything that is installed, in order. */
  function Plan(ipv6: bool, iface: Interface, tun: nat): seq<Handle> { Groups(ipv6, iface) + Splits(ipv6, tun) }

  // ---- Rollback ----

  /** The table less exactly the listed routes. */
  function Without(t: Table, hs: seq<Handle>): Table {
    map p | p in t && !IsListed(hs, p, t[p]) :: t[p]
  }

  /** Whatever happened to the table meanwhile, removal takes out our routes and nothing else. */
  lemma {:induction false} RemoveAllIsWithout(t: Table, hs: seq<Handle>)
    ensures RemoveAll(t, hs) == Without(t, hs)
  {
    if hs == [] {
      assert Without(t, hs) == t;
    } else {
      var init, last := hs[..|hs| - 1], hs[|hs| - 1];
      RemoveAllIsWithout(Remove(t, last), init);
      assert forall h :: h in hs <==> h in init || h == last by {
        assert hs == init + [last];
      }
      assert Without(Remove(t, last), init) == Without(t, hs);
    }
  }

  /** Installing keeps every earlier route and adds only listed ones. */
  lemma {:induction false} InstalledRoutes(t: Table, hs: seq<Handle>)
    ensures forall p :: p in t ==> p in InstallAll(t, hs) && InstallAll(t, hs)[p] == t[p]
    ensures forall p :: p in InstallAll(t, hs) && p !in t ==> IsListed(hs, p, InstallAll(t, hs)[p])
    ensures forall h :: h in hs ==> h.prefix in InstallAll(t, hs)
  {
    if hs != [] {
      var init, last := hs[..|hs| - 1], hs[|hs| - 1];
      InstalledRoutes(t, init);
      assert hs == init + [last];
    }
  }

  /** Installing and then removing leaves the first table less our routes. */
  lemma RollbackRestores(t: Table, hs: seq<Handle>)
    ensures RemoveAll(InstallAll(t, hs), hs) == Without(t, hs)
  {
    hide RemoveAll, InstallAll;
    InstalledRoutes(t, hs);
    RemoveAllIsWithout(InstallAll(t, hs), hs);
    assert Without(InstallAll(t, hs), hs) == Without(t, hs);
  }

  /** A multicast route of the user's own out of the same interface is lost. */
  lemma OwnMulticastRouteIsLost()
    ensures var hs := Plan(false, Interface(Some(2), None), 9);
            var t: Table := map[PrefixOf(MULTICAST_V4, 4) := OnLink(2)];
            RemoveAll(InstallAll(t, hs), hs) == map[]
  {
    hide RemoveAll, InstallAll;
    var hs := Plan(false, Interface(Some(2), None), 9);
    var t: Table := map[PrefixOf(MULTICAST_V4, 4) := OnLink(2)];
    RollbackRestores(t, hs);
    assert hs[0] == Handle(PrefixOf(MULTICAST_V4, 4), 2);
    assert Without(t, hs) == map[];
  }

  // ---- Losing the interface ----

  /** The kernel drops the routes of an interface that goes away. */
  function Destroy(t: Table, dev: nat): Table { map p | p in t && t[p].dev != dev :: t[p] }

  lemma {:induction false} InstallAllConcat(t: Table, xs: seq<Handle>, ys: seq<Handle>)
    ensures InstallAll(t, xs + ys) == InstallAll(InstallAll(t, xs), ys)
  {
    if ys == [] {
      assert xs + ys == xs;
    } else {
      var init := ys[..|ys| - 1];
      assert (xs + ys)[..|xs + ys| - 1] == xs + init;
      InstallAllConcat(t, xs, init);
    }
  }

  /** After a hard kill, which runs no teardown, exactly the group routes stay behind. */
  lemma HardKillLeavesGroups(t: Table, ipv6: bool, iface: Interface, tun: nat)
    requires forall p :: p in t ==> t[p].dev != tun
    requires iface.v4 != Some(tun) && iface.v6 != Some(tun)
    ensures Destroy(InstallAll(t, Plan(ipv6, iface, tun)), tun) == InstallAll(t, Groups(ipv6, iface))
  {
    hide InstallAll, PrefixOf;
    var groups, splits := Groups(ipv6, iface), Splits(ipv6, tun);
    var middle := InstallAll(t, groups);
    InstallAllConcat(t, groups, splits);
    InstalledRoutes(t, groups);
    InstalledRoutes(middle, splits);
    assert forall h :: h in groups ==> h.dev != tun;
    assert forall h :: h in splits ==> h.dev == tun;
    assert Destroy(InstallAll(middle, splits), tun) == middle;
  }

  /** So a hard kill leaves no trace exactly when each group network already had a route. */
  lemma HardKillRestoresExactly(t: Table, ipv6: bool, iface: Interface, tun: nat)
    requires forall p :: p in t ==> t[p].dev != tun
    requires iface.v4 != Some(tun) && iface.v6 != Some(tun)
    ensures Destroy(InstallAll(t, Plan(ipv6, iface, tun)), tun) == t
       <==> forall h :: h in Groups(ipv6, iface) ==> h.prefix in t
  {
    hide InstallAll, PrefixOf, Groups, Plan;
    HardKillLeavesGroups(t, ipv6, iface, tun);
    InstalledRoutes(t, Groups(ipv6, iface));
    if forall h :: h in Groups(ipv6, iface) ==> h.prefix in t {
      assert InstallAll(t, Groups(ipv6, iface)) == t;
    }
  }

  // ---- Longest-prefix routing ----

  datatype Hop = Hop(len: nat, dev: nat)

  /** The route of the longest network of length `n` or less that holds `ip`. */
  function LookupFrom(t: Table, ip: IpAddr, n: nat): Option<Hop>
    requires n <= Width(ip)
  {
    if PrefixOf(ip, n) in t then Some(Hop(n, t[PrefixOf(ip, n)].dev))
    else if n == 0 then None
    else LookupFrom(t, ip, n - 1)
  }

  function Lookup(t: Table, ip: IpAddr): Option<Hop> { LookupFrom(t, ip, Width(ip)) }

  /** `hop` is what longest-prefix routing among networks of length `n` or less must find. */
  ghost predicate IsLongest(t: Table, ip: IpAddr, n: nat, hop: Option<Hop>) {
    if hop.None? then forall q :: q in t && Covers(q, ip) ==> q.len > n
    else
      && (exists p :: p in t && Covers(p, ip) && p.len == hop.value.len <= n && t[p].dev == hop.value.dev)
      && forall q :: q in t && Covers(q, ip) && q.len <= n ==> q.len <= hop.value.len
  }

  lemma {:induction false} LookupFromIsLongest(t: Table, ip: IpAddr, n: nat)
    requires n <= Width(ip)
    ensures IsLongest(t, ip, n, LookupFrom(t, ip, n))
  {
    hide PrefixOf;
    PrefixLength(ip, n);
    if PrefixOf(ip, n) in t {
      assert Covers(PrefixOf(ip, n), ip);
    } else if n > 0 {
      LookupFromIsLongest(t, ip, n - 1);
    }
  }

  /** The route used covers the address, and no longer one does; there is none only if nothing covers it. */
  lemma LookupIsLongest(t: Table, ip: IpAddr)
    ensures IsLongest(t, ip, Width(ip), Lookup(t, ip))
  {
    LookupFromIsLongest(t, ip, Width(ip));
  }

  lemma PrefixLength(ip: IpAddr, n: nat)
    requires n <= Width(ip)
    ensures PrefixOf(ip, n).len == n
  {
  }

  /** The longer of two routes, the first when they are equally long. */
  function Better(x: Option<Hop>, y: Option<Hop>): Option<Hop> {
    if x.None? || (y.Some? && y.value.len > x.value.len) then y else x
  }

  /** What one installed route would offer an address. */
  function Offer(h: Handle, ip: IpAddr): Option<Hop> {
    if Covers(h.prefix, ip) then Some(Hop(h.prefix.len, h.dev)) else None
  }

  function BestOffer(hs: seq<Handle>, ip: IpAddr): Option<Hop> {
    if hs == [] then None else Better(BestOffer(hs[..|hs| - 1], ip), Offer(hs[|hs| - 1], ip))
  }

  lemma {:induction false} InstallLookup(t: Table, h: Handle, ip: IpAddr, n: nat)
    requires n <= Width(ip)
    ensures LookupFrom(Install(t, h), ip, n)
         == if Covers(h.prefix, ip) && h.prefix.len <= n then Better(LookupFrom(t, ip, n), Offer(h, ip))
            else LookupFrom(t, ip, n)
  {
    hide PrefixOf;
    PrefixLength(ip, n);
    LookupFromIsLongest(t, ip, n);
    if n > 0 {
      InstallLookup(t, h, ip, n - 1);
    }
  }

  lemma {:induction false} InstallAllLookup(t: Table, hs: seq<Handle>, ip: IpAddr)
    ensures Lookup(InstallAll(t, hs), ip) == Better(Lookup(t, ip), BestOffer(hs, ip))
  {
    hide LookupFrom, Covers;
    if hs != [] {
      var init, last := hs[..|hs| - 1], hs[|hs| - 1];
      InstallAllLookup(t, init, ip);
      InstallLookup(InstallAll(t, init), last, ip, Width(ip));
      CoversLength(last.prefix, ip);
    }
  }

  lemma CoversLength(p: Prefix, ip: IpAddr)
    ensures Covers(p, ip) ==> p.len <= Width(ip)
  {
  }

  lemma {:induction false} BestOfferConcat(xs: seq<Handle>, ys: seq<Handle>, ip: IpAddr)
    ensures BestOffer(xs + ys, ip) == Better(BestOffer(xs, ip), BestOffer(ys, ip))
  {
    hide Offer;
    if ys == [] {
      assert xs + ys == xs;
    } else {
      var init := ys[..|ys| - 1];
      assert (xs + ys)[..|xs + ys| - 1] == xs + init;
      BestOfferConcat(xs, init, ip);
    }
  }

  // ---- Capture ----

  lemma {:induction false} LeadingOctet(s: seq<Byte>)
    requires s != []
    ensures 0 <= BigEndian(s) - s[0] * Pow2(8 * (|s| - 1)) < Pow2(8 * (|s| - 1))
  {
    var n := |s| - 1;
    if n == 0 {
      assert s[..0] == [];
    } else {
      LeadingOctet(s[..n]);
      var m := Pow2(8 * (n - 1));
      Pow2Add(8 * (n - 1), 8);
      assert Pow2(8) == 256;
      var low := BigEndian(s[..n]) - s[0] * m;
      Shifted(s[0], m, low, s[n]);
    }
  }

  lemma Shifted(top: Byte, m: nat, low: int, last: Byte)
    requires 0 <= low < m
    ensures 0 <= (top * m + low) * 256 + last - top * (m * 256) < m * 256
  {
  }

  /** Networks of up to eight bits are told apart by the leading octet. */
  lemma LeadingBits(ip: IpAddr, k: nat)
    requires k <= 8
    ensures k <= Width(ip) && PrefixOf(ip, k) == Prefix(ip.V6?, k, Shift(Octets(ip)[0], 8 - k))
  {
    hide BigEndian, Pow2;
    var s := Octets(ip);
    var n := 8 * (|s| - 1);
    LeadingOctet(s);
    var x, m := BigEndian(s), Pow2(n);
    DivUnique(x, m, s[0], x - s[0] * m);
    Pow2Add(n, 8 - k);
    DivByProduct(x, m, Pow2(8 - k));
  }

  lemma SmallPowers()
    ensures Pow2(0) == 1 && Pow2(4) == 16 && Pow2(7) == 128
  {
    assert Pow2(2) == 4;
    assert Pow2(4) == 16;
    assert Pow2(6) == 64;
  }

  /** The multicast networks hold exactly the multicast addresses, and the two halves split each family. */
  lemma NetworksByOctet(ip: IpAddr)
    ensures Covers(PrefixOf(MULTICAST_V4, 4), ip) <==> ip.V4? && 224 <= Octets(ip)[0] <= 239
    ensures Covers(PrefixOf(MULTICAST_V6, 8), ip) <==> ip.V6? && Octets(ip)[0] == 255
    ensures Covers(PrefixOf(LOW_V4, 1), ip) <==> ip.V4? && Octets(ip)[0] < 128
    ensures Covers(PrefixOf(HIGH_V4, 1), ip) <==> ip.V4? && Octets(ip)[0] >= 128
    ensures Covers(PrefixOf(LOW_V6, 1), ip) <==> ip.V6? && Octets(ip)[0] < 128
    ensures Covers(PrefixOf(HIGH_V6, 1), ip) <==> ip.V6? && Octets(ip)[0] >= 128
  {
    hide PrefixOf, Pow2;
    SmallPowers();
    LeadingBits(ip, 1);
    LeadingBits(ip, 4);
    LeadingBits(ip, 8);
    LeadingBits(MULTICAST_V4, 4);
    LeadingBits(MULTICAST_V6, 8);
    LeadingBits(LOW_V4, 1);
    LeadingBits(HIGH_V4, 1);
    LeadingBits(LOW_V6, 1);
    LeadingBits(HIGH_V6, 1);
  }

  /** The route that is ours for an address: out of the physical interface for a multicast address it can
      carry, into the tunnel for any other of a family the tunnel serves. */
  function Ours(ipv6: bool, iface: Interface, tun: nat, ip: IpAddr): Option<Hop> {
    match ip
    case V4(o) => if iface.v4.Some? && 224 <= o[0] <= 239 then Some(Hop(4, iface.v4.value)) else Some(Hop(1, tun))
    case V6(o) =>
      if !ipv6 then None
      else if iface.v6.Some? && o[0] == 255 then Some(Hop(8, iface.v6.value))
      else Some(Hop(1, tun))
  }

  /** For every earlier table: an address keeps any route at least as long as ours and otherwise takes ours.
      So it is drawn into the tunnel exactly when no network but the default one held it before. */
  lemma Capture(t: Table, ipv6: bool, iface: Interface, tun: nat, ip: IpAddr)
    ensures Lookup(InstallAll(t, Plan(ipv6, iface, tun)), ip) == Better(Lookup(t, ip), Ours(ipv6, iface, tun, ip))
  {
    hide InstallAll, Lookup, Groups, Splits, BestOffer;
    InstallAllLookup(t, Plan(ipv6, iface, tun), ip);
    BestOfferConcat(Groups(ipv6, iface), Splits(ipv6, tun), ip);
    GroupOffer(ipv6, iface, ip);
    SplitOffer(ipv6, tun, ip);
  }

  /** A served address is drawn into the tunnel exactly when it is not multicast sent out of the physical
      interface and no network but the default one held it before. */
  lemma CapturedExactly(t: Table, ipv6: bool, iface: Interface, tun: nat, ip: IpAddr)
    requires forall p :: p in t ==> t[p].dev != tun
    requires iface.v4 != Some(tun) && iface.v6 != Some(tun) && (ip.V4? || ipv6)
    ensures var after := Lookup(InstallAll(t, Plan(ipv6, iface, tun)), ip);
            (after.Some? && after.value.dev == tun) <==>
            Ours(ipv6, iface, tun, ip) == Some(Hop(1, tun)) && (Lookup(t, ip).None? || Lookup(t, ip).value.len == 0)
  {
    hide InstallAll, Lookup, Plan, PrefixOf;
    Capture(t, ipv6, iface, tun, ip);
    LookupIsLongest(t, ip);
  }

  lemma Pair(x: Handle, y: Handle, ip: IpAddr)
    ensures BestOffer([x], ip) == Offer(x, ip) && BestOffer([x, y], ip) == Better(Offer(x, ip), Offer(y, ip))
  {
    assert [x, y][..1] == [x] && [x][..0] == [];
  }

  lemma GroupOffer(ipv6: bool, iface: Interface, ip: IpAddr)
    ensures BestOffer(Groups(ipv6, iface), ip)
         == if ip.V4? && iface.v4.Some? && 224 <= Octets(ip)[0] <= 239 then Some(Hop(4, iface.v4.value))
            else if ip.V6? && ipv6 && iface.v6.Some? && Octets(ip)[0] == 255 then Some(Hop(8, iface.v6.value))
            else None
  {
    hide PrefixOf, Covers, BestOffer;
    NetworksByOctet(ip);
    BestOfferConcat(GroupV4(iface), GroupV6(ipv6, iface), ip);
    PrefixLength(MULTICAST_V4, 4);
    PrefixLength(MULTICAST_V6, 8);
    NoOffer(ip);
    forall h: Handle ensures BestOffer([h], ip) == Offer(h, ip) {
      Pair(h, h, ip);
    }
  }

  lemma NoOffer(ip: IpAddr)
    ensures BestOffer([], ip) == None
  {
  }

  lemma SplitOffer(ipv6: bool, tun: nat, ip: IpAddr)
    ensures BestOffer(Splits(ipv6, tun), ip) == if ip.V4? || ipv6 then Some(Hop(1, tun)) else None
  {
    hide PrefixOf, Covers, BestOffer;
    NetworksByOctet(ip);
    var v4, v6 := SplitV4(tun), SplitV6(true, tun);
    BestOfferConcat(SplitV4(tun), SplitV6(ipv6, tun), ip);
    PrefixLength(LOW_V4, 1);
    PrefixLength(HIGH_V4, 1);
    PrefixLength(LOW_V6, 1);
    PrefixLength(HIGH_V6, 1);
    NoOffer(ip);
    Pair(v4[0], v4[1], ip);
    Pair(v6[0], v6[1], ip);
  }

  // ---- The adapter ----

  class Kernel {
    var table: Table

    constructor (table: Table)
      ensures this.table == table
    {
      this.table := table;
    }

    /** A route that already exists counts as added. */
    method AddRoute(dev: nat, dest: IpAddr, len: nat, fails: bool) returns (handle: Option<Handle>)
      requires len <= Width(dest)
      modifies this
      ensures handle == if fails then None else Some(Handle(PrefixOf(dest, len), dev))
      ensures table == if fails then old(table) else Install(old(table), Handle(PrefixOf(dest, len), dev))
    {
      var prefix := PrefixOf(dest, len);
      if fails {
        return None;
      }
      if prefix !in table {
        table := table[prefix := OnLink(dev)];
      }
      return Some(Handle(prefix, dev));
    }

    method LoseInterface(dev: nat)
      modifies this
      ensures table == Destroy(old(table), dev)
    {
      table := map p | p in table && table[p].dev != dev :: table[p];
    }

    /** A route that is already gone counts as removed. */
    method DeleteRoute(h: Handle)
      modifies this
      ensures table == Remove(old(table), h)
    {
      if h.prefix in table && table[h.prefix] == OnLink(h.dev) {
        table := table - {h.prefix};
      }
    }
  }

  class Adapter {
    /** The device this one drives; `tun` is the index the kernel gave it. */
    const kernel: Kernel
    const tun: nat
    var routes: seq<Handle>

    constructor (kernel: Kernel, tun: nat)
      ensures this.kernel == kernel && this.tun == tun && routes == []
    {
      this.kernel, this.tun, routes := kernel, tun, [];
    }

    method InstallRoute(dev: nat, dest: IpAddr, len: nat, fails: bool) returns (ok: bool)
      requires len <= Width(dest)
      modifies this, kernel
      ensures ok == !fails
      ensures ok ==> routes == old(routes) + [Handle(PrefixOf(dest, len), dev)]
                     && kernel.table == Install(old(kernel.table), Handle(PrefixOf(dest, len), dev))
      ensures !ok ==> routes == old(routes) && kernel.table == old(kernel.table)
    {
      var handle := kernel.AddRoute(dev, dest, len, fails);
      if handle.None? {
        return false;
      }
      routes := routes + [handle.value];
      return true;
    }

    /** Takes our routes out, whatever else the table holds by now; a second time it does nothing. */
    method RemoveRoutes()
      modifies this, kernel
      ensures routes == [] && kernel.table == Without(old(kernel.table), old(routes))
      ensures old(routes) == [] ==> kernel.table == old(kernel.table)
    {
      hide Without;
      RemoveAllIsWithout(kernel.table, routes);
      var drained := routes;
      routes := [];
      var n := |drained|;
      assert drained[..n] == drained;
      while n > 0
        invariant 0 <= n <= |drained| && routes == []
        invariant RemoveAll(old(kernel.table), drained) == RemoveAll(kernel.table, drained[..n])
      {
        n := n - 1;
        assert drained[..n + 1][..n] == drained[..n];
        kernel.DeleteRoute(drained[n]);
      }
    }

    /** Closing the device also takes out whatever still points at it. */
    method Drop()
      modifies this, kernel
      ensures routes == [] && kernel.table == Destroy(Without(old(kernel.table), old(routes)), tun)
    {
      RemoveRoutes();
      kernel.LoseInterface(tun);
    }

    /** So far the plan was followed. */
    ghost predicate Follows(before: Table, plan: seq<Handle>)
      reads this, kernel
    {
      routes <= plan && kernel.table == InstallAll(before, routes)
    }

    /** Installs the next route of the plan. */
    method InstallNext(dev: nat, dest: IpAddr, len: nat, fails: bool, ghost before: Table, ghost plan: seq<Handle>)
      returns (ok: bool)
      requires Follows(before, plan) && len <= Width(dest)
      requires |routes| < |plan| && plan[|routes|] == Handle(PrefixOf(dest, len), dev)
      modifies this, kernel
      ensures Follows(before, plan) && ok == !fails
      ensures |routes| == old(|routes|) + if ok then 1 else 0
    {
      hide PrefixOf, InstallAll;
      NextInstalled(before, plan, |routes|);
      assert routes == plan[..|routes|];
      ok := InstallRoute(dev, dest, len, fails);
    }

    /** Installs everything in order, stopping at the first failure. */
    method Setup(ipv6: bool, iface: Interface, faults: set<nat>) returns (ok: bool)
      requires routes == []
      modifies this, kernel
      ensures Follows(old(kernel.table), Plan(ipv6, iface, tun))
      ensures forall i :: 0 <= i < |routes| ==> i !in faults
      ensures if ok then routes == Plan(ipv6, iface, tun) else |routes| < |Plan(ipv6, iface, tun)| && |routes| in faults
    {
      hide PrefixOf, InstallAll, Plan;
      ghost var plan := Plan(ipv6, iface, tun);
      ghost var before := kernel.table;
      NoneInstalled(before);
      PlanInOrder(ipv6, iface, tun);
      if iface.v4.Some? {
        ok := InstallNext(iface.v4.value, MULTICAST_V4, 4, |routes| in faults, before, plan);
        if !ok {
          return;
        }
      }
      if ipv6 && iface.v6.Some? {
        ok := InstallNext(iface.v6.value, MULTICAST_V6, 8, |routes| in faults, before, plan);
        if !ok {
          return;
        }
      }
      ghost var base := |routes|;
      var halves := [LOW_V4, HIGH_V4];
      for i := 0 to 2
        invariant |routes| == base + i && Follows(before, plan)
        invariant forall j :: 0 <= j < |routes| ==> j !in faults
      {
        ok := InstallNext(tun, halves[i], 1, |routes| in faults, before, plan);
        if !ok {
          return;
        }
      }
      if ipv6 {
        halves := [LOW_V6, HIGH_V6];
        for i := 0 to 2
          invariant |routes| == base + 2 + i && Follows(before, plan)
          invariant forall j :: 0 <= j < |routes| ==> j !in faults
        {
          ok := InstallNext(tun, halves[i], 1, |routes| in faults, before, plan);
          if !ok {
            return;
          }
        }
      }
      return true;
    }
  }

  /** Where each route stands in the plan. */
  lemma PlanInOrder(ipv6: bool, iface: Interface, tun: nat)
    ensures var plan := Plan(ipv6, iface, tun);
            var second := if iface.v4.Some? then 1 else 0;
            var third := second + if ipv6 && iface.v6.Some? then 1 else 0;
            && |plan| == third + (if ipv6 then 4 else 2)
            && (iface.v4.Some? ==> plan[0] == Handle(PrefixOf(MULTICAST_V4, 4), iface.v4.value))
            && (ipv6 && iface.v6.Some? ==> plan[second] == Handle(PrefixOf(MULTICAST_V6, 8), iface.v6.value))
            && plan[third] == Handle(PrefixOf(LOW_V4, 1), tun)
            && plan[third + 1] == Handle(PrefixOf(HIGH_V4, 1), tun)
            && (ipv6 ==> plan[third + 2] == Handle(PrefixOf(LOW_V6, 1), tun))
            && (ipv6 ==> plan[third + 3] == Handle(PrefixOf(HIGH_V6, 1), tun))
  {
    hide PrefixOf;
  }

  lemma NoneInstalled(t: Table)
    ensures InstallAll(t, []) == t
  {
  }

  lemma NextInstalled(t: Table, hs: seq<Handle>, n: nat)
    requires n < |hs|
    ensures hs[..n + 1] == hs[..n] + [hs[n]] && InstallAll(t, hs[..n + 1]) == Install(InstallAll(t, hs[..n]), hs[n])
  {
    assert hs[..n + 1][..n] == hs[..n];
  }

  /** Creates the adapter, or fails at any step and leaves the table less whatever of our routes it held.
      `faults` holds the numbers of the route additions that would fail. */
  method Create(kernel: Kernel, ipv6: bool, iface: Interface, tun: nat, setupFails: bool, faults: set<nat>)
    returns (adapter: Option<Adapter>)
    modifies kernel
    ensures adapter.Some? <==> !setupFails && forall i :: 0 <= i < |Plan(ipv6, iface, tun)| ==> i !in faults
    ensures adapter.Some? ==>
              && fresh(adapter.value) && adapter.value.kernel == kernel && adapter.value.tun == tun
              && adapter.value.routes == Plan(ipv6, iface, tun)
              && kernel.table == InstallAll(old(kernel.table), Plan(ipv6, iface, tun))
    ensures adapter.None? ==>
              exists n: nat :: FirstFault(n, setupFails, faults, |Plan(ipv6, iface, tun)|)
                && kernel.table == Destroy(Without(old(kernel.table), Plan(ipv6, iface, tun)[..n]), tun)
  {
    hide Plan, InstallAll, RemoveAll, Without, Destroy;
    ghost var plan := Plan(ipv6, iface, tun);
    ghost var before := kernel.table;
    var a := new Adapter(kernel, tun);
    if setupFails {
      assert FirstFault(0, setupFails, faults, |plan|) && plan[..0] == [];
      a.Drop();
      return None;
    }
    var ok := a.Setup(ipv6, iface, faults);
    if !ok {
      ghost var n := |a.routes|;
      assert FirstFault(n, setupFails, faults, |plan|) && a.routes == plan[..n];
      RollbackRestores(before, a.routes);
      RemoveAllIsWithout(kernel.table, a.routes);
      a.Drop();
      return None;
    }
    return Some(a);
  }

  /** `n` routes were installed before the first failure. */
  predicate FirstFault(n: nat, setupFails: bool, faults: set<nat>, total: nat) {
    if setupFails then n == 0 else n < total && n in faults && forall i :: 0 <= i < n ==> i !in faults
  }

  /** Up and down again restores the table exactly when no group route just like ours was there. */
  lemma TearDownRestoresExactly(t: Table, ipv6: bool, iface: Interface, tun: nat)
    requires forall p :: p in t ==> t[p].dev != tun
    ensures var plan := Plan(ipv6, iface, tun);
            Destroy(Without(InstallAll(t, plan), plan), tun) == t <==>
            forall h :: h in Groups(ipv6, iface) && h.prefix in t ==> t[h.prefix] != OnLink(h.dev)
  {
    hide InstallAll, RemoveAll, PrefixOf;
    var plan := Plan(ipv6, iface, tun);
    RollbackRestores(t, plan);
    RemoveAllIsWithout(InstallAll(t, plan), plan);
    assert forall h :: h in Splits(ipv6, tun) ==> h.dev == tun;
    assert Destroy(Without(t, plan), tun) == Without(t, Groups(ipv6, iface));
    if h :| h in Groups(ipv6, iface) && h.prefix in t && t[h.prefix] == OnLink(h.dev) {
      assert h.prefix !in Without(t, Groups(ipv6, iface));
    } else {
      assert Without(t, Groups(ipv6, iface)) == t;
    }
  }
}

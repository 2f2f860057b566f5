// Client subnets of WireGuard cores. Two cores may share a subnet exactly, as one
// allocation namespace; otherwise their subnets must not meet.
module WireGuardSubnets {
  import opened Options
  import opened Iteration
  import XrayFallback

  // ---- CIDR blocks ----

  datatype Version = V4 | V6

  function Bits(v: Version): nat {
    if v == V4 then 32 else 128
  }

  function Pow2(n: nat): (p: nat)
    ensures p > 0
  {
    if n == 0 then 1 else 2 * Pow2(n - 1)
  }

  // An address with a prefix length, and the block it lies in.
  datatype Interface = Interface(version: Version, ip: nat, prefix: nat)

  datatype Network = Network(version: Version, base: nat, prefix: nat)

  function Size(n: Network): (size: nat)
    requires n.prefix <= Bits(n.version)
    ensures size > 0
  {
    Pow2(Bits(n.version) - n.prefix)
  }

  // A block starts at a multiple of its size.
  predicate ValidNetwork(n: Network) {
    n.prefix <= Bits(n.version) && n.base % Size(n) == 0
  }

  // Clearing the host bits of an address.
  function Masked(address: nat, size: nat): (base: nat)
    requires size > 0
    ensures base % size == 0
  {
    MultipleOf(address / size, size);
    address / size * size
  }

  function NetworkOf(i: Interface): (n: Network)
    requires i.prefix <= Bits(i.version)
    ensures ValidNetwork(n)
  {
    Network(i.version, Masked(i.ip, Pow2(Bits(i.version) - i.prefix)), i.prefix)
  }

  // Masking the host bits of the address leaves the block's base.
  predicate Contains(n: Network, v: Version, address: nat)
    requires ValidNetwork(n)
  {
    v == n.version && Masked(address, Size(n)) == n.base
  }

  function LastAddress(n: Network): nat
    requires ValidNetwork(n)
  {
    n.base + Size(n) - 1
  }

  // Two networks overlap when an end of one lies in the other.
  predicate Overlaps(s: Network, t: Network)
    requires ValidNetwork(s) && ValidNetwork(t)
  {
    || Contains(s, t.version, t.base) || Contains(s, t.version, LastAddress(t))
    || Contains(t, s.version, s.base) || Contains(t, s.version, LastAddress(s))
  }

  ghost predicate Meet(s: Network, t: Network)
    requires ValidNetwork(s) && ValidNetwork(t)
  {
    exists v, a :: Contains(s, v, a) && Contains(t, v, a)
  }

  ghost predicate Within(s: Network, t: Network)
    requires ValidNetwork(s) && ValidNetwork(t)
  {
    forall v, a :: Contains(s, v, a) ==> Contains(t, v, a)
  }

  // ---- Division ----

  lemma MultipleIsFar(k: int, d: nat)
    ensures k > 0 ==> k * d >= d
    ensures k < 0 ==> k * d + d <= 0
  {
    if k > 0 {
      ProductIsNat(k - 1, d);
      assert (k - 1) * d == k * d - d;
    } else if k < 0 {
      ProductIsNat(-k - 1, d);
      assert (-k - 1) * d == -(k * d) - d;
    }
  }

  lemma ProductIsNat(a: nat, b: nat)
    ensures a * b >= 0
  {
  }

  lemma DivisionIsUnique(y: nat, d: nat, q: nat, r: nat)
    requires d > 0 && r < d && y == q * d + r
    ensures y / d == q && y % d == r
  {
    var p := y / d;
    assert y == p * d + y % d;
    assert (p - q) * d == p * d - q * d;
    MultipleIsFar(p - q, d);
  }

  lemma MultipleOf(q: nat, d: nat)
    requires d > 0
    ensures q * d % d == 0 && q * d / d == q
  {
    DivisionIsUnique(q * d, d, q, 0);
  }

  // Dividing in two steps.
  lemma DivideTwice(y: nat, d: nat, m: nat)
    requires d > 0 && m > 0
    ensures d * m > 0 && y / d / m == y / (d * m)
  {
    ProductPositive(d, m);
    QuotientAndRest(y, d);
    QuotientAndRest(y / d, m);
    QuotientOfQuotient(y, d, m, y / d, y % d, y / d / m, y / d % m);
  }

  lemma QuotientAndRest(y: nat, d: nat)
    requires d > 0
    ensures y == (y / d) * d + y % d && y % d < d
  {
  }

  lemma QuotientOfQuotient(y: nat, d: nat, m: nat, q: nat, r: nat, qq: nat, rr: nat)
    requires d * m > 0 && y == q * d + r && r < d && q == qq * m + rr && rr < m
    ensures y / (d * m) == qq
  {
    RemainderFits(rr, d, m, r);
    Regroup(qq, rr, d, m, r);
    DivisionIsUnique(y, d * m, qq, rr * d + r);
  }

  lemma ProductPositive(d: nat, m: nat)
    requires d > 0 && m > 0
    ensures d * m > 0
  {
  }

  lemma Regroup(qq: nat, rr: nat, d: nat, m: nat, r: nat)
    ensures (qq * m + rr) * d + r == qq * (d * m) + (rr * d + r)
  {
    assert (qq * m + rr) * d == qq * m * d + rr * d;
    assert qq * m * d == qq * (m * d);
  }

  lemma RemainderFits(rr: nat, d: nat, m: nat, r: nat)
    requires rr < m && r < d
    ensures rr * d + r < d * m
  {
    assert d * m == (m - 1 - rr) * d + rr * d + d;
    assert (m - 1 - rr) * d >= 0;
  }

  lemma {:induction false} PowersDivide(small: nat, large: nat)
    requires small <= large
    ensures Pow2(large) == Pow2(small) * Pow2(large - small)
  {
    if small < large {
      PowersDivide(small, large - 1);
      assert Pow2(large - small) == 2 * Pow2(large - 1 - small);
    }
  }

  // ---- Blocks are nested or apart ----

  lemma ContainsAsBlock(n: Network, a: nat)
    requires ValidNetwork(n)
    ensures Contains(n, n.version, a) <==> a / Size(n) == n.base / Size(n)
    ensures Contains(n, n.version, a) <==> n.base <= a <= LastAddress(n)
  {
    BlockBounds(a, n.base, Size(n));
  }

  lemma BlockBounds(a: nat, base: nat, size: nat)
    requires size > 0 && base % size == 0
    ensures Masked(a, size) == base <==> a / size == base / size
    ensures Masked(a, size) == base <==> base <= a < base + size
  {
    var q, p := a / size, base / size;
    assert a == q * size + a % size;
    assert base == p * size;
    MultipleOf(q, size);
    if base <= a < base + size {
      DivisionIsUnique(a, size, p, a - base);
    }
  }

  // An address of both puts the whole smaller block inside the larger.
  lemma MeetingBlocksNest(s: Network, t: Network)
    requires ValidNetwork(s) && ValidNetwork(t) && Meet(s, t) && s.prefix >= t.prefix
    ensures Within(s, t)
  {
    var v, a :| Contains(s, v, a) && Contains(t, v, a);
    var m := Pow2(s.prefix - t.prefix);
    PowersDivide(Bits(s.version) - s.prefix, Bits(s.version) - t.prefix);
    assert Size(t) == Size(s) * m;
    forall w, b | Contains(s, w, b) ensures Contains(t, w, b) {
      ContainsAsBlock(s, a);
      ContainsAsBlock(s, b);
      DivideTwice(a, Size(s), m);
      DivideTwice(b, Size(s), m);
      ContainsAsBlock(t, a);
      ContainsAsBlock(t, b);
    }
  }

  lemma NestedOrApart(s: Network, t: Network)
    requires ValidNetwork(s) && ValidNetwork(t)
    ensures Within(s, t) || Within(t, s) || !Meet(s, t)
  {
    if Meet(s, t) {
      if s.prefix >= t.prefix {
        MeetingBlocksNest(s, t);
      } else {
        assert Meet(t, s);
        MeetingBlocksNest(t, s);
      }
    }
  }

  lemma HoldsItsEnds(n: Network)
    requires ValidNetwork(n)
    ensures Contains(n, n.version, n.base) && Contains(n, n.version, LastAddress(n))
  {
    ContainsAsBlock(n, n.base);
    ContainsAsBlock(n, LastAddress(n));
  }

  // Looking at the ends is enough.
  lemma OverlapsIffMeet(s: Network, t: Network)
    requires ValidNetwork(s) && ValidNetwork(t)
    ensures Overlaps(s, t) <==> Meet(s, t)
  {
    HoldsItsEnds(s);
    HoldsItsEnds(t);
    if Meet(s, t) {
      NestedOrApart(s, t);
    }
  }

  // ---- Cores ----

  datatype CoreType = Xray | WireGuard | SingBox | OpenVpn | L2tp

  // `address` lists the configured interface addresses; None is an unreadable one.
  datatype Core = Core(kind: CoreType, address: seq<Option<Interface>>)

  function WgCoreSubnets(address: seq<Option<Interface>>): (subnets: seq<Network>)
    ensures forall n :: n in subnets ==> ValidNetwork(n)
    ensures forall n :: n in subnets <==> exists i :: 0 <= i < |address| && Reads(address[i], n)
    ensures forall i, j :: 0 <= i < j < |subnets| ==> subnets[i] != subnets[j]
  {
    if address == [] then [] else
    var before, last := WgCoreSubnets(address[..|address|-1]), address[|address|-1];
    if !Readable(last) || NetworkOf(last.value) in before then before
    else before + [NetworkOf(last.value)]
  }

  predicate Reads(entry: Option<Interface>, n: Network) {
    Readable(entry) && NetworkOf(entry.value) == n
  }

  predicate Readable(entry: Option<Interface>) {
    entry.Some? && entry.value.prefix <= Bits(entry.value.version)
  }

  type Cores = map<int, Core>

  // Whether an address lies in the block of an interface: it differs from the
  // interface's own address in host bits only.
  predicate InBlock(i: Interface, v: Version, address: nat) {
    var bits := match v { case V4 => 32 case V6 => 128 };
    v == i.version && i.prefix <= bits && address / Pow2(bits - i.prefix) == i.ip / Pow2(bits - i.prefix)
  }

  // Two interfaces have the same block, or their blocks share no address.
  ghost predicate SameOrApart(i: Interface, j: Interface) {
    || (i.prefix == j.prefix && InBlock(i, j.version, j.ip))
    || forall v, a :: !(InBlock(i, v, a) && InBlock(j, v, a))
  }

  predicate HasBlock(entry: Option<Interface>) {
    entry.Some? && entry.value.prefix <= (match entry.value.version { case V4 => 32 case V6 => 128 })
  }

  lemma InBlockIff(i: Interface, v: Version, address: nat)
    requires HasBlock(Some(i))
    ensures Contains(NetworkOf(i), v, address) <==> InBlock(i, v, address)
  {
    var size := Pow2(Bits(i.version) - i.prefix);
    assert Size(NetworkOf(i)) == size && NetworkOf(i).base == Masked(i.ip, size);
    MaskedEqualIff(address, i.ip, size);
  }

  lemma MaskedEqualIff(a: nat, b: nat, size: nat)
    requires size > 0
    ensures Masked(a, size) == Masked(b, size) <==> a / size == b / size
  {
    EqualMultiples(a / size, b / size, size);
  }

  lemma EqualMultiples(a: nat, b: nat, size: nat)
    requires size > 0
    ensures a * size == b * size <==> a == b
  {
    if a != b {
      assert (a - b) * size == a * size - b * size;
    }
  }

  lemma SameOrApartIff(i: Interface, j: Interface)
    requires HasBlock(Some(i)) && HasBlock(Some(j))
    ensures SameOrApart(i, j) <==> NetworkOf(i) == NetworkOf(j) || !Meet(NetworkOf(i), NetworkOf(j))
  {
    InBlockIff(i, j.version, j.ip);
    forall v, a
      ensures InBlock(i, v, a) && InBlock(j, v, a) <==> Contains(NetworkOf(i), v, a) && Contains(NetworkOf(j), v, a) {
      InBlockIff(i, v, a);
      InBlockIff(j, v, a);
    }
  }

  ghost predicate AllSameOrApart(a: seq<Option<Interface>>, b: seq<Option<Interface>>) {
    forall i, j :: i in a && j in b && HasBlock(i) && HasBlock(j) ==> SameOrApart(i.value, j.value)
  }

  lemma CompatibleIff(a: seq<Option<Interface>>, b: seq<Option<Interface>>)
    ensures Compatible(a, b) <==> AllSameOrApart(a, b)
  {
    forall i, j | i in a && j in b && HasBlock(i) && HasBlock(j)
      ensures NetworkOf(i.value) in WgCoreSubnets(a) && NetworkOf(j.value) in WgCoreSubnets(b)
      ensures SameOrApart(i.value, j.value) <==>
              NetworkOf(i.value) == NetworkOf(j.value) || !Meet(NetworkOf(i.value), NetworkOf(j.value))
    {
      var m :| 0 <= m < |a| && a[m] == i;
      var n :| 0 <= n < |b| && b[n] == j;
      assert Reads(a[m], NetworkOf(i.value)) && Reads(b[n], NetworkOf(j.value));
      SameOrApartIff(i.value, j.value);
    }
    if AllSameOrApart(a, b) {
      forall s, t | s in WgCoreSubnets(a) && t in WgCoreSubnets(b) ensures s == t || !Meet(s, t) {
        var m :| 0 <= m < |a| && Reads(a[m], s);
        var n :| 0 <= n < |b| && Reads(b[n], t);
        assert SameOrApart(a[m].value, b[n].value);
      }
    }
  }

  ghost predicate CompatibleSubnets(a: seq<Network>, b: seq<Network>)
    requires forall n :: n in a + b ==> ValidNetwork(n)
  {
    forall s, t :: s in a && t in b ==> s == t || !Meet(s, t)
  }

  ghost predicate Compatible(a: seq<Option<Interface>>, b: seq<Option<Interface>>) {
    CompatibleSubnets(WgCoreSubnets(a), WgCoreSubnets(b))
  }

  // Subnets of different WireGuard cores are the same or share no address.
  ghost predicate Separated(cores: Cores) {
    forall i, j :: i in cores && j in cores && i != j && cores[i].kind == WireGuard && cores[j].kind == WireGuard ==>
      Compatible(cores[i].address, cores[j].address)
  }

  // The subnets may be given to core `self`, or to a new one.
  ghost predicate Fits(cores: Cores, address: seq<Option<Interface>>, self: Option<int>) {
    && WgCoreSubnets(address) != []
    && forall j :: FitsBeside(cores, address, self, j)
  }

  ghost predicate FitsBeside(cores: Cores, address: seq<Option<Interface>>, self: Option<int>, j: int) {
    j in cores && cores[j].kind == WireGuard && self != Some(j) ==> Compatible(address, cores[j].address)
  }

  // There is an address with a block, and each such block is the same as or apart
  // from those of every other WireGuard core.
  ghost predicate FreeFor(cores: Cores, address: seq<Option<Interface>>, self: Option<int>) {
    && (exists i :: i in address && HasBlock(i))
    && forall c ::
      c in cores && cores[c].kind == WireGuard && self != Some(c) ==> AllSameOrApart(address, cores[c].address)
  }

  lemma FitsIff(cores: Cores, address: seq<Option<Interface>>, self: Option<int>)
    ensures Fits(cores, address, self) <==> FreeFor(cores, address, self)
  {
    forall c | c in cores ensures FitsBeside(cores, address, self, c) <==>
      (cores[c].kind == WireGuard && self != Some(c) ==> AllSameOrApart(address, cores[c].address)) {
      CompatibleIff(address, cores[c].address);
    }
    SomeBlockIff(address);
  }

  lemma SomeBlockIff(address: seq<Option<Interface>>)
    ensures WgCoreSubnets(address) != [] <==> exists i :: i in address && HasBlock(i)
  {
    if i :| i in address && HasBlock(i) {
      var m :| 0 <= m < |address| && address[m] == i;
      assert Reads(address[m], NetworkOf(i.value));
      assert NetworkOf(i.value) in WgCoreSubnets(address);
    }
    if WgCoreSubnets(address) != [] {
      var n := WgCoreSubnets(address)[0];
      assert n in WgCoreSubnets(address);
      var m :| 0 <= m < |address| && Reads(address[m], n);
      assert address[m] in address && HasBlock(address[m]);
    }
  }

  // ---- Requests ----

  // A configuration: its interface addresses, what it holds of an Xray
  // configuration, and the core classes whose remaining checks it passes.
  datatype Configuration = Configuration(address: seq<Option<Interface>>, xray: XrayFallback.Config,
                                         passes: set<CoreType>)

  // A core without a type is taken for an Xray core.
  function UsedKind(kind: Option<CoreType>): CoreType {
    if kind.Some? then kind.value else Xray
  }

  // Whether a core of this kind can be built. An Xray configuration with no
  // inbound for users has nothing left to check.
  predicate ValidAs(c: Configuration, kind: CoreType) {
    match kind
    case Xray => XrayFallback.ValidConfig(c.xray) && (XrayFallback.ServesUsers(c.xray) ==> Xray in c.passes)
    case WireGuard => (forall entry :: entry in c.address ==> Readable(entry)) && WireGuard in c.passes
    case _ => kind in c.passes
  }

  datatype Request =
    | Create(kind: Option<CoreType>, config: Configuration)
    | Modify(id: int, newKind: Option<CoreType>, newConfig: Configuration)
    | Delete(coreId: int)
    | RemoveMany(ids: set<int>)

  datatype Table = Table(cores: Cores, next: int)

  ghost function After(t: Table, r: Request): Table {
    match r
    case Create(kind, config) =>
      if (kind == Some(WireGuard) && !Fits(t.cores, config.address, None)) || !ValidAs(config, UsedKind(kind))
      then t else
      Table(t.cores[t.next := Core(UsedKind(kind), config.address)], t.next + 1)
    case Modify(id, kind, config) =>
      if id !in t.cores || (kind == Some(WireGuard) && !Fits(t.cores, config.address, Some(id)))
         || !ValidAs(config, UsedKind(kind))
      then t else
      t.(cores := t.cores[id := Core(if kind.Some? then kind.value else t.cores[id].kind, config.address)])
    case Delete(id) =>
      if id == 1 || id !in t.cores then t else t.(cores := t.cores - {id})
    case RemoveMany(ids) =>
      if 1 in ids || !(ids <= t.cores.Keys) then t else t.(cores := t.cores - ids)
  }

  // Changing a WireGuard core without naming its type: it stays one, unchecked.
  predicate Undeclared(t: Table, r: Request) {
    r.Modify? && r.id in t.cores && t.cores[r.id].kind == WireGuard && r.newKind.None?
  }

  ghost predicate ValidTable(t: Table) {
    forall id :: id in t.cores ==> id < t.next
  }

  // One core placed among separated ones.
  lemma PlacedIsSeparated(cores: Cores, id: int, core: Core)
    requires Separated(cores)
    ensures Separated(cores[id := core]) <==>
            (core.kind == WireGuard ==> forall j :: FitsBeside(cores, core.address, Some(id), j))
  {
    var after := cores[id := core];
    if core.kind == WireGuard {
      if Separated(after) {
        forall j ensures FitsBeside(cores, core.address, Some(id), j) {
          if j in cores && j != id && cores[j].kind == WireGuard {
            assert Compatible(after[id].address, after[j].address);
          }
        }
      } else if forall j :: FitsBeside(cores, core.address, Some(id), j) {
        forall i, j | i in after && j in after && i != j && after[i].kind == WireGuard && after[j].kind == WireGuard
          ensures Compatible(after[i].address, after[j].address) {
          assert FitsBeside(cores, core.address, Some(id), i) && FitsBeside(cores, core.address, Some(id), j);
          if j == id {
            CompatibleBothWays(core.address, cores[i].address);
          }
        }
      }
    }
  }

  lemma CompatibleBothWays(a: seq<Option<Interface>>, b: seq<Option<Interface>>)
    requires Compatible(a, b)
    ensures Compatible(b, a)
  {
    forall s, t | s in WgCoreSubnets(b) && t in WgCoreSubnets(a) ensures s == t || !Meet(s, t) {
      assert Meet(s, t) ==> Meet(t, s);
    }
  }

  lemma CreateKeepsSeparated(t: Table, kind: Option<CoreType>, config: Configuration)
    requires ValidTable(t) && Separated(t.cores)
    ensures Separated(After(t, Create(kind, config)).cores)
  {
    PlacedIsSeparated(t.cores, t.next, Core(UsedKind(kind), config.address));
    if Fits(t.cores, config.address, None) {
      forall j ensures FitsBeside(t.cores, config.address, Some(t.next), j) {
        assert FitsBeside(t.cores, config.address, None, j);
      }
    }
  }

  lemma ModifyKeepsSeparated(t: Table, id: int, kind: Option<CoreType>, config: Configuration)
    requires Separated(t.cores) && !Undeclared(t, Modify(id, kind, config))
    ensures Separated(After(t, Modify(id, kind, config)).cores)
  {
    if id in t.cores {
      PlacedIsSeparated(t.cores, id, Core(if kind.Some? then kind.value else t.cores[id].kind, config.address));
    }
  }

  lemma FewerCoresSeparated(cores: Cores, gone: set<int>)
    requires Separated(cores)
    ensures Separated(cores - gone)
  {
  }

  // Every declared request keeps the subnets apart.
  lemma DeclaredKeepsSeparated(t: Table, r: Request)
    requires ValidTable(t) && Separated(t.cores) && !Undeclared(t, r)
    ensures ValidTable(After(t, r)) && Separated(After(t, r).cores)
  {
    match r
    case Create(kind, config) => CreateKeepsSeparated(t, kind, config);
    case Modify(id, kind, config) => ModifyKeepsSeparated(t, id, kind, config);
    case Delete(id) => FewerCoresSeparated(t.cores, {id});
    case RemoveMany(ids) => FewerCoresSeparated(t.cores, ids);
  }

  // An undeclared request is validated as an Xray configuration. It is harmless
  // when it is refused for that, or the check it skips would have found no overlap.
  ghost predicate Harmless(t: Table, r: Request) {
    Undeclared(t, r) ==>
      !ValidAs(r.newConfig, Xray) || forall j :: FitsBeside(t.cores, r.newConfig.address, Some(r.id), j)
  }

  lemma UndeclaredKeepsSeparatedIff(t: Table, r: Request)
    requires ValidTable(t) && Separated(t.cores) && Undeclared(t, r)
    ensures Separated(After(t, r).cores) <==> Harmless(t, r)
  {
    PlacedIsSeparated(t.cores, r.id, Core(WireGuard, r.newConfig.address));
  }

  // A plain WireGuard configuration is refused without its type.
  lemma PlainConfigurationIsRefused(t: Table, id: int, config: Configuration)
    requires config.xray.inbounds == []
    ensures !ValidAs(config, Xray) && After(t, Modify(id, None, config)) == t
  {
  }

  function Lone(ip: nat, prefix: nat): seq<Option<Interface>> {
    [Some(Interface(V4, ip, prefix))]
  }

  lemma LoneSubnets(ip: nat, prefix: nat, other: nat, otherPrefix: nat)
    requires prefix <= 32 && otherPrefix <= 32
    ensures var s, t := NetworkOf(Interface(V4, ip, prefix)), NetworkOf(Interface(V4, other, otherPrefix));
      Compatible(Lone(ip, prefix), Lone(other, otherPrefix)) <==> s == t || !Overlaps(s, t)
  {
    var s, t := NetworkOf(Interface(V4, ip, prefix)), NetworkOf(Interface(V4, other, otherPrefix));
    assert Lone(ip, prefix)[..0] == [] && Lone(other, otherPrefix)[..0] == [];
    assert WgCoreSubnets(Lone(ip, prefix)) == [s] && WgCoreSubnets(Lone(other, otherPrefix)) == [t];
    OverlapsIffMeet(s, t);
    assert s in [s] && t in [t];
  }

  const HOME: nat := 0x0A00_0000

  lemma PairIsSeparated(one: seq<Option<Interface>>, two: seq<Option<Interface>>)
    requires Compatible(one, two)
    ensures Separated(map[2 := Core(WireGuard, one), 3 := Core(WireGuard, two)])
  {
    CompatibleBothWays(one, two);
  }

  // An Xray configuration that accepts no users, with interface addresses beside it.
  function Disguised(address: seq<Option<Interface>>): Configuration {
    var inbound := XrayFallback.Inbound(Some("in"), "dokodemo-door", None, Some(XrayFallback.Number(4000)), [], None);
    Configuration(address, XrayFallback.Config([inbound], [Some("direct")], {}, {}), {})
  }

  lemma DisguisedIsXray(address: seq<Option<Interface>>)
    ensures ValidAs(Disguised(address), Xray) && Disguised(address).address == address
  {
    var inbound := Disguised(address).xray.inbounds[0];
    assert XrayFallback.ValidTag(inbound.tag);
    assert !XrayFallback.Eligible(Disguised(address).xray, inbound);
  }

  // 10.0.0.0/32 and 10.0.0.1/32 stand apart until the second core is changed,
  // without a type, to a configuration that passes for Xray and also lists
  // 10.0.0.0/31.
  lemma UndeclaredChangeOverlaps() returns (t: Table, r: Request)
    ensures ValidTable(t) && Separated(t.cores) && Undeclared(t, r) && ValidAs(r.newConfig, Xray) &&
              !Separated(After(t, r).cores)
  {
    HomeSubnets();
    t, r := UncheckedChange(Lone(HOME, 32), Lone(HOME + 1, 32), Lone(HOME, 31));
  }

  lemma HomeSubnets()
    ensures Compatible(Lone(HOME, 32), Lone(HOME + 1, 32))
    ensures !Compatible(Lone(HOME, 31), Lone(HOME, 32))
  {
    assert Pow2(0) == 1 && Pow2(1) == 2;
    LoneSubnets(HOME, 32, HOME + 1, 32);
    LoneSubnets(HOME, 31, HOME, 32);
  }

  lemma UncheckedChange(one: seq<Option<Interface>>, two: seq<Option<Interface>>, both: seq<Option<Interface>>)
    returns (t: Table, r: Request)
    requires Compatible(one, two) && !Compatible(both, one)
    ensures ValidTable(t) && Separated(t.cores) && Undeclared(t, r) && ValidAs(r.newConfig, Xray) &&
              !Separated(After(t, r).cores)
  {
    t, r := Table(map[2 := Core(WireGuard, one), 3 := Core(WireGuard, two)], 4), Modify(3, None, Disguised(both));
    DisguisedIsXray(both);
    PairIsSeparated(one, two);
    assert !FitsBeside(t.cores, both, Some(3), 2);
    UndeclaredKeepsSeparatedIff(t, r);
  }

  ghost function AfterAll(t: Table, rs: seq<Request>): Table {
    if rs == [] then t else After(AfterAll(t, rs[..|rs|-1]), rs[|rs|-1])
  }

  // In every state on the way, the subnets of two WireGuard cores are the same or
  // share no address.
  ghost predicate AlwaysSeparated(t: Table, rs: seq<Request>) {
    Separated(AfterAll(t, rs).cores) && (rs == [] || AlwaysSeparated(t, rs[..|rs|-1]))
  }

  ghost predicate AllHarmless(t: Table, rs: seq<Request>) {
    rs == [] || (AllHarmless(t, rs[..|rs|-1]) && Harmless(AfterAll(t, rs[..|rs|-1]), rs[|rs|-1]))
  }

  lemma {:induction false} TableStaysValid(t: Table, rs: seq<Request>)
    requires ValidTable(t)
    ensures ValidTable(AfterAll(t, rs))
  {
    if rs != [] {
      TableStaysValid(t, rs[..|rs|-1]);
    }
  }

  // A run of requests keeps the subnets apart exactly when every request in it is
  // declared or harmless.
  lemma {:induction false} NamespacesStaySeparate(t: Table, rs: seq<Request>)
    requires ValidTable(t) && Separated(t.cores)
    ensures AlwaysSeparated(t, rs) <==> AllHarmless(t, rs)
  {
    if rs != [] {
      var front, last := rs[..|rs|-1], rs[|rs|-1];
      var before := AfterAll(t, front);
      NamespacesStaySeparate(t, front);
      TableStaysValid(t, front);
      if AlwaysSeparated(t, front) {
        assert Separated(before.cores);
        if Undeclared(before, last) {
          UndeclaredKeepsSeparatedIff(before, last);
        } else {
          DeclaredKeepsSeparated(before, last);
        }
      }
    }
  }

  // Requests are harmless if every change that does not name its type has a
  // configuration without Xray inbounds.
  lemma {:induction false} PlainRequestsAreHarmless(t: Table, rs: seq<Request>)
    requires forall r :: r in rs && r.Modify? && r.newKind.None? ==> r.newConfig.xray.inbounds == []
    ensures AllHarmless(t, rs)
  {
    if rs != [] {
      var front, last := rs[..|rs|-1], rs[|rs|-1];
      assert last in rs && forall r :: r in front ==> r in rs;
      PlainRequestsAreHarmless(t, front);
      if Undeclared(AfterAll(t, front), last) {
        PlainConfigurationIsRefused(AfterAll(t, front), last.id, last.newConfig);
      }
    }
  }

  // ---- The operations ----

  datatype Refusal = BadRequest | Forbidden | NotFound

  class CoreOperation {
    var cores: Cores
    var next: int

    constructor ()
      ensures cores == map[] && next == 1
    {
      cores, next := map[], 1;
    }

    ghost function State(): Table reads this {
      Table(cores, next)
    }

    method ValidateWireguardSubnet(address: seq<Option<Interface>>, excludeCoreId: Option<int>) returns (ok: bool)
      ensures ok == Fits(cores, address, excludeCoreId)
      ensures ok <==> FreeFor(cores, address, excludeCoreId)
    {
      FitsIff(cores, address, excludeCoreId);
      var subnets := WgCoreSubnets(address);
      if subnets == [] {
        return false;
      }
      var wgCores := set j | j in cores && cores[j].kind == WireGuard;
      var order := IterationOrder(wgCores);
      for i := 0 to |order|
        invariant forall j :: j in order[..i] ==> FitsBeside(cores, address, excludeCoreId, j)
      {
        var other := order[i];
        assert other in order;
        if excludeCoreId == Some(other) {
          continue;
        }
        var apart := SubnetsApart(subnets, WgCoreSubnets(cores[other].address));
        if !apart {
          assert !FitsBeside(cores, address, excludeCoreId, other);
          return false;
        }
      }
      assert order[..|order|] == order;
      forall j ensures FitsBeside(cores, address, excludeCoreId, j) {
        assert j in cores && cores[j].kind == WireGuard ==> j in order;
      }
      return true;
    }

    static method SubnetsApart(subnets: seq<Network>, others: seq<Network>) returns (ok: bool)
      requires forall n :: n in subnets + others ==> ValidNetwork(n)
      ensures ok == CompatibleSubnets(subnets, others)
    {
      for i := 0 to |subnets|
        invariant forall s, t :: s in subnets[..i] && t in others ==> s == t || !Meet(s, t)
      {
        for k := 0 to |others|
          invariant forall t :: t in others[..k] ==> subnets[i] == t || !Meet(subnets[i], t)
        {
          assert subnets[i] in subnets + others && others[k] in subnets + others;
          if others[k] == subnets[i] {
            continue;
          }
          OverlapsIffMeet(subnets[i], others[k]);
          if Overlaps(subnets[i], others[k]) {
            assert subnets[i] in subnets && others[k] in others;
            return false;
          }
        }
      }
      return true;
    }

    method CreateCore(kind: Option<CoreType>, config: Configuration) returns (r: Result<int, Refusal>)
      modifies this
      ensures State() == After(old(State()), Create(kind, config))
      ensures r.Ok? <==> State() != old(State())
      ensures r == if r.Ok? then Ok(old(next)) else Err(BadRequest)
      ensures r.Ok? ==> next == old(next) + 1
      ensures r.Ok? ==>
                cores == old(cores)[old(next) := Core(if kind == None then Xray else kind.value, config.address)]
      ensures r.Ok? && kind == Some(WireGuard) ==>
                FreeFor(old(cores), config.address, None) && forall entry :: entry in config.address ==> HasBlock(entry)
    {
      FitsIff(cores, config.address, None);
      if kind == Some(WireGuard) {
        var fits := ValidateWireguardSubnet(config.address, None);
        if !fits {
          return Err(BadRequest);
        }
      }
      if !ValidAs(config, UsedKind(kind)) {
        return Err(BadRequest);
      }
      cores := cores[next := Core(UsedKind(kind), config.address)];
      next := next + 1;
      return Ok(next - 1);
    }

    // Without a type the configuration is checked as Xray, but the stored type stays.
    method ModifyCore(id: int, kind: Option<CoreType>, config: Configuration) returns (r: Result<Core, Refusal>)
      modifies this
      ensures State() == After(old(State()), Modify(id, kind, config))
      ensures r.Ok? ==> id in cores && r.value == cores[id] && r.value.address == config.address
      ensures r.Ok? ==> r.value.kind == if kind == None then old(cores)[id].kind else kind.value
      ensures r.Ok? ==> cores == old(cores)[id := r.value] && next == old(next)
      ensures r.Ok? && kind == Some(WireGuard) ==>
                FreeFor(old(cores), config.address, Some(id)) && forall entry ::
                  entry in config.address ==> HasBlock(entry)
      ensures r.Err? ==> cores == old(cores) && r.error == if id in cores then BadRequest else NotFound
    {
      if id !in cores {
        return Err(NotFound);
      }
      FitsIff(cores, config.address, Some(id));
      if kind == Some(WireGuard) {
        var fits := ValidateWireguardSubnet(config.address, Some(id));
        if !fits {
          return Err(BadRequest);
        }
      }
      if !ValidAs(config, UsedKind(kind)) {
        return Err(BadRequest);
      }
      cores := cores[id := Core(if kind.Some? then kind.value else cores[id].kind, config.address)];
      return Ok(cores[id]);
    }

    method DeleteCore(id: int) returns (r: Result<bool, Refusal>)
      modifies this
      ensures State() == After(old(State()), Delete(id))
      ensures r == if id == 1 then Err(Forbidden) else if id !in old(cores) then Err(NotFound) else Ok(true)
    {
      if id == 1 {
        return Err(Forbidden);
      }
      if id !in cores {
        return Err(NotFound);
      }
      cores := cores - {id};
      return Ok(true);
    }

    method BulkRemoveCores(ids: set<int>) returns (r: Result<int, Refusal>)
      modifies this
      ensures State() == After(old(State()), RemoveMany(ids))
      ensures r == if !(ids <= old(cores).Keys) then Err(NotFound) else if 1 in ids then Err(Forbidden) else Ok(|ids|)
    {
      if !(ids <= cores.Keys) {
        return Err(NotFound);
      }
      if 1 in ids {
        return Err(Forbidden);
      }
      cores := cores - ids;
      return Ok(|ids|);
    }
  }
}

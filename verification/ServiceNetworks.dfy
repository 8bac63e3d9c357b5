/** Kubernetes service networks: which address ranges are accepted and which addresses are reserved. */
module ServiceNetworks {
  import opened Results

  function Pow2(n: nat): (p: nat)
    ensures p >= 1
  {
    if n == 0 then 1 else 2 * Pow2(n - 1)
  }

  const WORD := 0x1_0000_0000_0000_0000
  const V4_SPACE := 0x1_0000_0000
  const V6_SPACE := WORD * WORD

  /** An address as a number; Invalid is the zero address value. */
  datatype Addr = Invalid | V4(n: nat) | V6(n: nat) {
    predicate WellFormed() {
      (V4? ==> n < V4_SPACE) && (V6? ==> n < V6_SPACE)
    }

    function BitLen(): nat {
      if V4? then 32 else if V6? then 128 else 0
    }

    /** The successor; Invalid after the last address of the family. */
    function Next(): Addr {
      match this
      case Invalid => Invalid
      case V4(n) => if n + 1 < V4_SPACE then V4(n + 1) else Invalid
      case V6(n) => if n + 1 < V6_SPACE then V6(n + 1) else Invalid
    }

    /** Shorter families first, then by number. */
    predicate Before(other: Addr) {
      BitLen() < other.BitLen() || (BitLen() == other.BitLen() > 0 && n < other.n)
    }
  }

  datatype Prefix = Prefix(addr: Addr, bits: nat) {
    predicate WellFormed() {
      !addr.Invalid? && addr.WellFormed() && bits <= addr.BitLen()
    }

    /** Number of addresses in the range. */
    function Size(): (s: nat)
      requires bits <= addr.BitLen()
      ensures s >= 1
    {
      Pow2(addr.BitLen() - bits)
    }

    /** The address has no bits beyond the prefix length. */
    predicate Canonical()
      requires WellFormed()
    {
      addr.n % Size() == 0
    }

    predicate Contains(a: Addr)
      requires WellFormed()
    {
      addr.BitLen() == a.BitLen() && a.n / Size() == addr.n / Size()
    }
  }

  // ---- the two-word addition

  /** Sum of two words and a carry, and the carry out. */
  function Add64(x: nat, y: nat, carry: nat): (r: (nat, nat))
    requires x < WORD && y < WORD && carry <= 1
    ensures r.0 < WORD && r.1 <= 1 && r.1 * WORD + r.0 == x + y + carry
  {
    ((x + y + carry) % WORD, (x + y + carry) / WORD)
  }

  /** An IPv4 address in sixteen bytes. */
  const MAPPED := 0xffff_0000_0000

  function As16(a: Addr): (w: (nat, nat))
    requires a.WellFormed() && !a.Invalid?
    ensures w.0 < WORD && w.1 < WORD
    ensures w.0 * WORD + w.1 == if a.V4? then MAPPED + a.n else a.n
  {
    if a.V4? then (0, MAPPED + a.n) else (a.n / WORD, a.n % WORD)
  }

  function Unmap(a: Addr): Addr {
    if a.V6? && MAPPED <= a.n < MAPPED + V4_SPACE then V4(a.n - MAPPED) else a
  }

  /** Adding to the low word and the carry to the high word is addition modulo 2 to the 128th. */
  lemma TwoWordsAdd(hi: nat, lo: nat, offset: nat)
    requires hi < WORD && lo < WORD && offset < WORD
    ensures var (low, carry) := Add64(lo, offset, 0);
            var (high, _) := Add64(hi, 0, carry);
            high * WORD + low == (hi * WORD + lo + offset) % V6_SPACE
  {
    var (low, carry) := Add64(lo, offset, 0);
    var (high, over) := Add64(hi, 0, carry);
    assert hi * WORD + lo + offset == over * V6_SPACE + (high * WORD + low);
    assert high * WORD + low < V6_SPACE;
  }

  const DNS_OFFSET := 65535

  /** The address kept for cluster DNS: in a canonical IPv4 range the last but one, in an IPv6 range the one at
      a fixed offset, nothing when the IPv4 range has fewer than four addresses. */
  ghost function Reserved(p: Prefix): Addr
    requires p.WellFormed()
  {
    if p.addr.V4? then if p.bits > 30 then Invalid else Unmap(V6(MAPPED + p.addr.n + p.Size() - 2))
    else V6((p.addr.n + DNS_OFFSET) % V6_SPACE)
  }

  lemma {:induction false} Pow2Sum(a: nat, b: nat)
    ensures Pow2(a + b) == Pow2(a) * Pow2(b)
  {
    if a > 0 {
      Pow2Sum(a - 1, b);
      assert Pow2(a + b) == 2 * Pow2(a + b - 1);
    }
  }

  lemma {:induction false} Pow2Grows(a: nat, b: nat)
    requires a < b
    ensures 2 * Pow2(a) <= Pow2(b)
    decreases b
  {
    if a + 1 < b {
      Pow2Grows(a, b - 1);
    }
  }

  lemma Pow2Values()
    ensures Pow2(2) == 4 && Pow2(16) == 65536 && Pow2(32) == V4_SPACE
  {
    assert Pow2(8) == 256;
    Pow2Sum(8, 8);
    Pow2Sum(16, 16);
  }

  lemma SmallerRange(p: Prefix, bits: nat)
    requires p.WellFormed() && bits <= p.addr.BitLen()
    ensures p.bits <= bits ==> p.Size() >= Pow2(p.addr.BitLen() - bits)
    ensures p.bits > bits ==> 2 * p.Size() <= Pow2(p.addr.BitLen() - bits)
  {
    if p.bits < bits {
      Pow2Grows(p.addr.BitLen() - bits, p.addr.BitLen() - p.bits);
    } else if p.bits > bits {
      Pow2Grows(p.addr.BitLen() - p.bits, p.addr.BitLen() - bits);
    }
  }

  lemma Scale(a: nat, b: nat, size: nat)
    ensures a <= b ==> a * size <= b * size
  {
  }

  /** A range ends within its family. */
  lemma RangeFits(n: nat, size: nat, rest: nat)
    requires size >= 1 && n % size == 0 && n < size * rest
    ensures n + size <= size * rest
  {
    var q := n / size;
    assert n == q * size;
    Scale(rest, q, size);
    Scale(q + 1, rest, size);
  }

  lemma V4RangeFits(p: Prefix)
    requires p.WellFormed() && p.Canonical() && p.addr.V4?
    ensures p.addr.n + p.Size() <= V4_SPACE
  {
    Pow2Sum(32 - p.bits, p.bits);
    Pow2Values();
    RangeFits(p.addr.n, p.Size(), Pow2(p.bits));
  }

  lemma V4Offset(p: Prefix)
    requires p.WellFormed() && p.addr.V4? && p.bits <= 30
    ensures 4 <= p.Size() <= V4_SPACE
  {
    Pow2Values();
    SmallerRange(p, 30);
    if p.bits > 0 {
      SmallerRange(p, 0);
    }
  }

  lemma WordsGiveReserved(p: Prefix, hi: nat, lo: nat, offset: nat)
    requires p.WellFormed() && (p.addr.V4? ==> p.bits <= 30) && (hi, lo) == As16(p.addr)
    requires offset == if p.addr.V4? then p.Size() - 2 else DNS_OFFSET
    ensures offset < WORD
    ensures var (low, carry) := Add64(lo, offset, 0);
            var (high, _) := Add64(hi, 0, carry);
            Reserved(p) == if p.addr.V4? then Unmap(V6(high * WORD + low)) else V6(high * WORD + low)
  {
    if p.addr.V4? {
      V4Offset(p);
    }
    TwoWordsAdd(hi, lo, offset);
    assert p.addr.V4? ==> (MAPPED + p.addr.n + offset) % V6_SPACE == MAPPED + p.addr.n + offset;
  }

  method CoreDNSAddr(p: Prefix) returns (addr: Addr)
    requires p.WellFormed()
    ensures addr == Reserved(p)
  {
    var offset := DNS_OFFSET;
    if p.addr.V4? {
      var hostBits := 32 - p.bits;
      if hostBits < 2 {
        return Invalid;
      }
      V4Offset(p);
      offset := Pow2(hostBits) - 2;
    }
    var (hi, lo) := As16(p.addr);
    WordsGiveReserved(p, hi, lo, offset);
    var (low, carry) := Add64(lo, offset, 0);
    var (high, _) := Add64(hi, 0, carry);
    addr := V6(high * WORD + low);
    if p.addr.V4? {
      addr := Unmap(addr);
    }
  }

  // ---- acceptance

  datatype Network = Network(prefixes: seq<Prefix>, api: seq<Addr>, dns: seq<Addr>)

  /** 198.18.0.0/15 and fdc6::/108. */
  const DEFAULTS := [Some(Prefix(V4(0xc612_0000), 15)), Some(Prefix(V6(0xfdc6_0000_0000_0000 * WORD), 108))]

  /** A canonical range with room for both reserved addresses. */
  ghost predicate Roomy(p: Prefix) {
    p.WellFormed() && p.Canonical() && p.bits <= if p.addr.V4? then 30 else 112
  }

  /** One canonical IPv4 range, optionally followed by one canonical IPv6 range, both large enough.
      A text that does not parse is None. */
  ghost predicate Acceptable(cidrs: seq<Option<Prefix>>) {
    && 1 <= |cidrs| <= 2
    && (forall i :: 0 <= i < |cidrs| ==> cidrs[i].Some? && Roomy(cidrs[i].value))
    && cidrs[0].value.addr.V4?
    && (|cidrs| == 2 ==> cidrs[1].value.addr.V6?)
  }

  lemma InRange(n: nat, k: nat, size: nat)
    requires size >= 1 && n % size == 0
    ensures (n + k) / size == n / size <==> k < size
  {
    var q := n / size;
    assert n == q * size;
    if k < size {
      assert (n + k) / size == q by {
        assert q * size <= n + k < (q + 1) * size;
        DivBetween(n + k, q, size);
      }
    } else {
      var r := (n + k) / size;
      assert n + k >= (q + 1) * size;
      assert (n + k) < (r + 1) * size;
      Scale(r + 1, q + 1, size);
    }
  }

  lemma DivBetween(x: nat, q: nat, size: nat)
    requires size >= 1 && q * size <= x < (q + 1) * size
    ensures x / size == q
  {
    var r := x / size;
    assert r * size <= x < (r + 1) * size;
    Scale(r + 1, q, size);
    Scale(q + 1, r, size);
  }

  lemma BelowRange(n: nat, m: nat, size: nat)
    requires size >= 1 && n % size == 0 && m < n
    ensures m / size != n / size
  {
    var q := n / size;
    assert n == q * size;
    var r := m / size;
    assert r * size <= m;
    Scale(q, r, size);
  }

  /** The capacity check of the code: the reserved address lies in the range and above the first
      usable one. It passes exactly when the range is large enough. */
  lemma CapacityCheck(p: Prefix)
    requires p.WellFormed() && p.Canonical()
    ensures p.Contains(Reserved(p)) && p.addr.Next().Before(Reserved(p)) <==> Roomy(p)
    ensures Roomy(p) ==> !p.addr.Next().Invalid? && p.Contains(p.addr.Next())
    ensures Roomy(p) ==> Reserved(p).WellFormed()
    ensures Roomy(p) && p.addr.V6? ==> Reserved(p) == V6(p.addr.n + 65535)
  {
    Pow2Values();
    if p.addr.V4? {
      if p.bits <= 30 {
        SmallerRange(p, 30);
        V4RangeFits(p);
        InRange(p.addr.n, p.Size() - 2, p.Size());
        InRange(p.addr.n, 1, p.Size());
      }
    } else {
      V6Capacity(p);
    }
  }

  lemma V6Capacity(p: Prefix)
    requires p.WellFormed() && p.Canonical() && p.addr.V6?
    ensures p.Contains(Reserved(p)) && p.addr.Next().Before(Reserved(p)) <==> p.bits <= 112
    ensures p.bits <= 112 ==> !p.addr.Next().Invalid? && p.Contains(p.addr.Next())
    ensures p.bits <= 112 ==> Reserved(p) == V6(p.addr.n + DNS_OFFSET) && Reserved(p).WellFormed()
  {
    if p.bits <= 112 {
      V6Fits(p);
    } else {
      V6TooSmall(p);
    }
  }

  lemma V6Fits(p: Prefix)
    requires p.WellFormed() && p.Canonical() && p.addr.V6? && p.bits <= 112
    ensures p.Contains(Reserved(p)) && !p.addr.Next().Invalid? && p.Contains(p.addr.Next())
    ensures p.addr.Next().Before(Reserved(p))
    ensures Reserved(p) == V6(p.addr.n + DNS_OFFSET) && Reserved(p).WellFormed()
  {
    V6InSpace(p);
    V6SizeBound(p);
    InRange(p.addr.n, DNS_OFFSET, p.Size());
    InRange(p.addr.n, 1, p.Size());
  }

  lemma V6TooSmall(p: Prefix)
    requires p.WellFormed() && p.Canonical() && p.addr.V6? && p.bits > 112
    ensures !p.Contains(Reserved(p))
  {
    V6InSpace(p);
    V6SizeBound(p);
    if p.addr.n + DNS_OFFSET < V6_SPACE {
      InRange(p.addr.n, DNS_OFFSET, p.Size());
    } else {
      assert (p.addr.n + DNS_OFFSET) % V6_SPACE == p.addr.n + DNS_OFFSET - V6_SPACE;
      BelowRange(p.addr.n, p.addr.n + DNS_OFFSET - V6_SPACE, p.Size());
    }
  }

  /** The whole range lies in the address space. */
  lemma V6InSpace(p: Prefix)
    requires p.WellFormed() && p.Canonical() && p.addr.V6?
    ensures p.addr.n + p.Size() <= V6_SPACE
  {
    V6Space();
    Pow2Sum(128 - p.bits, p.bits);
    RangeFits(p.addr.n, p.Size(), Pow2(p.bits));
  }

  lemma V6SizeBound(p: Prefix)
    requires p.WellFormed() && p.addr.V6?
    ensures if p.bits <= 112 then p.Size() > DNS_OFFSET else p.Size() <= DNS_OFFSET
  {
    Pow2Values();
    SmallerRange(p, 112);
  }

  lemma V6Space()
    ensures Pow2(128) == V6_SPACE
  {
    Pow2Values();
    Pow2Sum(32, 32);
    Pow2Sum(64, 64);
  }

  /** What is reserved in each accepted range. */
  ghost predicate Reserves(p: Prefix, api: Addr, dns: Addr) {
    && p.WellFormed() && p.Contains(api) && p.Contains(dns) && api.Before(dns)
    && api == (if p.addr.V4? then V4(p.addr.n + 1) else V6(p.addr.n + 1))
    && dns == (if p.addr.V4? then V4(p.addr.n + p.Size() - 2) else V6(p.addr.n + 65535))
  }

  /** An IPv4 address from its four bytes. */
  function Bytes4(a: nat, b: nat, c: nat, d: nat): Addr {
    V4(((a * 256 + b) * 256 + c) * 256 + d)
  }

  /** An IPv6 address from its first and last of eight groups, zeros between. */
  function Groups8(first: nat, last: nat): Addr {
    V6(first * 65536 * 65536 * 65536 * 65536 * 65536 * 65536 * 65536 + last)
  }

  /** Without given ranges these are 198.18.0.0/15, with the API at 198.18.0.1 and DNS at 198.19.255.254, and
      fdc6::/108, with the API at fdc6::1 and DNS at fdc6::ffff. */
  ghost predicate IsDefault(n: Network) {
    && n.prefixes == [Prefix(Bytes4(198, 18, 0, 0), 15), Prefix(Groups8(0xfdc6, 0), 108)]
    && n.api == [Bytes4(198, 18, 0, 1), Groups8(0xfdc6, 1)]
    && n.dns == [Bytes4(198, 19, 255, 254), Groups8(0xfdc6, 0xffff)]
  }

  lemma DefaultNetwork(n: Network)
    requires |n.prefixes| == |n.api| == |n.dns| == |DEFAULTS|
    requires forall i :: 0 <= i < |DEFAULTS| ==>
               n.prefixes[i] == DEFAULTS[i].value && Reserves(DEFAULTS[i].value, n.api[i], n.dns[i])
    ensures IsDefault(n)
  {
    var p, q := DEFAULTS[0].value, DEFAULTS[1].value;
    assert Pow2(8) == 256;
    Pow2Sum(8, 9);
    assert Pow2(17) == 0x2_0000;
    assert n.prefixes == [p, q] && n.api == [n.api[0], n.api[1]] && n.dns == [n.dns[0], n.dns[1]];
    assert Reserves(p, n.api[0], n.dns[0]) && Reserves(q, n.api[1], n.dns[1]);
  }

  /** Accepts exactly the acceptable lists, and reserves in each range its second address for the API
      and a higher one for DNS. */
  method ServiceNetworkFromCIDRs(given: seq<Option<Prefix>>) returns (r: Result<Network>)
    requires forall i :: 0 <= i < |given| && given[i].Some? ==> given[i].value.WellFormed()
    ensures var cidrs := if |given| == 0 then DEFAULTS else given;
            && (r.Ok? <==> Acceptable(cidrs))
            && (r.Ok? ==>
                  && |r.value.prefixes| == |r.value.api| == |r.value.dns| == |cidrs|
                  && forall i :: 0 <= i < |cidrs| ==>
                       r.value.prefixes[i] == cidrs[i].value &&
                         Reserves(cidrs[i].value, r.value.api[i], r.value.dns[i]))
    ensures |given| == 0 ==> r.Ok? && IsDefault(r.value)
  {
    var cidrs := given;
    if |cidrs| == 0 {
      cidrs := DEFAULTS;
      DefaultsAreRoomy();
    }
    if |cidrs| > 2 {
      return Err;
    }
    var prefixes, api, dns := [], [], [];
    var seen4, seen6 := false, false;
    for i := 0 to |cidrs|
      invariant |prefixes| == |api| == |dns| == i
      invariant forall k :: 0 <= k < i ==>
                  cidrs[k].Some? && Roomy(cidrs[k].value) && prefixes[k] == cidrs[k].value &&
                  Reserves(cidrs[k].value, api[k], dns[k])
      invariant i > 0 ==> cidrs[0].value.addr.V4?
      invariant seen4 <==> i > 0
      invariant seen6 <==> i > 1
      invariant i > 1 ==> cidrs[1].value.addr.V6?
    {
      if cidrs[i].None? {
        return Err;
      }
      var p := cidrs[i].value;
      if p.addr.n % p.Size() != 0 {
        return Err;
      }
      var is4 := p.addr.V4?;
      if (is4 && seen4) || (!is4 && seen6) {
        return Err;
      }
      if i == 0 && !is4 {
        return Err;
      }
      seen4, seen6 := seen4 || is4, seen6 || !is4;
      var reserved := CoreDNSAddr(p);
      CapacityCheck(p);
      if !p.Contains(reserved) || !p.addr.Next().Before(reserved) {
        return Err;
      }
      prefixes, api, dns := prefixes + [p], api + [p.addr.Next()], dns + [reserved];
    }
    if |given| == 0 {
      DefaultNetwork(Network(prefixes, api, dns));
    }
    return Ok(Network(prefixes, api, dns));
  }

  lemma DefaultsAreRoomy()
    ensures Acceptable(DEFAULTS)
  {
    assert Pow2(8) == 256;
    Pow2Sum(8, 9);
    assert Pow2(17) == 0x2_0000;
    assert Pow2(20) == 0x10_0000 by {
      Pow2Sum(17, 3);
    }
    assert (0xfdc6_0000_0000_0000 * WORD) % 0x10_0000 == 0;
  }

  // ---- subnets inside the VPC

  /** The check on a subnet, both ranges being canonical IPv4 ranges. */
  predicate InsideVPC(vpc: Prefix, subnet: Prefix)
    requires vpc.WellFormed()
  {
    !(subnet.bits < vpc.bits || !vpc.Contains(subnet.addr))
  }

  ghost predicate AllInside(vpc: Prefix, subnet: Prefix)
    requires vpc.WellFormed() && subnet.WellFormed()
  {
    forall a: nat :: subnet.Contains(V4(a)) ==> vpc.Contains(V4(a))
  }

  lemma DivTwice(a: nat, b: nat, small: nat, k: nat)
    requires small >= 1 && k >= 1 && a / small == b / small
    ensures a / (small * k) == b / (small * k)
  {
    var q := a / small;
    var big := small * k;
    var r := q / k;
    assert r * k <= q < (r + 1) * k;
    Scaled(a, q, r, small, k);
    Scaled(b, q, r, small, k);
  }

  lemma Scaled(x: nat, q: nat, r: nat, small: nat, k: nat)
    requires small >= 1 && k >= 1 && x / small == q && r * k <= q < (r + 1) * k
    ensures x / (small * k) == r
  {
    assert q * small <= x < (q + 1) * small;
    Scale(r * k, q, small);
    Scale(q + 1, (r + 1) * k, small);
    Associate(r, k, small);
    Associate(r + 1, k, small);
    DivBetween(x, r, small * k);
  }

  lemma Associate(r: nat, k: nat, small: nat)
    ensures (r * k) * small == r * (small * k)
  {
  }

  /** The check passes exactly when every address of the subnet is an address of the VPC. */
  lemma InsideMeansAllInside(vpc: Prefix, subnet: Prefix)
    requires vpc.WellFormed() && subnet.WellFormed() && vpc.addr.V4? && subnet.addr.V4?
    requires vpc.Canonical() && subnet.Canonical()
    ensures InsideVPC(vpc, subnet) <==> AllInside(vpc, subnet)
  {
    if InsideVPC(vpc, subnet) {
      var k := Pow2(subnet.bits - vpc.bits);
      Pow2Sum(32 - subnet.bits, subnet.bits - vpc.bits);
      assert vpc.Size() == subnet.Size() * k;
      forall a: nat | subnet.Contains(V4(a))
        ensures vpc.Contains(V4(a))
      {
        DivTwice(a, subnet.addr.n, subnet.Size(), k);
      }
    } else if subnet.bits < vpc.bits {
      Pow2Grows(32 - vpc.bits, 32 - subnet.bits);
      var a := subnet.addr.n + vpc.Size();
      InRange(subnet.addr.n, vpc.Size(), subnet.Size());
      assert subnet.Contains(V4(a)) && subnet.Contains(V4(subnet.addr.n));
      if vpc.Contains(V4(subnet.addr.n)) {
        StepOut(subnet.addr.n, vpc.Size());
      }
    } else {
      assert subnet.Contains(V4(subnet.addr.n)) && !vpc.Contains(V4(subnet.addr.n));
    }
  }

  lemma StepOut(n: nat, size: nat)
    requires size >= 1
    ensures (n + size) / size == n / size + 1
  {
    var q := n / size;
    assert q * size <= n < (q + 1) * size;
    assert (q + 1) * size <= n + size < (q + 2) * size;
    DivBetween(n + size, q + 1, size);
  }
}

/** CIDR matching with bit masks (nfm-controller/src/utils/vpc_cidr_checker.rs), for addresses of
    any width: 32 bits for IPv4, 128 for IPv6. */
module Cidr {
  import opened Arith
  import opened SockContextModel

  function Pow2(n: nat): (r: nat)
    ensures r > 0
  {
    if n == 0 then 1 else 2 * Pow2(n - 1)
  }

  /** Bitwise conjunction. */
  function BitAnd(a: nat, b: nat): nat {
    if a == 0 || b == 0 then 0 else 2 * BitAnd(a / 2, b / 2) + (a % 2) * (b % 2)
  }

  /** A left shift inside a register of the given width. */
  function ShiftLeft(x: nat, places: nat, width: nat): nat { (x * Pow2(places)) % Pow2(width) }

  function AllOnes(width: nat): nat { Pow2(width) - 1 }

  /** A parsed block: network number and mask. */
  datatype Block = Block(network: nat, mask: nat)

  function MaskOf(prefix: nat, width: nat): nat
    requires prefix <= width
  {
    if prefix == 0 then 0 else ShiftLeft(AllOnes(width), width - prefix, width)
  }

  function ParseCidr(base: nat, prefix: nat, width: nat): Option<Block> {
    if prefix > width then None
    else Some(Block(BitAnd(base, MaskOf(prefix, width)), MaskOf(prefix, width)))
  }

  predicate Matches(address: nat, b: Block) { BitAnd(address, b.mask) == b.network }

  predicate AnyMatches(address: nat, blocks: seq<Block>) {
    exists i :: 0 <= i < |blocks| && Matches(address, blocks[i])
  }

  datatype VpcCidrChecker = VpcCidrChecker(v4: seq<Block>, v6: seq<Block>)

  /** An address read as a big-endian number. */
  function Number(bytes: seq<Byte>): nat {
    if bytes == [] then 0 else Number(bytes[..|bytes| - 1]) * 256 + bytes[|bytes| - 1]
  }

  predicate IsVpcIp(c: VpcCidrChecker, ip: IpAddr) {
    match ip
    case V4(bits) => AnyMatches(bits, c.v4)
    case V6(octets) => AnyMatches(Number(octets), c.v6)
  }

  // ---------------------------------------------------------------------------------------------
  // The mask test is the prefix definition
  // ---------------------------------------------------------------------------------------------

  /** Both addresses lie in one aligned block of size 2^k (section 3.1 of RFC 4632, section 2.3 of
      RFC 4291). */
  ghost predicate ShareBlock(a: nat, b: nat, k: nat) {
    exists n: nat :: InBlock(a, n, Pow2(k)) && InBlock(b, n, Pow2(k))
  }

  lemma {:induction false} Pow2Mono(k: nat, width: nat)
    requires k <= width
    ensures Pow2(k) <= Pow2(width)
    decreases width
  {
    if k < width {
      Pow2Mono(k, width - 1);
    }
  }

  lemma OnesTimes(all: nat, low: nat)
    requires all > 0 && low > 0
    ensures (all - 1) * low == (low - 1) * all + (all - low)
  {
    assert (all - 1) * low == all * low - low;
    assert (low - 1) * all == low * all - all;
  }

  lemma MaskIsHighBits(prefix: nat, width: nat)
    requires prefix <= width
    ensures Pow2(width - prefix) <= Pow2(width)
    ensures MaskOf(prefix, width) == Pow2(width) - Pow2(width - prefix)
  {
    var low, all := Pow2(width - prefix), Pow2(width);
    Pow2Mono(width - prefix, width);
    if prefix > 0 {
      OnesTimes(all, low);
      ModUnique((all - 1) * low, all, low - 1, all - low);
    }
  }

  lemma ModUnique(x: nat, m: nat, q: nat, r: nat)
    requires m > 0 && x == q * m + r && r < m
    ensures x % m == r
  {
    var d := x / m - q;
    assert x == (x / m) * m + x % m;
    assert (x / m) * m - q * m == d * m;
    assert d >= 1 ==> d * m >= m;
    assert d <= -1 ==> d * m <= -1 * m;
  }

  lemma {:induction false} AndAllOnes(x: nat, width: nat)
    requires x < Pow2(width)
    ensures BitAnd(x, Pow2(width) - 1) == x
  {
    if width > 0 && x > 0 {
      AndAllOnes(x / 2, width - 1);
      assert (Pow2(width) - 1) / 2 == Pow2(width - 1) - 1;
      assert (Pow2(width) - 1) % 2 == 1;
    }
  }

  lemma HalveMod(x: nat, m: nat)
    requires m > 0
    ensures x % (2 * m) == 2 * ((x / 2) % m) + x % 2
  {
    var h, b := x / 2, x % 2;
    var q, r := h / m, h % m;
    assert x == 2 * h + b && h == q * m + r;
    assert 2 * (q * m) == q * (2 * m);
    ModUnique(x, 2 * m, q, 2 * r + b);
  }

  lemma AndEven(x: nat, h: nat, d: nat)
    requires d == 2 * h
    ensures BitAnd(x, d) == 2 * BitAnd(x / 2, h)
  {
    assert d / 2 == h && d % 2 == 0;
    if x != 0 && h != 0 {
      assert BitAnd(x, d) == 2 * BitAnd(x / 2, d / 2) + (x % 2) * (d % 2);
      assert (x % 2) * 0 == 0;
    }
  }

  /** Rounding down commutes with doubling, the last bit aside. */
  lemma DoubleRoundDown(x: nat, m: nat, d: nat)
    requires m > 0 && d == 2 * m
    ensures 2 * (x / 2 - (x / 2) % m) == x - x % d
  {
    HalveMod(x, m);
    assert x == 2 * (x / 2) + x % 2;
  }

  lemma HalfFits(x: nat, width: nat)
    requires width > 0 && x < Pow2(width)
    ensures x / 2 < Pow2(width - 1)
  {
  }

  /** Masking with the high bits rounds down to a multiple of 2^k. */
  lemma {:induction false} AndHighBits(x: nat, k: nat, width: nat)
    requires k <= width && x < Pow2(width)
    ensures Pow2(k) <= Pow2(width)
    ensures BitAnd(x, Pow2(width) - Pow2(k)) == x - x % Pow2(k)
    decreases k, 1
  {
    Pow2Mono(k, width);
    if k == 0 {
      AndAllOnes(x, width);
    } else {
      AndHighBitsStep(x, k, width);
    }
  }

  lemma {:induction false} AndHighBitsStep(x: nat, k: nat, width: nat)
    requires 0 < k <= width && x < Pow2(width)
    ensures Pow2(k) <= Pow2(width)
    ensures BitAnd(x, Pow2(width) - Pow2(k)) == x - x % Pow2(k)
    decreases k, 0
  {
    Pow2Mono(k, width);
    Pow2Mono(k - 1, width - 1);
    HalfFits(x, width);
    AndHighBits(x / 2, k - 1, width - 1);
    AndEven(x, Pow2(width - 1) - Pow2(k - 1), Pow2(width) - Pow2(k));
    DoubleRoundDown(x, Pow2(k - 1), Pow2(k));
  }

  /** `x` lies in the `n`-th block of the given size. */
  ghost predicate InBlock(x: nat, n: nat, size: nat) {
    n * size <= x < (n + 1) * size
  }

  lemma BlockOf(x: nat, size: nat) returns (n: nat)
    requires size > 0
    ensures x - x % size == n * size && InBlock(x, n, size)
  {
    n := x / size;
    assert x == n * size + x % size;
    assert (n + 1) * size == n * size + size;
  }

  lemma BlockIsUnique(x: nat, n: nat, size: nat)
    requires size > 0 && InBlock(x, n, size)
    ensures x - x % size == n * size
  {
    assert (n + 1) * size == n * size + size;
    ModUnique(x, size, n, x - n * size);
  }

  /** Rounding down to the same multiple is lying in the same block. */
  lemma SameMultipleIffShareBlock(a: nat, b: nat, k: nat)
    ensures a - a % Pow2(k) == b - b % Pow2(k) <==> ShareBlock(a, b, k)
  {
    var size := Pow2(k);
    var n := BlockOf(a, size);
    var m := BlockOf(b, size);
    if n * size == m * size {
      SameBlock(n, m, size);
    }
    if j: nat :| InBlock(a, j, size) && InBlock(b, j, size) {
      BlockIsUnique(a, j, size);
      BlockIsUnique(b, j, size);
    }
  }

  lemma SameBlock(n: nat, m: nat, size: nat)
    requires size > 0 && n * size == m * size
    ensures n == m
  {
    assert (n - m) * size == 0;
  }

  /** One parsed block, prefix 0 and bases with host bits set included. */
  lemma MatchesIffShareBlock(address: nat, base: nat, prefix: nat, width: nat)
    requires prefix <= width && address < Pow2(width) && base < Pow2(width)
    ensures Matches(address, ParseCidr(base, prefix, width).value)
       <==> ShareBlock(address, base, width - prefix)
  {
    MaskIsHighBits(prefix, width);
    AndHighBits(address, width - prefix, width);
    AndHighBits(base, width - prefix, width);
    SameMultipleIffShareBlock(address, base, width - prefix);
  }

  /** What a configuration line gives: a base address and a prefix length. */
  datatype Cidr = Cidr(base: nat, prefix: nat)

  /** Some configured block of valid prefix length covers the address. */
  ghost predicate Covered(address: nat, cidrs: seq<Cidr>, width: nat) {
    exists i :: 0 <= i < |cidrs| && cidrs[i].prefix <= width
                && ShareBlock(address, cidrs[i].base, width - cidrs[i].prefix)
  }

  /** The mask test over `blocks` is the prefix definition over `cidrs`. */
  ghost predicate Represents(blocks: seq<Block>, cidrs: seq<Cidr>, width: nat) {
    forall address: nat :: address < Pow2(width) ==>
      (AnyMatches(address, blocks) <==> Covered(address, cidrs, width))
  }

  /** The loop over the configured lines, which keeps the well-formed ones. */
  method ParseAll(cidrs: seq<Cidr>, width: nat) returns (blocks: seq<Block>)
    requires forall i :: 0 <= i < |cidrs| ==> cidrs[i].base < Pow2(width)
    ensures Represents(blocks, cidrs, width)
  {
    blocks := [];
    ghost var from: seq<nat> := [];
    for n := 0 to |cidrs|
      invariant |from| == |blocks|
      invariant forall j :: 0 <= j < |from| ==>
        && from[j] < n && cidrs[from[j]].prefix <= width
        && Some(blocks[j]) == ParseCidr(cidrs[from[j]].base, cidrs[from[j]].prefix, width)
      invariant forall i :: 0 <= i < n && cidrs[i].prefix <= width ==> i in from
    {
      var parsed := ParseCidr(cidrs[n].base, cidrs[n].prefix, width);
      if parsed.Some? {
        blocks := blocks + [parsed.value];
        from := from + [n];
      }
    }
    forall address: nat | address < Pow2(width)
      ensures AnyMatches(address, blocks) <==> Covered(address, cidrs, width)
    {
      forall i | 0 <= i < |cidrs| && cidrs[i].prefix <= width
        ensures Matches(address, ParseCidr(cidrs[i].base, cidrs[i].prefix, width).value)
           <==> ShareBlock(address, cidrs[i].base, width - cidrs[i].prefix)
      {
        MatchesIffShareBlock(address, cidrs[i].base, cidrs[i].prefix, width);
      }
      if j :| 0 <= j < |blocks| && Matches(address, blocks[j]) {
        assert ShareBlock(address, cidrs[from[j]].base, width - cidrs[from[j]].prefix);
      }
      if i :| 0 <= i < |cidrs| && cidrs[i].prefix <= width
              && ShareBlock(address, cidrs[i].base, width - cidrs[i].prefix) {
        var j :| 0 <= j < |from| && from[j] == i;
        assert Matches(address, blocks[j]);
      }
    }
  }

  lemma {:induction false} NumberInRange(bytes: seq<Byte>)
    ensures Number(bytes) < Pow2(8 * |bytes|)
  {
    if bytes != [] {
      NumberInRange(bytes[..|bytes| - 1]);
      Pow2Eight(8 * |bytes| - 8);
    }
  }

  /** The bytes are read most significant first. */
  lemma {:induction false} NumberIsBigEndian(bytes: seq<Byte>, i: nat)
    requires i < |bytes|
    ensures (Number(bytes) / Pow2(8 * (|bytes| - 1 - i))) % 256 == bytes[i]
  {
    var n := |bytes| - 1;
    var high, last := Number(bytes[..n]), bytes[n];
    if i == n {
      assert Number(bytes) / Pow2(0) == high * 256 + last;
    } else {
      NumberIsBigEndian(bytes[..n], i);
      var p := Pow2(8 * (n - 1 - i));
      Pow2Eight(8 * (n - 1 - i));
      DropLastByte(high, last, p);
    }
  }

  lemma Pow2Eight(n: nat)
    ensures Pow2(n + 8) == 256 * Pow2(n)
  {
    assert Pow2(n + 8) == 2 * Pow2(n + 7) == 4 * Pow2(n + 6) == 8 * Pow2(n + 5) == 16 * Pow2(n + 4);
    assert Pow2(n + 4) == 2 * Pow2(n + 3) == 4 * Pow2(n + 2) == 8 * Pow2(n + 1) == 16 * Pow2(n);
  }

  lemma DropLastByte(high: nat, last: nat, p: nat)
    requires p > 0 && last < 256
    ensures (high * 256 + last) / (256 * p) == high / p
  {
    var q, r := high / p, high % p;
    assert high == q * p + r;
    assert high * 256 + last == q * (256 * p) + (r * 256 + last);
    DivUnique(high * 256 + last, 256 * p, q, r * 256 + last);
  }

  lemma DivUnique(x: nat, m: nat, q: nat, r: nat)
    requires m > 0 && x == q * m + r && r < m
    ensures x / m == q
  {
    var d := x / m - q;
    assert x == (x / m) * m + x % m;
    assert (x / m) * m - q * m == d * m;
    assert d >= 1 ==> d * m >= m;
    assert d <= -1 ==> d * m <= -1 * m;
  }

  /** An address passes for a VPC address exactly when a configured block of its family covers it. */
  lemma IsVpcIpIffCovered(c: VpcCidrChecker, cidrs4: seq<Cidr>, cidrs6: seq<Cidr>, ip: IpAddr)
    requires Represents(c.v4, cidrs4, 32) && Represents(c.v6, cidrs6, 128)
    requires ip.V4? ==> ip.bits < Pow2(32)
    ensures ip.V4? ==> (IsVpcIp(c, ip) <==> Covered(ip.bits, cidrs4, 32))
    ensures ip.V6? ==> (IsVpcIp(c, ip) <==> Covered(Number(ip.octets), cidrs6, 128))
  {
    if ip.V6? {
      NumberInRange(ip.octets);
    }
  }
}

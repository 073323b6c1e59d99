/** The activity's NetworkScanner task: for each interface address equal to
    the WiFi address it packs the address, masks it to the subnet base,
    probes every address of the subnet in turn, sends each reachable one to
    the renderer while fewer than MAX_HOSTS have been sent, and reports
    progress every mask / 64 addresses. */
module NetworkScanner {
  import opened JavaInt
  import opened JavaText

  /** The scan sends at most this many hosts: the renderer's offset store
      holds two floats per host in 256 floats. */
  const MAX_HOSTS: int := 128
  /** A full scan of mask addresses reports progress every mask / 64. */
  const PROGRESS_STEPS: int := 64

  // ------------------------------------------------------------------
  // Packing the address (the loop over octets 1 .. 3)

  /** The address text split on '.': at least four pieces, and pieces 1 .. 3
      are numerals of byte values. */
  predicate ByteOctets(octets: seq<string>)
  {
    |octets| >= 4 &&
    forall i :: 1 <= i < 4 ==> IsNumeral(octets[i]) && ParseDecimal(octets[i]) < 256
  }

  /** addrNum after rounds 1 .. count of the packing loop. */
  function Packed(octets: seq<string>, count: nat): int
    requires ByteOctets(octets) && count <= 3
  {
    if count == 0 then 0
    else Wrap(Packed(octets, count - 1) + Shl(ParseDecimal(octets[count]), 8 * (3 - count)))
  }

  /** addrNum += parseInt(octets[i]) << 8 * (3 - i) for i = 1 .. 3. */
  method PackAddress(octets: seq<string>) returns (addrNum: int)
    requires ByteOctets(octets)
    ensures addrNum == Packed(octets, 3)
    ensures addrNum == ParseDecimal(octets[1]) * 0x1_0000 + ParseDecimal(octets[2]) * 0x100 + ParseDecimal(octets[3])
  {
    addrNum := 0;
    var i := 1;
    while i < 4
      invariant 1 <= i <= 4 && addrNum == Packed(octets, i - 1)
    {
      addrNum := Wrap(addrNum + Shl(ParseDecimal(octets[i]), 8 * (3 - i)));
      i := i + 1;
    }
    PackedValue(octets);
  }

  /** The packing puts octets 1 .. 3 big-endian into the low 24 bits. */
  lemma PackedValue(octets: seq<string>)
    requires ByteOctets(octets)
    ensures Packed(octets, 3) == ParseDecimal(octets[1]) * 0x1_0000 + ParseDecimal(octets[2]) * 0x100 + ParseDecimal(octets[3])
    ensures 0 <= Packed(octets, 3) < 0x100_0000
  {
    var o1, o2, o3 := ParseDecimal(octets[1]), ParseDecimal(octets[2]), ParseDecimal(octets[3]);
    ShlByte(o1, 16);
    ShlByte(o2, 8);
    ShlByte(o3, 0);
    PackRound(octets, 1, 0, o1 * 0x1_0000);
    PackRound(octets, 2, o1 * 0x1_0000, o2 * 0x100);
    PackRound(octets, 3, o1 * 0x1_0000 + o2 * 0x100, o3);
  }

  /** A round of the packing adds its term without wrapping while the sum
      stays below 2^24. */
  lemma PackRound(octets: seq<string>, count: nat, acc: int, term: int)
    requires ByteOctets(octets) && 1 <= count <= 3
    requires Packed(octets, count - 1) == acc && Shl(ParseDecimal(octets[count]), 8 * (3 - count)) == term
    requires 0 <= acc && 0 <= term && acc + term < 0x100_0000
    ensures Packed(octets, count) == acc + term
  {
    WrapIdentity(acc + term);
  }

  /** A byte shifted left by at most 16 bits does not wrap. */
  lemma ShlByte(x: int, s: int)
    requires 0 <= x < 256 && (s == 0 || s == 8 || s == 16)
    ensures s == 0 ==> Shl(x, s) == x
    ensures s == 8 ==> Shl(x, s) == x * 0x100
    ensures s == 16 ==> Shl(x, s) == x * 0x1_0000
  {
    Pow2Values();
    assert Pow2(0) == 1;
    WrapIdentity(x * Pow2(s));
  }

  /** The three bytes the scan prints for b: (b >> 16) & 0xff, (b >> 8) & 0xff
      and b & 0xff. */
  lemma ByteFields(x: int, y: int, z: int)
    requires 0 <= x < 256 && 0 <= y < 256 && 0 <= z < 256
    ensures var b := x * 0x1_0000 + y * 0x100 + z;
      LowByte(Shr(b, 16)) == x && LowByte(Shr(b, 8)) == y && LowByte(b) == z
  {
    var b := x * 0x1_0000 + y * 0x100 + z;
    ShrByWholeBytes(b);
    DivModUnique(b, 0x1_0000, x, y * 0x100 + z);
    DivModUnique(b, 0x100, x * 0x100 + y, z);
    DivModUnique(x * 0x100 + y, 0x100, x, y);
    DivModUnique(x, 0x100, 0, x);
  }

  /** A 24-bit number is the three bytes the scan prints for it. */
  lemma FieldsOfBytes(b: int)
    requires 0 <= b < 0x100_0000
    ensures b == LowByte(Shr(b, 16)) * 0x1_0000 + LowByte(Shr(b, 8)) * 0x100 + LowByte(b)
  {
    ShrByWholeBytes(b);
    UnsignedBytes(b);
    DivModUnique(b, 0x100_0000, 0, b);
  }

  // ------------------------------------------------------------------
  // The mask and the subnet base

  /** mask = 1 << (32 - netPrefix). */
  function Mask(prefix: int): int
  {
    Shl(1, 32 - prefix)
  }

  /** The shift count is taken modulo 32, so the mask is a power of two up
      to 2^30, or Integer.MIN_VALUE when the count is 31; either way mask - 1
      is not negative. */
  lemma MaskValues(prefix: int)
    ensures var s := (32 - prefix) % 32;
      Mask(prefix) == (if s == 31 then INT_MIN else Pow2(s))
    ensures Wrap(Mask(prefix) - 1) >= 0 && Mask(prefix) <= 0x4000_0000
  {
    ShlOne(32 - prefix);
    var k := (32 - prefix) % 32;
    if k == 31 {
      MaskMinusOne(INT_MIN);
    } else {
      MaskMinusOne(Pow2(k));
    }
  }

  /** mask - 1 for such a mask. */
  lemma MaskMinusOne(m: int)
    requires m == INT_MIN || 1 <= m <= 0x4000_0000
    ensures Wrap(m - 1) >= 0
  {
    if m == INT_MIN {
      WrapBelow(m - 1);
    } else {
      WrapIdentity(m - 1);
    }
  }

  /** For the prefix lengths of an IPv4 interface address: a prefix of 0
      gives a mask of 1, a prefix of 1 gives Integer.MIN_VALUE, and the
      others 2^(32 - prefix). */
  lemma MaskOfPrefix(prefix: int)
    requires 0 <= prefix <= 32
    ensures prefix == 0 ==> Mask(prefix) == 1
    ensures prefix == 1 ==> Mask(prefix) == INT_MIN
    ensures 2 <= prefix ==> Mask(prefix) == Pow2(32 - prefix)
  {
    var s := (32 - prefix) % 32;
    if prefix == 0 {
      assert s == 0;
    } else if prefix >= 2 {
      assert s == 32 - prefix;
    }
    ShlOne(32 - prefix);
  }

  /** base = addrNum & (Integer.MAX_VALUE ^ (mask - 1)). */
  function Base(addrNum: nat, mask: int): nat
    requires Wrap(mask - 1) >= 0
  {
    BitAnd(addrNum, BitXor(INT_MAX, Wrap(mask - 1)))
  }

  /** For a mask 2^s with s <= 30 the base is addrNum with its low s bits
      cleared: a multiple of the mask, with addrNum inside [base, base + mask).
      For a prefix of 1 (mask Integer.MIN_VALUE) the base is 0. */
  lemma BaseBounds(addrNum: nat, prefix: int)
    requires addrNum <= INT_MAX
    ensures var m := Mask(prefix);
      Wrap(m - 1) >= 0 &&
      (m > 0 ==> Base(addrNum, m) == addrNum - addrNum % m && Base(addrNum, m) % m == 0 &&
                 Base(addrNum, m) <= addrNum < Base(addrNum, m) + m) &&
      (m < 0 ==> Base(addrNum, m) == 0)
  {
    MaskValues(prefix);
    var s := (32 - prefix) % 32;
    if s == 31 {
      BaseOfMin(addrNum);
    } else {
      BaseBoundsPow2(addrNum, s);
    }
  }

  /** BaseBounds for a mask 2^s. */
  lemma BaseBoundsPow2(addrNum: nat, s: nat)
    requires addrNum <= INT_MAX && s <= 30
    ensures var m := Pow2(s);
      Wrap(m - 1) >= 0 && Base(addrNum, m) == addrNum - addrNum % m && Base(addrNum, m) % m == 0 &&
      Base(addrNum, m) <= addrNum < Base(addrNum, m) + m
  {
    BaseOfPow2(addrNum, s);
    LowBitsMod(addrNum, s);
    RoundDown(addrNum, Pow2(s));
  }

  /** Masking with 2^31 - 2^s clears the low s bits. */
  lemma BaseOfPow2(addrNum: nat, s: nat)
    requires addrNum <= INT_MAX && s <= 30
    ensures Wrap(Pow2(s) - 1) >= 0 && Base(addrNum, Pow2(s)) == addrNum - LowBits(addrNum, s)
  {
    Pow2Fits(s);
    WrapIdentity(Pow2(s) - 1);
    HighOnes(s);
    ClearLowBits(addrNum, s);
  }

  /** Integer.MAX_VALUE ^ (2^s - 1) has bits s .. 30 set. */
  lemma HighOnes(s: nat)
    requires s <= 30
    ensures Pow2(s) <= INT_MAX && BitXor(INT_MAX, Pow2(s) - 1) == INT_MAX + 1 - Pow2(s)
  {
    Pow2Values();
    Pow2Monotone(s, 30);
    XorLowOnes(31, s);
  }

  /** And with bits s .. 30 set rounds a non-negative int down to a multiple
      of 2^s. */
  lemma ClearLowBits(x: nat, s: nat)
    requires x <= INT_MAX && s <= 30
    ensures Pow2(s) <= INT_MAX && BitAnd(x, INT_MAX + 1 - Pow2(s)) == x - LowBits(x, s)
  {
    Pow2Values();
    Pow2Monotone(s, 30);
    AndClearLow(x, 31, s, Pow2(31) - Pow2(s));
  }

  /** x rounded down to a multiple of m. */
  lemma RoundDown(x: nat, m: int)
    requires m > 0
    ensures (x - x % m) % m == 0 && x - x % m <= x < x - x % m + m
  {
    DivMod(x, m);
    DivModUnique(x - x % m, m, x / m, 0);
  }

  /** With mask Integer.MIN_VALUE, mask - 1 wraps to Integer.MAX_VALUE and
      the xor clears every bit. */
  lemma BaseOfMin(addrNum: nat)
    ensures Wrap(INT_MIN - 1) >= 0 && Base(addrNum, INT_MIN) == 0
  {
    WrapBelow(INT_MIN - 1);
    Pow2Values();
    XorLowOnes(31, 31);
  }

  // ------------------------------------------------------------------
  // Progress cadence

  /** How often publishProgress has fired after the given number of
      iterations of the scan loop, which fires it when i equals the counter
      and then moves the counter on by interval. */
  function Ticks(interval: int, iterations: nat): nat
  {
    if iterations == 0 || interval < 0 then 0
    else if interval == 0 then 1
    else (iterations - 1) / interval
  }

  /** Iteration i fires exactly when i equals interval * (ticks so far + 1),
      the counter after that many firings. */
  lemma TicksStep(interval: int, i: nat)
    ensures Ticks(interval, i + 1) ==
      Ticks(interval, i) + (if i == interval * (Ticks(interval, i) + 1) then 1 else 0)
  {
    if interval > 0 && i > 0 {
      var t := (i - 1) / interval;
      DivMod(i - 1, interval);
      if i == interval * (t + 1) {
        DivModUnique(i, interval, t + 1, 0);
      } else {
        DivModUnique(i, interval, t, (i - 1) % interval + 1);
      }
    } else if interval > 0 {
      DivModUnique(0, interval, 0, 0);
    }
  }

  /** A quotient below q when the dividend is below q times the divisor. */
  lemma DivBelow(a: nat, p: int, q: int)
    requires p > 0 && a < q * p
    ensures a / p < q
  {
    DivMod(a, p);
  }

  /** For a mask 2^k (k <= 30) and at most mask iterations progress fires at
      most 63 times, exactly 63 times over a full scan of at least 64
      addresses, and at most once when the mask is below 64. */
  lemma TicksBound(k: nat, iterations: nat)
    requires k <= 30 && iterations <= Pow2(k)
    ensures var n := Ticks(Div(Pow2(k), PROGRESS_STEPS), iterations);
      n <= 63 && (k < 6 ==> n <= 1) && (k >= 6 && iterations == Pow2(k) ==> n == 63)
  {
    var m := Pow2(k);
    var interval := Div(m, PROGRESS_STEPS);
    Pow2Values();
    if k < 6 {
      Pow2Monotone(k + 1, 6);
      assert interval == 0;
    } else {
      var p := Pow2(k - 6);
      Pow2Add(k - 6, 6);
      DivModUnique(m, 64, p, 0);
      assert interval == p;
      if iterations > 0 {
        DivBelow(iterations - 1, p, 64);
        if iterations == m {
          DivModUnique(m - 1, p, 63, p - 1);
        }
      }
    }
  }

  // ------------------------------------------------------------------
  // Probing the subnet

  /** What isReachable(50), getHostName and getHostAddress give for an
      address: reachable with its name and address text, unreachable, or an
      IOException that ends the scan of this subnet. */
  datatype Probe = Reachable(hostName: HostText, hostAddress: HostText) | Unreachable | Failed

  /** A host name or address text. A Java string holds at most
      Integer.MAX_VALUE characters; these are taken short enough that the
      "name:addr" built from two of them is a Java string too. */
  type HostText = s: string | |s| < 0x4000_0000

  /** The network as seen from the device: the probe outcome of each
      address text. */
  type Network = string -> Probe

  /** A "name:addr" descriptor: a Java string. */
  type HostDescriptor = s: string | |s| <= INT_MAX

  /** The "name:addr" descriptor the scan sends for a reachable host. */
  function Descriptor(p: Probe): HostDescriptor
    requires p.Reachable?
  {
    p.hostName + ":" + p.hostAddress
  }

  /** "%s.%d.%d.%d" of the first octet and the three low bytes of b. */
  function AddressAt(first: string, b: int): string
  {
    DottedQuad(first, LowByte(Shr(b, 16)), LowByte(Shr(b, 8)), LowByte(b))
  }

  /** The device's own address is the address printed for its packed form. */
  lemma AddressAtPacked(octets: seq<string>)
    requires ByteOctets(octets) && |octets| == 4 && '.' !in octets[0]
    requires forall i :: 1 <= i < 4 ==> octets[i] == Decimal(ParseDecimal(octets[i]))
    ensures AddressAt(octets[0], Packed(octets, 3)) ==
      octets[0] + "." + octets[1] + "." + octets[2] + "." + octets[3]
  {
    PackedValue(octets);
    ByteFields(ParseDecimal(octets[1]), ParseDecimal(octets[2]), ParseDecimal(octets[3]));
  }

  /** Different 24-bit numbers give different address texts. */
  lemma AddressesDistinct(first: string, b: int, b': int)
    requires '.' !in first && 0 <= b < 0x100_0000 && 0 <= b' < 0x100_0000 && b != b'
    ensures AddressAt(first, b) != AddressAt(first, b')
  {
    if AddressAt(first, b) == AddressAt(first, b') {
      DottedQuadInjective(first, LowByte(Shr(b, 16)), LowByte(Shr(b, 8)), LowByte(b),
        LowByte(Shr(b', 16)), LowByte(Shr(b', 8)), LowByte(b'));
      FieldsOfBytes(b);
      FieldsOfBytes(b');
    }
  }

  /** a * m <= b * m for 0 <= a <= b and m > 0. */
  lemma MulMonotone(a: int, b: int, m: int)
    requires 0 <= a <= b && m > 0
    ensures a * m <= b * m
  {
    if a < b {
      MulGrows(b - a, m);
      assert b * m == a * m + (b - a) * m;
    }
  }

  /** For a prefix of 8 .. 32 the subnet of the 24-bit packed address lies
      within 24 bits: base + i does not wrap, and the scan probes distinct
      addresses at distinct offsets. */
  lemma SubnetAddressesDistinct(octets: seq<string>, prefix: int, i: int, j: int)
    requires ByteOctets(octets) && '.' !in octets[0] && 8 <= prefix <= 32
    requires 0 <= i < j < SubnetSize(prefix)
    ensures var base := SubnetBase(octets, prefix);
      Wrap(base + i) == base + i && Wrap(base + j) == base + j &&
      AddressAt(octets[0], Wrap(base + i)) != AddressAt(octets[0], Wrap(base + j))
  {
    var addrNum := Packed(octets, 3);
    PackedValue(octets);
    var base := SubnetBase(octets, prefix);
    assert 0 <= base + i < base + j < 0x100_0000 by {
      MaskValues(prefix);
      BaseBounds(addrNum, prefix);
      MaskOfPrefix(prefix);
      SubnetWithin(addrNum, 32 - prefix);
    }
    WrapIdentity(base + i);
    WrapIdentity(base + j);
    AddressesDistinct(octets[0], base + i, base + j);
  }

  /** Rounding a 24-bit number down to a multiple of 2^s (s <= 24) leaves a
      whole block of 2^s below 2^24. */
  lemma SubnetWithin(x: nat, s: nat)
    requires x < 0x100_0000 && s <= 24
    ensures x - x % Pow2(s) + Pow2(s) <= 0x100_0000
  {
    var m := Pow2(s);
    var p := Pow2(24 - s);
    assert p * m == 0x100_0000 by {
      Pow2Add(24 - s, s);
      Pow2Values();
    }
    BlockBelow(x, m, p);
  }

  /** Rounding down to a multiple of m below p * m leaves room for a whole
      block of m below p * m. */
  lemma BlockBelow(x: nat, m: int, p: int)
    requires m > 0 && x < p * m
    ensures x - x % m + m <= p * m
  {
    var q := x / m;
    DivMod(x, m);
    DivBelow(x, m, p);
    MulMonotone(q + 1, p, m);
    assert (q + 1) * m == q * m + m;
  }

  /** The probe outcomes of the first count addresses of the subnet at base,
      in the order the loop visits them; base + i wraps like a Java int. */
  function Probes(net: Network, first: string, base: int, count: nat): (r: seq<Probe>)
    ensures |r| == count
  {
    seq(count, i requires 0 <= i < count => net(AddressAt(first, Wrap(base + i))))
  }

  /** The iterations the loop runs over these outcomes: all of them, or up to
      and including the first failed probe. */
  function Completed(outs: seq<Probe>): (n: nat)
    ensures n <= |outs|
    ensures forall j :: 0 <= j < n - 1 ==> !outs[j].Failed?
    ensures n == |outs| || (n > 0 && outs[n - 1].Failed?)
  {
    if outs == [] then 0
    else if outs[0].Failed? then 1
    else 1 + Completed(outs[1..])
  }

  /** The descriptors of the reachable outcomes among the first k, in
      order. */
  function Found(outs: seq<Probe>, k: nat): (r: seq<HostDescriptor>)
    requires k <= |outs|
    ensures |r| <= k
  {
    if k == 0 then [] else Found(outs, k - 1) + Sent(outs[k - 1])
  }

  /** The descriptor a probe outcome sends, if any. */
  function Sent(p: Probe): (r: seq<HostDescriptor>)
    ensures |r| <= 1
  {
    if p.Reachable? then [Descriptor(p)] else []
  }

  /** A failed probe after i successful ones ends the loop after i + 1
      iterations. */
  lemma CompletedAt(outs: seq<Probe>, i: nat)
    requires i < |outs| && outs[i].Failed?
    requires forall j :: 0 <= j < i ==> !outs[j].Failed?
    ensures Completed(outs) == i + 1
  {
  }

  /** The descriptors found are exactly those of the reachable outcomes. */
  lemma {:induction false} FoundMembers(outs: seq<Probe>, k: nat, d: string)
    requires k <= |outs|
    ensures d in Found(outs, k) <==>
      exists j :: 0 <= j < k && outs[j].Reachable? && d == Descriptor(outs[j])
  {
    if k > 0 {
      FoundMembers(outs, k - 1, d);
    }
  }

  /** The first k elements, or all of them when there are fewer. */
  function Take<T>(s: seq<T>, k: nat): (r: seq<T>)
    ensures |r| <= k && r <= s
    ensures |s| <= k ==> r == s
  {
    if |s| <= k then s else s[..k]
  }

  /** Appending to a capped list appends while the cap is not reached. */
  lemma TakeAppend<T>(s: seq<T>, x: seq<T>, k: nat)
    requires |x| <= 1
    ensures Take(s + x, k) == Take(s, k) + (if |Take(s, k)| < k then x else [])
  {
    if |s| >= k && |s + x| > k {
      assert (s + x)[..k] == s[..k];
    }
  }

  /** The outcomes of one subnet scan, for the address split into octets and
      the interface address's prefix length. */
  function SubnetOutcomes(net: Network, octets: seq<string>, prefix: int): seq<Probe>
    requires ByteOctets(octets)
  {
    Probes(net, octets[0], SubnetBase(octets, prefix), SubnetSize(prefix))
  }

  /** The number of iterations the loop `i < mask` allows. */
  function SubnetSize(prefix: int): nat
  {
    var mask := Mask(prefix);
    if mask > 0 then mask else 0
  }

  /** The base the scan computes for the packed address and the prefix. */
  function SubnetBase(octets: seq<string>, prefix: int): nat
    requires ByteOctets(octets)
  {
    MaskValues(prefix);
    PackedValue(octets);
    Base(Packed(octets, 3), Mask(prefix))
  }

  /** Unless the prefix length is 1, the packed address lies in the subnet
      the scan walks, at offset addrNum - base. */
  lemma OwnOffset(octets: seq<string>, prefix: int)
    requires ByteOctets(octets) && 0 <= prefix <= 32 && prefix != 1
    ensures var i := Packed(octets, 3) - SubnetBase(octets, prefix);
      0 <= i < SubnetSize(prefix) && Wrap(SubnetBase(octets, prefix) + i) == Packed(octets, 3)
  {
    PackedValue(octets);
    MaskOfPrefix(prefix);
    MaskValues(prefix);
    BaseBounds(Packed(octets, 3), prefix);
    WrapIdentity(Packed(octets, 3));
  }

  /** The descriptors one subnet scan finds, before the cap. */
  function SubnetFound(net: Network, octets: seq<string>, prefix: int): seq<HostDescriptor>
    requires ByteOctets(octets)
  {
    var outs := SubnetOutcomes(net, octets, prefix);
    Found(outs, Completed(outs))
  }

  /** The progress reports of one subnet scan. */
  function SubnetTicks(net: Network, octets: seq<string>, prefix: int): nat
    requires ByteOctets(octets)
  {
    Ticks(Div(Mask(prefix), PROGRESS_STEPS), Completed(SubnetOutcomes(net, octets, prefix)))
  }

  /** One subnet scan reports progress at most 63 times. */
  lemma SubnetTicksBound(net: Network, octets: seq<string>, prefix: int)
    requires ByteOctets(octets)
    ensures SubnetTicks(net, octets, prefix) <= 63
  {
    MaskValues(prefix);
    var s := (32 - prefix) % 32;
    var n := Completed(SubnetOutcomes(net, octets, prefix));
    if s < 31 {
      TicksBound(s, n);
    } else {
      assert n == 0;
    }
  }

  /** The scan of lines 164-200 for one matching interface address. The
      scan talks to the renderer through two channels: nativeAddHost, called
      in order from the scanning thread (`added` lists its arguments), and
      publishProgress, which the UI thread turns into nativeProgressUpdate
      later (`reports` counts them). numHosts carries over from earlier
      matches, and `before` names the descriptors found by those. */
  method ScanSubnet(octets: seq<string>, prefix: int, net: Network, numHosts: int, ghost before: seq<HostDescriptor>)
      returns (numHosts': int, added: seq<HostDescriptor>, reports: nat)
    requires ByteOctets(octets)
    requires numHosts == |Take(before, MAX_HOSTS)|
    ensures var after := before + SubnetFound(net, octets, prefix);
      numHosts' == |Take(after, MAX_HOSTS)| &&
      Take(before, MAX_HOSTS) + added == Take(after, MAX_HOSTS)
    ensures reports == SubnetTicks(net, octets, prefix)
  {
    var addrNum := PackAddress(octets);
    MaskValues(prefix);
    var mask := Mask(prefix);
    var base := Base(addrNum, mask);
    numHosts', added, reports := ScanAddresses(octets[0], base, mask, net, numHosts, before);
  }

  /** The loop of lines 179-198 over the mask addresses from base. */
  method ScanAddresses(first: string, base: int, mask: int, net: Network, numHosts: int, ghost before: seq<HostDescriptor>)
      returns (numHosts': int, added: seq<HostDescriptor>, reports: nat)
    requires IsInt(mask) && mask <= 0x4000_0000
    requires numHosts == |Take(before, MAX_HOSTS)|
    ensures var outs := Probes(net, first, base, if mask > 0 then mask else 0);
      var after := before + Found(outs, Completed(outs));
      numHosts' == |Take(after, MAX_HOSTS)| &&
      Take(before, MAX_HOSTS) + added == Take(after, MAX_HOSTS) &&
      reports == Ticks(Div(mask, PROGRESS_STEPS), Completed(outs))
  {
    var interval := Div(mask, PROGRESS_STEPS);
    var counter := interval;
    numHosts', added, reports := numHosts, [], 0;
    ghost var outs := Probes(net, first, base, if mask > 0 then mask else 0);
    ghost var sent := before;
    ghost var n := 0;
    var i := 0;
    while i < mask
      invariant 0 <= i <= |outs| && n == i
      invariant forall j :: 0 <= j < i ==> !outs[j].Failed?
      invariant reports == Ticks(interval, i) && counter == interval * (reports + 1)
      invariant sent == before + Found(outs, i)
      invariant numHosts' == |Take(sent, MAX_HOSTS)| && Take(before, MAX_HOSTS) + added == Take(sent, MAX_HOSTS)
    {
      counter, reports := Progress(interval, mask, i, counter, reports);
      var probe := ProbeNext(net, first, base, i, |outs|);
      if probe.Failed? {
        CompletedAt(outs, i);
        n := i + 1;
        break;
      }
      numHosts', added := Report(probe, numHosts', added, sent, before);
      sent := sent + Sent(probe);
      i := i + 1;
      n := i;
    }
    assert n == Completed(outs) && sent == before + Found(outs, n);
  }

  /** Lines 182-184 and the isReachable call of line 192: the probe of the
      address i places after base. */
  method ProbeNext(net: Network, first: string, base: int, i: int, ghost count: nat) returns (probe: Probe)
    requires 0 <= i < count
    ensures probe == Probes(net, first, base, count)[i]
  {
    var address := AddressAt(first, Wrap(base + i));
    probe := net(address);
  }

  /** The progress check of lines 187-190: a report when i reaches the
      counter, which then moves on by interval without wrapping. */
  method Progress(interval: int, mask: int, i: int, counter: int, reports: nat)
      returns (counter': int, reports': nat)
    requires 0 <= i < mask <= 0x4000_0000 && interval == Div(mask, PROGRESS_STEPS)
    requires reports == Ticks(interval, i) && counter == interval * (reports + 1)
    ensures reports' == Ticks(interval, i + 1) && counter' == interval * (reports' + 1)
  {
    TicksStep(interval, i);
    counter', reports' := counter, reports;
    if i == counter {
      WrapIdentity(counter + interval);
      assert interval * (reports + 2) == interval * (reports + 1) + interval;
      counter' := Wrap(counter + interval);
      reports' := reports + 1;
    }
  }

  /** Lines 192-197: the descriptor of a reachable host goes to the renderer
      while fewer than MAX_HOSTS have gone; `sent` is every descriptor found
      so far, capped or not. */
  method Report(probe: Probe, numHosts: int, added: seq<HostDescriptor>, ghost sent: seq<HostDescriptor>,
                ghost before: seq<HostDescriptor>)
      returns (numHosts': int, added': seq<HostDescriptor>)
    requires numHosts == |Take(sent, MAX_HOSTS)| && Take(before, MAX_HOSTS) + added == Take(sent, MAX_HOSTS)
    ensures var sent' := sent + Sent(probe);
      numHosts' == |Take(sent', MAX_HOSTS)| && Take(before, MAX_HOSTS) + added' == Take(sent', MAX_HOSTS)
  {
    SendStep(sent, probe);
    numHosts', added' := numHosts, added;
    if probe.Reachable? && numHosts < MAX_HOSTS {
      added' := added + [Descriptor(probe)];
      numHosts' := numHosts + 1;
      AppendAssociative(Take(before, MAX_HOSTS), added, Sent(probe));
    }
  }

  lemma AppendAssociative<T>(a: seq<T>, b: seq<T>, c: seq<T>)
    ensures (a + b) + c == a + (b + c)
  {
  }

  /** Sending one more outcome under the cap. */
  lemma SendStep(sent: seq<HostDescriptor>, p: Probe)
    ensures Take(sent + Sent(p), MAX_HOSTS) ==
      Take(sent, MAX_HOSTS) + (if |Take(sent, MAX_HOSTS)| < MAX_HOSTS then Sent(p) else [])
  {
    TakeAppend(sent, Sent(p), MAX_HOSTS);
  }
}

/** The activity's side of a session: onCreate reads the WiFi address,
    sets the renderer's state, and when connected starts the NetworkScanner
    task, whose doInBackground scans the subnet of every interface address
    equal to the WiFi address and whose onPostExecute tells the renderer
    the scan is complete. */
module Activity {
  import opened JavaInt
  import opened JavaText
  import opened TextUtils
  import opened Renderer
  import opened NetworkScanner

  // ------------------------------------------------------------------
  // The WiFi address

  /** The four bytes of the int WifiInfo.getIpAddress returns, first octet
      in the low byte: ip & 0xff, ip >> 8 & 0xff, ip >> 16 & 0xff and
      ip >> 24 & 0xff. */
  function IpBytes(ip: int): (r: seq<int>)
    ensures |r| == 4 && forall j :: 0 <= j < 4 ==> 0 <= r[j] < 256
  {
    [LowByte(ip), LowByte(Shr(ip, 8)), LowByte(Shr(ip, 16)), LowByte(Shr(ip, 24))]
  }

  /** "%d.%d.%d.%d" of those bytes: the address text the scanner is given,
      which splits into the octets the packing loop accepts. */
  function AddressText(ip: int): (r: string)
    ensures ByteOctets(SplitOnDot(r))
  {
    var b := IpBytes(ip);
    QuadOctets(b[0], b[1], b[2], b[3]);
    DottedQuad(Decimal(b[0]), b[1], b[2], b[3])
  }

  /** A dotted quad of byte values splits into byte numerals. */
  lemma QuadOctets(b0: nat, b1: nat, b2: nat, b3: nat)
    requires b1 < 256 && b2 < 256 && b3 < 256
    ensures var o := SplitOnDot(DottedQuad(Decimal(b0), b1, b2, b3));
      |o| == 4 && o[0] == Decimal(b0) && forall j :: 1 <= j < 4 ==> IsNumeral(o[j]) && ParseDecimal(o[j]) < 256
  {
    SplitDottedQuad(Decimal(b0), b1, b2, b3);
    ParseDecimalOfDecimal(b1);
    ParseDecimalOfDecimal(b2);
    ParseDecimalOfDecimal(b3);
  }

  /** Four bytes packed into an int, first in the low byte: how the address
      is laid out in the int that getIpAddress returns. */
  function PackIp(b0: int, b1: int, b2: int, b3: int): int
  {
    Wrap(b0 + b1 * 0x100 + b2 * 0x1_0000 + b3 * 0x100_0000)
  }

  /** The text splits on '.' into four numerals whose values pack back into
      the address. */
  lemma AddressTextRoundTrip(ip: int)
    requires IsInt(ip)
    ensures var o := SplitOnDot(AddressText(ip));
      |o| == 4 && (forall j :: 0 <= j < 4 ==> IsNumeral(o[j])) &&
      PackIp(ParseDecimal(o[0]), ParseDecimal(o[1]), ParseDecimal(o[2]), ParseDecimal(o[3])) == ip
  {
    var b := IpBytes(ip);
    SplitDottedQuad(Decimal(b[0]), b[1], b[2], b[3]);
    ParseDecimalOfDecimal(b[0]);
    ParseDecimalOfDecimal(b[1]);
    ParseDecimalOfDecimal(b[2]);
    ParseDecimalOfDecimal(b[3]);
    IpBytesPack(ip);
  }

  /** Packing the four bytes of an int gives the int back. */
  lemma IpBytesPack(ip: int)
    requires IsInt(ip)
    ensures var b := IpBytes(ip); PackIp(b[0], b[1], b[2], b[3]) == ip
  {
    var u := if ip < 0 then ip + INT_MODULUS else ip;
    var b := IpBytes(ip);
    IpBytesOfUnsigned(ip, u);
    UnsignedBytes(u);
    PackUnsigned(ip, u, b[0], b[1], b[2], b[3]);
  }

  /** Bytes that sum to the unsigned form of ip pack into ip. */
  lemma PackUnsigned(ip: int, u: int, b0: int, b1: int, b2: int, b3: int)
    requires IsInt(ip) && u == (if ip < 0 then ip + INT_MODULUS else ip)
    requires u == b0 + b1 * 0x100 + b2 * 0x1_0000 + b3 * 0x100_0000
    ensures PackIp(b0, b1, b2, b3) == ip
  {
    if ip < 0 {
      WrapAbove(u);
    } else {
      WrapIdentity(u);
    }
  }

  /** The bytes of ip are those of its unsigned form u. */
  lemma IpBytesOfUnsigned(ip: int, u: nat)
    requires IsInt(ip) && u == (if ip < 0 then ip + INT_MODULUS else ip)
    ensures IpBytes(ip) == [u % 0x100, (u / 0x100) % 0x100, (u / 0x1_0000) % 0x100, (u / 0x100_0000) % 0x100]
  {
    ShrByWholeBytes(ip);
    ShiftedByte(ip, u, 1, u);
    ShiftedByte(ip, u, 0x100, u / 0x100);
    ShiftedByte(ip, u, 0x1_0000, u / 0x1_0000);
    ShiftedByte(ip, u, 0x100_0000, u / 0x100_0000);
  }

  /** Shifting ip or its unsigned form u right by log2(m) bits gives the
      same low byte. */
  lemma ShiftedByte(ip: int, u: int, m: int, q: int)
    requires IsInt(ip) && u == (if ip < 0 then ip + INT_MODULUS else ip)
    requires m == 1 || m == 0x100 || m == 0x1_0000 || m == 0x100_0000
    requires q == u / m
    ensures (ip / m) % 0x100 == q % 0x100
  {
    if ip < 0 {
      var k := INT_MODULUS / m;
      assert k % 0x100 == 0 && k * m == INT_MODULUS;
      ShiftDown(ip, u, m, k, q);
    }
  }

  /** ip = u - k * m for a multiple k of 256: dividing by m moves the
      quotient down by k, which leaves its low byte alone. */
  lemma ShiftDown(ip: int, u: nat, m: int, k: int, q: int)
    requires m > 0 && k * m == INT_MODULUS && k % 0x100 == 0
    requires u == ip + INT_MODULUS && q == u / m
    ensures (ip / m) % 0x100 == q % 0x100
  {
    DivMod(u, m);
    assert ip == (q - k) * m + u % m;
    DivModUnique(ip, m, q - k, u % m);
    DivModUnique(q - k, 0x100, q / 0x100 - k / 0x100, q % 0x100);
  }

  /** onCreate's test ip == 0 is the test for the address 0.0.0.0. */
  lemma NotConnectedAddress(ip: int)
    requires IsInt(ip)
    ensures ip == 0 <==> AddressText(ip) == "0.0.0.0"
  {
    assert Decimal(0) == "0";
    assert IpBytes(0) == [0, 0, 0, 0];
    assert AddressText(0) == "0.0.0.0";
    if AddressText(ip) == "0.0.0.0" {
      AddressTextRoundTrip(ip);
      AddressTextRoundTrip(0);
    }
  }

  /** The address text splits into octets the packing loop accepts, and
      joins back from them. */
  lemma AddressOctets(ip: int)
    ensures var o := SplitOnDot(AddressText(ip));
      ByteOctets(o) && |o| == 4 && '.' !in o[0] &&
      (forall j :: 1 <= j < 4 ==> o[j] == Decimal(ParseDecimal(o[j]))) &&
      AddressText(ip) == o[0] + "." + o[1] + "." + o[2] + "." + o[3]
  {
    var b := IpBytes(ip);
    SplitDottedQuad(Decimal(b[0]), b[1], b[2], b[3]);
    ParseDecimalOfDecimal(b[1]);
    ParseDecimalOfDecimal(b[2]);
    ParseDecimalOfDecimal(b[3]);
  }

  // ------------------------------------------------------------------
  // doInBackground

  /** An interface address as the scan sees it: the text after the '/' of
      getAddress().toString(), and getNetworkPrefixLength(). */
  datatype InterfaceAddress = InterfaceAddress(text: string, prefixLength: int)

  /** The descriptors the scans of the matching interface addresses find, in
      order, before the cap. */
  function ScanFound(addresses: seq<InterfaceAddress>, address: string, net: Network): seq<HostDescriptor>
    requires ByteOctets(SplitOnDot(address))
  {
    if addresses == [] then []
    else
      var last := addresses[|addresses| - 1];
      ScanFound(addresses[..|addresses| - 1], address, net) +
        (if last.text == address then SubnetFound(net, SplitOnDot(address), last.prefixLength) else [])
  }

  /** The progress reports of those scans. */
  function ScanTicks(addresses: seq<InterfaceAddress>, address: string, net: Network): nat
    requires ByteOctets(SplitOnDot(address))
  {
    if addresses == [] then 0
    else
      var last := addresses[|addresses| - 1];
      ScanTicks(addresses[..|addresses| - 1], address, net) +
        (if last.text == address then SubnetTicks(net, SplitOnDot(address), last.prefixLength) else 0)
  }

  /** How many interface addresses equal the address. */
  function Matches(addresses: seq<InterfaceAddress>, address: string): (n: nat)
    ensures n <= |addresses|
  {
    if addresses == [] then 0
    else Matches(addresses[..|addresses| - 1], address) + (if addresses[|addresses| - 1].text == address then 1 else 0)
  }

  /** Each matching address reports progress at most 63 times. */
  lemma {:induction false} ScanTicksBound(addresses: seq<InterfaceAddress>, address: string, net: Network)
    requires ByteOctets(SplitOnDot(address))
    ensures ScanTicks(addresses, address, net) <= 63 * Matches(addresses, address)
  {
    if addresses != [] {
      var last := addresses[|addresses| - 1];
      ScanTicksBound(addresses[..|addresses| - 1], address, net);
      SubnetTicksBound(net, SplitOnDot(address), last.prefixLength);
    }
  }

  /** Without a matching interface address nothing is scanned. */
  lemma {:induction false} NoMatchNoScan(addresses: seq<InterfaceAddress>, address: string, net: Network)
    requires ByteOctets(SplitOnDot(address)) && Matches(addresses, address) == 0
    ensures ScanFound(addresses, address, net) == [] && ScanTicks(addresses, address, net) == 0
  {
    if addresses != [] {
      NoMatchNoScan(addresses[..|addresses| - 1], address, net);
    }
  }

  /** doInBackground of lines 151-208 over the interface addresses in the
      order the enumeration gives them (a SocketException there ends the
      enumeration, as an empty list does). It returns what it sends to the
      renderer: the nativeAddHost arguments, in order, and the number of
      publishProgress calls. */
  method DoInBackground(address: string, addresses: seq<InterfaceAddress>, net: Network)
      returns (added: seq<HostDescriptor>, reports: nat)
    requires ByteOctets(SplitOnDot(address))
    ensures added == Take(ScanFound(addresses, address, net), MAX_HOSTS)
    ensures reports == ScanTicks(addresses, address, net)
  {
    var numHosts := 0;
    added, reports := [], 0;
    ghost var found: seq<HostDescriptor> := [];
    var k := 0;
    while k < |addresses|
      invariant 0 <= k <= |addresses|
      invariant found == ScanFound(addresses[..k], address, net)
      invariant reports == ScanTicks(addresses[..k], address, net)
      invariant numHosts == |Take(found, MAX_HOSTS)| && added == Take(found, MAX_HOSTS)
    {
      var a := addresses[k];
      assert addresses[..k + 1][..k] == addresses[..k];
      if a.text == address {
        var octets := SplitOnDot(a.text);
        var more, subnetReports;
        numHosts, more, subnetReports := ScanSubnet(octets, a.prefixLength, net, numHosts, found);
        added := added + more;
        reports := reports + subnetReports;
        found := found + SubnetFound(net, octets, a.prefixLength);
      }
      k := k + 1;
    }
    assert addresses[..k] == addresses;
  }

  // ------------------------------------------------------------------
  // The session

  /** The nativeAddHost calls, in order. */
  method DeliverHosts(r: WiFiDiscoveryRenderer, added: seq<HostDescriptor>)
    requires r.Valid() && r.HostsMatch()
    modifies r`hosts, r`numDisplayChars, r`received
    ensures r.Valid() && r.HostsMatch()
    ensures r.received == old(r.received) + added
  {
    var k := 0;
    while k < |added|
      invariant 0 <= k <= |added|
      invariant r.Valid() && r.HostsMatch()
      invariant r.received == old(r.received) + added[..k]
    {
      r.AddHost(added[k]);
      PrefixStep(added, k);
      AppendAssociative(old(r.received), added[..k], [added[k]]);
      k := k + 1;
    }
    PrefixWhole(added);
  }

  lemma PrefixStep<T>(s: seq<T>, k: nat)
    requires k < |s|
    ensures s[..k + 1] == s[..k] + [s[k]]
  {
  }

  lemma PrefixWhole<T>(s: seq<T>)
    ensures s[..|s|] == s
  {
  }

  /** onProgressUpdate, once per publishProgress. */
  method DeliverProgress(r: WiFiDiscoveryRenderer, reports: nat)
    modifies r`spinnerSegments
    ensures r.spinnerSegments == old(r.spinnerSegments) + reports
  {
    var k := 0;
    while k < reports
      invariant 0 <= k <= reports
      invariant r.spinnerSegments == old(r.spinnerSegments) + k
    {
      r.PublishProgress();
      k := k + 1;
    }
  }

  /** The NetworkScanner task, from doInBackground to onPostExecute, on a
      renderer that has no hosts yet: its nativeAddHost calls reach the
      renderer in order, the UI thread delivers each publishProgress, and
      the renderer lays out what it received. */
  method RunScanner(r: WiFiDiscoveryRenderer, address: string, addresses: seq<InterfaceAddress>, net: Network)
    requires r.Valid() && r.HostsMatch() && r.received == [] && ByteOctets(SplitOnDot(address))
    modifies r`hosts, r`numDisplayChars, r`received, r`spinnerSegments
    modifies r`numOffsets, r.offsets, r`textVertices, r`textIndices, r`numIndices, r`hostReady
    ensures r.Valid() && r.HostsMatch() && r.hostReady
    ensures r.received == Take(ScanFound(addresses, address, net), MAX_HOSTS) && |r.hosts| <= MAX_HOSTS
    ensures r.spinnerSegments == old(r.spinnerSegments) + ScanTicks(addresses, address, net)
  {
    var added, reports := DoInBackground(address, addresses, net);
    DeliverHosts(r, added);
    DeliverProgress(r, reports);
    assert |r.hosts| == |r.received| <= MAX_HOSTS;
    r.SetScanComplete();
  }

  /** A session up to the end of the scan: the renderer is created, onCreate
      sets the state from the WiFi address ip, and when connected the scan
      of the interface addresses runs to onPostExecute. */
  method Session(atlas: TextureAtlas, generate: VertexGenerator, ip: int,
                 addresses: seq<InterfaceAddress>, net: Network)
      returns (r: WiFiDiscoveryRenderer)
    requires atlas.lineHeight > 0 && QuadPerChar(generate)
    ensures r.Valid() && r.HostsMatch() && r.stateAssigned && |r.hosts| <= MAX_HOSTS
    ensures r.state == (if ip == 0 then NOT_CONNECTED else SCANNING)
    ensures r.hostReady == (ip != 0)
    ensures r.received == (if ip == 0 then [] else Take(ScanFound(addresses, AddressText(ip), net), MAX_HOSTS))
    ensures r.spinnerSegments == 2 + (if ip == 0 then 0 else ScanTicks(addresses, AddressText(ip), net))
    ensures Matches(addresses, AddressText(ip)) <= 1 ==> r.spinnerSegments <= SPINNER_VERTICES
  {
    r := new WiFiDiscoveryRenderer(atlas, generate);
    if ip == 0 {
      r.SetState(NOT_CONNECTED);
    } else {
      r.SetState(SCANNING);
      RunScanner(r, AddressText(ip), addresses, net);
      ScanTicksBound(addresses, AddressText(ip), net);
    }
  }
}

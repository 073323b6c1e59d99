/** One entry of the renderer's host table (WiFiHost) and what AddHost
    computes for it from a "name:addr" descriptor. */
module HostEntry {
  import opened TextUtils
  import opened StripIndices

  /** size_t arithmetic: values are taken modulo 2^64 and npos is 2^64 - 1. */
  const SIZE_T_MODULUS: int := 0x1_0000_0000_0000_0000
  const NPOS: int := SIZE_T_MODULUS - 1

  const HOST_PREFIX := "Host: "
  const IP_PREFIX := "IP Address: "

  /** A host name shorter than this is displayed whole. */
  const DISPLAY_NAME_LIMIT := 9

  const DISPLAY_TEXT_HEIGHT: real := 0.20
  const BOX_TEXT_HEIGHT: real := 0.2
  const BOX_HEIGHT: real := 0.6
  const BORDER_COLOR: real := 0.6
  const HOST_TEXT_SPACING: real := -0.08
  const IP_TEXT_SPACING: real := -0.3

  /** A host of the table. The struct's maxWidth member is never assigned by
      AddHost (it uses a local of that name), so it is not part of the entry. */
  datatype WiFiHost = WiFiHost(
    displayName: seq<char>, hostName: seq<char>, ipAddr: seq<char>,
    displayWidth: real, hostWidth: real, ipWidth: real,
    box: seq<real>, text: seq<real>, textIndices: seq<int>)

  /** std::string::find(c, from): the first position at or after `from`
      holding c, or npos. */
  function FindFrom(s: seq<char>, c: char, from: nat): (p: int)
    requires from <= |s| < NPOS
    ensures p == NPOS || (from <= p < |s| && s[p] == c)
    ensures forall j :: from <= j < |s| && (p == NPOS || j < p) ==> s[j] != c
    decreases |s| - from
  {
    if from == |s| then NPOS
    else if s[from] == c then from
    else FindFrom(s, c, from + 1)
  }

  /** std::string::find(c): the first position of c, or npos. */
  function Find(s: seq<char>, c: char): int
    requires |s| < NPOS
  {
    FindFrom(s, c, 0)
  }

  /** Find in terms of membership. */
  lemma FindSpec(s: seq<char>, c: char)
    requires |s| < NPOS
    ensures c in s ==> 0 <= Find(s, c) < |s| && s[Find(s, c)] == c && c !in s[..Find(s, c)]
    ensures c !in s ==> Find(s, c) == NPOS
  {
    var p := Find(s, c);
    if c in s {
      var k :| 0 <= k < |s| && s[k] == c;
      assert p != NPOS;
    }
  }

  /** std::string::substr(pos, count): at most `count` characters from `pos`
      (pos beyond the end would throw, which never happens here). */
  function Substr(s: seq<char>, pos: int, count: int): seq<char>
    requires 0 <= pos <= |s| && 0 <= count
  {
    s[pos..pos + if count < |s| - pos then count else |s| - pos]
  }

  /** A size_t result: x reduced modulo 2^64, for the range of sums and
      differences of two size_t values. */
  function SizeT(x: int): (r: int)
    requires -SIZE_T_MODULUS < x < 2 * SIZE_T_MODULUS
    ensures 0 <= r < SIZE_T_MODULUS && (r - x) % SIZE_T_MODULUS == 0
  {
    if x < 0 then x + SIZE_T_MODULUS
    else if x < SIZE_T_MODULUS then x
    else x - SIZE_T_MODULUS
  }

  /** Lines 656-657 for a colon position (a real index or npos):
      hostName = substr(0, colonPos), ipAddr = substr(colonPos + 1,
      length - colonPos), both in size_t arithmetic. */
  function SplitAt(d: seq<char>, colonPos: int): (seq<char>, seq<char>)
    requires |d| < NPOS && (colonPos == NPOS || 0 <= colonPos < |d|)
  {
    (Substr(d, 0, colonPos), Substr(d, SizeT(colonPos + 1), SizeT(|d| - colonPos)))
  }

  /** Lines 655-657: split the descriptor at the first ':'. */
  function SplitDescriptor(d: seq<char>): (seq<char>, seq<char>)
    requires |d| < NPOS
  {
    SplitAt(d, Find(d, ':'))
  }

  lemma SplitAtIndex(d: seq<char>, p: int)
    requires |d| < NPOS && 0 <= p < |d|
    ensures SplitAt(d, p).0 == d[..p] && SplitAt(d, p).1 == d[p + 1..]
  {
  }

  lemma SplitAtNpos(d: seq<char>)
    requires |d| < NPOS
    ensures SplitAt(d, NPOS).0 == d && SplitAt(d, NPOS).1 == d
  {
  }

  /** The split at the first ':' gives the text before and after it; without
      a ':' the npos arithmetic wraps (npos + 1 == 0) and both parts are the
      whole descriptor. */
  lemma SplitDescriptorParts(d: seq<char>)
    requires |d| < NPOS
    ensures ':' in d ==>
              SplitDescriptor(d).0 == d[..Find(d, ':')] && ':' !in SplitDescriptor(d).0 &&
              SplitDescriptor(d).0 + [':'] + SplitDescriptor(d).1 == d
    ensures ':' !in d ==> SplitDescriptor(d).0 == d && SplitDescriptor(d).1 == d
  {
    var p := Find(d, ':');
    FindSpec(d, ':');
    if ':' in d {
      SplitAtIndex(d, p);
      assert d[..p] + [':'] + d[p + 1..] == d;
    } else {
      SplitAtNpos(d);
    }
  }

  /** Lines 658-662: the name shown under a tile. */
  function DisplayName(hostName: seq<char>): (r: seq<char>)
    ensures |r| <= 10
  {
    if |hostName| < DISPLAY_NAME_LIMIT then hostName else hostName[..7] + "..."
  }

  /** A name of at most 8 characters is shown whole; a longer one as its first
      7 characters and an ellipsis. Either way the shown name starts with the
      name's first min(|name|, 7) characters. */
  lemma DisplayNameRule(hostName: seq<char>)
    ensures |hostName| <= 8 ==> DisplayName(hostName) == hostName
    ensures |hostName| > 8 ==> |DisplayName(hostName)| == 10 &&
                               DisplayName(hostName)[..7] == hostName[..7] &&
                               DisplayName(hostName)[7..] == "..."
  {
  }

  function Max(a: real, b: real): real { if a < b then b else a }

  /** Lines 694-707: the detail box, eight (x, y, colour) vertices: four for
      the fill strip, then four for the border loop. */
  function BoxVertices(hostWidth: real, ipWidth: real): seq<real>
  {
    var boxWidth := Max(hostWidth, ipWidth) + 0.2;
    var right := boxWidth / 2.0;
    var left := -boxWidth / 2.0;
    [right, -BOX_HEIGHT, 0.0,  left, -BOX_HEIGHT, 0.0,
     right, 0.0, 0.0,          left, 0.0, 0.0,
     right, -BOX_HEIGHT, BORDER_COLOR,  left, -BOX_HEIGHT, BORDER_COLOR,
     left, 0.0, BORDER_COLOR,           right, 0.0, BORDER_COLOR]
  }

  /** Corner (x, y) of box vertex v. */
  function Corner(box: seq<real>, v: nat): (real, real)
    requires 3 * v + 1 < |box|
  {
    (box[3 * v], box[3 * v + 1])
  }

  /** The box holds 24 floats; every vertex lies on a corner of the rectangle
      x = +-(max(hostWidth, ipWidth) + 0.2)/2, y in {-0.6, 0}; the fill
      vertices have colour 0 and the border vertices 0.6; the border visits
      the corners in cyclic order (each border edge is axis-aligned). */
  lemma BoxShape(hostWidth: real, ipWidth: real)
    ensures var box := BoxVertices(hostWidth, ipWidth);
            var half := (Max(hostWidth, ipWidth) + 0.2) / 2.0;
            |box| == 24 &&
            (forall v :: 0 <= v < 8 ==>
               (box[3 * v] == half || box[3 * v] == -half) &&
               (box[3 * v + 1] == -BOX_HEIGHT || box[3 * v + 1] == 0.0) &&
               box[3 * v + 2] == (if v < 4 then 0.0 else BORDER_COLOR)) &&
            (forall v :: 4 <= v < 8 ==>
               var w := if v == 7 then 4 else v + 1;
               Corner(box, v).0 == Corner(box, w).0 || Corner(box, v).1 == Corner(box, w).1)
  {
  }

  /** Scale of the tile labels and of the detail text: text height / line height. */
  function DisplayScale(atlas: TextureAtlas): real
    requires atlas.lineHeight > 0
  {
    DISPLAY_TEXT_HEIGHT / atlas.lineHeight as real
  }

  function BoxScale(atlas: TextureAtlas): real
    requires atlas.lineHeight > 0
  {
    BOX_TEXT_HEIGHT / atlas.lineHeight as real
  }

  /** Characters of the detail text: "Host: name" and "IP Address: addr". */
  function NumBoxChars(host: WiFiHost): nat
  {
    |host.hostName| + |host.ipAddr|
  }

  /** The entry AddHost appends for descriptor `d`. */
  function MakeHost(d: seq<char>, atlas: TextureAtlas, generate: VertexGenerator): WiFiHost
    requires |d| < NPOS && atlas.lineHeight > 0
  {
    var parts := SplitDescriptor(d);
    var name := parts.0;
    var ip := parts.1;
    var displayName := DisplayName(name);
    var hostName := HOST_PREFIX + name;
    var ipAddr := IP_PREFIX + ip;
    var boxScale := BoxScale(atlas);
    var hostWidth := TextWidth(atlas, hostName, boxScale);
    var ipWidth := TextWidth(atlas, ipAddr, boxScale);
    var x := -1.0 * Max(hostWidth, ipWidth) / 2.0;
    WiFiHost(displayName, hostName, ipAddr,
             TextWidth(atlas, displayName, DisplayScale(atlas)), hostWidth, ipWidth,
             BoxVertices(hostWidth, ipWidth),
             generate(hostName, x, HOST_TEXT_SPACING, boxScale, atlas) +
             generate(ipAddr, x, IP_TEXT_SPACING, boxScale, atlas),
             RestartIndices(|hostName| + |ipAddr|, BYTE_MODULUS))
  }

  /** What an entry holds: the display name is derived from the bare name
      before the prefixes are inserted; the widths are the prefix widths plus
      the bare widths; the detail text has one quad and five GLubyte indices
      per character of "Host: name" + "IP Address: addr" (at least 18). */
  lemma {:induction false} MakeHostFields(d: seq<char>, atlas: TextureAtlas, generate: VertexGenerator)
    requires |d| < NPOS && atlas.lineHeight > 0 && QuadPerChar(generate)
    ensures var h := MakeHost(d, atlas, generate);
            var (name, ip) := SplitDescriptor(d);
            var n := NumBoxChars(h);
            h.displayName == DisplayName(name) &&
            h.hostName == HOST_PREFIX + name && h.ipAddr == IP_PREFIX + ip &&
            h.hostWidth == TextWidth(atlas, HOST_PREFIX, BoxScale(atlas)) + TextWidth(atlas, name, BoxScale(atlas)) &&
            h.ipWidth == TextWidth(atlas, IP_PREFIX, BoxScale(atlas)) + TextWidth(atlas, ip, BoxScale(atlas)) &&
            |h.box| == 24 &&
            n >= 18 && n == 18 + |name| + |ip| &&
            |h.text| == FLOATS_PER_CHAR * n &&
            h.textIndices == RestartIndices(n, BYTE_MODULUS)
  {
    var (name, ip) := SplitDescriptor(d);
    TextWidthAppend(atlas, HOST_PREFIX, name, BoxScale(atlas));
    TextWidthAppend(atlas, IP_PREFIX, ip, BoxScale(atlas));
  }

  /** Find returns the first occurrence. */
  lemma FindFirst(s: seq<char>, c: char, p: nat)
    requires p < |s| < NPOS && s[p] == c && c !in s[..p]
    ensures Find(s, c) == p
  {
  }

  /** The descriptor of a host found at 192.168.1.1 splits at its ':'. */
  lemma RouterScenario()
    ensures SplitDescriptor("router1:192.168.1.1") == ("router1", "192.168.1.1")
    ensures DisplayName("router1") == "router1"
  {
    var d := "router1:192.168.1.1";
    FindFirst(d, ':', 7);
    SplitAtIndex(d, 7);
    assert d[..7] == "router1" && d[8..] == "192.168.1.1";
  }

  /** A long name is cut to seven characters and an ellipsis. */
  lemma LongNameScenario()
    ensures SplitDescriptor("a-very-long-device-name:10.0.0.5").0 == "a-very-long-device-name"
    ensures DisplayName("a-very-long-device-name") == "a-very-..."
  {
    var d := "a-very-long-device-name:10.0.0.5";
    FindFirst(d, ':', 23);
    SplitAtIndex(d, 23);
    assert d[..23] == "a-very-long-device-name";
    assert d[..23][..7] == "a-very-";
  }

  /** A descriptor without ':' is not rejected: name and address are both
      the whole descriptor. */
  lemma NoColonScenario()
    ensures SplitDescriptor("bad-no-colon") == ("bad-no-colon", "bad-no-colon")
    ensures DisplayName("bad-no-colon") == "bad-no-..."
  {
    SplitDescriptorParts("bad-no-colon");
  }
}

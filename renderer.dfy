/** WiFiDiscoveryRenderer: the host table, the grid offsets, the batched
    labels, the per-frame selection and the state handshake with the
    activity. GL work is reduced to the ghost log `uploads`. */
module Renderer {
  import opened TextUtils
  import opened StripIndices
  import opened HostEntry
  import opened GridLayout
  import opened Uploads

  /** WiFiState. */
  const NOT_CONNECTED := 0
  const SCANNING := 1
  const SCAN_FINISHED := 2

  /** float offsets[256]. */
  const OFFSETS_LENGTH := 256

  /** Vertices of the spinner's line strip. */
  const SPINNER_VERTICES := 65

  const DISPLAY_TEXT_SPACING: real := 0.15

  /** Characters of all display names. */
  function TotalDisplayChars(hosts: seq<WiFiHost>): nat
  {
    if hosts == [] then 0
    else TotalDisplayChars(hosts[..|hosts| - 1]) + |hosts[|hosts| - 1].displayName|
  }

  lemma TotalDisplayCharsAppend(hosts: seq<WiFiHost>, host: WiFiHost)
    ensures TotalDisplayChars(hosts + [host]) == TotalDisplayChars(hosts) + |host.displayName|
  {
    assert (hosts + [host])[..|hosts|] == hosts;
  }

  /** With display names of at most ten characters, n hosts need at most 10n. */
  lemma {:induction false} TotalDisplayCharsBound(hosts: seq<WiFiHost>)
    requires forall i :: 0 <= i < |hosts| ==> |hosts[i].displayName| <= 10
    ensures TotalDisplayChars(hosts) <= 10 * |hosts|
  {
    if hosts != [] {
      TotalDisplayCharsBound(hosts[..|hosts| - 1]);
    }
  }

  /** The label vertices of SetScanComplete: each host's display name,
      centred under its tile's offset and DISPLAY_TEXT_SPACING below it. */
  function LabelRun(hosts: seq<WiFiHost>, layout: seq<real>, atlas: TextureAtlas, generate: VertexGenerator): seq<real>
    requires 2 * |hosts| <= |layout| && atlas.lineHeight > 0
    decreases |hosts|
  {
    if hosts == [] then []
    else
      var k := |hosts| - 1;
      LabelRun(hosts[..k], layout, atlas, generate) +
      generate(hosts[k].displayName, layout[2 * k] - hosts[k].displayWidth / 2.0,
               layout[2 * k + 1] - DISPLAY_TEXT_SPACING, DisplayScale(atlas), atlas)
  }

  /** The label vertices hold one quad per display character, so the label
      index list (one entry of five per character) covers them exactly. */
  lemma {:induction false} LabelRunLength(hosts: seq<WiFiHost>, layout: seq<real>, atlas: TextureAtlas, generate: VertexGenerator)
    requires 2 * |hosts| <= |layout| && atlas.lineHeight > 0 && QuadPerChar(generate)
    ensures |LabelRun(hosts, layout, atlas, generate)| == FLOATS_PER_CHAR * TotalDisplayChars(hosts)
    decreases |hosts|
  {
    if hosts != [] {
      LabelRunLength(hosts[..|hosts| - 1], layout, atlas, generate);
    }
  }

  /** A label run reads only the offsets of its own hosts. */
  lemma {:induction false} LabelRunReadsPrefix(hosts: seq<WiFiHost>, a: seq<real>, b: seq<real>, atlas: TextureAtlas, generate: VertexGenerator)
    requires 2 * |hosts| <= |a| && 2 * |hosts| <= |b| && atlas.lineHeight > 0
    requires a[..2 * |hosts|] == b[..2 * |hosts|]
    ensures LabelRun(hosts, a, atlas, generate) == LabelRun(hosts, b, atlas, generate)
    decreases |hosts|
  {
    if hosts != [] {
      var k := |hosts| - 1;
      assert a[2 * k] == a[..2 * |hosts|][2 * k] && a[2 * k + 1] == a[..2 * |hosts|][2 * k + 1];
      assert b[2 * k] == b[..2 * |hosts|][2 * k] && b[2 * k + 1] == b[..2 * |hosts|][2 * k + 1];
      assert a[..2 * k] == a[..2 * |hosts|][..2 * k];
      assert b[..2 * k] == b[..2 * |hosts|][..2 * k];
      LabelRunReadsPrefix(hosts[..k], a, b, atlas, generate);
    }
  }

  /** The label loop of SetScanComplete: append each host's label, placed
      from its offsets in `offsets`. */
  method AppendLabels(prefix: seq<real>, hosts: seq<WiFiHost>, offsets: array<real>,
                      atlas: TextureAtlas, generate: VertexGenerator) returns (r: seq<real>)
    requires 2 * |hosts| <= offsets.Length && atlas.lineHeight > 0
    ensures r == prefix + LabelRun(hosts, offsets[..], atlas, generate)
  {
    var displayScale := DisplayScale(atlas);
    r := prefix;
    var hostIndex := 0;
    while hostIndex < |hosts|
      invariant 0 <= hostIndex <= |hosts|
      invariant r == prefix + LabelRun(hosts[..hostIndex], offsets[..], atlas, generate)
    {
      var x := offsets[2 * hostIndex] - hosts[hostIndex].displayWidth / 2.0;
      var y := offsets[2 * hostIndex + 1] - DISPLAY_TEXT_SPACING;
      assert hosts[..hostIndex + 1][..hostIndex] == hosts[..hostIndex];
      r := r + generate(hosts[hostIndex].displayName, x, y, displayScale, atlas);
      hostIndex := hostIndex + 1;
    }
    assert hosts[..|hosts|] == hosts;
  }

  /** The parsing and measuring part of AddHost: the host a descriptor
    describes. */
  method BuildHost(hostString: seq<char>, atlas: TextureAtlas, generate: VertexGenerator) returns (host: WiFiHost)
    requires |hostString| < NPOS && atlas.lineHeight > 0
    ensures host == MakeHost(hostString, atlas, generate)
  {
    var displayScale := DisplayScale(atlas);
    var boxScale := BoxScale(atlas);

    var colonPos := Find(hostString, ':');
    var name := Substr(hostString, 0, colonPos);
    var ip := Substr(hostString, SizeT(colonPos + 1), SizeT(|hostString| - colonPos));
    assert name == SplitDescriptor(hostString).0 && ip == SplitDescriptor(hostString).1;
    var displayName := if |name| < DISPLAY_NAME_LIMIT then name else name[..7] + "...";
    var hostName := HOST_PREFIX + name;
    var ipAddr := IP_PREFIX + ip;

    var displayWidth := MeasureWidth(atlas, displayName, displayScale);
    var hostWidth := MeasureWidth(atlas, hostName, boxScale);
    var ipWidth := MeasureWidth(atlas, ipAddr, boxScale);

    var box := BoxVertices(hostWidth, ipWidth);
    var numBoxChars := |hostName| + |ipAddr|;
    var x := -1.0 * Max(hostWidth, ipWidth) / 2.0;
    var text := generate(hostName, x, HOST_TEXT_SPACING, boxScale, atlas);
    text := text + generate(ipAddr, x, IP_TEXT_SPACING, boxScale, atlas);
    var indices := AppendRestartIndices([], numBoxChars, BYTE_MODULUS);

    host := WiFiHost(displayName, hostName, ipAddr, displayWidth, hostWidth, ipWidth, box, text, indices);
  }

  /** Each host is the one MakeHost builds from the matching descriptor. */
  ghost predicate BuiltFrom(hosts: seq<WiFiHost>, descriptors: seq<seq<char>>, atlas: TextureAtlas, generate: VertexGenerator)
  {
    atlas.lineHeight > 0 && |hosts| == |descriptors| &&
    forall j :: 0 <= j < |hosts| ==> |descriptors[j]| < NPOS && hosts[j] == MakeHost(descriptors[j], atlas, generate)
  }

  /** Appending a host built from a new descriptor keeps the match. */
  lemma BuiltFromAppend(hosts: seq<WiFiHost>, descriptors: seq<seq<char>>, d: seq<char>, atlas: TextureAtlas, generate: VertexGenerator)
    requires BuiltFrom(hosts, descriptors, atlas, generate) && |d| < NPOS
    ensures BuiltFrom(hosts + [MakeHost(d, atlas, generate)], descriptors + [d], atlas, generate)
  {
  }

  /** The first numOffsets entries of the offsets array hold the grid of
      numOffsets / 2 tiles. */
  ghost predicate LaidOut(offsets: seq<real>, numOffsets: nat)
  {
    numOffsets % 2 == 0 && numOffsets <= |offsets| && offsets[..numOffsets] == Layout(numOffsets / 2)
  }

  /** The uploads of a frame whose selection changed to `index`: selectedHost
      into the uniform buffer, then the host's box, detail text and indices. */
  function DetailUploads(index: int, host: WiFiHost): (r: seq<Upload>)
    ensures |r| == 4 && r[0].region == Selected
  {
    [SelectionUpload(index), BoxUpload(host.box), BoxTextUpload(host.text), BoxIndexUpload(host.textIndices)]
  }

  /** The uploads of the frame that takes over a finished scan: the offsets of
      `hosts` tiles, the label vertices and the label indices. */
  function ScanUploads(offsets: seq<real>, hosts: nat, vertices: seq<real>, indices: seq<int>): (r: seq<Upload>)
    ensures |r| == 3 && r[0].region == Offsets
  {
    [OffsetsUpload(offsets, hosts), LabelVertexUpload(vertices), LabelIndexUpload(indices)]
  }

  class WiFiDiscoveryRenderer {
    const atlas: TextureAtlas
    /** TextUtils::GenerateVertices. */
    const generate: VertexGenerator
    const offsets: array<real>

    var hosts: seq<WiFiHost>
    var numOffsets: nat
    var numDisplayChars: nat
    var textVertices: seq<real>
    var textIndices: seq<int>
    var numIndices: nat
    var selectedHost: int
    var targetX: real
    var targetY: real
    var firstFrame: bool
    var hostReady: bool
    var state: int
    var spinnerSegments: int

    /** The constructor leaves `state` indeterminate; it has a value once
        SetState has run or a frame has taken over a finished scan. */
    ghost var stateAssigned: bool
    /** The buffer writes of all frames so far. */
    ghost var uploads: seq<Upload>
    /** The descriptors AddHost has been given, in order. */
    ghost var received: seq<seq<char>>

    /** The character count matches the table and the first numOffsets
        floats of `offsets` hold the grid of the first numOffsets / 2 hosts. */
    ghost predicate Valid()
      reads this`hosts, this`numDisplayChars, this`numOffsets, offsets
    {
      offsets.Length == OFFSETS_LENGTH && atlas.lineHeight > 0 && QuadPerChar(generate) &&
      numDisplayChars == TotalDisplayChars(hosts) && numDisplayChars <= 10 * |hosts| &&
      numOffsets / 2 <= |hosts| && LaidOut(offsets[..], numOffsets)
    }

    /** Entry j of the host table is the host AddHost made from the j-th
        descriptor it received. */
    ghost predicate HostsMatch()
      reads this`hosts, this`received
    {
      BuiltFrom(hosts, received, atlas, generate)
    }

    /** The constructor's initial values. */
    constructor (atlas: TextureAtlas, generate: VertexGenerator)
      requires atlas.lineHeight > 0 && QuadPerChar(generate)
      ensures Valid() && fresh(offsets)
      ensures this.atlas == atlas && this.generate == generate
      ensures hosts == [] && numOffsets == 0 && numDisplayChars == 0 && numIndices == 0
      ensures textVertices == [] && textIndices == []
      ensures selectedHost == -1 && firstFrame && !hostReady && spinnerSegments == 2
      ensures !stateAssigned && uploads == [] && received == [] && HostsMatch()
    {
      this.atlas := atlas;
      this.generate := generate;
      offsets := new real[OFFSETS_LENGTH];
      hosts := [];
      numOffsets := 0;
      numDisplayChars := 0;
      textVertices := [];
      textIndices := [];
      numIndices := 0;
      selectedHost := -1;
      firstFrame := true;
      hostReady := false;
      spinnerSegments := 2;
      stateAssigned := false;
      uploads := [];
      received := [];
    }

    /** Parse a "name:addr" descriptor and append the host it describes. */
    method AddHost(hostString: seq<char>)
      requires Valid() && |hostString| < NPOS
      modifies this`hosts, this`numDisplayChars, this`received
      ensures Valid()
      ensures hosts == old(hosts) + [MakeHost(hostString, atlas, generate)]
      ensures numDisplayChars == old(numDisplayChars) + |DisplayName(SplitDescriptor(hostString).0)|
      ensures received == old(received) + [hostString]
      ensures old(HostsMatch()) ==> HostsMatch()
    {
      var host := BuildHost(hostString, atlas, generate);
      assert host.displayName == DisplayName(SplitDescriptor(hostString).0);
      TotalDisplayCharsAppend(hosts, host);
      numDisplayChars := numDisplayChars + |host.displayName|;
      hosts := hosts + [host];
      received := received + [hostString];
      assert LaidOut(offsets[..], numOffsets);
      if old(HostsMatch()) {
        BuiltFromAppend(old(hosts), old(received), hostString, atlas, generate);
      }
    }

    /** The two layout loops of SetScanComplete: the offsets of |hosts|
        tiles, leaving the rest of the array as it was. */
    method LayOutHosts()
      requires Valid() && |hosts| <= 128
      modifies this`numOffsets, offsets
      ensures Valid()
      ensures numOffsets == 2 * |hosts|
      ensures offsets[..numOffsets] == Layout(|hosts|)
      ensures offsets[numOffsets..] == old(offsets[2 * |hosts|..])
    {
      numOffsets := 2 * |hosts|;
      WriteLayout(offsets, |hosts|);
    }

    /** The label loops of SetScanComplete: each host's display name under
        its tile, and five indices per display character. */
    method BatchLabels()
      requires 2 * |hosts| <= offsets.Length && atlas.lineHeight > 0
      modifies this`textVertices, this`textIndices, this`numIndices
      ensures textVertices == old(textVertices) + LabelRun(hosts, offsets[..], atlas, generate)
      ensures textIndices == old(textIndices) + RestartIndices(numDisplayChars, SHORT_MODULUS)
      ensures numIndices == 5 * numDisplayChars
    {
      textVertices := AppendLabels(textVertices, hosts, offsets, atlas, generate);
      numIndices := 5 * numDisplayChars;
      textIndices := AppendRestartIndices(textIndices, numDisplayChars, SHORT_MODULUS);
    }

    /** Lay the hosts out on the grid, batch their labels and hand them to
        the next frame. */
    method SetScanComplete()
      requires Valid() && |hosts| <= 128
      modifies this`numOffsets, offsets, this`textVertices, this`textIndices, this`numIndices, this`hostReady
      ensures Valid()
      ensures numOffsets == 2 * |hosts|
      ensures offsets[..numOffsets] == Layout(|hosts|)
      ensures offsets[numOffsets..] == old(offsets[2 * |hosts|..])
      ensures textVertices == old(textVertices) + LabelRun(hosts, Layout(|hosts|), atlas, generate)
      ensures textIndices == old(textIndices) + RestartIndices(numDisplayChars, SHORT_MODULUS)
      ensures numIndices == 5 * numDisplayChars
      ensures hostReady
    {
      LayOutHosts();
      BatchLabels();
      LabelRunReadsPrefix(hosts, offsets[..], Layout(|hosts|), atlas, generate);
      hostReady := true;
    }

    /** The controller's aim becomes the target unless this is the first
        frame, the controller is not connected or it was just recentred;
        the target is then written to the uniform buffer. */
    method AimTarget(connected: bool, recentered: bool, aimX: real, aimY: real)
      modifies this`targetX, this`targetY, this`uploads
      ensures targetX == (if !firstFrame && connected && !recentered then aimX else 0.0)
      ensures targetY == (if !firstFrame && connected && !recentered then aimY else 0.0)
      ensures uploads == old(uploads) + [TargetUpload(targetX, targetY)]
    {
      if !firstFrame && connected {
        targetX, targetY := aimX, aimY;
      } else {
        targetX, targetY := 0.0, 0.0;
      }
      if recentered {
        targetX, targetY := 0.0, 0.0;
      }
      uploads := uploads + [TargetUpload(targetX, targetY)];
    }

    /** The first-match loop of OnDrawFrame: the first laid-out tile whose
        hit box holds the target, or -1. */
    method SelectHost(tx: real, ty: real) returns (hit: int)
      requires numOffsets % 2 == 0 && numOffsets <= offsets.Length
      ensures IsFirstHit(offsets[..numOffsets], numOffsets / 2, tx, ty, hit)
    {
      ghost var layout := offsets[..numOffsets];
      hit := -1;
      var i := 0;
      while i < numOffsets
        invariant 0 <= i <= numOffsets && i % 2 == 0
        invariant forall k :: 0 <= k < i / 2 ==> !HitAt(layout, k, tx, ty)
      {
        assert offsets[i] == layout[i] && offsets[i + 1] == layout[i + 1];
        if tx > offsets[i] - HOST_WIDTH / 2.0 && tx < offsets[i] + HOST_WIDTH / 2.0 &&
           ty > offsets[i + 1] - HOST_HEIGHT && ty < offsets[i + 1] {
          hit := i / 2;
          return;
        }
        i := i + 2;
      }
    }

    /** Select the host under the target; when the selection changed to a
        host, upload that host's detail card. */
    method UpdateSelection()
      requires numOffsets % 2 == 0 && numOffsets <= offsets.Length && numOffsets / 2 <= |hosts|
      modifies this`selectedHost, this`uploads
      ensures IsFirstHit(offsets[..numOffsets], numOffsets / 2, targetX, targetY, selectedHost)
      ensures uploads == old(uploads) +
                (if selectedHost != -1 && selectedHost != old(selectedHost)
                 then DetailUploads(selectedHost, hosts[selectedHost]) else [])
    {
      var oldSelectedHost := selectedHost;
      selectedHost := SelectHost(targetX, targetY);
      if selectedHost != -1 && oldSelectedHost != selectedHost {
        uploads := uploads + DetailUploads(selectedHost, hosts[selectedHost]);
      }
    }

    /** A frame that finds a finished scan uploads the grid and the labels
        and moves to SCAN_FINISHED. */
    method TakeOverScan()
      modifies this`uploads, this`hostReady, this`state, this`stateAssigned
      ensures uploads == old(uploads) +
                (if old(hostReady) then ScanUploads(offsets[..], |hosts|, textVertices, textIndices) else [])
      ensures state == (if old(hostReady) then SCAN_FINISHED else old(state))
      ensures stateAssigned == (old(stateAssigned) || old(hostReady))
      ensures !hostReady
    {
      if hostReady {
        uploads := uploads + ScanUploads(offsets[..], |hosts|, textVertices, textIndices);
        hostReady := false;
        state := SCAN_FINISHED;
        stateAssigned := true;
      }
    }

    /** The non-GL part of a frame: aim, select the host under the target,
        upload the selected host's detail card when the selection changed to
        a host, take over a finished scan, then draw both eyes. */
    method OnDrawFrame(connected: bool, recentered: bool, aimX: real, aimY: real)
      requires numOffsets % 2 == 0 && numOffsets <= offsets.Length && numOffsets / 2 <= |hosts|
      requires stateAssigned || hostReady
      modifies this`targetX, this`targetY, this`selectedHost, this`hostReady, this`state,
               this`stateAssigned, this`firstFrame, this`uploads
      ensures targetX == (if !old(firstFrame) && connected && !recentered then aimX else 0.0)
      ensures targetY == (if !old(firstFrame) && connected && !recentered then aimY else 0.0)
      ensures IsFirstHit(offsets[..numOffsets], numOffsets / 2, targetX, targetY, selectedHost)
      ensures uploads == old(uploads) + [TargetUpload(targetX, targetY)] +
                (if selectedHost != -1 && selectedHost != old(selectedHost)
                 then DetailUploads(selectedHost, hosts[selectedHost]) else []) +
                (if old(hostReady) then ScanUploads(offsets[..], |hosts|, textVertices, textIndices) else []) +
                [MvpUpload(), MvpUpload()]
      ensures state == (if old(hostReady) then SCAN_FINISHED else old(state))
      ensures !hostReady && !firstFrame && stateAssigned
    {
      AimTarget(connected, recentered, aimX, aimY);

      UpdateSelection();
      TakeOverScan();

      RenderEyes();
    }

    /** RenderEye for the left and the right eye: each writes its MVP
        matrix; the frame is then no longer the first. */
    method RenderEyes()
      modifies this`uploads, this`firstFrame
      ensures uploads == old(uploads) + [MvpUpload(), MvpUpload()]
      ensures !firstFrame
    {
      uploads := uploads + [MvpUpload(), MvpUpload()];
      firstFrame := false;
    }

    method SetState(wifiState: int)
      modifies this`state, this`stateAssigned
      ensures state == wifiState && stateAssigned
    {
      state := wifiState;
      stateAssigned := true;
    }

    /** One more spinner segment per progress report. */
    method PublishProgress()
      modifies this`spinnerSegments
      ensures spinnerSegments == old(spinnerSegments) + 1
    {
      spinnerSegments := spinnerSegments + 1;
    }
  }
}

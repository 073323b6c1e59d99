# WiFi Discovery — a Dafny model of the scan and the host renderer

WiFi Discovery is an Android virtual-reality app. The Java activity reads
the device's WiFi address and marks the renderer NOT_CONNECTED or SCANNING.
When the device is connected, a background task walks every address of the
device's subnet. It sends each host that answers to the native renderer as a
`"name:addr"` descriptor, at most 128 of them, and asks the renderer to
advance a progress spinner at most 63 times per subnet. When the scan ends, the
renderer lays the hosts out on a grid and batches their labels. Each frame
it takes the controller's aim and highlights the tile under it.

The project models that core in ten modules:

- `JavaInt` models 32-bit Java `int` arithmetic on unbounded integers.
  - Two's-complement wrap-around.
  - `<<` and `>>` with the shift count taken mod 32.
  - Truncating `/`.
  - `&`, `^` and `& 0xff` on non-negative values.
- `JavaText` models `%d` formatting, `Integer.parseInt` on digit strings and
  `split("\\.")`. It proves that formatting and parsing round-trip and that a
  dotted quad splits back into its parts.
- `NetworkScanner` models `NetworkScanner.doInBackground` for one matching
  interface address.
  - Packing the three low octets, and the mask, base and progress interval.
  - The probe loop over the subnet: the progress counter, the
    `isReachable`-and-cap test, and an exception that ends the loop.
  - The network is a parameter: a function from an address text to a
    `Probe`.
- `Activity` models `onCreate`'s decoding of the IP address and its state
  choice, the loop over the interface addresses, and a whole session that
  drives the renderer.
- `TextUtils` models the glyph atlas and the text widths `AddHost` measures.
  `GenerateVertices` is a parameter that emits sixteen floats per character.
- `StripIndices` models the primitive-restart index lists, as `GLubyte` for
  a host's box and as `GLushort` for the labels.
- `HostEntry` models what `AddHost` builds from one descriptor:
  - the `find`/`substr` split, using `npos` and `size_t` wrap-around;
  - the display name shortened to seven characters and `"..."`;
  - the prefixed name and address texts, the detail box and the text indices.
- `GridLayout` models the grid `SetScanComplete` writes into `offsets[256]`
  and the hit test of `OnDrawFrame`. It proves that the hit boxes are
  pairwise disjoint, so the first hit is the only hit.
- `Uploads` models the GL buffer writes of a frame as a log of uploads
  checked against the sizes allocated at surface creation.
- `Renderer` models `WiFiDiscoveryRenderer` as a class.
  - The constructor, `AddHost`, `SetScanComplete`, the non-GL part of
    `OnDrawFrame`, `SetState` and `PublishProgress`.
  - The GL work is kept in the ghost log `uploads`.
  - The descriptors received so far are kept in the ghost `received`.

The scanner returns what it sends to the renderer: the `nativeAddHost`
arguments in order, and the number of `publishProgress` calls.
`Activity.RunScanner` delivers both to the renderer and then calls
`SetScanComplete`, as `onPostExecute` does.

`publishProgress` reaches `nativeProgressUpdate` later, on the UI thread.
`AddHost` and `PublishProgress` touch disjoint fields, so every
interleaving of the two streams ends in the state the model computes.

A descriptor without a `':'` is not rejected: `find` returns `npos`,
so the name is the whole descriptor. `npos + 1` then wraps to 0, so the
address is the whole descriptor too (`HostEntry.NoColonScenario`).

## Model

| member | source | states |
|---|---|---|
| TextUtils.MeasureWidth | app/src/main/jni/wifidiscovery_renderer.cpp:667-674 | the width loop's sum of `xAdvance * scale` over the characters is TextWidth of the text |
| TextUtils.TextWidthAppend | app/src/main/jni/wifidiscovery_renderer.cpp:676-683 | the width of a concatenation is the sum of the widths, so "Host: " + name measures as the prefix plus the name |
| TextUtils.TextWidthScales | app/src/main/jni/wifidiscovery_renderer.cpp:651-652 | the width at a scale is the scale times the unscaled width |
| TextUtils.UnknownCharsAddNoWidth | app/src/main/jni/wifidiscovery_renderer.cpp:672-673 | characters missing from charMap (whose `operator[]` yields a zeroed glyph) add nothing to the width |
| TextUtils.TextWidthMonotone | app/src/main/jni/wifidiscovery_renderer.cpp:667-674 | with non-negative advances and scale, every prefix's width is between 0 and the whole text's width |
| StripIndices.RestartIndices | app/src/main/jni/wifidiscovery_renderer.cpp:720-727 | five indices per quad |
| StripIndices.AppendRestartIndices | app/src/main/jni/wifidiscovery_renderer.cpp:782-788 | the push_back loop appends exactly RestartIndices(quads) to the vector |
| StripIndices.IndicesFitType | app/src/main/jni/wifidiscovery_renderer.cpp:722-726 | after the cast every index lies in the index type's range |
| StripIndices.ByteIndicesAvoidSentinelIff | app/src/main/jni/wifidiscovery_renderer.cpp:720-727 | the GLubyte vertex indices never equal the 0xff restart marker if and only if there are at most 63 quads |
| StripIndices.ShortIndicesExact | app/src/main/jni/wifidiscovery_renderer.cpp:782-788 | up to 16383 quads the GLushort indices are exactly 4q+c and stay below the 0xffff restart marker |
| HostEntry.FindFrom | app/src/main/jni/wifidiscovery_renderer.cpp:655 | the result is npos or a position of the character, with no earlier occurrence |
| HostEntry.FindSpec | app/src/main/jni/wifidiscovery_renderer.cpp:655 | `find` returns the first occurrence of the character, or npos when there is none |
| HostEntry.SizeT | app/src/main/jni/wifidiscovery_renderer.cpp:657 | size_t arithmetic: the result is the value mod 2^64 |
| HostEntry.SplitAtIndex | app/src/main/jni/wifidiscovery_renderer.cpp:656-657 | at a real colon position the name is the text before it and the address the text after it |
| HostEntry.SplitAtNpos | app/src/main/jni/wifidiscovery_renderer.cpp:656-657 | at npos both the name and the address are the whole descriptor (npos + 1 wraps to 0) |
| HostEntry.SplitDescriptorParts | app/src/main/jni/wifidiscovery_renderer.cpp:655-657 | with a colon: name + ":" + address is the descriptor and the name has no colon; without one, both parts are the descriptor |
| HostEntry.DisplayName | app/src/main/jni/wifidiscovery_renderer.cpp:658-662 | a display name has at most ten characters |
| HostEntry.DisplayNameRule | app/src/main/jni/wifidiscovery_renderer.cpp:658-662 | names of up to eight characters are shown whole; longer ones as their first seven characters and "..." |
| HostEntry.BoxShape | app/src/main/jni/wifidiscovery_renderer.cpp:694-707 | 24 floats: eight corners at plus or minus half of max(widths)+0.2 and at heights -BOX_HEIGHT or 0, fill colour 0 then border colour, and the border loop moves along one axis at a time |
| HostEntry.MakeHostFields | app/src/main/jni/wifidiscovery_renderer.cpp:645-730 | the host built from a descriptor has the display name of its name part, the "Host: " and "IP Address: " texts and their widths, a 24-float box, 16 floats per box character and GLubyte restart indices for 18 + name + address characters |
| HostEntry.RouterScenario | app/src/main/jni/wifidiscovery_renderer.cpp:655-662 | "router1:192.168.1.1" splits into "router1" and "192.168.1.1" and shows "router1" |
| HostEntry.LongNameScenario | app/src/main/jni/wifidiscovery_renderer.cpp:655-662 | a 23-character name is shown as "a-very-..." |
| HostEntry.NoColonScenario | app/src/main/jni/wifidiscovery_renderer.cpp:655-662 | a descriptor without a colon becomes both the name and the address |
| GridLayout.RowArithmetic | app/src/main/jni/wifidiscovery_renderer.cpp:740-749 | the per-case row quotient, remainder and row start equal division by hostsPerRow (8, 10, 12 or 16 by host count) |
| GridLayout.Layout | app/src/main/jni/wifidiscovery_renderer.cpp:736-768 | the layout holds an (x, y) pair for every host |
| GridLayout.DivModRow | app/src/main/jni/wifidiscovery_renderer.cpp:749-763 | row and column of a slot in a row are recovered, and the partial row holds fewer than hostsPerRow hosts |
| GridLayout.RowBounds | app/src/main/jni/wifidiscovery_renderer.cpp:749-768 | the full rows followed by the partial row cover exactly the n hosts |
| GridLayout.RowTiles | app/src/main/jni/wifidiscovery_renderer.cpp:752-767 | each tile of a row sits at the row's x_limit plus column times the step, at the row's height |
| GridLayout.RowPartition | app/src/main/jni/wifidiscovery_renderer.cpp:749-763 | every host index is its row's start plus its column, and the column is inside its row |
| GridLayout.TileInRow | app/src/main/jni/wifidiscovery_renderer.cpp:754-768 | every (row, column) the two loops visit is a distinct host index below n |
| GridLayout.MirrorX | app/src/main/jni/wifidiscovery_renderer.cpp:752-766 | a row's x positions are symmetric about 0 |
| GridLayout.RowSymmetric | app/src/main/jni/wifidiscovery_renderer.cpp:752-767 | each tile has a mirror tile in its row at -x and the same y |
| GridLayout.RowStep | app/src/main/jni/wifidiscovery_renderer.cpp:756-757 | neighbours in a row are one horizontal step apart at the same height |
| GridLayout.RowHeights | app/src/main/jni/wifidiscovery_renderer.cpp:753-767 | full rows are vertically centred (row r and row numRows-1-r at opposite heights), and the partial row sits one step below the last full row |
| GridLayout.WrittenIsLayout | app/src/main/jni/wifidiscovery_renderer.cpp:736-768 | once every tile has been written, the first 2n offsets are the layout |
| GridLayout.RowPairsAt | app/src/main/jni/wifidiscovery_renderer.cpp:756-757 | a written row holds x0 + c*step and y at slots 2c and 2c+1 |
| GridLayout.ExtendWritten | app/src/main/jni/wifidiscovery_renderer.cpp:754-768 | writing the next run of tiles at their layout positions extends the written prefix |
| GridLayout.RowWritten | app/src/main/jni/wifidiscovery_renderer.cpp:754-768 | writing a whole row extends the written prefix to the next row's start |
| GridLayout.WriteRow | app/src/main/jni/wifidiscovery_renderer.cpp:755-758 | the column loop writes the row's pairs and nothing else |
| GridLayout.WriteFullRow | app/src/main/jni/wifidiscovery_renderer.cpp:754-759 | one pass of the row loop writes that full row at its layout positions |
| GridLayout.WritePartialRow | app/src/main/jni/wifidiscovery_renderer.cpp:761-768 | the partial-row loop completes the layout |
| GridLayout.WriteLayout | app/src/main/jni/wifidiscovery_renderer.cpp:736-768 | the first 2n offsets become the layout and the rest of the array is unchanged |
| GridLayout.HitBandIsNotDrawnQuad | app/src/main/jni/wifidiscovery_renderer.cpp:454-457 | the hit band (y-H, y) is not the drawn quad (y-H/2, y+H/2): points of either lie outside the other |
| GridLayout.HitBoxesDisjoint | app/src/main/jni/wifidiscovery_renderer.cpp:453-457 | no aim point is inside the hit boxes of two different tiles |
| GridLayout.PositionsApart | app/src/main/jni/wifidiscovery_renderer.cpp:453-457 | two different grid positions have disjoint hit boxes |
| GridLayout.FirstHitIsOnlyHit | app/src/main/jni/wifidiscovery_renderer.cpp:449-464 | the loop's first hit is -1 exactly when no tile is hit, and otherwise it is the one tile hit |
| GridLayout.SmallLayouts | app/src/main/jni/wifidiscovery_renderer.cpp:740-768 | concrete positions for one host and for twelve hosts (a full row of eight and a row of four) |
| Uploads.LabelIndexUploadOverreads | app/src/main/jni/wifidiscovery_renderer.cpp:515-521 | the label index copy reads and writes within bounds if and only if there are no indices, because it copies the byte count as an element count |
| Uploads.OffsetsUploadFits | app/src/main/jni/wifidiscovery_renderer.cpp:502-503 | the offsets upload fits the uniform block if and only if there are at most 128 hosts |
| Uploads.LabelVerticesFit | app/src/main/jni/wifidiscovery_renderer.cpp:505-512 | the label vertices fit the 81920-byte buffer if and only if there are at most 1280 label characters |
| Uploads.DetailUploadsFit | app/src/main/jni/wifidiscovery_renderer.cpp:472-495 | a host's box always fits; its box text fits if and only if it has at most 128 box characters, and its indices if and only if at most 512 |
| Renderer.TotalDisplayCharsAppend | app/src/main/jni/wifidiscovery_renderer.cpp:663 | adding a host adds its display name's length to numDisplayChars |
| Renderer.TotalDisplayCharsBound | app/src/main/jni/wifidiscovery_renderer.cpp:658-663 | n hosts have at most 10n display characters |
| Renderer.LabelRunLength | app/src/main/jni/wifidiscovery_renderer.cpp:771-777 | the batched labels hold 16 floats per display character |
| Renderer.LabelRunReadsPrefix | app/src/main/jni/wifidiscovery_renderer.cpp:773-777 | the labels depend only on the first 2n offsets |
| Renderer.AppendLabels | app/src/main/jni/wifidiscovery_renderer.cpp:771-777 | the label loop appends LabelRun of the hosts at their offsets |
| Renderer.BuildHost | app/src/main/jni/wifidiscovery_renderer.cpp:645-728 | the imperative construction equals MakeHost of the descriptor |
| Renderer.BuiltFromAppend | app/src/main/jni/wifidiscovery_renderer.cpp:729 | pushing the host built from a descriptor keeps hosts in step with the descriptors received |
| Renderer.DetailUploads | app/src/main/jni/wifidiscovery_renderer.cpp:466-496 | a selection change writes four regions, the selected index first |
| Renderer.ScanUploads | app/src/main/jni/wifidiscovery_renderer.cpp:499-523 | taking over a scan writes three regions, the offsets first |
| Renderer.WiFiDiscoveryRenderer.constructor | app/src/main/jni/wifidiscovery_renderer.cpp:63-76 | no hosts, no offsets or indices, selectedHost -1, firstFrame, not hostReady, spinnerSegments 2, state not yet assigned |
| Renderer.WiFiDiscoveryRenderer.AddHost | app/src/main/jni/wifidiscovery_renderer.cpp:645-730 | appends MakeHost of the descriptor, adds its display name's length to numDisplayChars, keeps the class invariant |
| Renderer.WiFiDiscoveryRenderer.LayOutHosts | app/src/main/jni/wifidiscovery_renderer.cpp:736-768 | numOffsets is 2n, the first 2n offsets are the layout and the rest is unchanged |
| Renderer.WiFiDiscoveryRenderer.BatchLabels | app/src/main/jni/wifidiscovery_renderer.cpp:770-788 | appends the labels of all hosts and the GLushort restart indices; numIndices is 5 * numDisplayChars |
| Renderer.WiFiDiscoveryRenderer.SetScanComplete | app/src/main/jni/wifidiscovery_renderer.cpp:732-790 | lays out the hosts, appends their labels at the layout positions and the label indices, and sets hostReady |
| Renderer.WiFiDiscoveryRenderer.AimTarget | app/src/main/jni/wifidiscovery_renderer.cpp:433-447 | the target is the controller's aim after the first frame while connected and not recentred, else the origin; it is uploaded |
| Renderer.WiFiDiscoveryRenderer.SelectHost | app/src/main/jni/wifidiscovery_renderer.cpp:449-464 | the result is the first tile whose hit box contains the target, or -1 |
| Renderer.WiFiDiscoveryRenderer.UpdateSelection | app/src/main/jni/wifidiscovery_renderer.cpp:449-496 | selectedHost becomes the first hit; the detail buffers are uploaded exactly when it changed to a host |
| Renderer.WiFiDiscoveryRenderer.TakeOverScan | app/src/main/jni/wifidiscovery_renderer.cpp:498-526 | when hostReady, the scan's offsets and labels are uploaded, state becomes SCAN_FINISHED and hostReady is cleared |
| Renderer.WiFiDiscoveryRenderer.OnDrawFrame | app/src/main/jni/wifidiscovery_renderer.cpp:410-550 | a frame: the target, the first-hit selection, the uploads in order, SCAN_FINISHED after a finished scan, and firstFrame and hostReady cleared |
| Renderer.WiFiDiscoveryRenderer.RenderEyes | app/src/main/jni/wifidiscovery_renderer.cpp:537-549 | one MVP upload per eye, and firstFrame cleared |
| Renderer.WiFiDiscoveryRenderer.SetState | app/src/main/jni/wifidiscovery_renderer.cpp:792-794 | state becomes the given value |
| Renderer.WiFiDiscoveryRenderer.PublishProgress | app/src/main/jni/wifidiscovery_renderer.cpp:796-798 | spinnerSegments grows by one |
| JavaInt.Wrap | app/src/main/java/com/quiller/wifidiscovery/WiFiDiscoveryActivity.java:189 | the result is a Java int congruent to the value mod 2^32 |
| JavaInt.ShlOne | app/src/main/java/com/quiller/wifidiscovery/WiFiDiscoveryActivity.java:172 | `1 << s` is 2^(s mod 32), or Integer.MIN_VALUE when s mod 32 is 31 |
| JavaInt.LowByte | app/src/main/java/com/quiller/wifidiscovery/WiFiDiscoveryActivity.java:183 | `& 0xff` yields a value in 0..255 |
| JavaInt.LowByteIsAnd | app/src/main/java/com/quiller/wifidiscovery/WiFiDiscoveryActivity.java:183 | on non-negative values the mod-256 model of `& 0xff` is the bitwise and |
| JavaInt.UnsignedBytes | app/src/main/java/com/quiller/wifidiscovery/WiFiDiscoveryActivity.java:136-137 | an unsigned 32-bit value is the sum of its four bytes at their weights |
| JavaInt.ShrByWholeBytes | app/src/main/java/com/quiller/wifidiscovery/WiFiDiscoveryActivity.java:136-137 | `>>` by 8, 16 and 24 is floor division by 2^8, 2^16 and 2^24 |
| JavaInt.Div | app/src/main/java/com/quiller/wifidiscovery/WiFiDiscoveryActivity.java:174 | Java's `/` truncates toward zero |
| JavaInt.BitAnd | app/src/main/java/com/quiller/wifidiscovery/WiFiDiscoveryActivity.java:173 | `&` of non-negative values is at most either operand |
| JavaInt.AndLowOnes | app/src/main/java/com/quiller/wifidiscovery/WiFiDiscoveryActivity.java:173 | and with 2^k - 1 keeps the low k bits |
| JavaInt.XorLowOnes | app/src/main/java/com/quiller/wifidiscovery/WiFiDiscoveryActivity.java:173 | for k <= n, (2^n - 1) xor (2^k - 1) is 2^n - 2^k: the low k bits are cleared |
| JavaInt.AndClearLow | app/src/main/java/com/quiller/wifidiscovery/WiFiDiscoveryActivity.java:173 | and with a mask of the high bits subtracts the low k bits |
| JavaText.Digit | app/src/main/java/com/quiller/wifidiscovery/WiFiDiscoveryActivity.java:136 | the digit character has the digit's value |
| JavaText.Decimal | app/src/main/java/com/quiller/wifidiscovery/WiFiDiscoveryActivity.java:136 | `%d` of a non-negative value is a numeral with no dot |
| JavaText.ParseDecimalOfDecimal | app/src/main/java/com/quiller/wifidiscovery/WiFiDiscoveryActivity.java:167 | parseInt of a `%d` rendering gives the value back |
| JavaText.DecimalInjective | app/src/main/java/com/quiller/wifidiscovery/WiFiDiscoveryActivity.java:182-183 | different values format differently |
| JavaText.SplitOnDot | app/src/main/java/com/quiller/wifidiscovery/WiFiDiscoveryActivity.java:165 | a split has at least one part |
| JavaText.SplitNoDot | app/src/main/java/com/quiller/wifidiscovery/WiFiDiscoveryActivity.java:165 | a text without a dot splits into itself |
| JavaText.SplitJoin | app/src/main/java/com/quiller/wifidiscovery/WiFiDiscoveryActivity.java:165 | splitting a + "." + b gives a followed by the split of b |
| JavaText.SplitDottedQuad | app/src/main/java/com/quiller/wifidiscovery/WiFiDiscoveryActivity.java:182-183 | "%s.%d.%d.%d" splits back into its four parts |
| JavaText.DottedQuadInjective | app/src/main/java/com/quiller/wifidiscovery/WiFiDiscoveryActivity.java:182-183 | with the same first part, equal dotted quads have equal numbers |
| NetworkScanner.PackAddress | app/src/main/java/com/quiller/wifidiscovery/WiFiDiscoveryActivity.java:164-168 | the packing loop yields octet1*2^16 + octet2*2^8 + octet3 |
| NetworkScanner.PackedValue | app/src/main/java/com/quiller/wifidiscovery/WiFiDiscoveryActivity.java:164-168 | the packed value is that sum and lies below 2^24 |
| NetworkScanner.ByteFields | app/src/main/java/com/quiller/wifidiscovery/WiFiDiscoveryActivity.java:182-183 | unpacking with `>> 16 & 0xff`, `>> 8 & 0xff` and `& 0xff` recovers the packed octets |
| NetworkScanner.FieldsOfBytes | app/src/main/java/com/quiller/wifidiscovery/WiFiDiscoveryActivity.java:182-183 | every value below 2^24 is the packing of its three unpacked bytes |
| NetworkScanner.MaskValues | app/src/main/java/com/quiller/wifidiscovery/WiFiDiscoveryActivity.java:172 | mask is 2^((32-prefix) mod 32), or MIN_VALUE; mask-1 is non-negative and mask at most 2^30 |
| NetworkScanner.MaskOfPrefix | app/src/main/java/com/quiller/wifidiscovery/WiFiDiscoveryActivity.java:171-172 | prefix 0 gives mask 1 (the shift wraps), prefix 1 gives MIN_VALUE, otherwise 2^(32-prefix) |
| NetworkScanner.BaseBounds | app/src/main/java/com/quiller/wifidiscovery/WiFiDiscoveryActivity.java:173 | for a positive mask the base is the address rounded down to a multiple of mask, within mask below it; for MIN_VALUE it is 0 |
| NetworkScanner.BaseBoundsPow2 | app/src/main/java/com/quiller/wifidiscovery/WiFiDiscoveryActivity.java:173 | the same for a mask 2^s with s at most 30 |
| NetworkScanner.BaseOfPow2 | app/src/main/java/com/quiller/wifidiscovery/WiFiDiscoveryActivity.java:173 | the base clears the low s bits of the address |
| NetworkScanner.HighOnes | app/src/main/java/com/quiller/wifidiscovery/WiFiDiscoveryActivity.java:173 | `Integer.MAX_VALUE ^ (2^s - 1)` is MAX_VALUE + 1 - 2^s |
| NetworkScanner.ClearLowBits | app/src/main/java/com/quiller/wifidiscovery/WiFiDiscoveryActivity.java:173 | and with that value clears the low s bits |
| NetworkScanner.BaseOfMin | app/src/main/java/com/quiller/wifidiscovery/WiFiDiscoveryActivity.java:173 | with mask MIN_VALUE, `mask-1` wraps to MAX_VALUE and the base is 0 |
| NetworkScanner.TicksStep | app/src/main/java/com/quiller/wifidiscovery/WiFiDiscoveryActivity.java:187-190 | one more iteration adds a report exactly when i equals the counter |
| NetworkScanner.TicksBound | app/src/main/java/com/quiller/wifidiscovery/WiFiDiscoveryActivity.java:174-190 | a subnet scan reports at most 63 times, at most once below 64 addresses, and exactly 63 times when it completes from 64 addresses up |
| NetworkScanner.AddressAtPacked | app/src/main/java/com/quiller/wifidiscovery/WiFiDiscoveryActivity.java:182-183 | formatting the packed address gives the device's own address text back |
| NetworkScanner.AddressesDistinct | app/src/main/java/com/quiller/wifidiscovery/WiFiDiscoveryActivity.java:182-183 | different values below 2^24 format as different addresses |
| NetworkScanner.SubnetAddressesDistinct | app/src/main/java/com/quiller/wifidiscovery/WiFiDiscoveryActivity.java:179-184 | for prefixes 8..32, base + i does not overflow and the scan probes no address twice |
| NetworkScanner.Probes | app/src/main/java/com/quiller/wifidiscovery/WiFiDiscoveryActivity.java:179-192 | one probe outcome per loop index |
| NetworkScanner.Completed | app/src/main/java/com/quiller/wifidiscovery/WiFiDiscoveryActivity.java:178-200 | the loop completes every index, or stops right after the first failing probe |
| NetworkScanner.Found | app/src/main/java/com/quiller/wifidiscovery/WiFiDiscoveryActivity.java:192-193 | at most one descriptor per probe |
| NetworkScanner.Sent | app/src/main/java/com/quiller/wifidiscovery/WiFiDiscoveryActivity.java:192-194 | a probe contributes at most one descriptor |
| NetworkScanner.CompletedAt | app/src/main/java/com/quiller/wifidiscovery/WiFiDiscoveryActivity.java:199-200 | the first failing probe at i ends the loop after i + 1 probes |
| NetworkScanner.FoundMembers | app/src/main/java/com/quiller/wifidiscovery/WiFiDiscoveryActivity.java:192-193 | a descriptor is found if and only if some probe among the first k was reachable with it |
| NetworkScanner.Take | app/src/main/java/com/quiller/wifidiscovery/WiFiDiscoveryActivity.java:192 | the capped list is a prefix of at most k items, and is the whole list when it is short enough |
| NetworkScanner.TakeAppend | app/src/main/java/com/quiller/wifidiscovery/WiFiDiscoveryActivity.java:192-196 | one more find is passed on exactly when fewer than the cap have gone |
| NetworkScanner.OwnOffset | app/src/main/java/com/quiller/wifidiscovery/WiFiDiscoveryActivity.java:171-179 | unless the prefix is 1, the device's own packed address is among the addresses the scan walks |
| NetworkScanner.SubnetTicksBound | app/src/main/java/com/quiller/wifidiscovery/WiFiDiscoveryActivity.java:174-190 | any subnet scan reports at most 63 times |
| NetworkScanner.ScanSubnet | app/src/main/java/com/quiller/wifidiscovery/WiFiDiscoveryActivity.java:164-200 | the scan of a matching interface address passes on the subnet's finds in order up to the cap, and reports SubnetTicks times |
| NetworkScanner.ScanAddresses | app/src/main/java/com/quiller/wifidiscovery/WiFiDiscoveryActivity.java:178-200 | the probe loop sends the first finds of the completed probes up to the cap, numHosts counts them, and reports follow the counter |
| NetworkScanner.ProbeNext | app/src/main/java/com/quiller/wifidiscovery/WiFiDiscoveryActivity.java:182-184 | the i-th probe is the network's answer for the i-th address |
| NetworkScanner.Progress | app/src/main/java/com/quiller/wifidiscovery/WiFiDiscoveryActivity.java:187-190 | the counter step keeps reports == Ticks and counter == interval * (reports + 1) |
| NetworkScanner.Report | app/src/main/java/com/quiller/wifidiscovery/WiFiDiscoveryActivity.java:192-197 | a reachable host is passed on and counted exactly while fewer than 128 have gone |
| NetworkScanner.SendStep | app/src/main/java/com/quiller/wifidiscovery/WiFiDiscoveryActivity.java:192-197 | the capped list grows by the probe's descriptor exactly when under the cap |
| Activity.IpBytes | app/src/main/java/com/quiller/wifidiscovery/WiFiDiscoveryActivity.java:136-137 | four bytes, each in 0..255 |
| Activity.AddressText | app/src/main/java/com/quiller/wifidiscovery/WiFiDiscoveryActivity.java:136-137 | the address text splits into octets the scan can parse |
| Activity.QuadOctets | app/src/main/java/com/quiller/wifidiscovery/WiFiDiscoveryActivity.java:136-137 | the formatted address splits into four numerals, the last three below 256 |
| Activity.AddressTextRoundTrip | app/src/main/java/com/quiller/wifidiscovery/WiFiDiscoveryActivity.java:136-137 | parsing the four octets of the address text and packing them little-endian gives the int back |
| Activity.IpBytesPack | app/src/main/java/com/quiller/wifidiscovery/WiFiDiscoveryActivity.java:136-137 | the four `>> k & 0xff` bytes repack, with wrap-around, to the original int |
| Activity.IpBytesOfUnsigned | app/src/main/java/com/quiller/wifidiscovery/WiFiDiscoveryActivity.java:136-137 | the arithmetic shifts of a negative int give the bytes of its unsigned value |
| Activity.NotConnectedAddress | app/src/main/java/com/quiller/wifidiscovery/WiFiDiscoveryActivity.java:126-137 | the address is "0.0.0.0" if and only if the int is 0, the not-connected case |
| Activity.AddressOctets | app/src/main/java/com/quiller/wifidiscovery/WiFiDiscoveryActivity.java:136-137 | the address text has four byte octets, each its own `%d`, and rejoins from them |
| Activity.Matches | app/src/main/java/com/quiller/wifidiscovery/WiFiDiscoveryActivity.java:155-161 | at most one match per interface address |
| Activity.ScanTicksBound | app/src/main/java/com/quiller/wifidiscovery/WiFiDiscoveryActivity.java:155-190 | the whole background task reports at most 63 times per matching interface address |
| Activity.NoMatchNoScan | app/src/main/java/com/quiller/wifidiscovery/WiFiDiscoveryActivity.java:155-161 | without a matching interface address nothing is found and nothing reported |
| Activity.DoInBackground | app/src/main/java/com/quiller/wifidiscovery/WiFiDiscoveryActivity.java:151-208 | the task sends the first 128 finds of all matching scans, in order, and reports ScanTicks times |
| Activity.DeliverHosts | app/src/main/java/com/quiller/wifidiscovery/WiFiDiscoveryActivity.java:194 | each nativeAddHost call in order reaches AddHost; the received descriptors grow by exactly those |
| Activity.DeliverProgress | app/src/main/java/com/quiller/wifidiscovery/WiFiDiscoveryActivity.java:212-214 | each progress update advances the spinner by one |
| Activity.RunScanner | app/src/main/java/com/quiller/wifidiscovery/WiFiDiscoveryActivity.java:151-220 | after the scan and onPostExecute the renderer holds the capped finds (at most 128 hosts), hostReady is set and the spinner has advanced by the reports |
| Activity.Session | app/src/main/java/com/quiller/wifidiscovery/WiFiDiscoveryActivity.java:122-141 | state is NOT_CONNECTED for ip 0 and SCANNING otherwise; only a connected device scans; with at most one matching interface address the spinner stays within its 65 vertices |

## Left out

- OpenGL ES, the GVR SDK, shaders, textures and frame submission are not modelled. Their buffer writes are kept as the ghost `uploads` log.
- JNI glue (`wifidiscovery.cpp`) is not modelled. The Java entry points call the class's methods directly.
- Android services are parameters. These are the WifiManager enabling and connection info (`ip` is a parameter), `NetworkInterface` enumeration (a sequence of `InterfaceAddress`), and `InetAddress` probing (a `Network` function from address text to `Probe`).
- Activity.DoInBackground: a SocketException from the enumeration is modelled as an empty list of addresses. Its message, appended to `sb`, is not modelled. The `sb` buffer itself is reduced to the descriptor it builds.
- NetworkScanner.Probe: `getByName` is not modelled as failing. The address it is given is always a numeric dotted quad: its first part is the `%d` of a byte (`Activity.QuadOctets`) and the other three are `%d` of bytes. A numeric literal is parsed without a name lookup, so no UnknownHostException arises. `Failed` is the IOException from `isReachable`, which comes after the progress check and ends only the current subnet's scan.
- AsyncTask threading is not modelled. `nativeAddHost` runs in order on the worker thread and `nativeProgressUpdate` runs later on the UI thread. The model delivers all hosts, then all progress updates. The two touch disjoint renderer fields, so any interleaving ends the same way.
- Floating point: all `float` values are `real`. Rounding, and the exact float value of constants such as 0.45f, are not modelled.
- TextUtils.GenerateVertices is not modelled in detail. It is a parameter that emits 16 floats per character; the glyph quad contents are not modelled.
- TextUtils.Lookup: `charMap[name[i]]` inserts a zeroed glyph for a missing character, and that insertion into the atlas is not modelled. The char-to-unsigned conversion (signedness of `char`) is not modelled.
- HostEntry.SplitDescriptor: descriptors are taken shorter than `npos`.
- Renderer.WiFiDiscoveryRenderer.constructor: `state` is left unassigned as in the source. It is tracked by the ghost `stateAssigned`; OnDrawFrame requires that state was assigned or a scan is ready.
- Renderer.WiFiDiscoveryRenderer.SetScanComplete requires at most 128 hosts, because `offsets[256]` overflows beyond that. The scan's cap guarantees this bound.
- Renderer.WiFiDiscoveryRenderer.BatchLabels: the `(GLushort)` cast wrap is modelled for every count, but the `unsigned short i` loop counter is not. With 65536 or more display characters that counter wraps and the loop never ends; the model's loop ends after numDisplayChars iterations. The scan's cap of 128 hosts keeps the count at 1280 or below.
- NetworkScanner.ByteOctets: the address's octets are taken to be decimal numerals below 256, as a `%d`-formatted address always is. `Integer.parseInt` failures on other texts are not modelled.
- JavaText.SplitOnDot: `String.split` drops trailing empty strings; the model keeps them. This makes no difference for the dotted addresses the app splits.
- NetworkScanner.HostText: host names and address texts are bounded by 2^30 characters, so that a "name:addr" descriptor is a Java string.
- Activity.Session: the spinner bound is proved only with at most one matching interface address. With several matches the source itself can exceed the 65 vertices.
- NetworkScanner.SubnetAddressesDistinct: stated for prefixes 8..32. Below 8, `base + i` can reach the first octet's bits, and those are dropped when the address is formatted.
- Activity.DoInBackground: the `onPreExecute` allocation of the StringBuilder is not modelled.
- OnPause, OnResume, OnSurfaceCreated, the destructor and the GL init functions are not modelled. They only create, pause or free GL and GVR resources.
- TextUtils.TextureAtlas: the atlas is taken to have a positive line height. The source divides by `lineHeight` as a float, so a zero line height would give an infinite scale rather than an error.
- HostEntry.MakeHost: descriptors are taken to be ASCII. The JNI bridge hands the renderer the UTF-8 bytes of the Java string, and the model counts characters, so display-name truncation and lengths agree with the source only when each character is one byte.

/** The GL buffer writes of OnDrawFrame and RenderEye, recorded as a log of
    uploads: which buffer region is written, how many bytes are mapped or
    written, and how many elements are copied from which source. The GL
    calls themselves are not part of this model. */
module Uploads {
  import opened TextUtils
  import opened HostEntry

  /** The buffer regions the frame writes: the four parts of the uniform
      buffer (MVP matrix, target, offsets[256], selectedHost) and the label,
      box and box-text vertex and index buffers. */
  datatype Region = Mvp | Target | Offsets | Selected
                  | LabelVbo | LabelIbo | BoxVbo | BoxTextVbo | BoxTextIbo

  /** Size in bytes of each region as allocated when the surface is created. */
  function Capacity(region: Region): nat
  {
    match region
    case Mvp => 64
    case Target => 8
    case Offsets => 1024
    case Selected => 4
    case LabelVbo => 81920
    case LabelIbo => 20480
    case BoxVbo => 96
    case BoxTextVbo => 8192
    case BoxTextIbo => 2560
  }

  /** The data an upload copies from. */
  datatype Payload = Floats(floats: seq<real>) | Indices(indices: seq<int>)
                   | Selection(host: int) | Matrix

  function SourceLength(p: Payload): nat
  {
    match p
    case Floats(fs) => |fs|
    case Indices(xs) => |xs|
    case Selection(_) => 1
    case Matrix => 16
  }

  /** One buffer write: `bytes` bytes of `region` are mapped (or passed to
      glBufferSubData) and `copied` elements of `elementBytes` bytes each are
      copied into them from `payload`. */
  datatype Upload = Upload(region: Region, bytes: int, elementBytes: nat, copied: nat, payload: Payload)

  /** The copy stays inside the mapped range, which stays inside the region. */
  predicate WritesInBounds(u: Upload)
  {
    0 <= u.bytes <= Capacity(u.region) && u.copied * u.elementBytes <= u.bytes
  }

  /** The copy reads only elements of its source. */
  predicate ReadsInBounds(u: Upload)
  {
    u.copied <= SourceLength(u.payload)
  }

  predicate InBounds(u: Upload)
  {
    WritesInBounds(u) && ReadsInBounds(u)
  }

  /** The frame's target, two floats after the matrix. */
  function TargetUpload(tx: real, ty: real): Upload
  {
    Upload(Target, 8, 4, 2, Floats([tx, ty]))
  }

  /** selectedHost, one int after the offsets. */
  function SelectionUpload(host: int): Upload
  {
    Upload(Selected, 4, 4, 1, Selection(host))
  }

  /** The selected host's box vertices. */
  function BoxUpload(box: seq<real>): Upload
  {
    Upload(BoxVbo, 4 * |box|, 4, |box|, Floats(box))
  }

  /** The selected host's detail text vertices. */
  function BoxTextUpload(text: seq<real>): Upload
  {
    Upload(BoxTextVbo, 4 * |text|, 4, |text|, Floats(text))
  }

  /** The selected host's GLubyte indices: the byte count is the element count. */
  function BoxIndexUpload(indices: seq<int>): Upload
  {
    Upload(BoxTextIbo, |indices|, 1, |indices|, Indices(indices))
  }

  /** 2 * hosts floats of the offsets array. */
  function OffsetsUpload(offsets: seq<real>, hosts: nat): Upload
  {
    Upload(Offsets, 8 * hosts, 4, 2 * hosts, Floats(offsets))
  }

  /** The batched label vertices. */
  function LabelVertexUpload(vertices: seq<real>): Upload
  {
    Upload(LabelVbo, 4 * |vertices|, 4, |vertices|, Floats(vertices))
  }

  /** The batched GLushort label indices, as written: the mapped size is
      2 * len bytes, and that byte count is then used as the number of
      GLushort elements to copy. */
  function LabelIndexUpload(indices: seq<int>): Upload
  {
    Upload(LabelIbo, 2 * |indices|, 2, 2 * |indices|, Indices(indices))
  }

  /** One eye's MVP matrix. */
  function MvpUpload(): Upload
  {
    Upload(Mvp, 64, 4, 16, Matrix)
  }

  /** The label-index upload is out of bounds as soon as there is anything
      to upload: it copies twice as many elements as the list holds, into a
      mapping that holds half of what it copies. */
  lemma LabelIndexUploadOverreads(indices: seq<int>)
    ensures ReadsInBounds(LabelIndexUpload(indices)) <==> |indices| == 0
    ensures WritesInBounds(LabelIndexUpload(indices)) <==> |indices| == 0
  {
  }

  /** The offsets write fits the 256-float array exactly up to 128 hosts. */
  lemma OffsetsUploadFits(offsets: seq<real>, hosts: nat)
    requires |offsets| == 256
    ensures InBounds(OffsetsUpload(offsets, hosts)) <==> hosts <= 128
  {
  }

  /** The label vertex buffer holds 1280 characters: 128 hosts of at most
      ten displayed characters each. */
  lemma LabelVerticesFit(vertices: seq<real>, chars: nat)
    requires |vertices| == FLOATS_PER_CHAR * chars
    ensures InBounds(LabelVertexUpload(vertices)) <==> chars <= 1280
  {
  }

  /** The selected host's uploads: the box always fits; the detail text fits
      the 8192-byte buffer exactly up to 128 characters of "Host: name" and
      "IP Address: addr"; its indices fit the 2560-byte buffer up to 512. */
  lemma {:induction false} DetailUploadsFit(d: seq<char>, atlas: TextureAtlas, generate: VertexGenerator)
    requires |d| < NPOS && atlas.lineHeight > 0 && QuadPerChar(generate)
    ensures var h := MakeHost(d, atlas, generate);
            InBounds(BoxUpload(h.box)) &&
            (InBounds(BoxTextUpload(h.text)) <==> NumBoxChars(h) <= 128) &&
            (InBounds(BoxIndexUpload(h.textIndices)) <==> NumBoxChars(h) <= 512)
  {
    MakeHostFields(d, atlas, generate);
  }
}

/** Glyph atlas and text measurement (textutils.h and the width loops of
    WiFiDiscoveryRenderer::AddHost). */
module TextUtils {

  /** Metrics of one glyph of the packed font atlas (TextureChar). */
  datatype TextureChar = TextureChar(
    x: real, y: real, width: real, height: real,
    xOffset: real, yOffset: real, xAdvance: real)

  /** The value-initialised glyph that a lookup miss yields. */
  const ZeroChar := TextureChar(0.0, 0.0, 0.0, 0.0, 0.0, 0.0, 0.0)

  /** The atlas (TextureAtlas): line height, texture size and the character map. */
  datatype TextureAtlas = TextureAtlas(
    lineHeight: nat, textureWidth: nat, textureHeight: nat,
    charMap: map<char, TextureChar>)

  /** Floats that GenerateVertices appends per character: four vertices of
      (x, y, s, t), the stride the text vertex arrays are configured with. */
  const FLOATS_PER_CHAR := 16

  /** TextUtils::GenerateVertices(text, x, y, scale, atlas): the vertices it
      appends. Its body is not part of this model, so it is a parameter of the
      renderer, constrained only by QuadPerChar. */
  type VertexGenerator = (seq<char>, real, real, real, TextureAtlas) -> seq<real>

  /** The one assumption about GenerateVertices: one 16-float quad per character. */
  ghost predicate QuadPerChar(generate: VertexGenerator)
  {
    forall text, x, y, scale, atlas ::
      |generate(text, x, y, scale, atlas)| == FLOATS_PER_CHAR * |text|
  }

  /** atlas.charMap[c]: std::map::operator[] value-initialises a missing entry,
      so an unknown character reads as the all-zero glyph. */
  function Lookup(atlas: TextureAtlas, c: char): TextureChar
  {
    if c in atlas.charMap then atlas.charMap[c] else ZeroChar
  }

  /** The width of `text`: the sum of xAdvance * scale over its characters,
      accumulated from the left as the source's loops do. */
  function TextWidth(atlas: TextureAtlas, text: seq<char>, scale: real): real
    decreases |text|
  {
    if text == [] then 0.0
    else TextWidth(atlas, text[..|text| - 1], scale) + Lookup(atlas, text[|text| - 1]).xAdvance * scale
  }

  /** One width loop of AddHost: width = 0; for each character add xAdvance * scale. */
  method MeasureWidth(atlas: TextureAtlas, name: seq<char>, scale: real) returns (width: real)
    ensures width == TextWidth(atlas, name, scale)
  {
    width := 0.0;
    var i := 0;
    while i < |name|
      invariant 0 <= i <= |name|
      invariant width == TextWidth(atlas, name[..i], scale)
    {
      assert name[..i + 1][..i] == name[..i];
      width := width + Lookup(atlas, name[i]).xAdvance * scale;
      i := i + 1;
    }
    assert name[..|name|] == name;
  }

  /** Widths add up over concatenation: measuring "Host: " + name is measuring
      the prefix and the name separately. */
  lemma {:induction false} TextWidthAppend(atlas: TextureAtlas, s: seq<char>, t: seq<char>, scale: real)
    ensures TextWidth(atlas, s + t, scale) == TextWidth(atlas, s, scale) + TextWidth(atlas, t, scale)
    decreases |t|
  {
    if t == [] {
      assert s + t == s;
    } else {
      var t' := t[..|t| - 1];
      assert (s + t)[..|s + t| - 1] == s + t';
      assert (s + t)[|s + t| - 1] == t[|t| - 1];
      TextWidthAppend(atlas, s, t', scale);
    }
  }

  /** The scale factors out: the width is scale times the sum of the advances. */
  lemma {:induction false} TextWidthScales(atlas: TextureAtlas, text: seq<char>, scale: real)
    ensures TextWidth(atlas, text, scale) == scale * TextWidth(atlas, text, 1.0)
    decreases |text|
  {
    if text != [] {
      TextWidthScales(atlas, text[..|text| - 1], scale);
    }
  }

  /** Characters missing from the atlas contribute nothing to a width. */
  lemma {:induction false} UnknownCharsAddNoWidth(atlas: TextureAtlas, s: seq<char>, unknown: seq<char>, scale: real)
    requires forall i :: 0 <= i < |unknown| ==> unknown[i] !in atlas.charMap
    ensures TextWidth(atlas, s + unknown, scale) == TextWidth(atlas, s, scale)
    decreases |unknown|
  {
    TextWidthAppend(atlas, s, unknown, scale);
    if unknown != [] {
      var u' := unknown[..|unknown| - 1];
      UnknownCharsAddNoWidth(atlas, [], u', scale);
      assert [] + u' == u';
    }
  }

  /** With non-negative advances and scale, every width is non-negative and
      a prefix is never wider than the whole text. */
  lemma {:induction false} TextWidthMonotone(atlas: TextureAtlas, text: seq<char>, k: nat, scale: real)
    requires k <= |text| && scale >= 0.0
    requires forall c :: c in atlas.charMap ==> atlas.charMap[c].xAdvance >= 0.0
    ensures 0.0 <= TextWidth(atlas, text[..k], scale) <= TextWidth(atlas, text, scale)
    decreases |text|
  {
    if text != [] {
      var init := text[..|text| - 1];
      var last := Lookup(atlas, text[|text| - 1]).xAdvance;
      assert last * scale >= 0.0;
      TextWidthMonotone(atlas, init, if k < |text| then k else |init|, scale);
      if k < |text| {
        assert init[..k] == text[..k];
      } else {
        assert text[..k] == text;
        assert init[..|init|] == init;
      }
    }
  }
}

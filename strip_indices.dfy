/** Triangle-strip index lists with primitive-restart sentinels, as AddHost
    (GLubyte indices, sentinel 0xFF) and SetScanComplete (GLushort indices,
    sentinel 0xFFFF) build them: quad q contributes 4q, 4q+1, 4q+2, 4q+3 and
    the sentinel, each cast to the index type. */
module StripIndices {

  /** Number of values of GLubyte and GLushort; the sentinel is the largest. */
  const BYTE_MODULUS := 0x100
  const SHORT_MODULUS := 0x1_0000

  /** Entry k of the list for an index type with `modulus` values: the cast
      keeps 4q + j modulo that number. */
  function QuadIndex(k: nat, modulus: nat): int
    requires modulus > 0
  {
    if k % 5 < 4 then (4 * (k / 5) + k % 5) % modulus else modulus - 1
  }

  /** The whole list for `quads` quads. */
  function RestartIndices(quads: nat, modulus: nat): (r: seq<int>)
    requires modulus > 0
    ensures |r| == 5 * quads
  {
    seq(5 * quads, k requires 0 <= k => QuadIndex(k, modulus))
  }

  /** The push_back loop of AddHost (:721-727) and of SetScanComplete
      (:782-788): append the indices of `quads` quads to `prefix`. */
  method AppendRestartIndices(prefix: seq<int>, quads: nat, modulus: nat) returns (r: seq<int>)
    requires modulus > 0
    ensures r == prefix + RestartIndices(quads, modulus)
  {
    r := prefix;
    var i := 0;
    while i < quads
      invariant 0 <= i <= quads
      invariant |r| == |prefix| + 5 * i
      invariant r[..|prefix|] == prefix
      invariant forall k :: |prefix| <= k < |r| ==> r[k] == QuadIndex(k - |prefix|, modulus)
    {
      r := r + [(4 * i) % modulus, (4 * i + 1) % modulus, (4 * i + 2) % modulus,
                (4 * i + 3) % modulus, modulus - 1];
      i := i + 1;
    }
    assert r == prefix + RestartIndices(quads, modulus);
  }

  /** Every entry is a value of the index type. */
  lemma {:induction false} IndicesFitType(quads: nat, modulus: nat)
    requires modulus > 0
    ensures forall k :: 0 <= k < 5 * quads ==> 0 <= RestartIndices(quads, modulus)[k] < modulus
  {
  }

  /** A GLubyte list is correct only up to 63 quads: its quad indices avoid
      the sentinel 0xFF exactly when there are at most 63 quads (quad 63 ends
      in 4*63+3 = 0xFF, and later quads wrap around). */
  lemma {:induction false} ByteIndicesAvoidSentinelIff(quads: nat)
    ensures (forall k :: 0 <= k < 5 * quads && k % 5 < 4 ==>
               RestartIndices(quads, BYTE_MODULUS)[k] != BYTE_MODULUS - 1)
            <==> quads <= 63
  {
    var r := RestartIndices(quads, BYTE_MODULUS);
    if quads > 63 {
      var k := 5 * 63 + 3;
      assert k % 5 == 3 && k / 5 == 63;
      assert r[k] == 255;
    } else {
      forall k | 0 <= k < 5 * quads && k % 5 < 4
        ensures r[k] == 4 * (k / 5) + k % 5 < BYTE_MODULUS - 1
      {
        assert k / 5 < quads;
      }
    }
  }

  /** Up to 16383 quads a GLushort list is exact: quad q holds exactly
      4q .. 4q+3, none of which is the sentinel 0xFFFF. */
  lemma {:induction false} ShortIndicesExact(quads: nat)
    requires quads <= 16383
    ensures forall k :: 0 <= k < 5 * quads && k % 5 < 4 ==>
              RestartIndices(quads, SHORT_MODULUS)[k] == 4 * (k / 5) + k % 5 < SHORT_MODULUS - 1
  {
    forall k | 0 <= k < 5 * quads && k % 5 < 4
      ensures RestartIndices(quads, SHORT_MODULUS)[k] == 4 * (k / 5) + k % 5 < SHORT_MODULUS - 1
    {
      assert k / 5 < quads;
    }
  }
}

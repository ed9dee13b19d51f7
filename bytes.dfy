/**
 * Byte sequences as both backends of a spooled temporary file hold them
 * (a growable in-memory buffer and a temporary file), and the two edits the
 * stream performs on them: writing a run of bytes at an offset, and setting
 * the length. Both backends zero-fill whatever they grow by, so one
 * definition serves both.
 */
module Bytes {

  function Max(a: nat, b: nat): nat {
    if a < b then b else a
  }

  /** `n` zero bytes. */
  function Zeros(n: nat): (z: seq<bv8>)
    ensures |z| == n
    ensures forall i :: 0 <= i < n ==> z[i] == 0
  {
    if n == 0 then [] else Zeros(n - 1) + [0]
  }

  /** The content truncated, or zero-extended, to exactly `n` bytes. */
  function Resized(data: seq<bv8>, n: nat): (r: seq<bv8>)
    ensures |r| == n
    ensures forall i :: 0 <= i < n ==> r[i] == (if i < |data| then data[i] else 0)
  {
    if n <= |data| then data[..n] else data + Zeros(n - |data|)
  }

  /**
   * The content after `bytes` are written at offset `pos`: bytes already in
   * the written range are replaced, the content grows when the range runs
   * past its end, and a gap between the old end and `pos` reads as zeros.
   */
  function Overwritten(data: seq<bv8>, pos: nat, bytes: seq<bv8>): (r: seq<bv8>)
    ensures |r| == Max(|data|, pos + |bytes|)
    ensures forall i :: 0 <= i < |r| ==>
      r[i] == (if pos <= i < pos + |bytes| then bytes[i - pos]
               else if i < |data| then data[i]
               else 0)
  {
    Resized(data, Max(|data|, pos))[..pos] + bytes +
      (if pos + |bytes| < |data| then data[pos + |bytes|..] else [])
  }

  /** Writing at the end of the content appends. */
  lemma AppendAtEnd(data: seq<bv8>, bytes: seq<bv8>)
    ensures Overwritten(data, |data|, bytes) == data + bytes
  {
    var r := Overwritten(data, |data|, bytes);
    assert |r| == |data + bytes|;
    forall i | 0 <= i < |r|
      ensures r[i] == (data + bytes)[i]
    {
    }
  }

  /** The written run can be read back at the offset it was written to. */
  lemma WrittenRunReadsBack(data: seq<bv8>, pos: nat, bytes: seq<bv8>)
    ensures pos + |bytes| <= |Overwritten(data, pos, bytes)|
    ensures Overwritten(data, pos, bytes)[pos..pos + |bytes|] == bytes
  {
    var r := Overwritten(data, pos, bytes);
    forall i | 0 <= i < |bytes|
      ensures r[pos..pos + |bytes|][i] == bytes[i]
    {
      assert r[pos + i] == bytes[i];
    }
  }

  /**
   * Zero-extending and then truncating back to the original length gives
   * the original content: extension never disturbs the bytes already there.
   */
  lemma ExtendThenTruncate(data: seq<bv8>, n: nat)
    requires |data| <= n
    ensures Resized(Resized(data, n), |data|) == data
  {
    var r := Resized(Resized(data, n), |data|);
    forall i | 0 <= i < |data|
      ensures r[i] == data[i]
    {
    }
  }
}

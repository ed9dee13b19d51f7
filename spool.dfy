/**
 * The observable state machine of a spooled temporary file, as values.
 *
 * A store is one logical byte stream (content and cursor) held either in
 * memory or on disk. It moves to disk, once and for good, when a write or a
 * length change would take an in-memory store past `maxSize`, or when asked
 * to. A poisoned store refuses every operation that reaches its backend.
 * Each operation is a function from the store before to the store after
 * plus the value the caller gets; the class in module SpooledFile is proved
 * to follow these functions.
 */
module Spool {
  import opened Bytes

  datatype Error = Poisoned

  datatype Result<T> = Ok(value: T) | Err(error: Error)

  /** What `into_inner` hands back: the active backend with its bytes. */
  datatype SpooledData = InMemory(bytes: seq<bv8>) | OnDisk(bytes: seq<bv8>)

  /** The caller-visible state: content and cursor, the threshold, the backend tag, the latch. */
  datatype Store = Store(content: seq<bv8>, pos: nat, maxSize: nat, rolled: bool, poisoned: bool)

  /** A store after an operation, and what the operation returned. */
  datatype Step<T> = Step(next: Store, result: Result<T>)

  /** An in-memory store never holds more than `maxSize` bytes. */
  predicate Valid(s: Store) {
    !s.rolled ==> |s.content| <= s.maxSize
  }

  /** `new(max_size)`; the capacity of `with_max_size_and_capacity` changes nothing observable. */
  function New(maxSize: nat): Store {
    Store([], 0, maxSize, false, false)
  }

  /** The move to disk: the same bytes and cursor, now tagged as on disk. */
  function Migrated(s: Store): Store {
    s.(rolled := true)
  }

  /** Whether a write of `bytes` must first move an in-memory store to disk. */
  predicate RollsOnWrite(s: Store, bytes: seq<bv8>) {
    !s.rolled && |bytes| > 0 && s.pos + |bytes| > s.maxSize
  }

  /**
   * `write_all`: roll first if needed, then write at the cursor and advance
   * it. An empty write never reaches the backend, so it succeeds even on a
   * poisoned store. The source returns `Ok(())`; the byte count in `Ok` is
   * the model's addition.
   */
  function Write(s: Store, bytes: seq<bv8>): Step<nat> {
    if |bytes| == 0 then Step(s, Ok(0))
    else if s.poisoned then Step(s, Err(Poisoned))
    else
      var t := if RollsOnWrite(s, bytes) then Migrated(s) else s;
      Step(t.(content := Overwritten(t.content, t.pos, bytes), pos := t.pos + |bytes|), Ok(|bytes|))
  }

  /** `seek(SeekFrom::Start(offset))`; the cursor may pass the end. */
  function Seek(s: Store, offset: nat): Step<nat> {
    if s.poisoned then Step(s, Err(Poisoned)) else Step(s.(pos := offset), Ok(offset))
  }

  /** `stream_position`. */
  function Position(s: Store): Result<nat> {
    if s.poisoned then Err(Poisoned) else Ok(s.pos)
  }

  /** `read_to_end`: every byte from the cursor on; a cursor at or past the end reads nothing. */
  function ReadToEnd(s: Store): Step<seq<bv8>> {
    if s.poisoned then Step(s, Err(Poisoned))
    else if s.pos < |s.content| then Step(s.(pos := |s.content|), Ok(s.content[s.pos..]))
    else Step(s, Ok([]))
  }

  /** `set_len`: roll first when an in-memory store would pass `maxSize`, then truncate or zero-extend. */
  function SetLen(s: Store, n: nat): Step<()> {
    if s.poisoned then Step(s, Err(Poisoned))
    else
      var t := if !s.rolled && n > s.maxSize then Migrated(s) else s;
      Step(t.(content := Resized(t.content, n)), Ok(()))
  }

  /** `roll`: move to disk now; nothing to do when already there. */
  function Roll(s: Store): Step<()> {
    if s.poisoned then Step(s, Err(Poisoned))
    else if s.rolled then Step(s, Ok(()))
    else Step(Migrated(s), Ok(()))
  }

  /** `into_inner`: the active backend and its bytes. */
  function IntoInner(s: Store): Result<SpooledData> {
    if s.poisoned then Err(Poisoned)
    else if s.rolled then Ok(OnDisk(s.content))
    else Ok(InMemory(s.content))
  }

  /** The bytes a sequence of `write_all` calls puts down, in order. */
  function Concat(ws: seq<seq<bv8>>): seq<bv8> {
    if ws == [] then [] else Concat(ws[..|ws| - 1]) + ws[|ws| - 1]
  }

  /** The store after a sequence of `write_all` calls. */
  function WriteEach(s: Store, ws: seq<seq<bv8>>): Store {
    if ws == [] then s else Write(WriteEach(s, ws[..|ws| - 1]), ws[|ws| - 1]).next
  }

  // ---------------------------------------------------------------------
  // Properties
  // ---------------------------------------------------------------------

  /** A fresh store is in memory, unpoisoned, empty, at position 0, and reads nothing. */
  lemma NewIsEmpty(maxSize: nat)
    ensures Valid(New(maxSize))
    ensures !New(maxSize).rolled && !New(maxSize).poisoned
    ensures Position(New(maxSize)) == Ok(0)
    ensures ReadToEnd(New(maxSize)).result == Ok([])
    ensures IntoInner(New(maxSize)) == Ok(InMemory([]))
  {
  }

  /**
   * The test the write makes (cursor plus length past the threshold) is,
   * for a store that keeps its invariant, the same as "the content would
   * grow past `maxSize`": a write rolls exactly when its result would not
   * fit in memory.
   */
  lemma {:induction false} RollsIffNewLengthExceeds(s: Store, bytes: seq<bv8>)
    requires Valid(s) && !s.rolled && |bytes| > 0
    ensures RollsOnWrite(s, bytes) <==> |Overwritten(s.content, s.pos, bytes)| > s.maxSize
  {
  }

  /** Every operation keeps the invariant. */
  lemma {:induction false} OperationsKeepValid(s: Store, bytes: seq<bv8>, offset: nat, n: nat)
    requires Valid(s)
    ensures Valid(Write(s, bytes).next)
    ensures Valid(Seek(s, offset).next)
    ensures Valid(ReadToEnd(s).next)
    ensures Valid(SetLen(s, n).next)
    ensures Valid(Roll(s).next)
  {
  }

  /**
   * A successful write replaces the bytes under the cursor, advances the
   * cursor by the number of bytes written, and stays in memory exactly when
   * the new content fits under `maxSize`; an empty write changes nothing.
   */
  lemma {:induction false} WriteEffect(s: Store, bytes: seq<bv8>)
    requires Valid(s) && !s.poisoned
    ensures Write(s, bytes).result == Ok(|bytes|)
    ensures |bytes| > 0 ==> Write(s, bytes).next.content == Overwritten(s.content, s.pos, bytes)
    ensures Write(s, bytes).next.pos == s.pos + |bytes|
    ensures |bytes| == 0 ==> Write(s, bytes).next == s
    ensures |bytes| > 0 ==>
      (Write(s, bytes).next.rolled <==> s.rolled || |Overwritten(s.content, s.pos, bytes)| > s.maxSize)
    ensures Write(s, bytes).next.maxSize == s.maxSize && !Write(s, bytes).next.poisoned
  {
    if |bytes| > 0 && !s.rolled {
      RollsIffNewLengthExceeds(s, bytes);
    }
  }

  /**
   * Position continuity: the content and cursor after a write do not depend
   * on the threshold or the backend, so a write that triggers the move to
   * disk ends where the same write would on a store that never rolls.
   */
  lemma {:induction false} WriteIgnoresBackend(s: Store, bytes: seq<bv8>, maxSize: nat, rolled: bool)
    requires !s.poisoned
    ensures Write(s, bytes).next.content == Write(s.(maxSize := maxSize, rolled := rolled), bytes).next.content
    ensures Write(s, bytes).next.pos == Write(s.(maxSize := maxSize, rolled := rolled), bytes).next.pos
  {
  }

  /**
   * Seeking back to where a write began reads the written bytes, then
   * whatever followed them; a write that began past the end reads back too.
   */
  lemma {:induction false} WriteThenReadBack(s: Store, bytes: seq<bv8>)
    requires !s.poisoned
    ensures ReadToEnd(Seek(Write(s, bytes).next, s.pos).next).result
            == Ok(bytes + (if s.pos + |bytes| < |s.content| then s.content[s.pos + |bytes|..] else []))
  {
    var after := Write(s, bytes).next;
    var tail := if s.pos + |bytes| < |s.content| then s.content[s.pos + |bytes|..] else [];
    if |bytes| > 0 {
      var r := Overwritten(s.content, s.pos, bytes);
      assert after.content == r;
      assert r[s.pos..] == bytes + tail by {
        forall i | 0 <= i < |r| - s.pos
          ensures r[s.pos..][i] == (bytes + tail)[i]
        {
          assert r[s.pos + i] == (bytes + tail)[i];
        }
      }
    } else {
      assert bytes + tail == tail;
    }
  }

  /** A write at the end of the content appends to it. */
  lemma {:induction false} WriteAtEndAppends(s: Store, bytes: seq<bv8>)
    requires !s.poisoned && s.pos == |s.content|
    ensures Write(s, bytes).next.content == s.content + bytes
    ensures Write(s, bytes).next.pos == |s.content + bytes|
  {
    if |bytes| > 0 {
      AppendAtEnd(s.content, bytes);
    }
  }

  /**
   * Rolling keeps the stream: same content, same cursor, same bytes read
   * from the cursor; afterwards the store is on disk, and rolling again
   * changes nothing.
   */
  lemma {:induction false} RollKeepsStream(s: Store)
    requires !s.poisoned
    ensures Roll(s).result == Ok(())
    ensures Roll(s).next.rolled
    ensures Roll(s).next.content == s.content && Roll(s).next.pos == s.pos
    ensures ReadToEnd(Roll(s).next).result == ReadToEnd(s).result
    ensures Roll(Roll(s).next) == Roll(s)
    ensures IntoInner(Roll(s).next) == Ok(OnDisk(s.content))
  {
  }

  /** The move to disk is one-way: no operation brings a store back into memory. */
  lemma {:induction false} RolledStaysRolled(s: Store, bytes: seq<bv8>, offset: nat, n: nat)
    requires s.rolled
    ensures Write(s, bytes).next.rolled && Seek(s, offset).next.rolled
    ensures ReadToEnd(s).next.rolled && SetLen(s, n).next.rolled && Roll(s).next.rolled
  {
  }

  /**
   * Poisoning is a latch: a poisoned store refuses every operation that
   * reaches the backend and stays as it is; only an empty write, which
   * never reaches it, succeeds.
   */
  lemma {:induction false} PoisonedRefusesAll(s: Store, bytes: seq<bv8>, offset: nat, n: nat)
    requires s.poisoned
    ensures |bytes| > 0 ==> Write(s, bytes) == Step(s, Err(Poisoned))
    ensures |bytes| == 0 ==> Write(s, bytes) == Step(s, Ok(0))
    ensures Seek(s, offset) == Step(s, Err(Poisoned))
    ensures Position(s) == Err(Poisoned)
    ensures ReadToEnd(s) == Step(s, Err(Poisoned))
    ensures SetLen(s, n) == Step(s, Err(Poisoned))
    ensures Roll(s) == Step(s, Err(Poisoned))
    ensures IntoInner(s) == Err(Poisoned)
  {
  }

  /** No operation on a healthy store poisons it, and each one succeeds. */
  lemma {:induction false} HealthyNeverPoisoned(s: Store, bytes: seq<bv8>, offset: nat, n: nat)
    requires !s.poisoned
    ensures !Write(s, bytes).next.poisoned && Write(s, bytes).result.Ok?
    ensures !Seek(s, offset).next.poisoned && Seek(s, offset).result == Ok(offset)
    ensures !ReadToEnd(s).next.poisoned && ReadToEnd(s).result.Ok?
    ensures !SetLen(s, n).next.poisoned && SetLen(s, n).result.Ok?
    ensures !Roll(s).next.poisoned && Roll(s).result.Ok?
    ensures Position(s).Ok? && IntoInner(s).Ok?
  {
  }

  /**
   * `set_len(n)` gives exactly `n` bytes: the old ones up to `n`, zeros
   * beyond; the cursor stays; the store ends on disk exactly when it was
   * there already or `n` passes `maxSize`.
   */
  lemma {:induction false} SetLenEffect(s: Store, n: nat)
    requires !s.poisoned
    ensures SetLen(s, n).result == Ok(())
    ensures |SetLen(s, n).next.content| == n
    ensures forall i :: 0 <= i < n && i < |s.content| ==> SetLen(s, n).next.content[i] == s.content[i]
    ensures forall i :: |s.content| <= i < n ==> SetLen(s, n).next.content[i] == 0
    ensures SetLen(s, n).next.pos == s.pos
    ensures SetLen(s, n).next.rolled <==> s.rolled || n > s.maxSize
  {
  }

  /** Growing the length and shrinking it back restores the content. */
  lemma {:induction false} SetLenGrowThenShrink(s: Store, n: nat)
    requires !s.poisoned && |s.content| <= n
    ensures SetLen(SetLen(s, n).next, |s.content|).next.content == s.content
  {
    ExtendThenTruncate(s.content, n);
  }

  /** After truncating to `n`, reading from `n` on hits end-of-stream. */
  lemma {:induction false} ReadPastTruncation(s: Store, n: nat)
    requires !s.poisoned
    ensures ReadToEnd(Seek(SetLen(s, n).next, n).next).result == Ok([])
  {
  }

  /** Reading from position 0 returns the whole content and leaves the cursor at its end. */
  lemma {:induction false} ReadFromStart(s: Store)
    requires !s.poisoned
    ensures ReadToEnd(Seek(s, 0).next).result == Ok(s.content)
    ensures ReadToEnd(Seek(s, 0).next).next.pos == |s.content|
  {
    assert s.content[0..] == s.content;
  }

  /**
   * `into_inner` gives `InMemory` exactly when the store has not rolled and
   * `OnDisk` exactly when it has, with the stream's content either way; an
   * in-memory result never exceeds the threshold.
   */
  lemma {:induction false} IntoInnerMatchesBackend(s: Store)
    requires Valid(s) && !s.poisoned
    ensures IntoInner(s).Ok? && IntoInner(s).value.bytes == s.content
    ensures IntoInner(s).value.InMemory? <==> !s.rolled
    ensures IntoInner(s).value.OnDisk? <==> s.rolled
    ensures IntoInner(s).value.InMemory? ==> |IntoInner(s).value.bytes| <= s.maxSize
  {
  }

  /**
   * Writes from a fresh store: the content is the concatenation of
   * everything written, with nothing lost or repeated at the rollover, the
   * cursor sits at its end, and the store is on disk exactly when the total
   * passes `maxSize`.
   */
  lemma {:induction false} WritesConcatenate(maxSize: nat, ws: seq<seq<bv8>>)
    ensures WriteEach(New(maxSize), ws).content == Concat(ws)
    ensures WriteEach(New(maxSize), ws).pos == |Concat(ws)|
    ensures WriteEach(New(maxSize), ws).rolled <==> |Concat(ws)| > maxSize
    ensures !WriteEach(New(maxSize), ws).poisoned && WriteEach(New(maxSize), ws).maxSize == maxSize
  {
    if ws != [] {
      var init := ws[..|ws| - 1];
      var last := ws[|ws| - 1];
      WritesConcatenate(maxSize, init);
      var s := WriteEach(New(maxSize), init);
      WriteAtEndAppends(s, last);
    }
  }

  /** The threshold is inclusive: exactly `maxSize` bytes stay in memory, one more rolls. */
  lemma {:induction false} ThresholdBoundary(maxSize: nat, bytes: seq<bv8>)
    requires |bytes| == maxSize || |bytes| == maxSize + 1
    ensures Write(New(maxSize), bytes).next.rolled <==> |bytes| == maxSize + 1
  {
  }
}

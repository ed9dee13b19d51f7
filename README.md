# Spooled temporary file, modelled in Dafny

`SpooledTempFile` (crate `async_spooled_tempfile`) is one byte stream that can be read, written and seeked. It keeps its bytes in an in-memory buffer until the content would grow past a configured `max_size`. Then it moves them to a temporary file on disk. The move is one-way, and the content and the cursor are the same before and after it. `roll` forces the move, `set_len` truncates or zero-extends the content, and `into_inner` hands back whichever backend is in use: `SpooledData::InMemory` or `SpooledData::OnDisk`. A failed move leaves the store *poisoned*, and a poisoned store refuses every operation that reaches its backend.

The project has four modules:

- `Bytes` (`bytes.dfy`): the two edits both backends make to their bytes. `Overwritten` writes a run of bytes at an offset, replacing the bytes in its range and zero-filling any gap before it. `Resized` truncates or zero-extends the content.
- `Spool` (`spool.dfy`): the store as a value. `Store` holds the content, the cursor, `maxSize`, the `rolled` backend tag and the `poisoned` latch. There is one function per operation, each returning the next store and what the caller gets. The lemmas about these functions carry the properties.
- `SpooledFile` (`spooled_temp_file.dfy`): the class `SpooledTempFile`. It holds the in-memory buffer and the disk file as two separate byte sequences (`memory` and `disk`), plus the cursor, the threshold and the two flags. Each state-changing method has `modifies this` and is proved to move `Model()` exactly as the matching `Spool` function does, so every `Spool` lemma holds of the object.
- `Scenarios` (`scenarios.dfy`): the repository's four tests (`test_implicit_rollover`, `test_explicit_rollover`, `test_into_inner`, `test_set_len`) replayed as methods. Each of their `assert!`s is a verified `assert`.

Two decisions pin down points that the tests leave open:

- **Threshold boundary.** An in-memory write rolls when it is non-empty and its end (`pos + |bytes|`) passes `maxSize`. `Spool.RollsIffNewLengthExceeds` proves this is the same as "rolls iff the new length > `maxSize`". The proof relies on the invariant that an in-memory store holds at most `maxSize` bytes. So a length exactly equal to `maxSize` stays in memory (`Spool.ThresholdBoundary`).
- **`set_len` past the threshold rolls.** tests/mod.rs:125-139 needs this: `set_len(10)` on an in-memory store with `max_size` 5 ends `OnDisk`. This is also what keeps the invariant "in memory ⇒ at most `maxSize` bytes" true for every operation (`Spool.OperationsKeepValid`).

An empty `write_all` changes nothing and succeeds, because the write loop never reaches the backend. That holds on a poisoned store too.

## Model

| member | source | states |
|---|---|---|
| `Bytes.Zeros` | tests/mod.rs:116-123 | `n` bytes, every one of them zero (what `set_len` extends with) |
| `Bytes.Resized` | tests/mod.rs:116-139 | exactly `n` bytes; byte `i` is the old byte `i` when there was one, zero otherwise |
| `Bytes.Overwritten` | tests/mod.rs:17-49 | the length is max(old length, end of the written run); bytes inside the run are the written ones, bytes before the old end are kept, a gap reads as zero |
| `Bytes.AppendAtEnd` | tests/mod.rs:30-49 | a write at the end of the content is an append |
| `Bytes.WrittenRunReadsBack` | tests/mod.rs:25-27 | the written run is found intact at the offset it was written to |
| `Bytes.ExtendThenTruncate` | tests/mod.rs:129-139 | zero-extending and then truncating back to the old length restores the content |
| `Spool.NewIsEmpty` | tests/mod.rs:8-15 | a new store is in memory, not poisoned, at position 0, reads zero bytes and is an empty `InMemory` |
| `Spool.RollsIffNewLengthExceeds` | tests/mod.rs:17-37 | for an in-memory store within its threshold, the write's roll test holds exactly when the new content would be longer than `maxSize` |
| `Spool.OperationsKeepValid` | tests/mod.rs:17-37 | write, seek, read, set_len and roll all keep "in memory ⇒ at most `maxSize` bytes" |
| `Spool.WriteEffect` | tests/mod.rs:17-37 | a write succeeds with the byte count and advances the cursor by it; an empty write leaves the store as it was; a non-empty one overwrites at the cursor and leaves the store on disk iff it already was or the new length passes `maxSize` |
| `Spool.WriteIgnoresBackend` | tests/mod.rs:30-37 | content and cursor after a write are independent of the threshold and the backend (position continuity across the rollover) |
| `Spool.WriteThenReadBack` | tests/mod.rs:22-27 | seeking back to where a write began and reading to the end gives the written bytes followed by the old bytes after them, also when the write began past the end |
| `Spool.WriteAtEndAppends` | tests/mod.rs:30-49 | a write at the end appends and leaves the cursor at the new end |
| `Spool.RollKeepsStream` | tests/mod.rs:62-78 | `roll` succeeds and keeps the content, the cursor and what a read returns; a second roll is a no-op; `into_inner` then gives `OnDisk` with the same bytes |
| `Spool.RolledStaysRolled` | tests/mod.rs:35-54 | no operation takes an on-disk store back into memory |
| `Spool.PoisonedRefusesAll` | tests/mod.rs:11-12 | a poisoned store answers every operation that reaches the backend with `Poisoned` and does not change; an empty write succeeds without reaching it |
| `Spool.HealthyNeverPoisoned` | tests/mod.rs:17-37 | every operation on a healthy store succeeds and leaves it unpoisoned |
| `Spool.SetLenEffect` | tests/mod.rs:116-139 | `set_len(n)` leaves exactly `n` bytes: the old ones up to `n`, zeros beyond; the cursor stays; the store is on disk iff it was or `n > maxSize` |
| `Spool.SetLenGrowThenShrink` | tests/mod.rs:129-139 | growing with `set_len` and shrinking back restores the content |
| `Spool.ReadPastTruncation` | tests/mod.rs:129-139 | after `set_len(n)`, reading from `n` gives end-of-stream |
| `Spool.ReadFromStart` | tests/mod.rs:39-49 | seeking to 0 and reading to the end gives the whole content and leaves the cursor at its end |
| `Spool.IntoInnerMatchesBackend` | tests/mod.rs:95-111 | `into_inner` succeeds with the content; it is `InMemory` iff not rolled and `OnDisk` iff rolled; an `InMemory` result fits under `maxSize` |
| `Spool.WritesConcatenate` | tests/mod.rs:17-49 | from a new store, any sequence of writes leaves exactly their concatenation, the cursor at its end, and the store on disk iff the total passes `maxSize` |
| `Spool.ThresholdBoundary` | tests/mod.rs:100-107 | a first write of exactly `maxSize` bytes stays in memory; one of `maxSize + 1` bytes rolls |
| `SpooledFile.SpooledTempFile.constructor` | tests/mod.rs:8-15 | a new object is the new store of `Spool.New` |
| `SpooledFile.SpooledTempFile.WithMaxSizeAndCapacity` | tests/mod.rs:100-107 | the capacity hint has no effect: the same store as `new(max_size)` |
| `SpooledFile.SpooledTempFile.IsRolled` | tests/mod.rs:35 | the result is the backend tag: true exactly when `into_inner` would give `OnDisk`; when false, the content fits under `maxSize` and the disk side is empty; when true, the memory buffer is empty |
| `SpooledFile.SpooledTempFile.IsPoisoned` | tests/mod.rs:12 | true exactly when the stream refuses to report its position |
| `SpooledFile.SpooledTempFile.MoveToDisk` | tests/mod.rs:69-78 | the rollover: the disk holds exactly the old buffer, the buffer is dropped, the cursor is kept |
| `SpooledFile.SpooledTempFile.Write` | tests/mod.rs:17-37 | the object moves as `Spool.Write` says, rolling first when the write would pass `maxSize` |
| `SpooledFile.SpooledTempFile.Seek` | tests/mod.rs:25-30 | the object moves as `Spool.Seek` says: the cursor becomes the offset |
| `SpooledFile.SpooledTempFile.Position` | tests/mod.rs:22-23 | returns the cursor, or `Poisoned`, and changes nothing |
| `SpooledFile.SpooledTempFile.ReadToEnd` | tests/mod.rs:14-15 | the object moves as `Spool.ReadToEnd` says, returning the bytes from the cursor on |
| `SpooledFile.SpooledTempFile.SetLen` | tests/mod.rs:125-139 | the object moves as `Spool.SetLen` says, rolling first when the new length passes `maxSize` |
| `SpooledFile.SpooledTempFile.Roll` | tests/mod.rs:69-78 | the object moves as `Spool.Roll` says |
| `SpooledFile.SpooledTempFile.IntoInner` | tests/mod.rs:95-111 | returns the backend in use with its bytes: the memory buffer when in memory, the disk content when rolled |

## Left out

- The behaviour modelled comes from tests/mod.rs and the choices stated above. Where the tests go no further, the model takes the usual semantics of an in-memory `Cursor` and of a file: a write lands at the cursor and replaces the bytes there, a write that starts past the end zero-fills the gap, seeking past the end is allowed, and `set_len` truncates as well as zero-extends. tests/mod.rs does not exercise any of these: its writes all land at the end, its `set_len` calls only extend, and its seeks go to 0 or to the end. The members that state them are `Bytes.Overwritten`, `Bytes.ExtendThenTruncate`, `Spool.WriteThenReadBack`, `Spool.SetLenGrowThenShrink` and `Spool.ReadPastTruncation`.
- The async runtime (tokio's `AsyncRead`/`AsyncWrite`/`AsyncSeek` plumbing): every operation is one synchronous step.
- Real temporary files and OS handles: the disk is a second byte sequence, and `OnDisk` carries its bytes instead of a file handle. `InMemory` likewise carries plain bytes instead of a `Cursor`, so the cursor position it would hand back is dropped; tests/mod.rs:120 only takes its buffer.
- I/O errors, and the poisoning they cause when a rollover fails: the tests never trigger them. `poisoned` is kept as a latch that a fresh store clears and that no operation sets. It makes every operation that reaches the backend fail with `Poisoned`; an empty `write_all` never reaches it and succeeds, and `is_rolled` and `is_poisoned` still answer.
- `SeekFrom::End` and `SeekFrom::Current`, and the error for a negative position: only absolute seeks are modelled. The offset is a `nat`, so it cannot be negative.
- The memory capacity hint and allocation behaviour: `WithMaxSizeAndCapacity` ignores its capacity.
- 64-bit offsets and any overflow in the offset arithmetic: positions and lengths are unbounded naturals.
- Partial writes and chunked reads: `write_all` and `read_to_end` loop over the backend until it is done, and the model takes each as a single step with the same net effect.
- Consumption by `into_inner`: the Dafny object can still be used afterwards. The scenarios do not use it again.
- Cancellation and concurrent use of one instance.

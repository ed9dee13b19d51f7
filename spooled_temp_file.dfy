/**
 * `SpooledTempFile` as a mutable object. The in-memory buffer and the
 * temporary file are two byte sequences; exactly one of them is in use, as
 * `rolled` says. Every method is proved to take the object from the store
 * `Model()` to the store the matching function of module Spool gives, so
 * everything proved there holds of the object.
 */
module SpooledFile {
  import opened Bytes
  import opened Spool

  class SpooledTempFile {
    var memory: seq<bv8>
    var disk: seq<bv8>
    var pos: nat
    const maxSize: nat
    var rolled: bool
    var poisoned: bool

    /** The backend not in use is empty, and the store keeps its invariant. */
    ghost predicate Valid()
      reads this
    {
      (if rolled then memory == [] else disk == []) && Spool.Valid(Model())
    }

    /** The stream as the caller sees it. */
    function Model(): Store
      reads this
    {
      Store(if rolled then disk else memory, pos, maxSize, rolled, poisoned)
    }

    /** `SpooledTempFile::new(max_size)`. */
    constructor (maxSize: nat)
      ensures Valid() && Model() == Spool.New(maxSize)
    {
      this.maxSize := maxSize;
      memory, disk, pos := [], [], 0;
      rolled, poisoned := false, false;
    }

    /** `with_max_size_and_capacity`: the capacity is an allocation hint and changes nothing observable. */
    constructor WithMaxSizeAndCapacity(maxSize: nat, capacity: nat)
      ensures Valid() && Model() == Spool.New(maxSize)
    {
      this.maxSize := maxSize;
      memory, disk, pos := [], [], 0;
      rolled, poisoned := false, false;
    }

    /**
     * `is_rolled`: whether the bytes are on disk, which is what `into_inner`
     * hands back; while false, the content fits under the threshold, and once
     * true, the memory buffer is gone.
     */
    function IsRolled(): (b: bool)
      reads this
      requires Valid()
      ensures b == Model().rolled
      ensures !poisoned ==> (b <==> Spool.IntoInner(Model()).value.OnDisk?)
      ensures !b ==> |Model().content| <= maxSize && disk == []
      ensures b ==> memory == []
    {
      rolled
    }

    /** `is_poisoned`: true exactly when the stream refuses to report its position. */
    function IsPoisoned(): (b: bool)
      reads this
      ensures b <==> Spool.Position(Model()).Err?
    {
      poisoned
    }

    /**
     * The rollover itself: copy the whole buffer into the (new, empty)
     * temporary file, keep the cursor, drop the buffer.
     */
    method MoveToDisk()
      requires Valid() && !rolled && !poisoned
      modifies this
      ensures Valid() && Model() == Migrated(old(Model()))
      ensures disk == old(memory) && memory == []
    {
      disk := memory;
      memory := [];
      rolled := true;
    }

    /**
     * `write_all`. The source returns `Ok(())`; the byte count in `Ok` is
     * the model's addition.
     */
    method Write(bytes: seq<bv8>) returns (r: Result<nat>)
      requires Valid()
      modifies this
      ensures Valid()
      ensures Model() == Spool.Write(old(Model()), bytes).next
      ensures r == Spool.Write(old(Model()), bytes).result
    {
      if |bytes| == 0 {
        return Ok(0);
      }
      if poisoned {
        return Err(Poisoned);
      }
      if !rolled && pos + |bytes| > maxSize {
        MoveToDisk();
      }
      if rolled {
        disk := Overwritten(disk, pos, bytes);
      } else {
        memory := Overwritten(memory, pos, bytes);
      }
      pos := pos + |bytes|;
      r := Ok(|bytes|);
    }

    /** `seek(SeekFrom::Start(offset))`. */
    method Seek(offset: nat) returns (r: Result<nat>)
      requires Valid()
      modifies this
      ensures Valid()
      ensures Model() == Spool.Seek(old(Model()), offset).next
      ensures r == Spool.Seek(old(Model()), offset).result
    {
      if poisoned {
        return Err(Poisoned);
      }
      pos := offset;
      r := Ok(offset);
    }

    /** `stream_position`: reports the cursor and changes nothing. */
    method Position() returns (r: Result<nat>)
      requires Valid()
      ensures r == Spool.Position(Model())
    {
      if poisoned {
        return Err(Poisoned);
      }
      r := Ok(pos);
    }

    /** `read_to_end`: returns the bytes read (the caller appends them to its buffer). */
    method ReadToEnd() returns (r: Result<seq<bv8>>)
      requires Valid()
      modifies this
      ensures Valid()
      ensures Model() == Spool.ReadToEnd(old(Model())).next
      ensures r == Spool.ReadToEnd(old(Model())).result
    {
      if poisoned {
        return Err(Poisoned);
      }
      var content := if rolled then disk else memory;
      if pos < |content| {
        r := Ok(content[pos..]);
        pos := |content|;
      } else {
        r := Ok([]);
      }
    }

    /** `set_len`. */
    method SetLen(n: nat) returns (r: Result<()>)
      requires Valid()
      modifies this
      ensures Valid()
      ensures Model() == Spool.SetLen(old(Model()), n).next
      ensures r == Spool.SetLen(old(Model()), n).result
    {
      if poisoned {
        return Err(Poisoned);
      }
      if !rolled && n > maxSize {
        MoveToDisk();
      }
      if rolled {
        disk := Resized(disk, n);
      } else {
        memory := Resized(memory, n);
      }
      r := Ok(());
    }

    /** `roll`. */
    method Roll() returns (r: Result<()>)
      requires Valid()
      modifies this
      ensures Valid()
      ensures Model() == Spool.Roll(old(Model())).next
      ensures r == Spool.Roll(old(Model())).result
    {
      if poisoned {
        return Err(Poisoned);
      }
      if !rolled {
        MoveToDisk();
      }
      r := Ok(());
    }

    /** `into_inner`: the backend in use, with its bytes. */
    method IntoInner() returns (r: Result<SpooledData>)
      requires Valid()
      ensures r == Spool.IntoInner(Model())
      ensures r.Ok? && r.value.InMemory? ==> r.value.bytes == memory && |memory| <= maxSize
      ensures r.Ok? && r.value.OnDisk? ==> r.value.bytes == disk
    {
      if poisoned {
        return Err(Poisoned);
      }
      if rolled {
        r := Ok(OnDisk(disk));
      } else {
        r := Ok(InMemory(memory));
      }
    }
  }
}

/** The CameraMetadata object: a buffer that it owns and replaces by larger ones.

    Buffer stands for the C library's packed buffer.  `memory` parameters say
    whether the allocator succeeds. */
module CameraMetadata {
  import opened Bits
  import opened MetadataStore

  class Buffer {
    const entryCapacity: nat
    const dataCapacity: nat
    var entries: seq<Entry>
    var dataCount: nat

    ghost predicate Valid()
      reads this
    {
      dataCount == DataCount(entries) && Fits(View())
    }

    ghost function View(): Store
      reads this
    {
      Store(entries, entryCapacity, dataCapacity)
    }

    constructor (entryCapacity: nat, dataCapacity: nat)
      ensures Valid() && View() == Store([], entryCapacity, dataCapacity)
    {
      this.entryCapacity, this.dataCapacity := entryCapacity, dataCapacity;
      entries, dataCount := [], 0;
    }

    /** Looks the tag up from the front. */
    method Find(tag: Tag) returns (i: nat)
      ensures i == IndexOf(entries, tag)
    {
      i := 0;
      while i < |entries| && entries[i].tag != tag
        invariant i <= |entries| && forall j :: 0 <= j < i ==> entries[j].tag != tag
      {
        i := i + 1;
      }
      IndexIs(entries, tag, i);
    }

    method Add(tag: Tag, data: seq<byte>) returns (status: Status)
      requires Valid()
      modifies this
      ensures Valid()
      ensures status == Done <==>
        |old(entries)| < entryCapacity && DataCount(old(entries)) + DataSize(|data|) <= dataCapacity
      ensures status == Done ==> entries == old(entries) + [Entry(tag, data)]
      ensures status != Done ==> status == Failed && entries == old(entries)
    {
      if |entries| == entryCapacity || dataCount + DataSize(|data|) > dataCapacity {
        return Failed;
      }
      DataCountConcat(entries, [Entry(tag, data)]);
      entries := entries + [Entry(tag, data)];
      dataCount := dataCount + DataSize(|data|);
      return Done;
    }

    method SetAt(i: nat, data: seq<byte>) returns (status: Status)
      requires Valid() && i < |entries|
      modifies this
      ensures Valid()
      ensures status == Done <==>
        DataCount(old(entries)) - DataSize(|old(entries)[i].data|) + DataSize(|data|) <= dataCapacity
      ensures status == Done ==> entries == old(entries)[i := Entry(old(entries)[i].tag, data)]
      ensures status != Done ==> status == Failed && entries == old(entries)
    {
      DataCountAt(entries, i);
      var count := dataCount - DataSize(|entries[i].data|) + DataSize(|data|);
      if count > dataCapacity {
        return Failed;
      }
      ghost var was := entries;
      entries := entries[i := Entry(entries[i].tag, data)];
      DataCountAt(entries, i);
      assert entries[..i] == was[..i] && entries[i + 1..] == was[i + 1..];
      dataCount := count;
      return Done;
    }

    method DeleteAt(i: nat)
      requires Valid() && i < |entries|
      modifies this
      ensures Valid() && entries == old(entries)[..i] + old(entries)[i + 1..]
    {
      DataCountAt(entries, i);
      DataCountConcat(entries[..i], entries[i + 1..]);
      dataCount := dataCount - DataSize(|entries[i].data|);
      entries := entries[..i] + entries[i + 1..];
    }

    method AppendFrom(other: Buffer) returns (status: Status)
      requires Valid() && other.Valid()
      modifies this
      ensures Valid()
      ensures status == Done <==>
        |old(entries)| + |old(other.entries)| <= entryCapacity
        && DataCount(old(entries)) + DataCount(old(other.entries)) <= dataCapacity
      ensures status == Done ==> entries == old(entries) + old(other.entries)
      ensures status != Done ==> status == Failed && entries == old(entries)
    {
      if |entries| + |other.entries| > entryCapacity || dataCount + other.dataCount > dataCapacity {
        return Failed;
      }
      DataCountConcat(entries, other.entries);
      entries, dataCount := entries + other.entries, dataCount + other.dataCount;
      return Done;
    }
  }

  class CameraMetadata {
    var mBuffer: Buffer?
    var mLocked: bool

    ghost predicate Valid()
      reads this, mBuffer
    {
      mBuffer != null ==> mBuffer.Valid()
    }

    ghost function View(): Metadata
      reads this, mBuffer
    {
      Metadata(if mBuffer == null then None else Some(mBuffer.View()), mLocked)
    }

    constructor (entryCapacity: nat, dataCapacity: nat)
      ensures Valid() && View() == Metadata(Some(Store([], entryCapacity, dataCapacity)), false) && fresh(mBuffer)
    {
      mBuffer := new Buffer(entryCapacity, dataCapacity);
      mLocked := false;
    }

    /** Makes room for more entries and data, in a new buffer if there is not enough. */
    method ResizeIfNeeded(extraEntries: nat, extraData: nat, memory: bool) returns (status: Status)
      requires Valid()
      modifies this
      ensures Valid() && (mBuffer == old(mBuffer) || fresh(mBuffer))
      ensures (View().buffer, status) == Resized(old(View().buffer), extraEntries, extraData, memory)
      ensures mBuffer != old(mBuffer) <==> memory && NeedsBuffer(old(View().buffer), extraEntries, extraData)
      ensures mLocked == old(mLocked)
    {
      if mBuffer == null {
        if !memory {
          return NoMemory;
        }
        mBuffer := new Buffer(extraEntries * 2, extraData * 2);
        return Done;
      }
      var entryCount := |mBuffer.entries| + extraEntries;
      entryCount := if entryCount > mBuffer.entryCapacity then entryCount * 2 else mBuffer.entryCapacity;
      var dataCount := mBuffer.dataCount + extraData;
      dataCount := if dataCount > mBuffer.dataCapacity then dataCount * 2 else mBuffer.dataCapacity;
      if entryCount > mBuffer.entryCapacity || dataCount > mBuffer.dataCapacity {
        if !memory {
          return NoMemory;
        }
        var oldBuffer := mBuffer;
        mBuffer := new Buffer(entryCount, dataCount);
        assert DataCount([]) == 0;
        hide DataCount;
        var appended := mBuffer.AppendFrom(oldBuffer);
        assert appended == Done && [] + oldBuffer.entries == oldBuffer.entries;
      }
      return Done;
    }

    /** Writes the entry, once there is room for it. */
    method WriteEntry(tag: Tag, data: seq<byte>) returns (status: Status)
      requires Valid() && mBuffer != null
      requires |mBuffer.entries| < mBuffer.entryCapacity
      requires DataCount(mBuffer.entries) + DataSize(|data|) <= mBuffer.dataCapacity
      modifies mBuffer
      ensures Valid() && status == Done && mBuffer.entries == Put(old(mBuffer.entries), tag, data)
    {
      var i := mBuffer.Find(tag);
      if i == |mBuffer.entries| {
        status := mBuffer.Add(tag, data);
      } else {
        status := mBuffer.SetAt(i, data);
      }
    }

    /** `data` are the bytes of as many values of the tag's type as the caller names. */
    method UpdateImpl(tag: Tag, known: bool, data: seq<byte>, memory: bool) returns (status: Status)
      requires Valid() && !mLocked
      modifies this, mBuffer
      ensures Valid() && (mBuffer == old(mBuffer) || fresh(mBuffer))
      ensures (View(), status) == Step(old(View()), Update(tag, known, data, memory))
      ensures mBuffer != old(mBuffer) <==> ReplacesBuffer(old(View()), Update(tag, known, data, memory))
    {
      if !known {
        return BadValue;
      }
      ResizeMakesRoom(View().buffer, 1, DataSize(|data|), memory);
      hide DataSize, DataCount, Put, Resized;
      status := ResizeIfNeeded(1, DataSize(|data|), memory);
      if status != Done {
        return;
      }
      status := WriteEntry(tag, data);
    }

    method UpdateTag(tag: Tag, known: bool, data: seq<byte>, memory: bool) returns (status: Status)
      requires Valid()
      modifies this, mBuffer
      ensures Valid() && (mBuffer == old(mBuffer) || fresh(mBuffer))
      ensures (View(), status) == Step(old(View()), Update(tag, known, data, memory))
      ensures mBuffer != old(mBuffer) <==> ReplacesBuffer(old(View()), Update(tag, known, data, memory))
    {
      if mLocked {
        return InvalidOperation;
      }
      status := UpdateImpl(tag, known, data, memory);
    }

    method EraseTag(tag: Tag) returns (status: Status)
      requires Valid()
      modifies mBuffer
      ensures Valid()
      ensures (View(), status) == Step(old(View()), Erase(tag))
    {
      if mBuffer == null {
        return Failed;
      }
      hide DataSize, DataCount;
      RemoveCounts(mBuffer.entries, tag);
      var i := mBuffer.Find(tag);
      if i < |mBuffer.entries| {
        mBuffer.DeleteAt(i);
      }
      return Done;
    }

    /** The data of the tag, if it has an entry. */
    method FindTag(tag: Tag) returns (data: Option<seq<byte>>)
      requires Valid()
      ensures data == if tag in Values(View()) then Some(Values(View())[tag]) else None
    {
      if mBuffer == null {
        return None;
      }
      AsMapAt(mBuffer.entries, tag);
      var i := mBuffer.Find(tag);
      data := if i < |mBuffer.entries| then Some(mBuffer.entries[i].data) else None;
    }

    /** Appends the entries of a buffer, locked or not; a failed resize is noticed only by the append that follows it.
        The object's own buffer can be appended while there is room for it. */
    method AppendBuffer(other: Buffer?, memory: bool) returns (status: Status)
      requires Valid() && (other != null ==> other.Valid())
      requires other != null && other == mBuffer ==>
        !(memory && NeedsBuffer(View().buffer, |other.entries|, DataCount(other.entries)))
      modifies this, mBuffer
      ensures Valid() && (mBuffer == old(mBuffer) || fresh(mBuffer))
      ensures var op := Append(if other == null then None else Some(old(other.entries)), memory);
        (View(), status) == Step(old(View()), op) && (mBuffer != old(mBuffer) <==> ReplacesBuffer(old(View()), op))
    {
      if other == null {
        return Done;
      }
      ghost var entries := other.entries;
      ResizeMakesRoom(View().buffer, |other.entries|, other.dataCount, memory);
      ResizeFailsExactlyWhen(View().buffer, |other.entries|, other.dataCount, memory);
      hide DataCount, Resized, NeedsBuffer;
      var resized := ResizeIfNeeded(|other.entries|, other.dataCount, memory);
      assert other.entries == entries;
      if mBuffer == null {
        return Failed;
      }
      status := mBuffer.AppendFrom(other);
    }

    // ----- handing the buffer out and over -----

    method GetAndLock() returns (buffer: Buffer?)
      modifies this`mLocked
      ensures mLocked && buffer == mBuffer && View() == Step(old(View()), Op.Lock).0
    {
      mLocked := true;
      return mBuffer;
    }

    method UnlockBuffer(buffer: Buffer?) returns (status: Status)
      modifies this`mLocked
      ensures (View(), status) == Step(old(View()), Op.Unlock(buffer == mBuffer))
    {
      if !mLocked {
        return InvalidOperation;
      }
      if buffer != mBuffer {
        return BadValue;
      }
      mLocked := false;
      return Done;
    }

    method Release() returns (released: Buffer?)
      modifies this`mBuffer
      ensures released == (if mLocked then null else old(mBuffer))
      ensures mBuffer == (if mLocked then old(mBuffer) else null) && View() == Step(old(View()), Op.Release).0
    {
      if mLocked {
        return null;
      }
      released := mBuffer;
      mBuffer := null;
    }

    method Clear()
      modifies this`mBuffer
      ensures mBuffer == (if mLocked then old(mBuffer) else null) && View() == Step(old(View()), Op.Clear).0
    {
      if mLocked {
        return;
      }
      if mBuffer != null {
        mBuffer := null;
      }
    }

    method Acquire(buffer: Buffer?)
      modifies this`mBuffer
      ensures mBuffer == if mLocked then old(mBuffer) else buffer
      ensures View() == Step(old(View()), Op.Acquire(if buffer == null then None else Some(buffer.View()))).0
    {
      if mLocked {
        return;
      }
      Clear();
      mBuffer := buffer;
    }

    /** Takes over the other object's buffer; if that is locked, this object ends up without one. */
    method AcquireFrom(other: CameraMetadata)
      modifies this`mBuffer, other`mBuffer
      ensures mBuffer == if mLocked then old(mBuffer) else if other.mLocked then null else old(other.mBuffer)
      ensures other != this ==> other.mBuffer == if mLocked || other.mLocked then old(other.mBuffer) else null
    {
      if mLocked {
        return;
      }
      var released := other.Release();
      Acquire(released);
    }
  }
}

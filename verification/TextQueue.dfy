// text_queue_in.c: the queue of bytes received and not yet committed.
module TextQueues {
  import opened Wire

  const GROW_BY: nat := 2048

  // Exited is not the queue's: a reader answers it where the program exits or
  // goes on with uninitialised memory.
  datatype ReadStatus = ReadOk | ConnTerm | NotFully | Exited

  class TextQueueIn {
    var buffer: array<Byte>
    var length: nat
    var maxSize: nat
    var ptrOffset: nat
    var isConnClosed: bool

    ghost predicate Valid()
      reads this
    {
      buffer.Length == maxSize && ptrOffset <= length <= maxSize
    }

    // Everything since the last commit.
    ghost function Kept(): Bytes
      requires Valid()
      reads this, buffer
    {
      buffer[..length]
    }

    // What the next reads will see.
    ghost function Pending(): Bytes
      requires Valid()
      reads this, buffer
    {
      buffer[ptrOffset..length]
    }

    constructor ()
      ensures Valid() && fresh(buffer) && Kept() == [] && Pending() == [] && !isConnClosed && ptrOffset == 0
    {
      maxSize := GROW_BY;
      buffer := new Byte[GROW_BY];
      ptrOffset, length, isConnClosed := 0, 0, false;
    }

    // ourrealloc
    method Widen(newMaxSize: nat)
      requires Valid() && maxSize <= newMaxSize
      modifies this`buffer, this`maxSize
      ensures Valid() && fresh(buffer) && maxSize == newMaxSize && Kept() == old(Kept())
    {
      var wider := new Byte[newMaxSize];
      for i := 0 to maxSize
        invariant buffer == old(buffer) && maxSize == old(maxSize) == buffer.Length && length <= maxSize
        invariant wider[..i] == buffer[..i]
      {
        wider[i] := buffer[i];
      }
      assert wider[..length] == wider[..maxSize][..length] == buffer[..length];
      buffer, maxSize := wider, newMaxSize;
    }

    method PutBytes(bytes: Bytes)
      requires Valid()
      modifies this`buffer, this`maxSize, this`length, buffer
      ensures Valid() && (buffer == old(buffer) || fresh(buffer))
      ensures Kept() == old(Kept()) + bytes && Pending() == old(Pending()) + bytes
      ensures maxSize == if length <= old(maxSize) then old(maxSize) else length + 2048
    {
      ghost var kept := Kept();
      if length + |bytes| > maxSize {
        Widen(length + |bytes| + GROW_BY);
      }
      CopyIn(bytes);
      length := length + |bytes|;
      assert Kept() == kept + bytes;
      assert Pending() == Kept()[ptrOffset..] == kept[ptrOffset..] + bytes;
    }

    // memcpy to the end of the data.
    method CopyIn(bytes: Bytes)
      requires Valid() && length + |bytes| <= maxSize
      modifies buffer
      ensures buffer[..length + |bytes|] == old(buffer[..length]) + bytes
    {
      for i := 0 to |bytes|
        invariant buffer[..length + i] == old(buffer[..length]) + bytes[..i]
      {
        buffer[length + i] := bytes[i];
      }
    }

    // Reads numBytes bytes or none at all.
    method ReadBytes(numBytes: nat) returns (status: ReadStatus, dest: Bytes)
      requires Valid()
      modifies this`ptrOffset
      ensures Valid() && Kept() == old(Kept())
      ensures match Take(old(Pending()), numBytes)
              case Got(bytes, rest) => status == ReadOk && dest == bytes && Pending() == rest
              case _ => status == (if isConnClosed then ConnTerm else NotFully) && ptrOffset == old(ptrOffset)
    {
      if ptrOffset + numBytes > length {
        return if isConnClosed then ConnTerm else NotFully, [];
      }
      status, dest := ReadOk, buffer[ptrOffset..ptrOffset + numBytes];
      assert dest == Pending()[..numBytes];
      assert buffer[ptrOffset + numBytes..length] == Pending()[numBytes..];
      ptrOffset := ptrOffset + numBytes;
    }

    // memmove of the data from ptrOffset on to the front.
    method MoveToFront()
      requires Valid()
      modifies buffer
      ensures buffer[..length - ptrOffset] == old(Pending())
    {
      ghost var pending := Pending();
      for i := 0 to length - ptrOffset
        invariant forall k | 0 <= k < i :: buffer[k] == pending[k]
        invariant forall k | i <= k < |pending| :: buffer[ptrOffset + k] == pending[k]
      {
        buffer[i] := buffer[ptrOffset + i];
      }
    }

    // Forgets the bytes that were read.
    method Commit()
      requires Valid()
      modifies this`length, this`ptrOffset, buffer
      ensures Valid() && ptrOffset == 0
      ensures Kept() == Pending() == old(Pending())
    {
      MoveToFront();
      length := length - ptrOffset;
      ptrOffset := 0;
    }

    // Takes back the reads since the last commit.
    method Rollback()
      requires Valid()
      modifies this`ptrOffset
      ensures Valid() && ptrOffset == 0
      ensures Kept() == Pending() == old(Kept())
    {
      ptrOffset := 0;
    }
  }
}

/**
 * The power-of-two ring buffer of common/buffer.h.  The C macros keep Index
 * and Outdex as free-running unsigned counters and mask them with size - 1 at
 * every use.  Because the size divides the counters' range (1024 into 65536
 * for the ESP serial buffers, 64 into 256 for the command-line buffer), the
 * masked values are all that is ever observed; the model keeps them already
 * reduced, so `Index++` becomes `Next(index)`.  One slot is kept free, so the
 * capacity is size - 1.
 */
module Buffer {
  import opened Machine

  class Ring {
    const size: nat
    const buf: array<Byte>
    var index: nat
    var outdex: nat

    ghost predicate Valid()
      reads this
    {
      2 <= size && buf.Length == size && index < size && outdex < size
    }

    /** The masked successor of a position: `(k + 1) & (size - 1)`. */
    function Next(k: nat): (r: nat)
      reads this
      requires Valid() && k < size
      ensures r < size
    {
      if k + 1 == size then 0 else k + 1
    }

    /** The masked predecessor of a position: `(k - 1) & (size - 1)`. */
    function Prev(k: nat): (r: nat)
      reads this
      requires Valid() && k < size
      ensures r < size && Next(r) == k
    {
      if k == 0 then size - 1 else k - 1
    }

    /** BufferAmount: `(Index - Outdex) & (size - 1)`, the bytes written and not yet read. */
    function Amount(): (n: nat)
      reads this
      requires Valid()
      ensures n < size
    {
      if index >= outdex then index - outdex else index + size - outdex
    }

    /** BufferCapacity: the buffer holds at most size - 1 bytes. */
    function Capacity(): nat
      reads this
      requires Valid()
    {
      size - 1
    }

    /** BufferSpace: room left before the buffer is full. */
    function Space(): (n: nat)
      reads this
      requires Valid()
      ensures n + Amount() == Capacity()
    {
      Capacity() - Amount()
    }

    /** BufferIsEmpty */
    predicate IsEmpty()
      reads this
      requires Valid()
    {
      Amount() == 0
    }

    /** The bytes waiting to be read, oldest first. */
    ghost function Contents(): (s: seq<Byte>)
      reads this, buf
      requires Valid()
      ensures |s| == Amount()
    {
      var n, o := Amount(), outdex;
      seq(n, i requires 0 <= i < n reads buf => buf[if o + i < size then o + i else o + i - size])
    }

    /** A buffer after BufferInit. */
    constructor Init(size: nat)
      requires 2 <= size
      ensures Valid() && this.size == size && fresh(buf)
      ensures index == 0 && outdex == 0 && Contents() == [] && Space() == size - 1
    {
      this.size := size;
      buf := new Byte[size];
      index, outdex := 0, 0;
    }

    /** BufferInit applied to a buffer in use: empties it. */
    method Reset()
      requires Valid()
      modifies this
      ensures Valid() && index == 0 && outdex == 0 && Contents() == [] && Space() == size - 1
    {
      index, outdex := 0, 0;
    }

    /**
     * BufferWrite: stores at the masked Index and advances Index.  Callers
     * check the space first; a write into a full buffer makes the amount
     * wrap to zero, so the buffer then reads as empty.
     */
    method Write(x: Byte)
      requires Valid()
      modifies this, buf
      ensures Valid() && outdex == old(outdex) && index == old(Next(index))
      ensures buf[..] == old(buf[..])[old(index) := x]
      ensures old(Space()) > 0 ==> Contents() == old(Contents()) + [x]
      ensures old(Space()) == 0 ==> Contents() == []
    {
      ghost var before := Contents();
      buf[index] := x;
      index := Next(index);
      if |before| + 1 < size {
        assert Amount() == |before| + 1;
        forall i | 0 <= i < |before|
          ensures Contents()[i] == before[i]
        {
        }
        assert Contents() == before + [x];
      }
    }

    /** BufferUnWrite: takes back the most recently written byte. */
    method UnWrite()
      requires Valid()
      modifies this
      ensures Valid() && outdex == old(outdex) && index == old(Prev(index))
      ensures old(Amount()) > 0 ==> Contents() == old(Contents())[..old(Amount()) - 1]
      ensures old(Amount()) == 0 ==> Amount() == size - 1
    {
      index := Prev(index);
    }

    /**
     * BufferRead: returns the byte at the masked Outdex and advances Outdex.
     * Callers check emptiness first; reading an empty buffer makes the amount
     * wrap to size - 1.
     */
    method Read() returns (x: Byte)
      requires Valid()
      modifies this
      ensures Valid() && index == old(index)
      ensures old(Amount()) > 0 ==> x == old(Contents())[0] && Contents() == old(Contents())[1..]
      ensures old(Amount()) == 0 ==> Amount() == size - 1
    {
      ghost var before := Contents();
      x := buf[outdex];
      outdex := Next(outdex);
      if |before| > 0 {
        assert before[0] == x;
        forall i | 0 <= i < |before| - 1
          ensures Contents()[i] == before[i + 1]
        {
        }
      }
    }
  }
}

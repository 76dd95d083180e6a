/** `asio::basic_streambuf` as the object it is: an array shifted in place or reallocated, and five positions. */
module BasicStreambuf {
  import opened MachineTypes
  import opened Streambuf

  /** `memmove` of the get area to the front of the buffer. */
  method MoveToFront(buffer: array<byte>, begin: nat, end: nat)
    requires begin <= end <= buffer.Length
    modifies buffer
    ensures buffer[..] == Shifted(old(buffer[..]), begin, end)
  {
    ghost var was := buffer[..];
    var i, size := 0, end - begin;
    while i < size
      invariant 0 <= i <= size
      invariant forall k :: 0 <= k < i ==> buffer[k] == was[begin + k]
      invariant forall k :: i <= k < buffer.Length ==> buffer[k] == was[k]
    {
      buffer[i] := buffer[begin + i];
      i := i + 1;
    }
  }

  /** `std::vector::resize` to a larger size. */
  method Grown(buffer: array<byte>, length: nat) returns (bigger: array<byte>)
    requires buffer.Length <= length
    ensures fresh(bigger) && bigger[..] == buffer[..] + Zeros(length - buffer.Length)
  {
    bigger := new byte[length](_ => 0);
    var i := 0;
    while i < buffer.Length
      invariant 0 <= i <= buffer.Length
      invariant bigger[..i] == buffer[..i]
      invariant bigger[i..] == Zeros(length - i)
    {
      ghost var rest := bigger[i + 1..];
      assert rest == bigger[i..][1..] == Zeros(length - i - 1);
      bigger[i] := buffer[i];
      assert bigger[i + 1..] == rest;
      assert bigger[..i + 1] == bigger[..i] + [buffer[i]];
      i := i + 1;
    }
    assert bigger[..] == bigger[..i] + bigger[i..];
  }

  class BasicStreambuf {
    const maxSize: nat
    var buffer: array<byte>
    var gptr: int
    var egptr: int
    var pptr: int
    var epptr: int

    ghost function View(): Stream
      reads this, buffer
    {
      Stream(buffer[..], gptr, egptr, pptr, epptr, maxSize)
    }

    ghost predicate Valid()
      reads this, buffer
    {
      Inv(View())
    }

    constructor (maximumSize: nat)
      ensures Valid() && fresh(buffer) && View() == Construct(maximumSize)
    {
      maxSize := maximumSize;
      var pend := Min(maximumSize, BUFFER_DELTA);
      buffer := new byte[Max(pend, 1)](_ => 0);
      gptr, egptr, pptr, epptr := 0, 0, 0, pend;
      new;
      assert buffer[..] == Zeros(Max(pend, 1));
    }

    method CurrentSize() returns (size: nat)
      requires Valid()
      ensures size == |Input(View())|
    {
      size := pptr - gptr;
    }

    /** Move the get area to the front, if it is not there. */
    method Shift()
      requires Valid()
      modifies buffer
      ensures buffer[..] == Shifted(old(buffer[..]), gptr, pptr)
    {
      if gptr > 0 {
        MoveToFront(buffer, gptr, pptr);
      } else {
        assert buffer[..] == Shifted(buffer[..], gptr, pptr);
      }
    }

    /** The get area is at the front of the buffer: set the positions, growing the buffer if there is need. */
    method Rebase(n: nat) returns (threw: bool)
      requires Valid()
      modifies this
      ensures Valid() && (buffer == old(buffer) || fresh(buffer))
      ensures View() == Rebased(old(View()), n).stream
      ensures threw <==> Rebased(old(View()), n).Threw?
    {
      var pnext, pend := pptr - gptr, epptr;
      if n > pend - pnext {
        if n <= maxSize && pnext <= maxSize - n {
          pend := pnext + n;
          buffer := Grown(buffer, Max(pend, 1));
        } else {
          return true;
        }
      }
      gptr, egptr := 0, pnext;
      pptr, epptr := pnext, pend;
      return false;
    }

    method ReserveSpace(n: nat) returns (threw: bool)
      requires Valid()
      modifies this, buffer
      ensures Valid() && (buffer == old(buffer) || fresh(buffer))
      ensures View() == Reserve(old(View()), n).stream
      ensures threw <==> Reserve(old(View()), n).Threw?
    {
      if n <= epptr - pptr {
        return false;
      }
      Shift();
      threw := Rebase(n);
    }

    method Prepare(n: nat) returns (threw: bool)
      requires Valid()
      modifies this, buffer
      ensures Valid() && (buffer == old(buffer) || fresh(buffer))
      ensures View() == Reserve(old(View()), n).stream
      ensures threw <==> |old(Input(View()))| + n > maxSize
      ensures !threw ==> Input(View()) == old(Input(View()))
      ensures !threw ==> |Output(View())| == if n <= |old(Output(View()))| then |old(Output(View()))|
                                            else Max(n, |old(Output(View()))| + old(gptr))
    {
      ghost var before := View();
      threw := ReserveSpace(n);
      ReserveMakesRoom(before, n);
      if !threw {
        ReserveIsExact(before, n);
      }
      assert View() == Reserve(before, n).stream;
    }

    method CommitBytes(n: nat)
      requires Valid()
      modifies this`pptr, this`egptr
      ensures View() == Commit(old(View()), n)
      ensures Min(n, |old(Output(View()))|) < TWO_31 ==>
                Valid() && Input(View()) == old(Input(View())) + old(Output(View()))[..Min(n, |old(Output(View()))|)]
    {
      CommitIff(View(), n);
      var m := Min(n, epptr - pptr);
      pptr := pptr + CastToInt(m);
      egptr := pptr;
    }

    method ConsumeBytes(n: nat)
      requires Valid()
      modifies this`gptr, this`egptr
      ensures View() == Consume(old(View()), n)
      ensures Min(n, |old(Input(View()))|) < TWO_31 ==>
                Valid() && Input(View()) == old(Input(View()))[Min(n, |old(Input(View()))|)..]
    {
      ConsumeIff(View(), n);
      if egptr < pptr {
        egptr := pptr;
      }
      var m := n;
      if gptr + m > pptr {
        m := pptr - gptr;
      }
      gptr := gptr + CastToInt(m);
    }

    /** Some(front character), or None for eof. */
    method UnderflowChar() returns (c: Option<byte>)
      requires Valid()
      modifies this`egptr
      ensures Valid() && View() == Underflow(old(View())).0 && Input(View()) == old(Input(View()))
      ensures c == if old(Input(View())) == [] then None else Some(old(Input(View()))[0])
    {
      if gptr < pptr {
        egptr := pptr;
        return Some(buffer[gptr]);
      }
      return None;
    }

    /** `*pptr() = c; pbump(1);` */
    method Store(c: byte)
      requires Valid() && pptr < epptr
      modifies this`pptr, buffer
      ensures Valid() && View() == PutChar(old(View()), c)
    {
      buffer[pptr] := c;
      pptr := pptr + 1;
    }

    /** Room for one more character, or length_error. */
    method MakeRoom() returns (threw: bool)
      requires Valid() && pptr == epptr
      modifies this, buffer
      ensures Valid() && (buffer == old(buffer) || fresh(buffer))
      ensures View() == Reserve(old(View()), Growth(old(View()))).stream
      ensures threw <==> Reserve(old(View()), Growth(old(View()))).Threw?
      ensures !threw ==> pptr < epptr
    {
      ReserveMakesRoom(View(), Growth(View()));
      var bufferSize := pptr - gptr;
      if bufferSize < maxSize && maxSize - bufferSize < BUFFER_DELTA {
        threw := ReserveSpace(maxSize - bufferSize);
      } else {
        threw := ReserveSpace(BUFFER_DELTA);
      }
    }

    /** `c` is None for eof. */
    method OverflowChar(c: Option<byte>) returns (threw: bool)
      requires Valid()
      modifies this, buffer
      ensures Valid() && (buffer == old(buffer) || fresh(buffer))
      ensures View() == Overflow(old(View()), c).stream
      ensures threw <==> Overflow(old(View()), c).Threw?
      ensures c.Some? ==> (threw <==> old(pptr == epptr && Size(View()) == maxSize))
      ensures c.Some? && !threw ==> Input(View()) == old(Input(View())) + [c.value]
    {
      if c.None? {
        return false;
      }
      OverflowThrowsIff(View(), c.value);
      if Overflow(View(), c).Returned? {
        OverflowAppends(View(), c.value);
      }
      if pptr == epptr {
        threw := MakeRoom();
        if threw {
          return true;
        }
      }
      Store(c.value);
      return false;
    }
  }
}

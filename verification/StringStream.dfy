/** stringStream as an object: an array of characters, grown by doubling or fixed. */
module StringStreams {
  import opened Words
  import opened Memory
  import T = TextStream

  lemma SpOne(s: T.Stream)
    requires |s.text| < s.size
    ensures T.Sp(s, 1) == T.Write(s, " ")
  {
  }

  lemma NothingAccepted(s: T.Stream, str: string)
    requires |s.text| < s.size && T.Refused(s, str)
    ensures T.Write(s, str) == s
  {
    assert T.Accepted(s, str) == "";
    assert s.text + "" == s.text && s.history + "" == s.history;
  }

  /** The C heap's character arrays; each is deleted at most once. */
  class CharHeap {
    ghost var live: set<array<char>>

    /** Its contents are left to chance. */
    method NewChars(n: nat) returns (a: array<char>)
      modifies `live
      ensures fresh(a) && a.Length == n && live == old(live) + {a}
    {
      a := new char[n];
      live := live + {a};
    }

    method Delete(a: array<char>)
      requires a in live
      modifies `live
      ensures live == old(live) - {a}
    {
      live := live - {a};
    }
  }

  class StringStream {
    const heap: CharHeap
    var indentation: int
    var position: nat
    var buffer: array<char>
    var bufferSize: nat
    var bufferPos: nat
    const ownsBuffer: bool
    ghost var history: string

    ghost predicate Valid()
      reads this, buffer, heap
    {
      && bufferPos < bufferSize <= buffer.Length
      && (ownsBuffer ==> buffer.Length == bufferSize && buffer in heap.live)
      && (bufferPos > 0 ==> buffer[bufferPos] == '\0')
    }

    ghost function View(): T.Stream
      requires Valid()
      reads this, buffer, heap
    {
      T.Stream(buffer[..bufferPos], bufferSize, ownsBuffer, position, history, buffer[bufferPos])
    }

    /** The buffer is the same or a new one; of the C heap's arrays an owning stream has given up the one and
        has got the other, so it holds exactly one at any time. */
    twostate predicate Exchanged()
      reads this, heap
    {
      && (buffer == old(buffer) || fresh(buffer))
      && heap.live == if ownsBuffer then old(heap.live) - {old(buffer)} + {buffer} else old(heap.live)
    }

    /** A growing stream. */
    constructor (heap: CharHeap)
      modifies heap`live
      ensures Valid() && this.heap == heap && fresh(buffer) && heap.live == old(heap.live) + {buffer}
      ensures View() == T.New(buffer[0]) && indentation == 0
      ensures bufferSize == buffer.Length == 1024 && bufferPos == position == 0 && ownsBuffer
    {
      this.heap := heap;
      var chars := heap.NewChars(1024);
      buffer := chars;
      bufferSize := 1024;
      bufferPos := 0;
      ownsBuffer := true;
      indentation, position, history := 0, 0, "";
    }

    /** A stream over the caller's buffer, which must have room for a terminator. */
    constructor Over(heap: CharHeap, buffer: array<char>, size: nat)
      requires 1 <= size <= buffer.Length
      ensures Valid() && this.heap == heap && this.buffer == buffer
      ensures View() == T.Stream("", size, false, 0, "", buffer[0]) && indentation == 0
    {
      this.heap := heap;
      this.buffer := buffer;
      bufferSize := size;
      bufferPos := 0;
      ownsBuffer := false;
      indentation, position, history := 0, 0, "";
    }

    method UpdatePosition(s: string)
      modifies `position
      ensures position == T.Column(old(position), s)
      ensures (forall i :: 0 <= i < |s| ==> s[i] != '\n' && s[i] != '\t') ==> position == old(position) + |s|
    {
      if forall i :: 0 <= i < |s| ==> s[i] != '\n' && s[i] != '\t' {
        T.ColumnPlain(position, s);
      }
      var i := 0;
      assert s[0..] == s;
      while i < |s|
        invariant 0 <= i <= |s|
        invariant T.Column(position, s[i..]) == T.Column(old(position), s)
      {
        assert s[i..][1..] == s[i + 1..];
        var ch := s[i];
        if ch == '\n' {
          position := 0;
        } else if ch == '\t' {
          var tabStop := 8;
          position := (position / tabStop + 1) * tabStop;
        } else {
          position := position + 1;
        }
        i := i + 1;
      }
    }

    /** The destructor: an owned buffer goes back to the C heap. */
    method Destroy()
      requires Valid()
      modifies heap`live
      ensures heap.live == if ownsBuffer then old(heap.live) - {buffer} else old(heap.live)
    {
      if ownsBuffer {
        heap.Delete(buffer);
      }
    }

    /** Text and terminator go into the buffer; an owned buffer grows first if it has to, a fixed one takes
        what fits. A one-character fixed buffer takes nothing, and then not even a terminator is written. */
    method Write(str: string)
      requires Valid() && bufferPos + |str| < ADDRESS_LIMIT
      modifies this, buffer, heap`live
      ensures Valid() && Exchanged()
      ensures View() == T.Write(old(View()), str) && indentation == old(indentation)
      ensures T.Refused(old(View()), str) ==> buffer == old(buffer) && buffer[..] == old(buffer[..])
    {
      ghost var s := View();
      var kept := str;
      if bufferPos + |str| >= bufferSize {
        var newSize := NextSize(bufferPos + |str|);
        if ownsBuffer {
          Enlarge(newSize);
        } else {
          var len := bufferSize - bufferPos - 1;
          if len <= 0 {
            NothingAccepted(s, str);
            return;
          }
          kept := str[..len];
        }
      }
      PutText(kept);
    }

    /** A text that fits, with its terminator. */
    method PutText(s: string)
      requires bufferPos + |s| < bufferSize <= buffer.Length
      requires ownsBuffer ==> buffer.Length == bufferSize && buffer in heap.live
      modifies `bufferPos, `position, `history, buffer
      ensures Valid()
      ensures View() == T.Stream(old(buffer[..bufferPos]) + s, bufferSize, ownsBuffer,
                                 T.Column(old(position), s), old(history) + s, '\0')
    {
      Place(s);
      UpdatePosition(s);
      history := history + s;
    }

    /** The first power-of-two multiple of the size that leaves room for the need and a terminator. */
    method NextSize(need: Word) returns (newSize: Word)
      requires 1 <= bufferSize <= need < ADDRESS_LIMIT
      ensures newSize == T.GrownSize(bufferSize, need) && need < newSize
    {
      newSize := Add(bufferSize, bufferSize);
      while newSize <= need
        invariant 1 <= newSize <= 2 * need
        invariant T.GrownSize(newSize, need) == T.GrownSize(bufferSize, need)
        decreases need - newSize
      {
        newSize := Add(newSize, newSize);
      }
    }

    /** Move the text to a larger buffer and free the old one. */
    method Enlarge(newSize: nat)
      requires Valid() && ownsBuffer && newSize > bufferSize
      modifies `buffer, `bufferSize, heap`live
      ensures fresh(buffer) && buffer.Length == bufferSize == newSize
      ensures heap.live == old(heap.live) - {old(buffer)} + {buffer}
      ensures buffer[..bufferPos] == old(buffer[..bufferPos])
    {
      var newBuffer := heap.NewChars(newSize);
      var i := 0;
      while i < bufferPos
        invariant buffer == old(buffer) && bufferSize == old(bufferSize) && heap.live == old(heap.live) + {newBuffer}
        invariant 0 <= i <= bufferPos
        invariant newBuffer[..i] == buffer[..i]
      {
        newBuffer[i] := buffer[i];
        i := i + 1;
      }
      heap.Delete(buffer);
      buffer := newBuffer;
      bufferSize := newSize;
    }

    /** Copy the characters behind the text and terminate it. */
    method Place(s: string)
      requires bufferPos + |s| < bufferSize <= buffer.Length
      modifies `bufferPos, buffer
      ensures bufferPos == old(bufferPos) + |s| && buffer[bufferPos] == '\0'
      ensures buffer[..bufferPos] == old(buffer[..bufferPos]) + s
    {
      var i := 0;
      while i < |s|
        invariant 0 <= i <= |s| && bufferPos == old(bufferPos)
        invariant buffer[..bufferPos + i] == old(buffer[..bufferPos]) + s[..i]
      {
        buffer[bufferPos + i] := s[i];
        i := i + 1;
      }
      bufferPos := bufferPos + |s|;
      buffer[bufferPos] := '\0';
    }

    method Sp(count: int)
      requires Valid() && (count > 0 ==> bufferPos + count < ADDRESS_LIMIT)
      modifies this, buffer, heap`live
      ensures Valid() && Exchanged() && indentation == old(indentation)
      ensures View() == T.Sp(old(View()), if count > 0 then count else 0)
      ensures bufferPos <= old(bufferPos) + (if count > 0 then count else 0)
    {
      var i := 0;
      ghost var n := if count > 0 then count else 0;
      while i < count
        invariant 0 <= i <= n && Valid() && Exchanged() && indentation == old(indentation)
        invariant T.Sp(View(), n - i) == T.Sp(old(View()), n)
        invariant bufferPos <= old(bufferPos) + i
      {
        Write(" ");
        i := i + 1;
      }
    }

    method Indent()
      requires Valid() && (indentation > 0 ==> bufferPos + indentation < ADDRESS_LIMIT)
      modifies this, buffer, heap`live
      ensures Valid() && Exchanged() && indentation == old(indentation)
      ensures View() == T.Sp(old(View()), if indentation > 0 then indentation else 0)
    {
      ghost var n := if indentation > 0 then indentation else 0;
      var i := 0;
      while i < indentation
        invariant 0 <= i <= n && Valid() && Exchanged() && indentation == old(indentation)
        invariant T.Sp(View(), n - i) == T.Sp(old(View()), n)
        invariant bufferPos <= old(bufferPos) + i
      {
        SpOne(View());
        Sp(1);
        i := i + 1;
      }
    }

    /** The number of blanks is fixed before the first is written. */
    method FillTo(col: int)
      requires Valid() && (col > position ==> bufferPos + (col - position) < ADDRESS_LIMIT)
      modifies this, buffer, heap`live
      ensures Valid() && Exchanged()
      ensures View() == T.FillTo(old(View()), col)
    {
      var need := col - position;
      ghost var n := if need > 0 then need else 0;
      var i := 0;
      while i < need
        invariant 0 <= i <= n && Valid() && Exchanged() && indentation == old(indentation)
        invariant T.Sp(View(), n - i) == T.Sp(old(View()), n)
        invariant bufferPos <= old(bufferPos) + i
      {
        SpOne(View());
        Sp(1);
        i := i + 1;
      }
    }

    method Cr()
      requires Valid() && bufferPos + 1 < ADDRESS_LIMIT
      modifies this, buffer, heap`live
      ensures Valid() && Exchanged() && View() == T.Cr(old(View()))
    {
      Write("\n");
      position := 0;
    }

    /** A new line unless the column is 0. */
    method Bol()
      requires Valid() && bufferPos + 1 < ADDRESS_LIMIT
      modifies this, buffer, heap`live
      ensures Valid() && Exchanged() && position == 0 && View() == T.Bol(old(View()))
    {
      if position > 0 {
        Cr();
      }
    }

    method Reset()
      requires Valid()
      modifies `bufferPos
      ensures Valid() && View() == T.Reset(old(View()))
    {
      bufferPos := 0;
    }

    /** The text and the character after it, in an array that the caller must free. */
    method AsString() returns (copy: array<char>)
      requires Valid()
      modifies heap`live
      ensures Valid() && fresh(copy) && heap.live == old(heap.live) + {copy}
      ensures copy[..] == T.Copy(View()) == buffer[..bufferPos + 1]
    {
      copy := heap.NewChars(bufferPos + 1);
      var i := 0;
      while i < bufferPos + 1
        invariant 0 <= i <= bufferPos + 1 && heap.live == old(heap.live) + {copy}
        invariant copy[..i] == buffer[..i]
      {
        copy[i] := buffer[i];
        i := i + 1;
      }
      assert copy[..] == copy[..bufferPos + 1] == buffer[..bufferPos] + [buffer[bufferPos]];
    }
  }
}

/** Sequences that grow in place: the operations on a buffer with a capacity, and what they do to the list
    of elements. */
module Sequences {
  import opened Common

  function Repeat<T>(x: T, n: nat): (s: seq<T>)
    ensures |s| == n && forall i :: 0 <= i < n ==> s[i] == x
  {
    seq(n, _ => x)
  }

  /** CORBA_sequence with its element type; `zero` is an element of zeroed memory. Elements of the `inline`
      kinds need no freeing. */
  class OrbSequence<T(==)> {
    var buffer: array<T>
    var length: nat
    var maximum: nat
    const zero: T
    const inline: bool
    ghost var moves: nat     // elements moved by reallocations

    ghost predicate Valid()
      reads this, buffer
    {
      && length <= maximum == buffer.Length < 0x1_0000_0000
      && (!inline ==> forall i :: length <= i < maximum ==> buffer[i] == zero)
    }

    ghost function Contents(): seq<T>
      requires length <= buffer.Length
      reads this, buffer
    {
      buffer[..length]
    }

    constructor (zero: T, inline: bool)
      ensures Valid() && fresh(buffer) && Contents() == [] && maximum == 0 && moves == 0
      ensures this.zero == zero && this.inline == inline
    {
      this.zero, this.inline := zero, inline;
      buffer := new T[0];
      length, maximum, moves := 0, 0, 0;
    }

    /** MateCORBA_realloc_tcval: the elements move, and the rest of the new memory is zeroed. */
    method Realloc(newLen: nat)
      requires length <= maximum == buffer.Length < newLen < 0x1_0000_0000
      modifies this`buffer, this`maximum, this`moves
      ensures fresh(buffer) && maximum == buffer.Length == newLen && moves == old(moves) + old(maximum)
      ensures buffer[..] == old(buffer[..]) + Repeat(zero, newLen - old(maximum))
    {
      var old0 := buffer;
      var mem := new T[newLen](_ => zero);
      forall i | 0 <= i < old0.Length {
        mem[i] := old0[i];
      }
      buffer, maximum, moves := mem, newLen, moves + old0.Length;
    }

    /** MateCORBA_sequence_append: the capacity doubles when it is used up. */
    method Append(element: T)
      requires Valid() && maximum < 0x8000_0000
      modifies this, buffer
      ensures Valid() && Contents() == old(Contents()) + [element] && (buffer == old(buffer) || fresh(buffer))
      ensures maximum == if old(length) == old(maximum) then Max(2, 2 * old(maximum)) else old(maximum)
      ensures moves == old(moves) + if old(length) == old(maximum) then old(maximum) else 0
    {
      ghost var before := Contents();
      if length == maximum {
        Realloc(Max(2, maximum * 2));
      }
      assert buffer[..length] == before;
      buffer[length] := element;
      length := length + 1;
    }

    /** MateCORBA_sequence_remove: the elements behind it move down, and the last one is zeroed. */
    method Remove(idx: nat)
      requires Valid() && idx < length
      modifies this`length, buffer
      ensures Valid() && buffer == old(buffer) && maximum == old(maximum)
      ensures Contents() == old(Contents())[..idx] + old(Contents())[idx + 1..]
      ensures buffer[length] == zero
    {
      var i := idx;
      while i < length - 1
        invariant idx <= i < length == old(length) <= buffer.Length
        invariant forall k :: 0 <= k < buffer.Length ==>
          buffer[k] == if idx <= k < i then old(buffer[k + 1]) else old(buffer[k])
      {
        buffer[i] := buffer[i + 1];
        i := i + 1;
      }
      buffer[length - 1] := zero;
      length := length - 1;
    }

    /** MateCORBA_sequence_set_size. Shrinking keeps a prefix. Growing keeps the elements; new ones are zero,
        except that inline elements may show what an earlier, longer list had at their places. */
    method SetSize(n: nat)
      requires Valid() && n < 0x1_0000_0000 && maximum < 0x8000_0000
      modifies this, buffer
      ensures Valid() && length == n && (buffer == old(buffer) || fresh(buffer))
      ensures n <= old(length) ==> Contents() == old(Contents())[..n] && buffer == old(buffer)
      ensures n > old(length) ==> Contents()[..old(length)] == old(Contents())
      ensures n > old(length) && !inline ==> Contents() == old(Contents()) + Repeat(zero, n - old(length))
      ensures n > old(length) && inline ==> forall i :: old(length) <= i < n ==>
        Contents()[i] == if i < old(maximum) then old(buffer[i]) else zero
    {
      if length == n {
        return;
      }
      if n < length {
        if !inline {
          var i := n;
          while i < length
            invariant n <= i <= length == old(length) && buffer == old(buffer) && maximum == old(maximum)
            invariant forall k :: 0 <= k < buffer.Length ==> buffer[k] == if n <= k < i then zero else old(buffer[k])
          {
            buffer[i] := zero;
            i := i + 1;
          }
        }
      } else if n > maximum {
        Realloc(Max(n, maximum * 2));
      }
      length := n;
    }

    /** MateCORBA_sequence_concat, of another sequence or an empty one. */
    method ConcatWith(other: OrbSequence<T>)
      requires Valid() && other.Valid() && ((other != this && other.buffer != buffer) || other.length == 0)
      requires length + other.length < 0x4000_0000 && maximum < 0x8000_0000
      modifies this, buffer
      ensures Valid() && Contents() == old(Contents()) + old(other.Contents())
      ensures other.Valid() && other.Contents() == old(other.Contents())
    {
      var i := 0;
      while i < other.length
        invariant i <= other.length == old(other.length) && Valid() && other.Valid() && other.buffer == old(other.buffer)
        invariant buffer == old(buffer) || fresh(buffer)
        invariant (other.length == 0 || buffer != other.buffer) && other.buffer[..] == old(other.buffer[..])
        invariant Contents() == old(Contents()) + other.buffer[..i] && maximum < 0x8000_0000
        invariant length == old(length) + i
      {
        Append(other.buffer[i]);
        assert other.buffer[..i + 1] == other.buffer[..i] + [other.buffer[i]];
        i := i + 1;
      }
    }
  }

  /** MateCORBA_sequence_concat of a sequence to itself: it grows as fast as the loop advances, so after any number
      of rounds the loop goes on, exactly if the sequence was not empty. */
  method ConcatSelf<T>(s: OrbSequence<T>, rounds: nat) returns (goesOn: bool)
    requires s.Valid() && s.length + rounds < 0x4000_0000 && s.maximum < 0x8000_0000
    modifies s, s.buffer
    ensures goesOn <==> old(s.length) > 0
  {
    var i := 0;
    while i < rounds && i < s.length
      invariant i <= rounds && s.Valid() && s.length == old(s.length) + i && s.maximum < 0x8000_0000
      invariant i > 0 ==> old(s.length) > 0
      invariant s.buffer == old(s.buffer) || fresh(s.buffer)
    {
      s.Append(s.buffer[i]);
      i := i + 1;
    }
    goesOn := i < s.length;
  }

  /** n appends to an empty sequence: fewer than 2n elements are moved. */
  method AppendAll<T>(elements: seq<T>, zero: T, inline: bool) returns (s: OrbSequence<T>)
    requires |elements| < 0x4000_0000
    ensures fresh(s) && s.Valid() && s.Contents() == elements
    ensures elements != [] ==> s.moves + 2 <= s.maximum <= 2 * |elements|
  {
    s := new OrbSequence(zero, inline);
    var i := 0;
    while i < |elements|
      invariant i <= |elements| && fresh(s) && fresh(s.buffer) && s.Valid() && s.Contents() == elements[..i]
      invariant if i == 0 then s.maximum == 0 && s.moves == 0 else 2 <= s.maximum <= 2 * i && s.moves + 2 <= s.maximum
    {
      s.Append(elements[i]);
      i := i + 1;
    }
    assert elements[..i] == elements;
  }

  const FIRST_ALLOC: nat := 4096

  /** The growth of the buffer while a sequence is demarshalled: the elements are written into memory for
      at most twice as many as have arrived, and in the end it holds exactly as many as were announced. */
  method FillGrowing<T>(arriving: seq<T>, zero: T) returns (buffer: array<T>)
    requires 0 < |arriving| <= 0x8000_0000
    ensures fresh(buffer) && buffer[..] == arriving
  {
    var length := |arriving|;
    var alloc := FIRST_ALLOC;
    buffer := new T[Min(length, alloc)](_ => zero);
    var i := 0;
    while i < length
      invariant i <= length && i <= alloc && FIRST_ALLOC <= alloc && (alloc == FIRST_ALLOC || alloc <= 2 * length)
      invariant fresh(buffer) && buffer.Length == Min(alloc, length)
      invariant buffer[..i] == arriving[..i]
    {
      if i == alloc {
        assert (alloc * 2) % 0x1_0000_0000 == if alloc < 0x8000_0000 then alloc * 2 else 0;
        var bigger := new T[Min(alloc * 2, length)](_ => zero);
        forall k | 0 <= k < buffer.Length {
          bigger[k] := buffer[k];
        }
        assert bigger[..i] == buffer[..i];
        buffer, alloc := bigger, alloc * 2;
      }
      buffer[i] := arriving[i];
      i := i + 1;
    }
    assert buffer[..] == buffer[..i] && arriving[..i] == arriving;
  }
}

/** The parts of the path identifier code that update state in place: the `*=` operator, the
    encoder loop that multiplies an accumulator one element at a time, and the path iterator
    whose `next` peels one continued-fraction term off its current identifier per call.  Each is
    proved against the pure encoder and decoder of `PathIds`. */
module PathState {
  import opened Wrappers
  import opened PathIds

  /** A path identifier held in a mutable place, as `&mut PathIdentifier` is in the source. */
  class MutablePathIdentifier {
    var a: nat
    var b: nat
    var c: nat
    var d: nat

    /** The identifier currently held. */
    function Value(): PathIdentifier
      reads this
    {
      PathIdentifier(a, b, c, d)
    }

    constructor (id: PathIdentifier)
      ensures Value() == id
    {
      a, b, c, d := id.a, id.b, id.c, id.d;
    }

    /** `self *= other`: all four old entries are read before any is overwritten, so the new
        value is the matrix product of the old value and `other`. */
    method MulAssign(other: PathIdentifier)
      modifies this
      ensures Value() == Mul(old(Value()), other)
    {
      var s0, s1, s2, s3 := a, b, c, d;
      a := s0 * other.a + s1 * other.c;
      b := s0 * other.b + s1 * other.d;
      c := s2 * other.a + s3 * other.c;
      d := s2 * other.b + s3 * other.d;
    }
  }

  /** Collecting path elements into an identifier: start at the root and multiply in the
      elementary matrix of `piece + FUDGE` for each piece, in order. */
  method FromIter(pieces: seq<nat>) returns (id: PathIdentifier)
    ensures id == Encode(pieces)
  {
    var acc := new MutablePathIdentifier(Root());
    var i := 0;
    while i < |pieces|
      invariant 0 <= i <= |pieces|
      invariant acc.Value() == Encode(pieces[..i])
    {
      EncodeAppend(pieces[..i], pieces[i]);
      assert pieces[..i + 1] == pieces[..i] + [pieces[i]];
      acc.MulAssign(FromPathElement(pieces[i] + FUDGE));
      i := i + 1;
    }
    assert pieces[..i] == pieces;
    id := acc.Value();
  }

  /** Converting a vector of path elements collects its elements. */
  method FromVec(pieces: seq<nat>) returns (id: PathIdentifier)
    ensures id == Encode(pieces)
    ensures pieces == [] <==> IsRoot(id)
  {
    id := FromIter(pieces);
    EncodeShape(pieces);
  }

  /** The decoder's state: a private copy of the identifier, reduced by one term per call.
      `remaining` is the part of the path still to be produced; the copy is always its
      encoding. */
  class PathIterator {
    const current: MutablePathIdentifier
    ghost var remaining: seq<nat>

    ghost predicate Valid()
      reads this, current
    {
      current.Value() == Encode(remaining)
    }

    /** Starts an iterator on a copy of `id`, with the whole path of `id` still to come. */
    constructor (id: PathIdentifier)
      requires IsEncoding(id)
      ensures Valid() && fresh(current)
      ensures current.Value() == id && remaining == Decode(id)
    {
      current := new MutablePathIdentifier(id);
      remaining := Decode(id);
    }

    /** At the root there is nothing left and nothing changes.  Otherwise the quotient of the
        first column is the next element plus FUDGE, the current identifier becomes the encoding
        of the rest of the path (neither subtraction goes below zero), and its first entry
        strictly decreases. */
    method Next() returns (r: Option<nat>)
      requires Valid()
      modifies this, current
      ensures Valid()
      ensures old(remaining) == [] ==>
        r == None && remaining == [] && current.Value() == old(current.Value())
      ensures old(remaining) != [] ==>
        && r == Some(old(remaining)[0] + FUDGE)
        && remaining == old(remaining)[1..]
        && CanPeel(old(current.Value()))
        && current.Value() == Peel(old(current.Value()))
        && current.a < old(current.a)
    {
      EncodeShape(remaining);
      if IsRoot(current.Value()) {
        return None;
      }
      var x, w := remaining[0], remaining[1..];
      assert remaining == [x] + w;
      PeelEncode(x, w);
      var result := current.a / current.c;
      var s0, s1, s2, s3 := current.a, current.b, current.c, current.d;
      current.a := s2;
      current.b := s3;
      current.c := s0 - s2 * result;
      current.d := s1 - s3 * result;
      remaining := w;
      return Some(result);
    }
  }

  /** The path of an identifier: run the iterator to the end, subtracting FUDGE from every
      term.  The loop stops because the iterator's first entry decreases at every step. */
  method Path(id: PathIdentifier) returns (p: seq<nat>)
    requires IsEncoding(id)
    ensures p == Decode(id)
  {
    var it := new PathIterator(id);
    ghost var path := it.remaining;
    p := [];
    while true
      invariant it.Valid() && fresh(it.current)
      invariant p + it.remaining == path
      decreases it.current.a
    {
      var r := it.Next();
      if r == None {
        return;
      }
      p := p + [r.value - FUDGE];
    }
  }
}

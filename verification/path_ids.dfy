/** Path identifiers as values: the 2x2 matrix `PathIdentifier(a, b, c, d)`, the elementary
    matrix of one path element, the matrix product, the encoder as a left fold and the decoder
    as Euclid-style peeling.  Entries are unbounded naturals. */
module PathIds {

  /** The offset added to every path element before it becomes a continued-fraction term, so
      that every term is at least 2 and no encoding ends in the ambiguous term 1. */
  const FUDGE: nat := 2

  /** The matrix | a b ; c d |; `a`, `b`, `c`, `d` are the tuple fields `.0`, `.1`, `.2`, `.3`. */
  datatype PathIdentifier = PathIdentifier(a: nat, b: nat, c: nat, d: nat)

  /** The identifier of the empty path: the identity matrix. */
  function Root(): PathIdentifier {
    PathIdentifier(1, 0, 0, 1)
  }

  predicate IsRoot(id: PathIdentifier) {
    id.b == 0
  }

  /** The elementary matrix | term 1 ; 1 0 | of one continued-fraction term. */
  function FromPathElement(term: nat): PathIdentifier {
    PathIdentifier(term, 1, 1, 0)
  }

  /** The 2x2 matrix product `x * y`. */
  function Mul(x: PathIdentifier, y: PathIdentifier): PathIdentifier {
    PathIdentifier(
      x.a * y.a + x.b * y.c,
      x.a * y.b + x.b * y.d,
      x.c * y.a + x.d * y.c,
      x.c * y.b + x.d * y.d)
  }

  lemma RootIsIdentity(x: PathIdentifier)
    ensures IsRoot(Root())
    ensures Mul(Root(), x) == x && Mul(x, Root()) == x
  {
  }

  /** One entry of a triple product, regrouped. */
  lemma RegroupEntry(p: nat, q: nat, ya: nat, yb: nat, yc: nat, yd: nat, s: nat, t: nat)
    ensures (p * ya + q * yc) * s + (p * yb + q * yd) * t
         == p * (ya * s + yb * t) + q * (yc * s + yd * t)
  {
  }

  lemma MulAssociative(x: PathIdentifier, y: PathIdentifier, z: PathIdentifier)
    ensures Mul(Mul(x, y), z) == Mul(x, Mul(y, z))
  {
    RegroupEntry(x.a, x.b, y.a, y.b, y.c, y.d, z.a, z.c);
    RegroupEntry(x.a, x.b, y.a, y.b, y.c, y.d, z.b, z.d);
    RegroupEntry(x.c, x.d, y.a, y.b, y.c, y.d, z.a, z.c);
    RegroupEntry(x.c, x.d, y.a, y.b, y.c, y.d, z.b, z.d);
  }

  /** Right-multiplying by an elementary matrix moves the first column into the second. */
  lemma MulElement(x: PathIdentifier, k: nat)
    ensures Mul(x, FromPathElement(k)) == PathIdentifier(k * x.a + x.b, x.a, k * x.c + x.d, x.c)
  {
  }

  /** Left-multiplying by an elementary matrix moves the first row into the second. */
  lemma ElementMul(k: nat, y: PathIdentifier)
    ensures Mul(FromPathElement(k), y) == PathIdentifier(k * y.a + y.c, k * y.b + y.d, y.a, y.b)
  {
  }

  /** `k * c + k <= k * a` whenever `c < a`. */
  lemma MulBelow(c: nat, a: nat, k: nat)
    requires c < a
    ensures k * c + k <= k * a
  {
    var e := a - c - 1;
    assert k * a == k * c + k + k * e;
  }

  /** The encoder: start from the root and right-multiply by the elementary matrix of
      `element + FUDGE` for each element, left to right.  The product with the elementary
      matrix is written out entry by entry (the old first column becomes the second column);
      `EncodeAppend` shows that it is `Mul`. */
  function Encode(v: seq<nat>): PathIdentifier {
    if v == [] then Root()
    else
      var prev, k := Encode(v[..|v| - 1]), v[|v| - 1] + FUDGE;
      PathIdentifier(k * prev.a + prev.b, prev.a, k * prev.c + prev.d, prev.c)
  }

  /** The encoder is the left fold of `Mul` from the root: appending an element multiplies
      the identifier on the right by that element's matrix, which moves the old first column
      into the second column. */
  lemma EncodeAppend(v: seq<nat>, x: nat)
    ensures Encode(v + [x]) == Mul(Encode(v), FromPathElement(x + FUDGE))
    ensures var id, k := Encode(v), x + FUDGE;
      Encode(v + [x]) == PathIdentifier(k * id.a + id.b, id.a, k * id.c + id.d, id.c)
  {
    assert (v + [x])[..|v|] == v;
    MulElement(Encode(v), x + FUDGE);
  }

  /** Every encoding has the shape the decoder relies on: its first column is a fraction
      `a / c` with `c < a`, its second column is zero exactly for the empty path (which is
      encoded by the root alone), and below the root `c >= 1` and `d < b`. */
  lemma {:induction false} EncodeShape(v: seq<nat>)
    ensures var id := Encode(v);
      1 <= id.a && id.c < id.a
      && (id.b == 0 <==> v == [])
      && (v == [] ==> id == Root())
      && (v != [] ==> 1 <= id.c && id.d < id.b)
    decreases |v|
  {
    if v != [] {
      var init, x := v[..|v| - 1], v[|v| - 1];
      assert v == init + [x];
      var prev, k := Encode(init), x + FUDGE;
      EncodeShape(init);
      EncodeAppend(init, x);
      MulBelow(prev.c, prev.a, k);
      MulBelow(0, prev.a, k);
    }
  }

  /** The fold can be read from the front as well: the first element's matrix is the leftmost
      factor of the product. */
  lemma {:induction false} EncodeCons(x: nat, w: seq<nat>)
    ensures Encode([x] + w) == Mul(FromPathElement(x + FUDGE), Encode(w))
    decreases |w|
  {
    var e := FromPathElement(x + FUDGE);
    if w == [] {
      assert [x] + w == [] + [x];
      EncodeAppend([], x);
      RootIsIdentity(e);
    } else {
      var w', y := w[..|w| - 1], w[|w| - 1];
      assert [x] + w == ([x] + w') + [y];
      assert w == w' + [y];
      EncodeAppend([x] + w', y);
      EncodeAppend(w', y);
      EncodeCons(x, w');
      MulAssociative(e, Encode(w'), FromPathElement(y + FUDGE));
    }
  }

  /** The next continued-fraction term of `id`: the quotient of its first column. */
  function Quotient(id: PathIdentifier): nat
    requires id.c != 0
  {
    id.a / id.c
  }

  /** A decoding step on `id` stays within the naturals: the first column has a quotient and
      neither row subtraction goes below zero. */
  predicate CanPeel(id: PathIdentifier) {
    id.c != 0 && id.c * Quotient(id) <= id.a && id.d * Quotient(id) <= id.b
  }

  /** What is left of `id` once the elementary matrix of its next term is peeled off the left:
      the second row moves up and the remainders of the division go below it. */
  function Peel(id: PathIdentifier): PathIdentifier
    requires CanPeel(id)
  {
    var q := Quotient(id);
    PathIdentifier(id.c, id.d, id.a - id.c * q, id.b - id.d * q)
  }

  /** `n / d == q` when `n == q * d + r` and `0 <= r < d`. */
  lemma DivisionIsUnique(n: nat, d: nat, q: nat, r: nat)
    requires r < d && n == q * d + r
    ensures n / d == q
  {
    var q', r' := n / d, n % d;
    assert n == q' * d + r';
    if q' < q {
      MulBelow(q', q, d);
    } else if q < q' {
      MulBelow(q, q', d);
    }
  }

  /** The arithmetic of one decoding step on `| k*a + c  k*b + d ; a  b |` with `c < a`. */
  lemma PeelArithmetic(k: nat, a: nat, b: nat, c: nat, d: nat)
    requires c < a
    ensures (k * a + c) / a == k
    ensures a * k <= k * a + c && (k * a + c) - a * k == c
    ensures b * k <= k * b + d && (k * b + d) - b * k == d
  {
    DivisionIsUnique(k * a + c, a, k, c);
  }

  /** One decoding step on the encoding of `[x] + w`: the next term is `x + FUDGE`, the second
      subtraction stays non-negative, what is left is the encoding of `w`, and its first
      component is strictly smaller. */
  lemma PeelEncode(x: nat, w: seq<nat>)
    ensures var id := Encode([x] + w);
      CanPeel(id) && Quotient(id) == x + FUDGE
      && Peel(id) == Encode(w) && Encode(w).a < id.a
  {
    var k := x + FUDGE;
    var id, rest := Encode([x] + w), Encode(w);
    EncodeCons(x, w);
    ElementMul(k, rest);
    EncodeShape(w);
    PeelArithmetic(k, rest.a, rest.b, rest.c, rest.d);
    MulBelow(0, rest.a, k);
  }

  /** The identifiers the encoder can produce; only these are decoded. */
  ghost predicate IsEncoding(id: PathIdentifier) {
    exists v :: Encode(v) == id
  }

  /** On an encoding, `IsRoot` means the root itself, and any other encoding can take one
      decoding step: its next term is at least FUDGE, peeling it leaves an encoding with a
      smaller first component, and multiplying the term back on the left restores `id`. */
  lemma PeelStep(id: PathIdentifier)
    requires IsEncoding(id)
    ensures IsRoot(id) ==> id == Root()
    ensures !IsRoot(id) ==>
      CanPeel(id) && Quotient(id) >= FUDGE
      && IsEncoding(Peel(id)) && Peel(id).a < id.a
      && Mul(FromPathElement(Quotient(id)), Peel(id)) == id
  {
    var v :| Encode(v) == id;
    EncodeShape(v);
    if v != [] {
      var x, w := v[0], v[1..];
      assert v == [x] + w;
      PeelEncode(x, w);
      EncodeCons(x, w);
    }
  }

  /** The decoder: peel one elementary factor per step until the root is reached, reporting
      each term minus FUDGE.  Whatever it returns encodes back to `id`. */
  function Decode(id: PathIdentifier): (p: seq<nat>)
    requires IsEncoding(id)
    ensures Encode(p) == id
    decreases id.a
  {
    PeelStep(id);
    if IsRoot(id) then []
    else
      var q := Quotient(id);
      var tail := Decode(Peel(id));
      EncodeCons(q - FUDGE, tail);
      [q - FUDGE] + tail
  }

  /** Decoding the encoding of `[x] + w` produces `x` and then decodes the encoding of `w`. */
  lemma DecodeStep(x: nat, w: seq<nat>)
    ensures IsEncoding(Encode(w)) && IsEncoding(Encode([x] + w))
    ensures Decode(Encode([x] + w)) == [x] + Decode(Encode(w))
  {
    var id := Encode([x] + w);
    PeelEncode(x, w);
    EncodeShape([x] + w);
    assert !IsRoot(id);
    assert Decode(id) == [Quotient(id) - FUDGE] + Decode(Peel(id));
  }

  /** Round trip: decoding an encoding gives back the exact path, including the empty one. */
  lemma {:induction false} DecodeEncode(v: seq<nat>)
    ensures Decode(Encode(v)) == v
    decreases |v|
  {
    if v != [] {
      var x, w := v[0], v[1..];
      assert v == [x] + w;
      DecodeStep(x, w);
      DecodeEncode(w);
    }
  }

  /** Distinct paths have distinct identifiers; `[3, 5, 1]` and `[3, 6]` in particular. */
  lemma EncodeInjective(v1: seq<nat>, v2: seq<nat>)
    requires Encode(v1) == Encode(v2)
    ensures v1 == v2
  {
    DecodeEncode(v1);
    DecodeEncode(v2);
  }

  /** `IsRoot` recognises exactly the empty path among encodings, and the root is the only
      encoding that decodes to no elements. */
  lemma IsRootIffEmpty(id: PathIdentifier)
    requires IsEncoding(id)
    ensures IsRoot(id) <==> Decode(id) == []
    ensures IsRoot(id) <==> id == Root()
  {
    var v :| Encode(v) == id;
    DecodeEncode(v);
  }

  /** Without the offset the continued fractions of `[3, 5, 1]` and `[3, 6]` are the same
      rational number 19/6: the first columns of the two products agree. */
  lemma UnshiftedTermsCollide()
    ensures var long := Mul(Mul(FromPathElement(3), FromPathElement(5)), FromPathElement(1));
      var short := Mul(FromPathElement(3), FromPathElement(6));
      long.a == short.a == 19 && long.c == short.c == 6 && long != short
  {
    var e3, e5, e1, e6 := FromPathElement(3), FromPathElement(5), FromPathElement(1), FromPathElement(6);
    assert Mul(e3, e5) == PathIdentifier(16, 3, 5, 1);
    assert Mul(PathIdentifier(16, 3, 5, 1), e1) == PathIdentifier(19, 16, 6, 5);
    assert Mul(e3, e6) == PathIdentifier(19, 3, 6, 1);
  }
}

/** Keys as byte strings: the big-endian encoding of integers, and of lists of them, keeps their order. */
module OrderedEncoding {
  import opened ByteStrings

  datatype Decoded<+T> = Decoded(value: T) | Invalid

  function Pow256(w: nat): (p: nat)
    ensures 1 <= p
  {
    if w == 0 then 1 else 256 * Pow256(w - 1)
  }

  // ---------- one unsigned integer of `w` bytes ----------

  function ToBytes(x: nat, w: nat): (b: Bytes)
    requires x < Pow256(w)
    ensures |b| == w
  {
    if w == 0 then [] else ToBytes(x / 256, w - 1) + [x % 256]
  }

  function FromBigEndian(b: Bytes): (x: nat)
    ensures x < Pow256(|b|)
  {
    if b == [] then 0 else 256 * FromBigEndian(b[..|b| - 1]) + b[|b| - 1]
  }

  function FromSlice(b: Bytes, w: nat): Decoded<nat> {
    if |b| != w then Invalid else Decoded(FromBigEndian(b))
  }

  lemma {:induction false} IntRoundTrip(x: nat, w: nat)
    requires x < Pow256(w)
    ensures FromBigEndian(ToBytes(x, w)) == x
  {
    if w != 0 {
      IntRoundTrip(x / 256, w - 1);
      assert ToBytes(x, w)[..w - 1] == ToBytes(x / 256, w - 1);
    }
  }

  lemma {:induction false} BytesRoundTrip(b: Bytes)
    ensures ToBytes(FromBigEndian(b), |b|) == b
  {
    if b != [] {
      var x := FromBigEndian(b[..|b| - 1]);
      assert (256 * x + b[|b| - 1]) / 256 == x && (256 * x + b[|b| - 1]) % 256 == b[|b| - 1];
      BytesRoundTrip(b[..|b| - 1]);
      assert b == b[..|b| - 1] + [b[|b| - 1]];
    }
  }

  /** Behind parts of equal length, the first parts decide the order unless they are equal. */
  lemma {:induction false} BelowInParts(p: Bytes, q: Bytes, r: Bytes, s: Bytes)
    requires |p| == |q|
    ensures Below(p + r, q + s) <==> Below(p, q) || (p == q && Below(r, s))
  {
    if p == [] {
      assert p + r == r && q + s == s;
    } else {
      assert (p + r)[1..] == p[1..] + r && (q + s)[1..] == q[1..] + s;
      BelowInParts(p[1..], q[1..], r, s);
      assert p == [p[0]] + p[1..] && q == [q[0]] + q[1..];
    }
  }

  /** The encoding is an order embedding. */
  lemma {:induction false} IntOrder(a: nat, b: nat, w: nat)
    requires a < Pow256(w) && b < Pow256(w)
    ensures a < b <==> Below(ToBytes(a, w), ToBytes(b, w))
    decreases w
  {
    if w != 0 {
      var p, q := ToBytes(a / 256, w - 1), ToBytes(b / 256, w - 1);
      IntOrder(a / 256, b / 256, w - 1);
      IntOrder(b / 256, a / 256, w - 1);
      BelowIrreflexive(p);
      BelowTotal(p, q);
      BelowInParts(p, q, [a % 256], [b % 256]);
      assert p == q <==> a / 256 == b / 256 by {
        if a / 256 == b / 256 { assert p == q; }
      }
    }
  }

  /** A slice decodes exactly if it has the width of the type, and then it is the encoding of what it decodes to. */
  lemma FromSliceExactly(b: Bytes, w: nat)
    ensures FromSlice(b, w).Decoded? <==> exists x: nat :: x < Pow256(w) && ToBytes(x, w) == b
    ensures FromSlice(b, w).Decoded? ==> FromSlice(b, w).value < Pow256(w) && ToBytes(FromSlice(b, w).value, w) == b
  {
    if |b| == w { BytesRoundTrip(b); }
  }

  // ---------- lists of unsigned integers ----------

  ghost predicate Fits(xs: seq<nat>, w: nat) {
    forall i :: 0 <= i < |xs| ==> xs[i] < Pow256(w)
  }

  function ListToBytes(xs: seq<nat>, w: nat): (b: Bytes)
    requires Fits(xs, w)
  {
    if xs == [] then [] else ToBytes(xs[0], w) + ListToBytes(xs[1..], w)
  }

  lemma {:induction false} ListLength(xs: seq<nat>, w: nat)
    requires 0 < w && Fits(xs, w)
    ensures var n := |ListToBytes(xs, w)|; n == w * |xs| && n % w == 0 && n / w == |xs|
  {
    if xs != [] {
      ListLength(xs[1..], w);
      assert w * |xs| == w + w * (|xs| - 1);
    }
    MultipleOf(|xs|, w, |ListToBytes(xs, w)|);
  }

  /** The chunks of `w` bytes, decoded one by one. */
  function DecodeChunks(b: Bytes, w: nat): (xs: seq<nat>)
    requires 0 < w && |b| % w == 0
    ensures Fits(xs, w) && |xs| == |b| / w
  {
    if b == [] then []
    else
      ChunkCount(|b|, w);
      [FromBigEndian(b[..w])] + DecodeChunks(b[w..], w)
  }

  lemma ChunkCount(n: nat, w: nat)
    requires 0 < w && 0 < n && n % w == 0
    ensures w <= n && (n - w) % w == 0 && (n - w) / w == n / w - 1
  {
    assert n == w * (n / w);
    var k := n / w - 1;
    assert w * (k + 1) == w * k + w;
    MultipleOf(k, w, n - w);
  }

  lemma MultipleOf(k: nat, w: nat, n: nat)
    requires 0 < w && n == w * k
    ensures n % w == 0 && n / w == k
  {
    var d := k - n / w;
    assert w * d == w * k - w * (n / w) == n % w;
    assert d >= 1 ==> w * d >= w;
    assert d <= -1 ==> w * d + w <= 0;
  }

  function ListFromSlice(b: Bytes, w: nat): Decoded<seq<nat>>
    requires 0 < w
  {
    if |b| % w != 0 then Invalid else Decoded(DecodeChunks(b, w))
  }

  /** The order of lists: a proper prefix comes first, and otherwise the first difference decides. */
  predicate ListBelow(xs: seq<int>, ys: seq<int>) {
    if ys == [] then false
    else if xs == [] then true
    else xs[0] < ys[0] || (xs[0] == ys[0] && ListBelow(xs[1..], ys[1..]))
  }

  /** Lists of any lengths keep their order. */
  lemma {:induction false} ListOrder(xs: seq<nat>, ys: seq<nat>, w: nat)
    requires 0 < w && Fits(xs, w) && Fits(ys, w)
    ensures ListBelow(xs, ys) <==> Below(ListToBytes(xs, w), ListToBytes(ys, w))
  {
    if xs == [] && ys != [] {
      assert |ToBytes(ys[0], w)| == w;
    } else if xs != [] && ys != [] {
      var p, q := ToBytes(xs[0], w), ToBytes(ys[0], w);
      IntOrder(xs[0], ys[0], w);
      IntRoundTrip(xs[0], w);
      IntRoundTrip(ys[0], w);
      BelowInParts(p, q, ListToBytes(xs[1..], w), ListToBytes(ys[1..], w));
      ListOrder(xs[1..], ys[1..], w);
    }
  }

  lemma {:induction false} ListRoundTrip(xs: seq<nat>, w: nat)
    requires 0 < w && Fits(xs, w)
    ensures ListFromSlice(ListToBytes(xs, w), w) == Decoded(xs)
  {
    hide FromBigEndian;
    var b := ListToBytes(xs, w);
    ListLength(xs, w);
    if xs != [] {
      ListRoundTrip(xs[1..], w);
      IntRoundTrip(xs[0], w);
      assert b[..w] == ToBytes(xs[0], w) && b[w..] == ListToBytes(xs[1..], w);
      ChunksStep(b, w);
      assert xs == [xs[0]] + xs[1..];
    }
  }

  lemma ChunksStep(b: Bytes, w: nat)
    requires 0 < w && |b| % w == 0 && b != []
    ensures w <= |b| && |b[w..]| % w == 0
    ensures DecodeChunks(b, w) == [FromBigEndian(b[..w])] + DecodeChunks(b[w..], w)
  {
    ChunkCount(|b|, w);
  }

  lemma {:induction false} ChunksRoundTrip(b: Bytes, w: nat)
    requires 0 < w && |b| % w == 0
    ensures ListToBytes(DecodeChunks(b, w), w) == b
  {
    if b != [] {
      ChunkCount(|b|, w);
      BytesRoundTrip(b[..w]);
      ChunksRoundTrip(b[w..], w);
      assert DecodeChunks(b, w)[1..] == DecodeChunks(b[w..], w);
      assert b == b[..w] + b[w..];
    }
  }

  /** The byte strings accepted as a list are exactly the encodings of lists. */
  lemma ListFromSliceExactly(b: Bytes, w: nat)
    requires 0 < w
    ensures ListFromSlice(b, w).Decoded? <==> exists xs :: Fits(xs, w) && ListToBytes(xs, w) == b
    ensures ListFromSlice(b, w).Decoded? ==> ListToBytes(ListFromSlice(b, w).value, w) == b
  {
    if |b| % w == 0 {
      ChunksRoundTrip(b, w);
    }
    if xs :| Fits(xs, w) && ListToBytes(xs, w) == b {
      ListLength(xs, w);
    }
  }

  // ---------- arrays of a fixed length ----------

  lemma ChunkEnd(i: nat, w: nat, n: nat)
    requires 0 < w && n % w == 0 && i < n / w
    ensures 0 <= i * w <= i * w + w <= n
  {
    var rest := n / w - i - 1;
    assert n == (n / w) * w == (i + 1 + rest) * w == i * w + w + rest * w;
    assert 0 <= i * w && 0 <= rest * w;
  }

  lemma {:induction false} ChunkAt(b: Bytes, w: nat, i: nat)
    requires 0 < w && |b| % w == 0 && i < |b| / w
    ensures 0 <= i * w <= i * w + w <= |b|
    ensures DecodeChunks(b, w)[i] == FromBigEndian(b[i * w..i * w + w])
  {
    hide FromBigEndian;
    ChunkEnd(i, w, |b|);
    ChunkCount(|b|, w);
    ChunksStep(b, w);
    var o := i * w;
    if i == 0 {
      assert o == 0;
    } else {
      ChunkAt(b[w..], w, i - 1);
      var p := (i - 1) * w;
      assert p + w == o;
      assert b[w..][p..p + w] == b[o..o + w];
    }
  }

  /** A list that encodes to `b` is what the chunks of `b` decode to. */
  lemma ListsAgree(xs: seq<nat>, b: Bytes, w: nat)
    requires 0 < w && Fits(xs, w) && ListToBytes(xs, w) == b
    ensures |b| % w == 0 && xs == DecodeChunks(b, w)
  {
    ListRoundTrip(xs, w);
  }

  /** Decodes a byte string into an array of `n` integers, chunk by chunk in place. */
  method ArrayFromSlice(b: Bytes, w: nat, n: nat) returns (r: Decoded<array<nat>>)
    requires 0 < w
    ensures r.Decoded? <==> ListFromSlice(b, w).Decoded? && |ListFromSlice(b, w).value| == n
    ensures r.Decoded? ==> fresh(r.value) && ListFromSlice(b, w) == Decoded(r.value[..])
  {
    hide DecodeChunks, FromBigEndian;
    if |b| % w != 0 { return Invalid; }
    ghost var xs := DecodeChunks(b, w);
    if n != |b| / w { return Invalid; }
    var res := new nat[n](_ => 0);
    for i := 0 to n
      invariant forall j :: 0 <= j < i ==> res[j] == xs[j]
    {
      ChunkAt(b, w, i);
      res[i] := FromBigEndian(b[i * w..i * w + w]);
    }
    assert res[..] == xs;
    r := Decoded(res);
  }

  /** The byte strings accepted as an array of `n` integers are exactly the encodings of such arrays. */
  lemma ArrayFromSliceExactly(b: Bytes, w: nat, n: nat)
    requires 0 < w
    ensures ListFromSlice(b, w).Decoded? && |ListFromSlice(b, w).value| == n
       <==> exists xs :: |xs| == n && Fits(xs, w) && ListToBytes(xs, w) == b
  {
    hide ListToBytes, DecodeChunks, Fits;
    ListFromSliceExactly(b, w);
    forall xs | Fits(xs, w) && ListToBytes(xs, w) == b
      ensures |b| % w == 0 && xs == DecodeChunks(b, w)
    {
      ListsAgree(xs, b, w);
    }
  }

  // ---------- signed integers ----------

  predicate InRange(x: int, w: nat) {
    -(Pow256(w) / 2) <= x < Pow256(w) / 2
  }

  /** Two's complement. */
  function Unsigned(x: int, w: nat): (u: nat)
    requires InRange(x, w)
    ensures u < Pow256(w)
  {
    if x < 0 then x + Pow256(w) else x
  }

  function SignedToBytes(x: int, w: nat): (b: Bytes)
    requires InRange(x, w)
  {
    ToBytes(Unsigned(x, w), w)
  }

  function SignedFromSlice(b: Bytes, w: nat): Decoded<int> {
    if |b| != w then Invalid
    else
      var u := FromBigEndian(b);
      Decoded(if u < Pow256(w) / 2 then u else u - Pow256(w))
  }

  lemma SignedRoundTrip(x: int, w: nat)
    requires 0 < w && InRange(x, w)
    ensures SignedFromSlice(SignedToBytes(x, w), w) == Decoded(x)
  {
    IntRoundTrip(Unsigned(x, w), w);
  }

  /** The bytes of signed integers are in order exactly if the integers have the same sign; otherwise the
      order is reversed. */
  lemma SignedOrderExactly(a: int, b: int, w: nat)
    requires InRange(a, w) && InRange(b, w) && a < b
    ensures Below(SignedToBytes(a, w), SignedToBytes(b, w)) <==> (a < 0 <==> b < 0)
    ensures Below(SignedToBytes(b, w), SignedToBytes(a, w)) <==> a < 0 <= b
  {
    IntOrder(Unsigned(a, w), Unsigned(b, w), w);
    IntOrder(Unsigned(b, w), Unsigned(a, w), w);
  }

  /** So the order that a key type promises does not hold for signed integers: -1 is encoded above 0. */
  lemma SignedOrderFails(w: nat)
    requires 0 < w
    ensures InRange(-1, w) && InRange(0, w)
    ensures -1 < 0 && !Below(SignedToBytes(-1, w), SignedToBytes(0, w))
  {
    SignedOrderExactly(-1, 0, w);
  }

  ghost predicate AllInRange(xs: seq<int>, w: nat) {
    forall i :: 0 <= i < |xs| ==> InRange(xs[i], w)
  }

  function Unsigneds(xs: seq<int>, w: nat): (us: seq<nat>)
    requires AllInRange(xs, w)
    ensures Fits(us, w) && |us| == |xs|
  {
    seq(|xs|, i requires 0 <= i < |xs| => Unsigned(xs[i], w))
  }

  /** Where two lists first differ, they have the same sign. */
  ghost predicate SameSignWhereDifferent(xs: seq<int>, ys: seq<int>) {
    xs == [] || ys == [] ||
    if xs[0] == ys[0] then SameSignWhereDifferent(xs[1..], ys[1..]) else xs[0] < 0 <==> ys[0] < 0
  }

  /** Lists of signed integers keep their order in bytes exactly if they have the same sign where they first differ. */
  lemma {:induction false} SignedListOrderExactly(xs: seq<int>, ys: seq<int>, w: nat)
    requires 0 < w && AllInRange(xs, w) && AllInRange(ys, w)
    ensures (ListBelow(xs, ys) <==> Below(ListToBytes(Unsigneds(xs, w), w), ListToBytes(Unsigneds(ys, w), w)))
       <==> SameSignWhereDifferent(xs, ys)
  {
    hide ListToBytes, Below;
    var us, vs := Unsigneds(xs, w), Unsigneds(ys, w);
    ListOrder(us, vs, w);
    if xs != [] && ys != [] {
      assert us[1..] == Unsigneds(xs[1..], w) && vs[1..] == Unsigneds(ys[1..], w);
      ListOrder(us[1..], vs[1..], w);
      SignedListOrderExactly(xs[1..], ys[1..], w);
    }
  }
}

/** How a stream is cut into parts under a list of caps, and what any such cut keeps. */
module Cutting {
  import opened Records
  import opened ReadPlan

  /** Part after part takes what its cap allows (a negative cap: everything left), until the
      stream is exhausted. A stream that ends exactly at a cap leaves no empty part behind. */
  function Cut(stream: Bytes, caps: seq<int>): seq<Bytes>
    decreases |caps|
  {
    if caps == [] then []
    else if EndsHere(stream, caps[0]) then [stream]
    else [stream[..caps[0]]] + Cut(stream[caps[0]..], caps[1..])
  }

  predicate EndsHere(stream: Bytes, cap: int) { cap < 0 || |stream| <= cap }

  /** The caps suffice for the stream. */
  predicate Fits(stream: Bytes, caps: seq<int>)
    decreases |caps|
  {
    caps != [] && (EndsHere(stream, caps[0]) || Fits(stream[caps[0]..], caps[1..]))
  }

  function Sum(xs: seq<int>): int
  {
    if xs == [] then 0 else xs[0] + Sum(xs[1..])
  }

  /** There is room for n bytes within the first parts, or one of them is unbounded. */
  ghost predicate Room(n: int, caps: seq<int>)
  {
    exists k :: 0 <= k < |caps| && RoomAt(n, caps, k)
  }

  ghost predicate RoomAt(n: int, caps: seq<int>, k: nat)
    requires k < |caps|
  {
    NonNegative(caps[..k]) && (caps[k] < 0 || Sum(caps[..k + 1]) >= n)
  }

  lemma SumSplit(xs: seq<int>, ys: seq<int>)
    ensures Sum(xs + ys) == Sum(xs) + Sum(ys)
  {
    if xs == [] {
      assert xs + ys == ys;
    } else {
      SumSplit(xs[1..], ys);
      assert (xs + ys)[1..] == xs[1..] + ys;
    }
  }

  lemma ConcatFront(first: Bytes, rest: seq<Bytes>)
    ensures Concat([first] + rest) == first + Concat(rest)
  {
    if rest == [] {
      assert [first] + rest == [first];
      assert Concat([first][..0]) == [];
    } else {
      var n := |rest| - 1;
      ConcatFront(first, rest[..n]);
      assert ([first] + rest)[..n + 1] == [first] + rest[..n];
    }
  }

  /** No byte is lost, moved or repeated by the cut. */
  lemma {:induction false} CutKeepsStream(stream: Bytes, caps: seq<int>)
    requires Fits(stream, caps)
    ensures Concat(Cut(stream, caps)) == stream
    decreases |caps|
  {
    if EndsHere(stream, caps[0]) {
      ConcatFront(stream, []);
      assert [stream] + [] == [stream];
    } else {
      CutKeepsStream(stream[caps[0]..], caps[1..]);
      ConcatFront(stream[..caps[0]], Cut(stream[caps[0]..], caps[1..]));
    }
  }

  /** Every part but the last is filled to its cap; no part exceeds its cap; and the last one
      is empty only when it is the only one. */
  lemma {:induction false} CutRespectsCaps(stream: Bytes, caps: seq<int>)
    requires Fits(stream, caps)
    ensures var cut := Cut(stream, caps);
      && 1 <= |cut| <= |caps|
      && (forall k :: 0 <= k < |cut| - 1 ==> |cut[k]| == caps[k])
      && (caps[|cut| - 1] < 0 || |cut[|cut| - 1]| <= caps[|cut| - 1])
      && (cut[|cut| - 1] == [] ==> |cut| == 1)
    decreases |caps|
  {
    if !EndsHere(stream, caps[0]) {
      CutRespectsCaps(stream[caps[0]..], caps[1..]);
      CutKeepsStream(stream[caps[0]..], caps[1..]);
    }
  }

  lemma RoomAfterFirst(n: int, caps: seq<int>)
    requires caps != [] && caps[0] >= 0 && n > caps[0]
    ensures Room(n, caps) <==> Room(n - caps[0], caps[1..])
  {
    assert caps[..1] == [caps[0]] && Sum(caps[..1]) == caps[0];
    if Room(n, caps) {
      var k :| 0 <= k < |caps| && RoomAt(n, caps, k);
      RoomShifts(n, caps, k);
    }
    if Room(n - caps[0], caps[1..]) {
      var k :| 0 <= k < |caps[1..]| && RoomAt(n - caps[0], caps[1..], k);
      RoomShifts(n, caps, k + 1);
    }
  }

  lemma RoomShifts(n: int, caps: seq<int>, k: nat)
    requires k < |caps| && caps[0] >= 0
    ensures k > 0 ==> (RoomAt(n, caps, k) <==> RoomAt(n - caps[0], caps[1..], k - 1))
  {
    if k > 0 {
      assert caps[..k + 1][1..] == caps[1..][..k];
      assert caps[..k] == [caps[0]] + caps[1..][..k - 1];
    }
  }

  /** The cut never needs more room than there is: it completes exactly when some volume is
      unbounded or the caps up to some part add up to the stream's length. */
  lemma {:induction false} FitsIff(stream: Bytes, caps: seq<int>)
    ensures Fits(stream, caps) <==> Room(|stream|, caps)
    decreases |caps|
  {
    if caps != [] {
      if EndsHere(stream, caps[0]) {
        assert caps[..1] == [caps[0]] && caps[..0] == [];
        assert RoomAt(|stream|, caps, 0);
      } else {
        FitsIff(stream[caps[0]..], caps[1..]);
        RoomAfterFirst(|stream|, caps);
      }
    }
  }

  function Lengths(parts: seq<Bytes>): seq<int>
  {
    seq(|parts|, i requires 0 <= i < |parts| => |parts[i]|)
  }

  predicate NonNegative(xs: seq<int>) { forall k :: 0 <= k < |xs| ==> xs[k] >= 0 }

  /** A copy cut at the source's own part sizes reproduces the source's parts exactly when the
      stream has the recorded length and the source did not end in an empty part after others. */
  lemma {:induction false} RecutIsExactIff(stream: Bytes, sizes: seq<int>)
    requires NonNegative(sizes)
    ensures (Fits(stream, sizes) && Lengths(Cut(stream, sizes)) == sizes) <==>
            (sizes != [] && Sum(sizes) == |stream| && (|sizes| > 1 ==> sizes[|sizes| - 1] > 0))
    decreases |sizes|
  {
    if sizes == [] {
    } else if EndsHere(stream, sizes[0]) {
      assert Lengths(Cut(stream, sizes)) == [|stream|];
      SumNonNegative(sizes[1..]);
      if |sizes| > 1 { SumPositive(sizes[1..]); }
    } else {
      var rest := Cut(stream[sizes[0]..], sizes[1..]);
      RecutIsExactIff(stream[sizes[0]..], sizes[1..]);
      assert Lengths(Cut(stream, sizes)) == [sizes[0]] + Lengths(rest);
      assert sizes == [sizes[0]] + sizes[1..];
      assert Lengths(Cut(stream, sizes)) == sizes <==> Lengths(rest) == sizes[1..] by {
        assert ([sizes[0]] + Lengths(rest))[1..] == Lengths(rest);
      }
      assert |sizes| == 1 ==> sizes[1..] == [];
      assert |sizes| == 2 ==> sizes[1..][1..] == [] && Sum(sizes[1..]) == sizes[1];
    }
  }

  lemma {:induction false} SumNonNegative(xs: seq<int>)
    requires NonNegative(xs)
    ensures Sum(xs) >= 0
  {
    if xs != [] { SumNonNegative(xs[1..]); }
  }

  lemma {:induction false} SumPositive(xs: seq<int>)
    requires NonNegative(xs) && xs != []
    ensures xs[|xs| - 1] > 0 ==> Sum(xs) > 0
  {
    SumNonNegative(xs[1..]);
    if |xs| > 1 { SumPositive(xs[1..]); }
  }
}

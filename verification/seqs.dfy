/** Generic sequence helpers shared by the block parser, the reply parser
    and the batcher. */
module Seqs {
  import opened Wrappers

  function Min(a: int, b: int): int { if a <= b then a else b }

  function Max(a: int, b: int): int { if a >= b then a else b }

  /** The values `f` produces for the elements it accepts, in input order:
      the shape of a Python loop that appends only on some iterations. */
  function FilterMap<A, B>(f: A -> Option<B>, xs: seq<A>): (r: seq<B>)
    ensures |r| <= |xs|
  {
    if |xs| == 0 then []
    else
      match f(xs[0])
      case Some(y) => [y] + FilterMap(f, xs[1..])
      case None => FilterMap(f, xs[1..])
  }

  /** Nothing comes out exactly when nothing is accepted. */
  lemma {:induction false} FilterMapEmpty<A, B>(f: A -> Option<B>, xs: seq<A>)
    ensures |FilterMap(f, xs)| == 0 <==> forall i :: 0 <= i < |xs| ==> f(xs[i]).None?
  {
    if |xs| > 0 {
      FilterMapEmpty(f, xs[1..]);
      assert forall i :: 1 <= i < |xs| ==> xs[i] == xs[1..][i - 1];
    }
  }

  /** When every element is accepted, nothing is dropped. */
  lemma {:induction false} FilterMapAll<A, B>(f: A -> Option<B>, xs: seq<A>)
    requires forall i :: 0 <= i < |xs| ==> f(xs[i]).Some?
    ensures |FilterMap(f, xs)| == |xs|
    ensures forall i :: 0 <= i < |xs| ==> FilterMap(f, xs)[i] == f(xs[i]).value
  {
    if |xs| > 0 {
      assert forall i :: 1 <= i < |xs| ==> xs[i] == xs[1..][i - 1];
      FilterMapAll(f, xs[1..]);
    }
  }

  /** Three elements of which the middle one is rejected. */
  lemma FilterMapOneDropped<A, B>(f: A -> Option<B>, x: A, y: A, z: A, u: B, w: B)
    requires f(x) == Some(u) && f(y) == None && f(z) == Some(w)
    ensures FilterMap(f, [x, y, z]) == [u, w]
  {
    var xs := [x, y, z];
    assert xs[1..] == [y, z] && xs[1..][1..] == [z] && xs[1..][1..][1..] == [];
    assert FilterMap(f, [z]) == [w];
    assert FilterMap(f, [y, z]) == [w];
  }

  /** Every output element has its own source position; the positions
      strictly increase (order is kept), and a position is used exactly when
      `f` accepts the element there (nothing accepted is lost, nothing
      rejected leaks through). */
  ghost predicate IsOrigin<A, B>(f: A -> Option<B>, xs: seq<A>, ys: seq<B>, origin: seq<nat>)
  {
    && |origin| == |ys|
    && (forall k :: 0 <= k < |origin| ==> origin[k] < |xs| && f(xs[origin[k]]) == Some(ys[k]))
    && (forall k, l :: 0 <= k < l < |origin| ==> origin[k] < origin[l])
    && (forall i :: 0 <= i < |xs| ==> (f(xs[i]).Some? <==> i in origin))
  }

  function Shift(origin: seq<nat>): (r: seq<nat>)
    ensures |r| == |origin|
    ensures forall k :: 0 <= k < |r| ==> r[k] == origin[k] + 1
  {
    seq(|origin|, k requires 0 <= k < |origin| => origin[k] + 1)
  }

  /** Origins of a tail, shifted by one, are origins in the whole sequence. */
  lemma ShiftOrigin<A, B>(f: A -> Option<B>, xs: seq<A>, ys: seq<B>, rest: seq<nat>)
    requires |xs| > 0
    requires IsOrigin(f, xs[1..], ys, rest)
    ensures |Shift(rest)| == |ys|
    ensures forall k :: 0 <= k < |rest| ==> 1 <= Shift(rest)[k] < |xs| && f(xs[Shift(rest)[k]]) == Some(ys[k])
    ensures forall k, l :: 0 <= k < l < |rest| ==> Shift(rest)[k] < Shift(rest)[l]
    ensures forall i :: 1 <= i < |xs| ==> (f(xs[i]).Some? <==> i in Shift(rest))
  {
    ShiftValues(f, xs, ys, rest);
    ShiftCover(f, xs, ys, rest);
  }

  lemma ShiftValues<A, B>(f: A -> Option<B>, xs: seq<A>, ys: seq<B>, rest: seq<nat>)
    requires |xs| > 0
    requires |rest| == |ys|
    requires forall k :: 0 <= k < |rest| ==> rest[k] < |xs| - 1 && f(xs[1..][rest[k]]) == Some(ys[k])
    ensures forall k :: 0 <= k < |rest| ==> 1 <= Shift(rest)[k] < |xs| && f(xs[Shift(rest)[k]]) == Some(ys[k])
  {
    var sh := Shift(rest);
    forall k | 0 <= k < |rest|
      ensures 1 <= sh[k] < |xs| && f(xs[sh[k]]) == Some(ys[k])
    {
      assert xs[sh[k]] == xs[1..][rest[k]];
    }
  }

  lemma ShiftCover<A, B>(f: A -> Option<B>, xs: seq<A>, ys: seq<B>, rest: seq<nat>)
    requires |xs| > 0
    requires forall i :: 0 <= i < |xs| - 1 ==> (f(xs[1..][i]).Some? <==> i in rest)
    ensures forall i :: 1 <= i < |xs| ==> (f(xs[i]).Some? <==> i in Shift(rest))
  {
    var sh := Shift(rest);
    forall i | 1 <= i < |xs|
      ensures f(xs[i]).Some? <==> i in sh
    {
      assert xs[i] == xs[1..][i - 1];
      if i - 1 in rest {
        var k :| 0 <= k < |rest| && rest[k] == i - 1;
        assert sh[k] == i;
      }
      if i in sh {
        var k :| 0 <= k < |sh| && sh[k] == i;
        assert rest[k] == i - 1;
      }
    }
  }

  lemma {:induction false} FilterMapOrigin<A, B>(f: A -> Option<B>, xs: seq<A>) returns (origin: seq<nat>)
    ensures IsOrigin(f, xs, FilterMap(f, xs), origin)
  {
    if |xs| == 0 {
      origin := [];
    } else {
      var rest := FilterMapOrigin(f, xs[1..]);
      var tail := FilterMap(f, xs[1..]);
      ShiftOrigin(f, xs, tail, rest);
      match f(xs[0])
      case Some(y) =>
        origin := [0] + Shift(rest);
        ConsOrigin(f, xs, y, tail, Shift(rest));
      case None =>
        origin := Shift(rest);
        assert 0 !in origin;
    }
  }

  lemma ConsOrigin<A, B>(f: A -> Option<B>, xs: seq<A>, y: B, ys: seq<B>, sh: seq<nat>)
    requires |xs| > 0 && f(xs[0]) == Some(y)
    requires |sh| == |ys|
    requires forall k :: 0 <= k < |sh| ==> 1 <= sh[k] < |xs| && f(xs[sh[k]]) == Some(ys[k])
    requires forall k, l :: 0 <= k < l < |sh| ==> sh[k] < sh[l]
    requires forall i :: 1 <= i < |xs| ==> (f(xs[i]).Some? <==> i in sh)
    ensures IsOrigin(f, xs, [y] + ys, [0] + sh)
  {
    var origin := [0] + sh;
    forall k | 1 <= k < |origin|
      ensures origin[k] == sh[k - 1] && ([y] + ys)[k] == ys[k - 1]
    {
    }
    forall k, l | 0 <= k < l < |origin|
      ensures origin[k] < origin[l]
    {
      assert origin[l] == sh[l - 1];
    }
  }

  /** Removing the head of a sequence with `x` somewhere after it. */
  lemma AroundTail<T>(a: seq<T>, x: T, b: seq<T>)
    requires |a| > 0
    ensures (a + [x] + b)[0] == a[0] && (a + [x] + b)[1..] == a[1..] + [x] + b
  {
  }

  lemma HeadTail<T>(r: seq<T>, s: seq<T>)
    requires |r| > 0
    ensures (r + s)[0] == r[0] && (r + s)[1..] == r[1..] + s
  {
  }

  lemma AppendAssoc<T>(p: seq<T>, q: seq<T>, r: seq<T>)
    ensures p + (q + r) == (p + q) + r
  {
  }

  /** Concatenation of a sequence of sequences, in order. */
  function Flatten<T>(xss: seq<seq<T>>): (r: seq<T>)
  {
    if |xss| == 0 then [] else xss[0] + Flatten(xss[1..])
  }

  lemma FlattenCons<T>(xss: seq<seq<T>>, head: seq<T>, tail: seq<seq<T>>)
    requires |xss| > 0 && xss[0] == head && xss[1..] == tail
    ensures Flatten(xss) == head + Flatten(tail)
  {
  }

  lemma {:induction false} FlattenAppend<T>(xss: seq<seq<T>>, yss: seq<seq<T>>)
    ensures Flatten(xss + yss) == Flatten(xss) + Flatten(yss)
  {
    if |xss| == 0 {
      assert xss + yss == yss;
    } else {
      assert (xss + yss)[1..] == xss[1..] + yss;
      FlattenAppend(xss[1..], yss);
    }
  }

  lemma FlattenIndex<T>(xss: seq<seq<T>>, k: nat, j: nat)
    requires k < |xss| && j < |xss[k]|
    ensures |Flatten(xss[..k])| + j < |Flatten(xss)|
    ensures Flatten(xss)[|Flatten(xss[..k])| + j] == xss[k][j]
  {
    assert xss == xss[..k] + xss[k..];
    FlattenAppend(xss[..k], xss[k..]);
    assert xss[k..][1..] == xss[k + 1..];
  }

  /** Parts of equal lengths flatten to equal lengths, prefix by prefix. */
  lemma {:induction false} FlattenSameShape<T, U>(xss: seq<seq<T>>, yss: seq<seq<U>>)
    requires |xss| == |yss|
    requires forall k :: 0 <= k < |xss| ==> |xss[k]| == |yss[k]|
    ensures |Flatten(xss)| == |Flatten(yss)|
    ensures forall k :: 0 <= k <= |xss| ==> |Flatten(xss[..k])| == |Flatten(yss[..k])|
  {
    if |xss| > 0 {
      FlattenSameShape(xss[1..], yss[1..]);
      forall k | 1 <= k <= |xss|
        ensures |Flatten(xss[..k])| == |Flatten(yss[..k])|
      {
        assert xss[..k][1..] == xss[1..][..k - 1];
        assert yss[..k][1..] == yss[1..][..k - 1];
      }
      assert xss[..0] == [] && yss[..0] == [];
    } else {
      assert xss[..0] == [] && yss[..0] == [];
    }
  }

  /** For parts of matching lengths, element `j` of part `k` of the second
      sits where element `j` of part `k` of the first sits. */
  lemma FlattenAt<T, U>(xss: seq<seq<T>>, yss: seq<seq<U>>, k: nat, j: nat)
    requires |xss| == |yss|
    requires forall i :: 0 <= i < |xss| ==> |xss[i]| == |yss[i]|
    requires k < |xss| && j < |xss[k]|
    ensures |Flatten(xss[..k])| + j < |Flatten(yss)|
    ensures Flatten(yss)[|Flatten(xss[..k])| + j] == yss[k][j]
  {
    FlattenSameShape(xss, yss);
    FlattenIndex(yss, k, j);
  }

  /** Parts all of length `n` flatten to `n` elements per part. */
  lemma {:induction false} FlattenUniform<T>(xss: seq<seq<T>>, n: nat)
    requires forall i :: 0 <= i < |xss| ==> |xss[i]| == n
    ensures |Flatten(xss)| == n * |xss|
  {
    if |xss| > 0 {
      FlattenUniform(xss[1..], n);
      assert n * |xss| == n + n * (|xss| - 1);
    }
  }

  /** With parts all of length `n`, part `k` is the slice of the
      flattening starting at `n * k`. */
  lemma FlattenUniformAt<T>(xss: seq<seq<T>>, n: nat, k: nat)
    requires forall i :: 0 <= i < |xss| ==> |xss[i]| == n
    requires k < |xss|
    ensures n * k + n <= |Flatten(xss)|
    ensures Flatten(xss)[n * k..n * k + n] == xss[k]
  {
    var out := Flatten(xss);
    assert |Flatten(xss[..k])| == n * k by {
      var before := xss[..k];
      assert forall i :: 0 <= i < |before| ==> before[i] == xss[i];
      FlattenUniform(before, n);
    }
    assert n * k + n <= |out| by {
      if n > 0 {
        FlattenIndex(xss, k, n - 1);
      }
    }
    forall m | 0 <= m < n ensures out[n * k + m] == xss[k][m] {
      FlattenIndex(xss, k, m);
    }
    var part := out[n * k..n * k + n];
    forall m | 0 <= m < n ensures part[m] == xss[k][m] {
    }
  }

  /** Parts of at most `n` elements flatten to at most `n` per part. */
  lemma {:induction false} FlattenUniformAtMost<T>(xss: seq<seq<T>>, n: nat)
    requires forall i :: 0 <= i < |xss| ==> |xss[i]| <= n
    ensures |Flatten(xss)| <= n * |xss|
  {
    if |xss| > 0 {
      FlattenUniformAtMost(xss[1..], n);
      assert n * |xss| == n + n * (|xss| - 1);
    }
  }

  /** Dividing past one whole part: position `i` lies one part further
      on than `i - n`, at the same offset. */
  lemma DivStep(i: nat, n: nat)
    requires 0 < n <= i
    ensures (i - n) / n == i / n - 1
    ensures (i - n) % n == i % n
  {
    var q, r := (i - n) / n, (i - n) % n;
    assert i == (q + 1) * n + r;
    DivUnique(i, n, q + 1, r);
  }

  /** The quotient and remainder are the only such pair. */
  lemma DivUnique(i: nat, n: nat, q: nat, r: nat)
    requires 0 <= r < n && i == q * n + r
    ensures i / n == q && i % n == r
  {
    var q0, r0 := i / n, i % n;
    var d := q - q0;
    assert d * n == r0 - r by {
      assert d * n == q * n - q0 * n;
    }
    if d > 0 {
      MulAtLeast(d, n);
    } else if d < 0 {
      MulAtLeast(-d, n);
    }
  }

  lemma MulAtLeast(d: int, n: nat)
    requires d >= 1
    ensures d * n >= n
  {
  }

  /** When every part but the last has exactly `n` elements (and the last
      at most `n`), element `i` of the flattening is element `i % n` of
      part `i / n`. */
  lemma {:induction false} FlattenGrid<T>(xss: seq<seq<T>>, n: nat, i: nat)
    requires n > 0
    requires forall m :: 0 <= m < |xss| ==> |xss[m]| <= n
    requires forall m :: 0 <= m < |xss| - 1 ==> |xss[m]| == n
    requires i < |Flatten(xss)|
    ensures i / n < |xss| && i % n < |xss[i / n]|
    ensures Flatten(xss)[i] == xss[i / n][i % n]
  {
    assert |xss| > 0;
    if i < |xss[0]| {
      DivUnique(i, n, 0, i);
    } else {
      assert |xss| > 1;
      assert |xss[0]| == n;
      forall m | 0 <= m < |xss[1..]| - 1 ensures |xss[1..][m]| == n {
        assert xss[1..][m] == xss[m + 1];
      }
      FlattenGrid(xss[1..], n, i - n);
      DivStep(i, n);
    }
  }
}

/** The bounded sample history: a fixed-size sliding window kept as a plain
    vector, oldest sample first. */
module History {
  import opened Outcomes

  /** The last `min(|xs|, depth)` elements of `xs`, in order. */
  function Window<T>(xs: seq<T>, depth: nat): (w: seq<T>)
    ensures |w| == if |xs| < depth then |xs| else depth
    ensures forall i :: 0 <= i < |w| ==> w[i] == xs[|xs| - |w| + i]
  {
    if |xs| <= depth then xs else xs[|xs| - depth..]
  }

  /** One append: when the vector already holds `depth` samples its first one
      is removed with `remove(0)`, then the new sample is pushed. The test is
      an equality, so an over-full vector is not trimmed, and with `depth == 0`
      the removal from the empty vector panics. */
  function Append<T>(buf: seq<T>, depth: nat, s: T): (r: Outcome<seq<T>>)
    ensures r.Ok? <==> !(|buf| == depth && depth == 0)
    ensures r.Panic? ==> r.cause == RemoveOutOfBounds
    ensures r.Ok? ==> |r.value| >= 1 && r.value[|r.value| - 1] == s
    ensures r.Ok? && |buf| != depth ==> r.value[..|r.value| - 1] == buf
    ensures r.Ok? && |buf| == depth ==> r.value[..|r.value| - 1] == buf[1..]
    ensures 1 <= depth && |buf| <= depth ==> r.Ok? && |r.value| <= depth
  {
    if |buf| == depth then
      if |buf| == 0 then Panic(RemoveOutOfBounds) else Ok(buf[1..] + [s])
    else
      Ok(buf + [s])
  }

  /** Appends every element of `ss`, first to last. */
  function AppendAll<T>(buf: seq<T>, depth: nat, ss: seq<T>): (r: Outcome<seq<T>>)
  {
    if |ss| == 0 then Ok(buf)
    else
      var prev :- AppendAll(buf, depth, ss[..|ss| - 1]);
      Append(prev, depth, ss[|ss| - 1])
  }

  /** Appending to a window yields the window of the extended sequence. */
  lemma WindowSnoc<T>(xs: seq<T>, depth: nat, s: T)
    requires depth >= 1
    ensures Append(Window(xs, depth), depth, s) == Ok(Window(xs + [s], depth))
  {
    var w := Window(xs, depth);
    var w' := Window(xs + [s], depth);
    var r := if |w| == depth then w[1..] + [s] else w + [s];
    assert Append(w, depth, s) == Ok(r);
    assert |r| == |w'|;
    forall i | 0 <= i < |r|
      ensures r[i] == w'[i]
    {
      if i == |r| - 1 {
      } else if |w| == depth {
        assert r[i] == w[i + 1];
      } else {
        assert r[i] == w[i];
      }
    }
    assert r == w';
  }

  lemma ConcatAssoc<T>(a: seq<T>, b: seq<T>, c: seq<T>)
    ensures a + (b + c) == a + b + c
  {
  }

  lemma SplitLast<T>(xs: seq<T>)
    requires |xs| >= 1
    ensures xs == xs[..|xs| - 1] + [xs[|xs| - 1]]
  {
  }

  /** Any buffer obtained from a window by the eviction rule of `Append` is
      the window of the extended sequence. */
  lemma WindowAfterAppend<T>(xs: seq<T>, depth: nat, next: seq<T>, s: T)
    requires depth >= 1
    requires |next| >= 1 && next[|next| - 1] == s
    requires next[..|next| - 1] ==
      (if |Window(xs, depth)| == depth then Window(xs, depth)[1..] else Window(xs, depth))
    ensures next == Window(xs + [s], depth)
  {
    WindowSnoc(xs, depth, s);
    SplitLast(next);
  }

  /** After appending `ss` to a buffer that respects the bound, the buffer is
      the last `depth` elements of everything appended: nothing is lost but
      the oldest, nothing is reordered. */
  lemma {:induction false} AppendAllIsWindow<T>(buf: seq<T>, depth: nat, ss: seq<T>)
    requires depth >= 1
    requires |buf| <= depth
    ensures AppendAll(buf, depth, ss) == Ok(Window(buf + ss, depth))
  {
    if |ss| == 0 {
      assert buf + ss == buf;
    } else {
      var init, last := ss[..|ss| - 1], ss[|ss| - 1];
      AppendAllIsWindow(buf, depth, init);
      assert AppendAll(buf, depth, ss) == Append(Window(buf + init, depth), depth, last);
      WindowSnoc(buf + init, depth, last);
      SplitLast(ss);
      ConcatAssoc(buf, init, [last]);
    }
  }

  /** Starting from an empty history: with at most `depth` appends the history
      is exactly the appended samples; with more, it holds `depth` samples and
      its oldest is the `(N - depth + 1)`-th sample appended. */
  lemma FifoFromEmpty<T>(depth: nat, ss: seq<T>)
    requires depth >= 1
    ensures AppendAll([], depth, ss).Ok?
    ensures |ss| <= depth ==> AppendAll([], depth, ss).value == ss
    ensures |ss| > depth ==>
      |AppendAll([], depth, ss).value| == depth &&
      AppendAll([], depth, ss).value[0] == ss[|ss| - depth]
  {
    AppendAllIsWindow([], depth, ss);
    assert [] + ss == ss;
  }

  /** A history of depth 3 fed A, B, C, D holds B, C, D. */
  lemma DepthThreeExample()
    ensures AppendAll([], 3, ['A', 'B', 'C', 'D']) == Ok(['B', 'C', 'D'])
  {
    AppendAllIsWindow([], 3, ['A', 'B', 'C', 'D']);
    assert [] + ['A', 'B', 'C', 'D'] == ['A', 'B', 'C', 'D'];
  }

  /** A history of depth 0 panics on the first append. */
  lemma ZeroDepthPanics<T>(s: T)
    ensures Append([], 0, s) == Panic(RemoveOutOfBounds)
  {
  }
}

/**
 * The query-string builder of the remote-service client (src/interface.rs, `add_query`).
 * The parameters come from a hash map, whose iteration order is unspecified: they are
 * a sequence of (key, value) pairs here, in whatever order the map yields them.
 */
module Interface {

  type Params = seq<(string, string)>

  /** The text one parameter contributes: `&key=value`, nothing escaped. */
  function Segment(param: (string, string)): (s: string)
    ensures |s| == |param.0| + |param.1| + 2
    ensures s[0] == '&' && s[1..|param.0| + 1] == param.0
    ensures s[|param.0| + 1] == '=' && s[|param.0| + 2..] == param.1
  {
    "&" + param.0 + "=" + param.1
  }

  /** The segments of all parameters, in iteration order. */
  function Query(params: Params): string
  {
    if |params| == 0 then "" else Segment(params[0]) + Query(params[1..])
  }

  /** The length a parameter adds to the url. */
  function SegmentLength(param: (string, string)): nat
  {
    |param.0| + |param.1| + 2
  }

  function TotalLength(params: Params): nat
  {
    if |params| == 0 then 0 else SegmentLength(params[0]) + TotalLength(params[1..])
  }

  /** `add_query`: appends `?`, then one segment per parameter. */
  method AddQuery(url: string, params: Params) returns (r: string)
    ensures r == url + "?" + Query(params)
    ensures r[..|url| + 1] == url + "?"
    ensures |params| == 0 ==> r == url + "?"
    ensures |params| > 0 ==> r[|url|..|url| + 2] == "?&"
    ensures |r| == |url| + 1 + TotalLength(params)
  {
    r := url + "?";
    var i := 0;
    while i < |params|
      invariant 0 <= i <= |params|
      invariant r + Query(params[i..]) == url + "?" + Query(params)
      invariant |r| + TotalLength(params[i..]) == |url| + 1 + TotalLength(params)
    {
      assert params[i..][1..] == params[i + 1..];
      r := r + Segment(params[i]);
      i := i + 1;
    }
    assert params[i..] == [];
    if |params| > 0 {
      assert Query(params)[0] == '&';
    }
  }

  /** Lengths add up over concatenation. */
  lemma {:induction false} TotalLengthAppend(x: Params, y: Params)
    ensures TotalLength(x + y) == TotalLength(x) + TotalLength(y)
    decreases |x|
  {
    if |x| > 0 {
      assert (x + y)[1..] == x[1..] + y;
      TotalLengthAppend(x[1..], y);
    } else {
      assert x + y == y;
    }
  }

  /** Summing segment lengths does not depend on the order the parameters come in. */
  lemma {:induction false} TotalLengthPermutation(a: Params, b: Params)
    requires multiset(a) == multiset(b)
    ensures TotalLength(a) == TotalLength(b)
    decreases |a|
  {
    if |a| == 0 {
      assert |b| == |multiset(b)| == 0;
    } else {
      var p := a[0];
      assert p in multiset(b);
      var k :| 0 <= k < |b| && b[k] == p;
      var before, after := b[..k], b[k + 1..];
      assert b == before + [p] + after;
      assert a == [p] + a[1..];
      assert multiset(b) == multiset(before) + multiset{p} + multiset(after);
      assert multiset(a) == multiset{p} + multiset(a[1..]);
      assert multiset(before + after) == multiset(before) + multiset(after);
      assert multiset(a[1..]) == multiset(a) - multiset{p};
      assert multiset(before + after) == multiset(b) - multiset{p};
      TotalLengthPermutation(a[1..], before + after);
      TotalLengthAppend(before + [p], after);
      TotalLengthAppend(before, [p]);
      TotalLengthAppend(before, after);
      assert TotalLength([p]) == SegmentLength(p);
    }
  }

  /** The url's final length is the same whatever order the map yields its entries in. */
  lemma AddQueryLengthOrderFree(url: string, a: Params, b: Params)
    requires multiset(a) == multiset(b)
    ensures |url + "?" + Query(a)| == |url + "?" + Query(b)|
  {
    QueryLength(a);
    QueryLength(b);
    TotalLengthPermutation(a, b);
  }

  lemma {:induction false} QueryLength(params: Params)
    ensures |Query(params)| == TotalLength(params)
    decreases |params|
  {
    if |params| > 0 {
      QueryLength(params[1..]);
    }
  }

  /** `sub` occurs in `s` starting at position `at`. */
  predicate OccursAt(s: string, sub: string, at: int)
  {
    0 <= at && at + |sub| <= |s| && s[at..at + |sub|] == sub
  }

  /** Every parameter's `&key=value` appears, verbatim and contiguous, in the query. */
  lemma {:induction false} EachParamAppears(params: Params, i: nat)
    requires i < |params|
    ensures exists at :: OccursAt(Query(params), Segment(params[i]), at)
    decreases i
  {
    var q := Query(params);
    var seg := Segment(params[i]);
    if i == 0 {
      assert q[0..|seg|] == seg;
      assert OccursAt(q, seg, 0);
    } else {
      EachParamAppears(params[1..], i - 1);
      var tail := Query(params[1..]);
      var at :| OccursAt(tail, seg, at);
      var head := |Segment(params[0])|;
      assert q == Segment(params[0]) + tail;
      assert q[head + at..head + at + |seg|] == tail[at..at + |seg|];
      assert OccursAt(q, seg, head + at);
    }
  }
}

/** Concatenation of a sequence of sequences, shared by the per-label findings of one segment
    and by the aggregation of the findings of many segments. */
module Seqs {
  /** The elements of `bs[0]`, then those of `bs[1]`, and so on. */
  function Concat<T>(bs: seq<seq<T>>): seq<T>
  {
    if |bs| == 0 then [] else Concat(bs[..|bs| - 1]) + bs[|bs| - 1]
  }

  lemma TakeOneMore<T>(s: seq<T>, j: int)
    requires 0 <= j < |s|
    ensures s[..j + 1] == s[..j] + [s[j]]
  {
  }

  lemma ConcatSnoc<T>(bs: seq<seq<T>>, b: seq<T>)
    ensures Concat(bs + [b]) == Concat(bs) + b
  {
    assert (bs + [b])[..|bs|] == bs;
  }

  lemma ConcatSingleton<T>(b: seq<T>)
    ensures Concat([b]) == b
  {
    ConcatSnoc([], b);
    assert [] + [b] == [b];
  }

  /** Concatenation distributes over `+`. */
  lemma {:induction false} ConcatAppend<T>(a: seq<seq<T>>, b: seq<seq<T>>)
    ensures Concat(a + b) == Concat(a) + Concat(b)
    decreases |b|
  {
    if |b| == 0 {
      assert a + b == a;
    } else {
      var init, last := b[..|b| - 1], b[|b| - 1];
      assert (a + b)[..|a + b| - 1] == a + init;
      assert (a + b)[|a + b| - 1] == last;
      ConcatAppend(a, init);
      calc {
        Concat(a + b);
        Concat(a + init) + last;
        (Concat(a) + Concat(init)) + last;
        Concat(a) + (Concat(init) + last);
        Concat(a) + Concat(b);
      }
    }
  }

  /** An element of the concatenation is an element of one of the parts, and conversely. */
  lemma {:induction false} ConcatMember<T>(bs: seq<seq<T>>, x: T)
    ensures x in Concat(bs) <==> exists i :: 0 <= i < |bs| && x in bs[i]
  {
    if bs != [] {
      var init := bs[..|bs| - 1];
      ConcatMember(init, x);
      if x in Concat(init) {
        var i :| 0 <= i < |init| && x in init[i];
        assert bs[i] == init[i];
      }
      if exists i :: 0 <= i < |bs| && x in bs[i] {
        var i :| 0 <= i < |bs| && x in bs[i];
        if i < |bs| - 1 {
          assert init[i] == bs[i];
        }
      }
    }
  }

  lemma SplitAround<T>(s: seq<T>, i: int)
    requires 0 <= i < |s|
    ensures s == s[..i] + ([s[i]] + s[i + 1..])
  {
    assert s[i..] == [s[i]] + s[i + 1..];
    assert s == s[..i] + s[i..];
  }

  lemma AppendAssoc<T>(a: seq<T>, b: seq<T>, c: seq<T>)
    ensures a + (b + c) == a + b + c
  {
  }

  lemma ConcatCons<T>(b: seq<T>, after: seq<seq<T>>)
    ensures Concat([b] + after) == b + Concat(after)
  {
    ConcatAppend([b], after);
    ConcatSingleton(b);
  }

  /** Part `i` sits between the parts before it and the parts after it. */
  lemma ConcatSplit<T>(bs: seq<seq<T>>, i: int)
    requires 0 <= i < |bs|
    ensures Concat(bs) == Concat(bs[..i]) + bs[i] + Concat(bs[i + 1..])
  {
    SplitAround(bs, i);
    ConcatAppend(bs[..i], [bs[i]] + bs[i + 1..]);
    ConcatCons(bs[i], bs[i + 1..]);
    AppendAssoc(Concat(bs[..i]), bs[i], Concat(bs[i + 1..]));
  }
}

/** The NUL filter that `dht_get_data` applies to a stored reply before handing it
    back: every character whose code point is zero is dropped, the rest are kept
    in order. */
module ReplyFilter {

  /** A Unicode code point: what `ord` yields for one character of a Python string. */
  type CodePoint = c: int | 0 <= c < 0x11_0000

  /** The specification of the filter: the reply with its zero code points removed,
      defined by peeling off the last character. */
  function RemoveZeros(s: seq<CodePoint>): (r: seq<CodePoint>)
    ensures |r| <= |s|
    ensures 0 !in r
  {
    if s == [] then []
    else
      var last := s[|s| - 1];
      RemoveZeros(s[..|s| - 1]) + (if last != 0 then [last] else [])
  }

  /** Filtering distributes over concatenation: it works character by character
      and never reorders. */
  lemma {:induction false} RemoveZerosAppend(a: seq<CodePoint>, b: seq<CodePoint>)
    ensures RemoveZeros(a + b) == RemoveZeros(a) + RemoveZeros(b)
    decreases |b|
  {
    if b == [] {
      assert a + b == a;
    } else {
      var b' := b[..|b| - 1];
      assert (a + b)[..|a + b| - 1] == a + b';
      assert (a + b)[|a + b| - 1] == b[|b| - 1];
      RemoveZerosAppend(a, b');
    }
  }

  /** Read from the front: a non-zero first character is kept in first place, a zero
      one is dropped, and the rest is filtered in the same way. */
  lemma {:induction false} RemoveZerosCons(x: CodePoint, s: seq<CodePoint>)
    ensures RemoveZeros([x] + s) == (if x != 0 then [x] else []) + RemoveZeros(s)
  {
    RemoveZerosAppend([x], s);
    assert RemoveZeros([x]) == RemoveZeros([]) + (if x != 0 then [x] else []);
  }

  /** Every non-zero code point occurs in the result exactly as often as in the input,
      and zero does not occur at all. */
  lemma {:induction false} RemoveZerosMultiset(s: seq<CodePoint>)
    ensures multiset(RemoveZeros(s)) == multiset(s)[0 := 0]
    decreases |s|
  {
    if s != [] {
      var init, last := s[..|s| - 1], s[|s| - 1];
      assert s == init + [last];
      RemoveZerosMultiset(init);
      assert multiset(s) == multiset(init) + multiset{last};
    }
  }

  /** Exactly the zero code points are removed: the result is shorter than the input
      by the number of zeros in it. */
  lemma {:induction false} RemoveZerosLength(s: seq<CodePoint>)
    ensures |RemoveZeros(s)| == |s| - multiset(s)[0]
    decreases |s|
  {
    if s != [] {
      var init, last := s[..|s| - 1], s[|s| - 1];
      assert s == init + [last];
      assert multiset(s) == multiset(init) + multiset{last};
      RemoveZerosLength(init);
    }
  }

  /** A reply is left unchanged by the filter if and only if it holds no zero. */
  lemma {:induction false} RemoveZerosUnchanged(s: seq<CodePoint>)
    ensures RemoveZeros(s) == s <==> 0 !in s
    decreases |s|
  {
    if s != [] && 0 !in s {
      var init := s[..|s| - 1];
      assert 0 !in init by {
        forall i | 0 <= i < |init| ensures init[i] != 0 {
          assert init[i] == s[i];
        }
      }
      RemoveZerosUnchanged(init);
      assert s == init + [s[|s| - 1]];
    }
  }

  /** The filter yields the empty string exactly for replies made only of zeros. */
  lemma {:induction false} RemoveZerosEmpty(s: seq<CodePoint>)
    ensures RemoveZeros(s) == [] <==> forall i :: 0 <= i < |s| ==> s[i] == 0
    decreases |s|
  {
    if s != [] {
      var init := s[..|s| - 1];
      RemoveZerosEmpty(init);
      if forall i :: 0 <= i < |s| ==> s[i] == 0 {
        assert forall i :: 0 <= i < |init| ==> init[i] == s[i];
      }
    }
  }

  /** Filtering twice is filtering once. */
  lemma {:induction false} RemoveZerosIdempotent(s: seq<CodePoint>)
    ensures RemoveZeros(RemoveZeros(s)) == RemoveZeros(s)
  {
    RemoveZerosUnchanged(RemoveZeros(s));
  }

  /** The character loop of `dht_get_data`: walk the stored reply one character at a
      time and append each character whose code point is non-zero. */
  method FilterReply(stored: seq<CodePoint>) returns (reply: seq<CodePoint>)
    ensures reply == RemoveZeros(stored)
  {
    reply := [];
    for i := 0 to |stored|
      invariant reply == RemoveZeros(stored[..i])
    {
      var x := stored[i];
      assert stored[..i + 1][..i] == stored[..i];
      if x != 0 {
        reply := reply + [x];
      }
    }
    assert stored[..|stored|] == stored;
  }
}

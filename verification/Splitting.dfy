/** Splitting a byte stream at a delimiter, in one piece or as it arrives. */
module Splitting {
  import opened Common

  type Bytes = string

  predicate MatchAt(s: Bytes, d: Bytes, i: nat)
  {
    i + |d| <= |s| && s[i..i + |d|] == d
  }

  /** The first occurrence of `d` at or after `i`. */
  function FindFrom(s: Bytes, d: Bytes, i: nat): (r: Option<nat>)
    requires d != "" && i <= |s|
    ensures r.Some? ==> i <= r.value && r.value + |d| <= |s|
    decreases |s| - i
  {
    if MatchAt(s, d, i) then Some(i) else if i == |s| then None else FindFrom(s, d, i + 1)
  }

  function Find(s: Bytes, d: Bytes): (r: Option<nat>)
    requires d != ""
    ensures r.Some? ==> r.value + |d| <= |s|
  {
    FindFrom(s, d, 0)
  }

  /** `r` is the first position at or after `i` where `d` occurs, or there is none. */
  ghost predicate First(s: Bytes, d: Bytes, i: nat, r: Option<nat>)
  {
    match r
    case Some(k) => i <= k && MatchAt(s, d, k) && forall j :: i <= j < k ==> !MatchAt(s, d, j)
    case None => forall j :: i <= j ==> !MatchAt(s, d, j)
  }

  lemma {:induction false} FindFromIsFirst(s: Bytes, d: Bytes, i: nat)
    requires d != "" && i <= |s|
    ensures First(s, d, i, FindFrom(s, d, i))
    decreases |s| - i
  {
    if !MatchAt(s, d, i) && i < |s| {
      FindFromIsFirst(s, d, i + 1);
    }
  }

  /** Find answers the one first occurrence. */
  lemma FindIsFirst(s: Bytes, d: Bytes, r: Option<nat>)
    requires d != ""
    ensures Find(s, d) == r <==> First(s, d, 0, r)
  {
    FindFromIsFirst(s, d, 0);
    hide MatchAt;
  }

  /** The pieces that are complete, and what follows the last delimiter. */
  datatype Split = Split(pieces: seq<Bytes>, rest: Bytes)

  function SplitAt(s: Bytes, d: Bytes): (r: Split)
    requires d != ""
    decreases |s|
  {
    match Find(s, d)
    case None => Split([], s)
    case Some(i) =>
      var tail := SplitAt(s[i + |d|..], d);
      Split([s[..i]] + tail.pieces, tail.rest)
  }

  lemma FindInFront(a: Bytes, b: Bytes, d: Bytes)
    requires d != "" && Find(a, d).Some?
    ensures Find(a + b, d) == Find(a, d)
  {
    var i := Find(a, d).value;
    FindIsFirst(a, d, Some(i));
    assert MatchAt(a + b, d, i) by {
      assert (a + b)[i..i + |d|] == a[i..i + |d|];
    }
    forall j | 0 <= j < i ensures !MatchAt(a + b, d, j) {
      assert !MatchAt(a, d, j);
      assert (a + b)[j..j + |d|] == a[j..j + |d|];
    }
    FindIsFirst(a + b, d, Some(i));
  }

  lemma SplitOnce(s: Bytes, d: Bytes)
    requires d != ""
    ensures Find(s, d).Some? ==>
              SplitAt(s, d) == Split([s[..Find(s, d).value]] + SplitAt(s[Find(s, d).value + |d|..], d).pieces,
                                     SplitAt(s[Find(s, d).value + |d|..], d).rest)
    ensures Find(s, d).None? ==> SplitAt(s, d) == Split([], s)
  {
  }

  lemma NoDelimiter(d: Bytes)
    requires d != ""
    ensures Find("", d).None?
  {
  }

  /** Splitting what has arrived, and later the remainder with what follows, is splitting it all. */
  lemma {:induction false} SplitAppend(a: Bytes, b: Bytes, d: Bytes)
    requires d != ""
    ensures SplitAt(a + b, d).pieces == SplitAt(a, d).pieces + SplitAt(SplitAt(a, d).rest + b, d).pieces
    ensures SplitAt(a + b, d).rest == SplitAt(SplitAt(a, d).rest + b, d).rest
    decreases |a|
  {
    hide *;
    SplitOnce(a, d);
    SplitOnce(a + b, d);
    if Find(a, d).Some? {
      var i := Find(a, d).value;
      FindInFront(a, b, d);
      var tail := a[i + |d|..];
      assert (a + b)[..i] == a[..i];
      assert (a + b)[i + |d|..] == tail + b;
      SplitAppend(tail, b, d);
    }
  }

  function Concat(chunks: seq<Bytes>): Bytes
  {
    if chunks == [] then "" else Concat(chunks[..|chunks| - 1]) + chunks[|chunks| - 1]
  }
}

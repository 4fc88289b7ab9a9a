/** Bytes, and how sequences regroup and cut. */
module Sequences {
  type Byte = b: nat | b < 256

  function Flatten<T>(parts: seq<seq<T>>): seq<T> {
    if parts == [] then [] else parts[0] + Flatten(parts[1..])
  }

  lemma {:induction false} FlattenSnoc<T>(parts: seq<seq<T>>, last: seq<T>)
    ensures Flatten(parts + [last]) == Flatten(parts) + last
  {
    if parts == [] {
      assert Flatten([last]) == last + Flatten([last][1..]) && parts + [last] == [last];
    } else {
      assert (parts + [last])[1..] == parts[1..] + [last];
      FlattenSnoc(parts[1..], last);
      Associate(parts[0], Flatten(parts[1..]), last);
    }
  }

  lemma Associate<T>(a: seq<T>, b: seq<T>, c: seq<T>)
    ensures a + (b + c) == a + b + c
  {
  }

  lemma AssociateThree<T>(a: seq<T>, b: seq<T>, c: seq<T>, d: seq<T>)
    ensures a + (b + c + d) == a + b + c + d
  {
  }

  lemma Regroup<T>(pre: seq<T>, a: seq<T>, b: seq<T>, tail: seq<T>, post: seq<T>)
    ensures pre + (a + b + tail) + post == pre + a + (b + tail + post)
    ensures pre + (a + b + tail) + post == (pre + a + b) + tail + post
  {
  }

  lemma Cut<T>(all: seq<T>, n: nat)
    requires n <= |all|
    ensures all == all[..n] + all[n..]
  {
  }

  lemma Slices<T>(s: seq<T>, p: nat, m: nat, q: nat)
    requires p < m <= q <= |s|
    ensures s[p..q] == [s[p]] + s[p + 1..m] + s[m..q]
  {
    assert s[p..m] == [s[p]] + s[p + 1..m];
    assert s[p..q] == s[p..m] + s[m..q];
  }
}

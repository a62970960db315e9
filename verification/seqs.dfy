/** Regrouping of sequence concatenations. Stated once over plain sequences, these let the
    string proofs rearrange long concatenations without re-deriving extensionality in a
    context full of function unfoldings. */
module Seqs {

  lemma ConsSplit<T>(acc: seq<T>, xs: seq<T>)
    requires xs != []
    ensures acc + [xs[0]] + xs[1..] == acc + xs
  {
  }

  lemma ConsTail<T>(xs: seq<T>, t: seq<T>)
    requires xs != []
    ensures [xs[0]] + (xs[1..] + t) == xs + t
  {
    assert [xs[0]] + xs[1..] == xs;
  }

  lemma Assoc2<T>(a: seq<T>, b: seq<T>, c: seq<T>)
    ensures a + b + c == a + (b + c)
  {
  }

  lemma Assoc3<T>(a: seq<T>, b: seq<T>, q: seq<T>, r: seq<T>)
    ensures a + b + q + r == a + (b + q + r)
  {
  }

  lemma Assoc<T>(p: seq<T>, a: seq<T>, b: seq<T>, q: seq<T>, r: seq<T>)
    ensures p + a + b + q + r == p + (a + (b + q + r))
  {
  }

  lemma AssocTail<T>(p: seq<T>, a: seq<T>, b: seq<T>, q: seq<T>, r: seq<T>)
    ensures p + a + b + q + r == p + (a + b + q + r)
  {
  }

  /** The tail's last element and all-but-last part, in terms of the whole sequence. */
  lemma TailLast<T>(xs: seq<T>)
    requires |xs| > 1
    ensures xs[1..][|xs[1..]| - 1] == xs[|xs| - 1]
    ensures xs[1..][..|xs[1..]| - 1] == xs[1..|xs| - 1]
  {
  }

  lemma InitCons<T>(xs: seq<T>, tail: seq<T>)
    requires |xs| > 1
    ensures [xs[0]] + (xs[1..|xs| - 1] + tail) == xs[..|xs| - 1] + tail
  {
    assert [xs[0]] + xs[1..|xs| - 1] == xs[..|xs| - 1];
  }

  lemma InitLastCons<T>(xs: seq<T>, t: seq<T>)
    requires |xs| >= 1
    ensures xs[..|xs| - 1] + ([xs[|xs| - 1]] + t) == xs + t
  {
    assert xs[..|xs| - 1] + [xs[|xs| - 1]] == xs;
  }

  lemma Regroup<T>(p: seq<T>, b: seq<T>, q: seq<T>, r: seq<T>)
    ensures p + (b + q + r) == p + b + (q + r)
  {
  }
}

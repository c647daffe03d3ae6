/** Sequence facts the verifier is slow to find inside larger proofs. */
module Seqs {
  lemma Assoc<T>(a: seq<T>, b: seq<T>, c: seq<T>)
    ensures (a + b) + c == a + (b + c)
  {
  }

  lemma Front<T>(a: seq<T>, b: seq<T>)
    ensures (a + b)[..|a|] == a && (a + b)[|a|..] == b
  {
  }

  lemma Cons<T>(x: T, s: seq<T>)
    ensures ([x] + s)[0] == x && ([x] + s)[1..] == s
  {
  }

  lemma Shift<T>(acc: seq<T>, xs: seq<T>)
    requires xs != []
    ensures acc + [xs[0]] + xs[1..] == acc + xs
  {
  }

  lemma NoneLeft<T>(acc: seq<T>)
    ensures acc + [] == acc == [] + acc
  {
  }

  lemma Cut<T>(acc: seq<T>, s: seq<T>, n: nat)
    requires n <= |s|
    ensures acc + s[..n] + s[n..] == acc + s
  {
  }
}

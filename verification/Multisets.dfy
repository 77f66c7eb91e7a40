/** What the accounts of frames and sockets need of multisets. */
module Multisets {
  import opened Options

  function OneOrNone<T>(x: Option<T>): multiset<T> {
    match x
    case Some(y) => multiset{y}
    case None => multiset{}
  }

  lemma Swap<T>(a: multiset<T>, b: multiset<T>, c: multiset<T>)
    ensures (a + b) + c == (a + c) + b
  {
  }

  lemma Regroup<T>(a: multiset<T>, b: multiset<T>, c: multiset<T>)
    ensures (a + b) + c == a + (b + c)
  {
  }

  lemma Exchange<T>(a: multiset<T>, b: multiset<T>, c: multiset<T>)
    ensures (a + b) + c == (c + b) + a
  {
  }

  lemma ReplaceBehind<T>(a: multiset<T>, b: multiset<T>, c: multiset<T>, d: multiset<T>, e: multiset<T>)
    requires b + c == d + e
    ensures (a + b) + c == (a + d) + e
  {
    Regroup(a, b, c);
    Regroup(a, d, e);
  }
}

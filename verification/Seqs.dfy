/** Facts about sequences that keep extensional reasoning out of other proofs. */
module Seqs {

  lemma {:induction false} HeadTail<T>(s: seq<T>)
    requires |s| > 0
    ensures s == [s[0]] + s[1..]
  {
  }

  lemma {:induction false} ConsTail<T>(x: T, s: seq<T>)
    ensures ([x] + s)[1..] == s
  {
  }

  lemma {:induction false} DropTwo<T>(x: T, y: T, s: seq<T>)
    ensures ([x] + ([y] + s))[2..] == s && ([x] + ([y] + s))[1] == y
  {
  }

  lemma {:induction false} TwoHeads<T>(s: seq<T>)
    requires |s| >= 2
    ensures s == [s[0]] + ([s[1]] + s[2..])
  {
  }
}

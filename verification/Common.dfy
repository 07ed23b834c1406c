/** Names that several of the models share. */
module Common {

  type Byte = b: int | 0 <= b < 256
  type Bytes = seq<Byte>

  function Least(a: nat, b: nat): nat {
    if a <= b then a else b
  }

  function Abs(x: real): real {
    if x < 0.0 then -x else x
  }

  lemma Associate<T>(a: seq<T>, b: seq<T>, c: seq<T>)
    ensures a + (b + c) == (a + b) + c
  {
  }
}

/** What all the models share: optional values and a little arithmetic. */
module Basics {

  datatype Option<+T> = None | Some(value: T)

  function Find<T>(m: map<string, T>, key: string): Option<T> {
    if key in m then Some(m[key]) else None
  }

  function Min(a: nat, b: nat): nat { if a < b then a else b }

  lemma MulGrows(a: int, b: int, c: nat)
    requires a <= b
    ensures a * c <= b * c
  {
  }
}

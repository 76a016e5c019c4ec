/** The larger of two numbers. */
module Numbers {

  function Max(a: nat, b: nat): nat {
    if a > b then a else b
  }

  function MaxReal(a: real, b: real): real {
    if a > b then a else b
  }
}

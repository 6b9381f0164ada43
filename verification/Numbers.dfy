/** Small helpers on numbers. */
module Numbers {

  function One(b: bool): nat { if b then 1 else 0 }

  function Min(a: nat, b: nat): nat { if a < b then a else b }

  function Max(a: nat, b: nat): nat { if a < b then b else a }

  const TWO_64: nat := 0x1_0000_0000_0000_0000
}

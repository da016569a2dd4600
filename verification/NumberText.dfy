/** Numbers written with digits, in base ten or sixteen. */
module NumberText {

  /** The digits of a numeral, from the highest on. */
  predicate DigitsOf(ds: seq<nat>, base: nat) {
    forall k :: 0 <= k < |ds| ==> ds[k] < base
  }

  function DigitChar(d: nat, upper: bool): char
    requires d < 16
  {
    if d < 10 then "0123456789"[d] else if upper then "ABCDEF"[d - 10] else "abcdef"[d - 10]
  }

  function Numeral(ds: seq<nat>, upper: bool): string
    requires DigitsOf(ds, 16)
  {
    if ds == [] then "" else Numeral(ds[..|ds| - 1], upper) + [DigitChar(ds[|ds| - 1], upper)]
  }

  /** The number they denote: each digit counts for base times what the next one does. */
  function Positional(ds: seq<nat>, base: nat): nat {
    if ds == [] then 0 else Positional(ds[..|ds| - 1], base) * base + ds[|ds| - 1]
  }
}

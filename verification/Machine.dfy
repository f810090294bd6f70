/** The 32-bit words of the x86 target: `unsigned int` and `int` arithmetic written out on integers. */
module Machine {
  const WORD := 0x1_0000_0000
  const HALF := 0x8000_0000

  /** Conversion to `unsigned int`: whole turns of 2^32 are added or taken off. */
  function U32(x: int): (u: nat)
    ensures u < WORD
    ensures 0 <= x < WORD ==> u == x
    ensures -WORD <= x < 0 ==> u == x + WORD
    ensures WORD <= x < 2 * WORD ==> u == x - WORD
    decreases if x < 0 then WORD - x else x
  {
    if x < 0 then U32(x + WORD) else if x >= WORD then U32(x - WORD) else x
  }

  /** Conversion to `int` (two's complement). */
  function I32(x: int): (i: int)
    ensures -HALF <= i < HALF
    ensures -HALF <= x < HALF ==> i == x
    ensures HALF <= x < WORD ==> i == x - WORD
    ensures -WORD <= x < -HALF ==> i == x + WORD
  {
    var u := U32(x);
    if u < HALF then u else u - WORD
  }

  /** How many turns `U32` takes off. */
  lemma {:induction false} U32Turns(x: int) returns (k: int)
    ensures x == U32(x) + WORD * k
    decreases if x < 0 then WORD - x else x
  {
    if x < 0 {
      var j := U32Turns(x + WORD);
      k := j - 1;
    } else if x >= WORD {
      var j := U32Turns(x - WORD);
      k := j + 1;
    } else {
      k := 0;
    }
  }

  /** So `U32` is the remainder by 2^32. */
  lemma U32IsRemainder(x: int)
    ensures U32(x) == x % WORD
  {
    var k := U32Turns(x);
  }
}

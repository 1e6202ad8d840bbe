/** The random number generator as an explicit stream: `random.Random`
    yields a sequence of raw draws, and each `randint` consumes one. */
module Random {
  import opened Results

  /** A generator: the raw draws it will produce and how many are used. */
  datatype Rng = Rng(source: nat -> nat, drawn: nat)

  /** `rng.randint(lo, hi)`: a value in `[lo, hi]` from the next draw; an
      empty range is the `ValueError` Python raises, and consumes nothing. */
  function RandInt(rng: Rng, lo: int, hi: int): (r: Result<(int, Rng), string>)
    ensures r.Ok? <==> lo <= hi
    ensures r.Ok? ==> lo <= r.value.0 <= hi
    ensures r.Ok? ==> r.value.1.source == rng.source && r.value.1.drawn == rng.drawn + 1
  {
    if hi < lo then Err("empty range for randint")
    else Ok((lo + rng.source(rng.drawn) % (hi - lo + 1), Rng(rng.source, rng.drawn + 1)))
  }
}

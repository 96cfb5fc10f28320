/** The draw source: maps raw engine values into inclusive ranges, plus the
    round-up helper. The engine itself (rngGenerator) is foreign; here the raw
    values one seeding yields are a sequence read at a moving position. */
module RandomGen {

  import Arith

  /** The raw values a seeded engine produces, one per position. Any finite
      run reads finitely many; reading past the end yields 0. */
  type Stream = seq<nat>

  function Min(a: int, b: int): int { if a <= b then a else b }
  function Max(a: int, b: int): int { if a <= b then b else a }

  /** randomInclusive's arithmetic: swap reversed bounds, then shift the raw
      value's remainder modulo the range width onto the low bound. */
  function MapDraw(low: int, high: int, raw: nat): (r: int)
    ensures Min(low, high) <= r <= Max(low, high)
  {
    var lo := if low > high then high else low;
    var hi := if low > high then low else high;
    var range := (hi - lo) + 1;
    lo + raw % range
  }

  /** The k-th raw value of a stream. Method contracts name draws through
      this function rather than by applying the stream directly. */
  function RawAt(s: Stream, k: nat): nat { if k < |s| then s[k] else 0 }

  /** Swapping the bounds does not change the value obtained from a draw. */
  lemma MapDrawSymmetric(low: int, high: int, raw: nat)
    ensures MapDraw(low, high, raw) == MapDraw(high, low, raw)
  {
  }

  /** A degenerate range always yields its single value. */
  lemma MapDrawPoint(x: int, raw: nat)
    ensures MapDraw(x, x, raw) == x
  {
  }

  /** The value is the low bound plus the raw value modulo the width, so
      each of the width-many results corresponds to one residue class. */
  lemma MapDrawResidue(low: int, high: int, raw: nat)
    requires low <= high
    ensures MapDraw(low, high, raw) - low == raw % (high - low + 1)
    ensures MapDraw(low, high, raw + (high - low + 1)) == MapDraw(low, high, raw)
  {
    var w := high - low + 1;
    assert raw == (raw / w) * w + raw % w;
    Arith.DivModUnique(raw + w, w, raw / w + 1, raw % w);
  }

  /** C++ `%` on int: the remainder takes the sign of the dividend. */
  function CRem(a: int, b: int): (r: int)
    requires b != 0
    ensures a >= 0 ==> 0 <= r < (if b > 0 then b else -b)
    ensures a < 0 ==> -(if b > 0 then b else -b) < r <= 0
  {
    var m := if b > 0 then b else -b;
    if a >= 0 then a % m else -((-a) % m)
  }

  /** roundUpTo: leave a multiple alone, otherwise add what is missing to the
      next multiple (with the C++ remainder). */
  function RoundUpTo(value: int, unit: int): int
    requires unit != 0
  {
    var remainder := CRem(value, unit);
    if remainder == 0 then value else value + (unit - remainder)
  }

  /** For a positive unit and non-negative value the result is the least
      multiple of `unit` that is at least `value`. */
  lemma RoundUpToIsNextMultiple(value: int, unit: int)
    requires unit > 0 && value >= 0
    ensures RoundUpTo(value, unit) % unit == 0
    ensures value <= RoundUpTo(value, unit) < value + unit
  {
    var q, rem := value / unit, value % unit;
    assert value == q * unit + rem;
    if rem == 0 {
      Arith.DivModUnique(value, unit, q, 0);
    } else {
      assert RoundUpTo(value, unit) == value + (unit - rem);
      assert value + (unit - rem) == (q + 1) * unit;
      Arith.DivModUnique((q + 1) * unit, unit, q + 1, 0);
    }
  }

  /** A multiple is returned unchanged, so rounding twice equals rounding once. */
  lemma RoundUpToIdempotent(value: int, unit: int)
    requires unit > 0 && value >= 0
    ensures value % unit == 0 ==> RoundUpTo(value, unit) == value
    ensures RoundUpTo(RoundUpTo(value, unit), unit) == RoundUpTo(value, unit)
  {
    RoundUpToIsNextMultiple(value, unit);
  }

  /** The generator object: `source` stands for the raw values the seeded
      engine produces, `position` for how many of them were consumed. */
  class RandomGenerator {
    var source: Stream
    var position: nat

    /** Construction seeds the engine; the seeded stream is the argument. */
    constructor (stream: Stream)
      ensures source == stream && position == 0
    {
      source := stream;
      position := 0;
    }

    /** reseed: restart from the stream the new seed yields. */
    method Reseed(stream: Stream)
      modifies this
      ensures source == stream && position == 0
    {
      source := stream;
      position := 0;
    }

    /** randomInclusive: consumes exactly one raw draw. */
    method RandomInclusive(low: int, high: int) returns (mapped: int)
      modifies this`position
      ensures position == old(position) + 1
      ensures mapped == MapDraw(low, high, RawAt(source, old(position)))
      ensures Min(low, high) <= mapped <= Max(low, high)
    {
      var lo, hi := low, high;
      if lo > hi {
        var tmp := lo;
        lo := hi;
        hi := tmp;
      }
      var range := (hi - lo) + 1;
      var rawrng := RawAt(source, position);
      position := position + 1;
      var offset := rawrng % range;
      mapped := lo + offset;
    }
  }
}

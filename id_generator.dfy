/**
 * The short-code generator of src/lib/IDGenerator.ts: rejection sampling of
 * random bytes against an alphabet, and the IDGenerator object that holds a
 * default alphabet and a default length.
 *
 * The secure random source (`crypto.getRandomValues`) is an input here: the
 * sequence of bytes it would deliver, batch after batch. A run that needs
 * more bytes than the sequence holds ends with `EntropyExhausted`, which
 * stands for "the source's loop would still be drawing". A batch of more
 * than 65536 bytes is refused by `getRandomValues` itself (the Web Crypto
 * quota), which the source does not catch: that is `QuotaExceeded`.
 */
module IdGenerator {
  import opened Common

  type Byte = b: int | 0 <= b < 256

  const UrlSafeAlphabet: string := "0123456789ABCDEFGHIJKLMNOPQRSTUVWXYZabcdefghijklmnopqrstuvwxyz_-"
  const DefaultLength: nat := 6
  const MinAlphabetSize: nat := 2
  const MaxAlphabetSize: nat := 1024
  /** The most bytes one `crypto.getRandomValues` call fills; a larger array throws QuotaExceededError. */
  const MaxRandomBytes: nat := 65536

  const LengthMessage: string := "length must be an integer >= 1"
  const AlphabetTooShortMessage: string := "alphabet must be a string with at least 2 characters"
  const AlphabetTooLargeMessage: string := "alphabet is too large"

  /**
   * TypeError is what the validators throw; QuotaExceeded is the error
   * `getRandomValues` throws for a batch over MaxRandomBytes; EntropyExhausted
   * marks the end of the modelled byte stream.
   */
  datatype GenError = TypeError(message: string) | QuotaExceeded | EntropyExhausted

  // ---------------------------------------------------------------------------
  // The bit mask

  function Pow2(k: nat): (r: nat)
    ensures r >= 1
  {
    if k == 0 then 1 else 2 * Pow2(k - 1)
  }

  /** The shift count of `2 << (Math.log(x) / Math.LN2)`: the integer part of log2 x. */
  function FloorLog2(x: nat): (k: nat)
    requires x >= 1
    ensures Pow2(k) <= x < 2 * Pow2(k)
  {
    if x == 1 then 0 else 1 + FloorLog2(x / 2)
  }

  /**
   * `(2 << floor(log2(n - 1))) - 1`: the smallest all-ones mask that covers
   * every index of an alphabet of n characters. Because the next smaller
   * all-ones mask would not cover n - 1, fewer than 2n masked values exist, so
   * at least half of them index the alphabet.
   */
  function Mask(n: nat): (m: nat)
    requires n >= MinAlphabetSize
    ensures m + 1 == Pow2(FloorLog2(n - 1) + 1)
    ensures n - 1 <= m
    ensures m + 1 <= 2 * (n - 1) && m + 1 < 2 * n
  {
    var k := FloorLog2(n - 1);
    assert 2 * Pow2(k) == Pow2(k + 1);
    2 * Pow2(k) - 1
  }

  /**
   * `bytes[i] & mask`. For an all-ones mask 2^k - 1 the bitwise and keeps the
   * k low bits, that is the remainder modulo 2^k, written here as repeated
   * subtraction of 2^k.
   */
  function Masked(b: nat, mask: nat): (r: nat)
    ensures r <= mask && r <= b
    decreases b
  {
    if b <= mask then b else Masked(b - (mask + 1), mask)
  }

  /**
   * The masked value is the remainder of the byte modulo mask + 1: it never
   * exceeds the mask or the byte, leaves a byte within the mask unchanged, and
   * does not change when mask + 1 is added to the byte.
   */
  lemma {:induction false} MaskedIsRemainder(b: nat, mask: nat)
    ensures Masked(b, mask) <= b && Masked(b, mask) <= mask
    ensures b <= mask ==> Masked(b, mask) == b
    ensures Masked(b + mask + 1, mask) == Masked(b, mask)
    decreases b
  {
    if b > mask {
      MaskedIsRemainder(b - (mask + 1), mask);
    }
  }

  /**
   * `-~((1.6 * mask * length) / alphabet.length)`: the integer part of the
   * quotient plus one, computed here on exact rationals.
   */
  function BatchSize(n: nat, mask: nat, length: nat): (step: nat)
    requires n >= 1
    ensures step >= 1
  {
    (16 * mask * length) / (10 * n) + 1
  }

  /** The number of bytes a stream of `total` bytes delivers in whole batches of `step`. */
  function FullBatches(total: nat, step: nat): (used: nat)
    requires step >= 1
    ensures used <= total < used + step
  {
    if total < step then 0 else step + FullBatches(total - step, step)
  }

  /** How many whole batches the stream holds: the bytes they deliver are that many times `step`. */
  function Batches(total: nat, step: nat): (k: nat)
    requires step >= 1
    ensures FullBatches(total, step) == k * step
    ensures k * step <= total < (k + 1) * step
  {
    if total < step then 0 else 1 + Batches(total - step, step)
  }

  // ---------------------------------------------------------------------------
  // Rejection sampling

  /**
   * The characters the first k bytes of a random stream yield, in draw order:
   * a masked byte that indexes the alphabet (`alphabet[byte]` is then a
   * non-empty, hence truthy, string) contributes that character, any other
   * byte nothing.
   */
  function Drawn(alphabet: string, mask: nat, stream: seq<Byte>, k: nat): (r: string)
    requires k <= |stream|
    ensures |r| <= k
  {
    if k == 0 then []
    else
      var i := Masked(stream[k - 1], mask);
      if i < |alphabet| then Drawn(alphabet, mask, stream, k - 1) + [alphabet[i]]
      else Drawn(alphabet, mask, stream, k - 1)
  }

  /**
   * Every drawn character is a character of the alphabet, and one of its
   * first 256: a masked byte never exceeds the byte.
   */
  lemma {:induction false} DrawnInAlphabet(alphabet: string, mask: nat, stream: seq<Byte>, k: nat)
    requires k <= |stream|
    ensures forall i :: 0 <= i < |Drawn(alphabet, mask, stream, k)| ==> Drawn(alphabet, mask, stream, k)[i] in alphabet
    ensures forall i :: 0 <= i < |Drawn(alphabet, mask, stream, k)| ==>
              Drawn(alphabet, mask, stream, k)[i] in alphabet[..Min(|alphabet|, 256)]
  {
    if k > 0 {
      DrawnInAlphabet(alphabet, mask, stream, k - 1);
      var b := Masked(stream[k - 1], mask);
      MaskedIsRemainder(stream[k - 1], mask);
      if b < |alphabet| {
        assert alphabet[b] == alphabet[..Min(|alphabet|, 256)][b];
      }
    }
  }

  /** More bytes never take characters back: a shorter draw is a prefix of a longer one. */
  lemma {:induction false} DrawnMonotone(alphabet: string, mask: nat, stream: seq<Byte>, k: nat, m: nat)
    requires k <= m <= |stream|
    ensures Drawn(alphabet, mask, stream, k) <= Drawn(alphabet, mask, stream, m)
  {
    if k < m {
      DrawnMonotone(alphabet, mask, stream, k, m - 1);
    }
  }

  /** The first k bytes decide the first k draws: bytes drawn later change nothing before them. */
  lemma {:induction false} DrawnIgnoresLater(alphabet: string, mask: nat, a: seq<Byte>, b: seq<Byte>, k: nat)
    requires k <= |a|
    ensures Drawn(alphabet, mask, a + b, k) == Drawn(alphabet, mask, a, k)
  {
    if k > 0 {
      assert (a + b)[k - 1] == a[k - 1];
      DrawnIgnoresLater(alphabet, mask, a, b, k - 1);
    }
  }

  /** Drawing stream `a` and then stream `b` yields the characters of `a` followed by those of `b`. */
  lemma {:induction false} DrawnAppend(alphabet: string, mask: nat, a: seq<Byte>, b: seq<Byte>, k: nat)
    requires k <= |b|
    ensures Drawn(alphabet, mask, a + b, |a| + k) == Drawn(alphabet, mask, a, |a|) + Drawn(alphabet, mask, b, k)
  {
    if k == 0 {
      DrawnIgnoresLater(alphabet, mask, a, b, |a|);
    } else {
      assert (a + b)[|a| + k - 1] == b[k - 1];
      DrawnAppend(alphabet, mask, a, b, k - 1);
      var front := Drawn(alphabet, mask, a, |a|);
      var i := Masked(b[k - 1], mask);
      if i < |alphabet| {
        assert Drawn(alphabet, mask, b, k) == Drawn(alphabet, mask, b, k - 1) + [alphabet[i]];
        assert front + Drawn(alphabet, mask, b, k) == front + Drawn(alphabet, mask, b, k - 1) + [alphabet[i]];
      }
    }
  }

  /** Every character among the first 256 of the alphabet is drawn by some byte: the byte equal to its index. */
  lemma IndexReachable(alphabet: string, i: nat)
    requires MinAlphabetSize <= |alphabet| && i < |alphabet| && i < 256
    ensures Drawn(alphabet, Mask(|alphabet|), [i], 1) == [alphabet[i]]
  {
  }

  /**
   * A character that occurs in the alphabet only beyond index 255 is never
   * drawn: the validator admits alphabets of up to 1024 characters, but the
   * random values are single bytes.
   */
  lemma IndexBeyondByteUnreachable(alphabet: string, stream: seq<Byte>, i: nat)
    requires MinAlphabetSize <= |alphabet| && 256 <= i < |alphabet|
    requires alphabet[i] !in alphabet[..256]
    ensures alphabet[i] !in Drawn(alphabet, Mask(|alphabet|), stream, |stream|)
  {
    DrawnInAlphabet(alphabet, Mask(|alphabet|), stream, |stream|);
  }

  /** The characters of all the whole batches of the stream: at most one a byte, all of them from the alphabet. */
  function Sampled(alphabet: string, length: nat, stream: seq<Byte>): (r: string)
    requires MinAlphabetSize <= |alphabet|
    ensures |r| <= |stream|
    ensures forall i :: 0 <= i < |r| ==> r[i] in alphabet
  {
    var mask := Mask(|alphabet|);
    var usable := FullBatches(|stream|, BatchSize(|alphabet|, mask, length));
    DrawnInAlphabet(alphabet, mask, stream, usable);
    Drawn(alphabet, mask, stream, usable)
  }

  /** A draw that already holds n characters keeps them as its first n however many bytes follow. */
  lemma DrawnKeepsPrefix(alphabet: string, mask: nat, stream: seq<Byte>, k: nat, m: nat, n: nat)
    requires k <= m <= |stream| && n == |Drawn(alphabet, mask, stream, k)|
    ensures n <= |Drawn(alphabet, mask, stream, m)|
    ensures Drawn(alphabet, mask, stream, m)[..n] == Drawn(alphabet, mask, stream, k)
  {
    DrawnMonotone(alphabet, mask, stream, k, m);
  }

  /**
   * `generateSecureString`: draw batches of `step` random bytes, mask each,
   * append the character it indexes when it indexes one, and stop as soon as
   * `length` characters have been collected. The result is the first
   * `length` characters that the whole batches of the stream yield.
   */
  method GenerateSecureString(alphabet: string, length: nat, entropy: seq<Byte>) returns (r: Result<string, GenError>)
    requires MinAlphabetSize <= |alphabet| && length >= 1
    ensures BatchSize(|alphabet|, Mask(|alphabet|), length) > MaxRandomBytes ==> r == Failure(QuotaExceeded)
    ensures BatchSize(|alphabet|, Mask(|alphabet|), length) <= MaxRandomBytes ==>
              (r.Success? <==> length <= |Sampled(alphabet, length, entropy)|)
    ensures BatchSize(|alphabet|, Mask(|alphabet|), length) <= MaxRandomBytes && r.Failure? ==>
              r.error == EntropyExhausted
    ensures r.Success? ==> r.value == Sampled(alphabet, length, entropy)[..length]
  {
    var mask := Mask(|alphabet|);
    var step := BatchSize(|alphabet|, mask, length);
    if step > MaxRandomBytes {
      return Failure(QuotaExceeded);
    }
    var id := Collect(alphabet, mask, step, length, entropy);
    if id.None? {
      return Failure(EntropyExhausted);
    }
    return Success(id.value);
  }

  /**
   * With the URL-safe alphabet (mask 63) a batch is floor(1.575 * length) + 1
   * bytes, so every valid length from 41611 on fails with the quota error
   * and every shorter one fits in a single `getRandomValues` call.
   */
  lemma UrlSafeQuotaBound(length: nat)
    ensures Mask(|UrlSafeAlphabet|) == 63
    ensures BatchSize(|UrlSafeAlphabet|, Mask(|UrlSafeAlphabet|), length) > MaxRandomBytes <==> length >= 41611
  {
    var m := Mask(|UrlSafeAlphabet|);
    assert m == 63 by {
      assert Pow2(6) == 64 && Pow2(7) == 128;
      assert FloorLog2(63) == 5;
    }
  }

  /**
   * The `while (true)` loop of `generateSecureString` for a given mask and
   * batch size: one batch after another until the id is complete or the
   * stream has no whole batch left.
   */
  method Collect(alphabet: string, mask: nat, step: nat, length: nat, entropy: seq<Byte>) returns (r: Option<string>)
    requires step >= 1 && length >= 1
    ensures var drawn := Drawn(alphabet, mask, entropy, FullBatches(|entropy|, step));
      && (r.Some? <==> length <= |drawn|)
      && (r.Some? ==> r.value == drawn[..length])
  {
    ghost var usable := FullBatches(|entropy|, step);
    var id := "";
    var pos := 0;
    while pos + step <= |entropy|
      invariant pos <= |entropy|
      invariant pos + FullBatches(|entropy| - pos, step) == usable
      invariant id == Drawn(alphabet, mask, entropy, pos)
      invariant |id| < length
      decreases |entropy| - pos
    {
      NextBatch(|entropy| - pos, step);
      id := DrawBatch(alphabet, mask, entropy, pos, step, length, id);
      if |id| == length {
        DrawnMonotone(alphabet, mask, entropy, pos + step, usable);
        PrefixTake(Drawn(alphabet, mask, entropy, pos + step), Drawn(alphabet, mask, entropy, usable), length);
        assert id == Drawn(alphabet, mask, entropy, usable)[..length];
        return Some(id);
      }
      assert id == Drawn(alphabet, mask, entropy, pos + step);
      pos := pos + step;
    }
    assert FullBatches(|entropy| - pos, step) == 0;
    assert id == Drawn(alphabet, mask, entropy, usable);
    return None;
  }

  /**
   * The `for` loop over one batch, the bytes at `pos` up to `pos + step`:
   * it appends the characters they draw to `id` and stops as soon as the id
   * has `length` characters. A full id is the first `length` characters drawn
   * up to the end of the batch; a shorter one is everything drawn so far.
   */
  method DrawBatch(alphabet: string, mask: nat, entropy: seq<Byte>, pos: nat, step: nat, length: nat, id0: string)
    returns (id: string)
    requires pos + step <= |entropy|
    requires id0 == Drawn(alphabet, mask, entropy, pos) && |id0| < length
    ensures |id| <= length
    ensures |id| < length ==> id == Drawn(alphabet, mask, entropy, pos + step)
    ensures |id| == length ==> length <= |Drawn(alphabet, mask, entropy, pos + step)|
    ensures |id| == length ==> id == Drawn(alphabet, mask, entropy, pos + step)[..length]
  {
    id := id0;
    for i := 0 to step
      invariant id == Drawn(alphabet, mask, entropy, pos + i)
      invariant |id| < length
    {
      DrawnNext(alphabet, mask, entropy, pos + i);
      var b := Masked(entropy[pos + i], mask);
      if b < |alphabet| {
        id := id + [alphabet[b]];
        assert id == Drawn(alphabet, mask, entropy, pos + i + 1);
        if |id| == length {
          DrawnKeepsPrefix(alphabet, mask, entropy, pos + i + 1, pos + step, length);
          return;
        }
      }
    }
  }

  /** A prefix and the longer string agree on their first n characters. */
  lemma PrefixTake(a: string, b: string, n: nat)
    requires a <= b && n <= |a|
    ensures n <= |b| && b[..n] == a[..n]
  {
  }

  /** A stream with a whole batch left delivers that batch and then the whole batches after it. */
  lemma NextBatch(total: nat, step: nat)
    requires step >= 1 && total >= step
    ensures FullBatches(total, step) == step + FullBatches(total - step, step)
  {
  }

  /** One more byte appends the character it indexes, or nothing. */
  lemma DrawnNext(alphabet: string, mask: nat, stream: seq<Byte>, k: nat)
    requires k < |stream|
    ensures var b := Masked(stream[k], mask);
      Drawn(alphabet, mask, stream, k + 1)
        == if b < |alphabet| then Drawn(alphabet, mask, stream, k) + [alphabet[b]] else Drawn(alphabet, mask, stream, k)
  {
  }

  // ---------------------------------------------------------------------------
  // Validation

  /** A JavaScript number passes `Number.isInteger(n) && n >= 1`. */
  predicate ValidLength(n: real)
  {
    n == n.Floor as real && n >= 1.0
  }

  predicate ValidAlphabet(a: string)
  {
    MinAlphabetSize <= |a| <= MaxAlphabetSize
  }

  /** `assertValidLength`: `None` when the length is accepted, otherwise the TypeError it throws. */
  function AssertValidLength(n: real): (err: Option<GenError>)
    ensures err.None? <==> (n == n.Floor as real && n >= 1.0)
    ensures err.Some? ==> err.value == TypeError(LengthMessage)
  {
    if n != n.Floor as real || n < 1.0 then Some(TypeError(LengthMessage)) else None
  }

  /** `assertValidAlphabet`: too short is checked before too long, each with its own message. */
  function AssertValidAlphabet(a: string): (err: Option<GenError>)
    ensures err.None? <==> 2 <= |a| <= 1024
    ensures |a| < 2 ==> err == Some(TypeError(AlphabetTooShortMessage))
    ensures |a| > 1024 ==> err == Some(TypeError(AlphabetTooLargeMessage))
  {
    if |a| < MinAlphabetSize then Some(TypeError(AlphabetTooShortMessage))
    else if |a| > MaxAlphabetSize then Some(TypeError(AlphabetTooLargeMessage))
    else None
  }

  /**
   * The constructor's decisions: `options.length ?? 6` is validated first, then
   * a truthy `options.alphabet`; the result is the configuration it stores.
   */
  function Configure(alphabet: Option<string>, length: Option<real>): (r: Result<(string, nat), GenError>)
    ensures r.Success? <==>
              ValidLength(if length.Some? then length.value else DefaultLength as real)
              && (alphabet.Some? && alphabet.value != "" ==> ValidAlphabet(alphabet.value))
    ensures r.Success? ==> ValidAlphabet(r.value.0) && r.value.1 >= 1
    ensures r.Success? ==> r.value.0 == (if alphabet.Some? && alphabet.value != "" then alphabet.value else UrlSafeAlphabet)
    ensures r.Success? && length.None? ==> r.value.1 == DefaultLength
    ensures r.Success? && length.Some? ==> r.value.1 as real == length.value
    ensures !ValidLength(if length.Some? then length.value else DefaultLength as real) ==>
              r == Failure(TypeError(LengthMessage))
    ensures ValidLength(if length.Some? then length.value else DefaultLength as real)
            && alphabet.Some? && alphabet.value != "" && !ValidAlphabet(alphabet.value) ==>
              r == Failure(AssertValidAlphabet(alphabet.value).value)
  {
    var len := if length.Some? then length.value else DefaultLength as real;
    match AssertValidLength(len)
    case Some(e) => Failure(e)
    case None =>
      if alphabet.Some? && alphabet.value != "" then
        match AssertValidAlphabet(alphabet.value)
        case Some(e) => Failure(e)
        case None => Success((alphabet.value, len.Floor))
      else
        Success((UrlSafeAlphabet, len.Floor))
  }

  /** The URL-safe default is 64 characters long and passes the alphabet check. */
  lemma UrlSafeAlphabetValid()
    ensures |UrlSafeAlphabet| == 64 && ValidAlphabet(UrlSafeAlphabet)
  {
  }

  // ---------------------------------------------------------------------------
  // The generator object

  class IDGenerator {
    var alphabet: string
    var length: nat

    ghost predicate Valid()
      reads this
    {
      ValidAlphabet(alphabet) && length >= 1
    }

    /** Stores an already validated configuration. */
    constructor Init(alphabet: string, length: nat)
      requires ValidAlphabet(alphabet) && length >= 1
      ensures Valid() && this.alphabet == alphabet && this.length == length
    {
      this.alphabet := alphabet;
      this.length := length;
    }

    /** `new IDGenerator(options)`: throws the TypeError that Configure reports, or yields a generator holding its configuration. */
    static method Create(alphabet: Option<string>, length: Option<real>) returns (r: Result<IDGenerator, GenError>)
      ensures r.Failure? <==> Configure(alphabet, length).Failure?
      ensures r.Failure? ==> r.error == Configure(alphabet, length).error
      ensures r.Success? ==> fresh(r.value) && r.value.Valid()
      ensures r.Success? ==> (r.value.alphabet, r.value.length) == Configure(alphabet, length).value
    {
      var c := Configure(alphabet, length);
      if c.Failure? {
        return Failure(c.error);
      }
      var g := new IDGenerator.Init(c.value.0, c.value.1);
      return Success(g);
    }

    /** `IDGenerator.numeric(length = 6)`. */
    static method Numeric(length: Option<real>) returns (r: Result<IDGenerator, GenError>)
      ensures r.Success? <==> ValidLength(if length.Some? then length.value else DefaultLength as real)
      ensures r.Success? ==> fresh(r.value) && r.value.Valid() && r.value.alphabet == "0123456789"
      ensures r.Success? ==> r.value.length as real == (if length.Some? then length.value else DefaultLength as real)
    {
      var len := if length.Some? then length.value else DefaultLength as real;
      r := Create(Some("0123456789"), Some(len));
    }

    /** `IDGenerator.alphaNumeric(length = 6)`. */
    static method AlphaNumeric(length: Option<real>) returns (r: Result<IDGenerator, GenError>)
      ensures r.Success? <==> ValidLength(if length.Some? then length.value else DefaultLength as real)
      ensures r.Success? ==> fresh(r.value) && r.value.Valid()
      ensures r.Success? ==> r.value.alphabet == "ABCDEFGHIJKLMNOPQRSTUVWXYZabcdefghijklmnopqrstuvwxyz0123456789"
      ensures r.Success? ==> r.value.length as real == (if length.Some? then length.value else DefaultLength as real)
    {
      var len := if length.Some? then length.value else DefaultLength as real;
      r := Create(Some("ABCDEFGHIJKLMNOPQRSTUVWXYZabcdefghijklmnopqrstuvwxyz0123456789"), Some(len));
    }

    /** `IDGenerator.urlSafe(length = 6)`; the module's shared `gen` is `urlSafe()`. */
    static method UrlSafe(length: Option<real>) returns (r: Result<IDGenerator, GenError>)
      ensures r.Success? <==> ValidLength(if length.Some? then length.value else DefaultLength as real)
      ensures r.Success? ==> fresh(r.value) && r.value.Valid() && r.value.alphabet == UrlSafeAlphabet
      ensures r.Success? ==> r.value.length as real == (if length.Some? then length.value else DefaultLength as real)
    {
      var len := if length.Some? then length.value else DefaultLength as real;
      r := Create(None, Some(len));
    }

    /**
     * `generate(length?)`: validates `length ?? this.length`, then samples.
     * It has no modifies clause: a per-call length never changes the
     * stored default.
     */
    method Generate(length: Option<real>, entropy: seq<Byte>) returns (r: Result<string, GenError>)
      requires Valid()
      ensures var len := if length.Some? then length.value else this.length as real;
              && (!ValidLength(len) ==> r == Failure(TypeError(LengthMessage)))
              && (ValidLength(len) ==> r != Failure(TypeError(LengthMessage)))
              && (r.Success? ==> |r.value| as real == len)
              && (r.Success? ==> forall i :: 0 <= i < |r.value| ==> r.value[i] in alphabet)
              && (ValidLength(len) && BatchSize(|alphabet|, Mask(|alphabet|), len.Floor) > MaxRandomBytes ==>
                    r == Failure(QuotaExceeded))
              && (ValidLength(len) && BatchSize(|alphabet|, Mask(|alphabet|), len.Floor) <= MaxRandomBytes ==>
                    (r.Success? <==> len.Floor <= |Sampled(alphabet, len.Floor, entropy)|))
              && (ValidLength(len) && r.Success? ==> r.value == Sampled(alphabet, len.Floor, entropy)[..len.Floor])
              && (r.Success? ==> r.value <= Drawn(alphabet, Mask(|alphabet|), entropy, |entropy|))
    {
      var len := if length.Some? then length.value else this.length as real;
      var err := AssertValidLength(len);
      if err.Some? {
        return Failure(err.value);
      }
      var n := len.Floor;
      var id := GenerateSecureString(alphabet, n, entropy);
      if id.Failure? {
        return Failure(id.error);
      }
      ghost var mask := Mask(|alphabet|);
      ghost var usable := FullBatches(|entropy|, BatchSize(|alphabet|, mask, n));
      DrawnMonotone(alphabet, mask, entropy, usable, |entropy|);
      DrawnInAlphabet(alphabet, mask, entropy, usable);
      return Success(id.value);
    }

    /** `setDefaultLength`: validation runs before assignment, so a rejected length changes nothing. */
    method SetDefaultLength(length: real) returns (err: Option<GenError>)
      requires Valid()
      modifies this
      ensures Valid()
      ensures err.None? <==> ValidLength(length)
      ensures err.Some? ==> err.value == TypeError(LengthMessage)
      ensures err.None? ==> this.length as real == length
      ensures err.Some? ==> this.length == old(this.length)
      ensures alphabet == old(alphabet)
    {
      err := AssertValidLength(length);
      if err.None? {
        this.length := length.Floor;
      }
    }

    /**
     * `setAlphabet(alphabet?)`: `undefined` restores the URL-safe default; any
     * string, `""` included, is validated first and stored only when valid.
     */
    method SetAlphabet(alphabet: Option<string>) returns (err: Option<GenError>)
      requires Valid()
      modifies this
      ensures Valid()
      ensures err.None? <==> (alphabet.None? || ValidAlphabet(alphabet.value))
      ensures err.Some? ==> err == AssertValidAlphabet(alphabet.value)
      ensures err.None? ==> this.alphabet == if alphabet.Some? then alphabet.value else UrlSafeAlphabet
      ensures err.Some? ==> this.alphabet == old(this.alphabet)
      ensures length == old(length)
    {
      if alphabet.Some? {
        err := AssertValidAlphabet(alphabet.value);
        if err.None? {
          this.alphabet := alphabet.value;
        }
      } else {
        err := None;
        UrlSafeAlphabetValid();
        this.alphabet := UrlSafeAlphabet;
      }
    }
  }
}

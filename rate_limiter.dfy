/** `core/rate_limiter.py`: a token bucket refilled at a fixed rate up to
    its capacity, and the limiter that keeps one bucket per kind of API
    call. Readings of the monotonic clock are parameters. */
module RateLimit {
  import opened Wrappers
  import opened PyText

  const MinRate := 0.1
  const TokensPerEmbedding := 32

  function MaxReal(a: real, b: real): real {
    if a >= b then a else b
  }

  function MaxInt(a: int, b: int): int {
    if a >= b then a else b
  }

  /** Python's `int(x)` on a float, which truncates toward zero. */
  function Trunc(x: real): (n: int)
    ensures x >= 0.0 ==> 0 <= n && n as real <= x < n as real + 1.0
    ensures x < 0.0 ==> n <= 0 && n as real - 1.0 < x <= n as real
  {
    if x >= 0.0 then x.Floor else -((-x).Floor)
  }

  /** The balance `_refill` leaves after `elapsed` seconds. */
  function Refilled(tokens: real, capacity: int, rate: real, elapsed: real): (t: real)
    ensures t <= capacity as real
    ensures tokens <= capacity as real && elapsed >= 0.0 && rate >= 0.0 ==> tokens <= t
  {
    if capacity as real <= tokens + elapsed * rate then capacity as real else tokens + elapsed * rate
  }

  /** A longer wait never leaves fewer tokens, and a full bucket stays full. */
  lemma RefilledMonotone(tokens: real, capacity: int, rate: real, e1: real, e2: real)
    requires rate >= 0.0 && e1 <= e2
    ensures Refilled(tokens, capacity, rate, e1) <= Refilled(tokens, capacity, rate, e2)
    ensures tokens == capacity as real && e1 >= 0.0 ==> Refilled(tokens, capacity, rate, e1) == tokens
  {
    RealMulNonNegative(e2 - e1, rate);
    assert (e2 - e1) * rate == e2 * rate - e1 * rate;
    if e1 >= 0.0 {
      RealMulNonNegative(e1, rate);
    }
  }

  lemma RealMulNonNegative(a: real, b: real)
    requires a >= 0.0 && b >= 0.0
    ensures a * b >= 0.0
  {
  }

  /** `TokenBucket`. */
  class TokenBucket {
    var rate: real
    var capacity: int
    var tokens: real
    var lastTime: real

    /** The balance never exceeds the capacity; the clamped rate and
        capacity stay clamped. */
    predicate Valid()
      reads this
    {
      rate >= MinRate && capacity >= 1 && tokens <= capacity as real
    }

    /** `TokenBucket(rate, capacity)` created at time `now`: the rate and the
        capacity are clamped, but the balance starts at the capacity as
        given. */
    constructor (rate: real, capacity: int, now: real)
      ensures Valid()
      ensures this.rate == MaxReal(MinRate, rate) && this.capacity == MaxInt(1, capacity)
      ensures tokens == capacity as real && lastTime == now
    {
      this.rate := MaxReal(MinRate, rate);
      this.capacity := MaxInt(1, capacity);
      tokens := capacity as real;
      lastTime := now;
    }

    /** `_refill` at time `now`; the clock is monotonic. */
    method Refill(now: real)
      requires Valid() && lastTime <= now
      modifies this`tokens, this`lastTime
      ensures Valid()
      ensures tokens == Refilled(old(tokens), capacity, rate, now - old(lastTime)) && lastTime == now
      ensures old(tokens) <= tokens
    {
      tokens := Refilled(tokens, capacity, rate, now - lastTime);
      lastTime := now;
    }

    /** `acquire(k, timeout=None)`, which is `try_acquire(k)`, at time `now`:
        a non-positive request is granted without touching the bucket;
        otherwise the bucket is refilled and the request granted exactly
        when the balance covers it, deducting `k`. */
    method TryAcquire(k: int, now: real) returns (ok: bool)
      requires Valid() && lastTime <= now
      modifies this`tokens, this`lastTime
      ensures Valid()
      ensures k <= 0 ==> ok && tokens == old(tokens) && lastTime == old(lastTime)
      ensures k > 0 ==>
                var t := Refilled(old(tokens), capacity, rate, now - old(lastTime));
                && lastTime == now
                && (ok <==> t >= k as real)
                && tokens == (if ok then t - k as real else t)
    {
      if k <= 0 {
        return true;
      }
      Refill(now);
      if tokens >= k as real {
        tokens := tokens - k as real;
        return true;
      }
      return false;
    }

    /** `available_tokens` at time `now`, which refills first. */
    method AvailableTokens(now: real) returns (t: real)
      requires Valid() && lastTime <= now
      modifies this`tokens, this`lastTime
      ensures Valid() && t == tokens && t <= capacity as real
      ensures tokens == Refilled(old(tokens), capacity, rate, now - old(lastTime)) && lastTime == now
    {
      Refill(now);
      t := tokens;
    }
  }

  /** Two requests granted back to back at the same instant draw the sum of
      both from the refilled balance, which must cover it. */
  lemma GrantedTwice(tokens: real, capacity: int, rate: real, elapsed: real, k1: nat, k2: nat)
    requires tokens <= capacity as real && rate >= 0.0 && elapsed >= 0.0 && k1 > 0 && k2 > 0
    requires var t := Refilled(tokens, capacity, rate, elapsed);
             t >= k1 as real && Refilled(t - k1 as real, capacity, rate, 0.0) >= k2 as real
    ensures Refilled(tokens, capacity, rate, elapsed) >= (k1 + k2) as real
  {
    var t := Refilled(tokens, capacity, rate, elapsed);
    assert Refilled(t - k1 as real, capacity, rate, 0.0) == t - k1 as real;
  }

  /** The tokens `acquire_embedding` asks for: one per started group of 32
      texts, and at least one. */
  function EmbeddingTokens(batchSize: int): (k: int)
    ensures k >= 1
  {
    MaxInt(1, FloorDiv(batchSize + TokensPerEmbedding - 1, TokensPerEmbedding))
  }

  /** For a positive batch the request is the ceiling of `batch / 32`; for
      any other it is a single token. */
  lemma EmbeddingTokensCeil(batchSize: int)
    ensures batchSize >= 1 ==>
              (EmbeddingTokens(batchSize) - 1) * TokensPerEmbedding < batchSize
              <= EmbeddingTokens(batchSize) * TokensPerEmbedding
    ensures batchSize <= TokensPerEmbedding ==> EmbeddingTokens(batchSize) == 1
  {
  }

  /** The capacity `configure` gives a rebuilt bucket: three seconds' worth
      of requests, but no less than the floor. */
  function ConfiguredCapacity(rate: real, floor: int): (c: int)
    ensures c >= floor
    ensures rate >= 0.0 ==> c >= (3.0 * rate).Floor && (c == floor || c as real <= 3.0 * rate)
  {
    MaxInt(floor, Trunc(rate * 3.0))
  }

  const ChatCapacityFloor := 5
  const EmbeddingCapacityFloor := 10

  /** `RateLimiter`: one bucket for chat, one for embeddings, one for other
      calls. */
  class RateLimiter {
    var chat: TokenBucket
    var embedding: TokenBucket
    var general: TokenBucket

    predicate Valid()
      reads this, chat, embedding, general
    {
      chat.Valid() && embedding.Valid() && general.Valid()
    }

    /** The limiter created at time `now` with its default buckets. */
    constructor (now: real)
      ensures Valid() && fresh(chat) && fresh(embedding) && fresh(general)
      ensures chat.rate == 2.0 && chat.capacity == 5 && chat.tokens == 5.0
      ensures embedding.rate == 3.0 && embedding.capacity == 10 && embedding.tokens == 10.0
      ensures general.rate == 5.0 && general.capacity == 15 && general.tokens == 15.0
    {
      chat := new TokenBucket(2.0, 5, now);
      embedding := new TokenBucket(3.0, 10, now);
      general := new TokenBucket(5.0, 15, now);
    }

    /** `try_acquire_embedding(batch_size)` at time `now`. */
    method TryAcquireEmbedding(batchSize: int, now: real) returns (ok: bool)
      requires Valid() && embedding.lastTime <= now
      modifies embedding`tokens, embedding`lastTime
      ensures Valid() && embedding.lastTime == now
      ensures var t := Refilled(old(embedding.tokens), embedding.capacity, embedding.rate,
                                now - old(embedding.lastTime));
              var k := EmbeddingTokens(batchSize);
              && (ok <==> t >= k as real)
              && embedding.tokens == (if ok then t - k as real else t)
    {
      ok := embedding.TryAcquire(EmbeddingTokens(batchSize), now);
    }

    /** `try_acquire_chat` at time `now`: one token. */
    method TryAcquireChat(now: real) returns (ok: bool)
      requires Valid() && chat.lastTime <= now
      modifies chat`tokens, chat`lastTime
      ensures Valid() && chat.lastTime == now
      ensures var t := Refilled(old(chat.tokens), chat.capacity, chat.rate, now - old(chat.lastTime));
              && (ok <==> t >= 1.0)
              && chat.tokens == (if ok then t - 1.0 else t)
    {
      ok := chat.TryAcquire(1, now);
    }

    /** `configure(chat_rate, embedding_rate)` at time `now`: each rate given
        replaces its bucket with a full one of the configured capacity. */
    method Configure(chatRate: Option<real>, embeddingRate: Option<real>, now: real)
      requires Valid()
      modifies this
      ensures Valid() && general == old(general)
      ensures chatRate.None? ==> chat == old(chat)
      ensures chatRate.Some? ==>
                && fresh(chat) && chat.rate == MaxReal(MinRate, chatRate.value)
                && chat.capacity == ConfiguredCapacity(chatRate.value, ChatCapacityFloor)
                && chat.tokens == chat.capacity as real && chat.lastTime == now
      ensures embeddingRate.None? ==> embedding == old(embedding)
      ensures embeddingRate.Some? ==>
                && fresh(embedding) && embedding.rate == MaxReal(MinRate, embeddingRate.value)
                && embedding.capacity == ConfiguredCapacity(embeddingRate.value, EmbeddingCapacityFloor)
                && embedding.tokens == embedding.capacity as real && embedding.lastTime == now
    {
      if chatRate.Some? {
        chat := new TokenBucket(chatRate.value, ConfiguredCapacity(chatRate.value, ChatCapacityFloor), now);
      }
      if embeddingRate.Some? {
        embedding := new TokenBucket(embeddingRate.value,
                                     ConfiguredCapacity(embeddingRate.value, EmbeddingCapacityFloor), now);
      }
    }
  }
}

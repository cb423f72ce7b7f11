/** `Logcat`, the token-bucket rate limiter in front of the Android log */
module RateLimit {

  const MAX_BYTES_PER_SECOND: int := 1024 * 1024
  const BUCKET_SIZE: int := 128 * 1024
  const PER_MESSAGE_OVERHEAD: int := 28

  type Bytes = seq<bv8>

  /** One call of `Logcat.write`: when it read the clock, what it emitted and when, and the level it left. */
  datatype Event = Event(now: real, tag: Bytes, out: Bytes, emitted: real, level: real)

  /** `Lib/_android_support.py:169`: null bytes in "modified UTF-8" */
  function EscapeNulls(message: Bytes): (r: Bytes)
    ensures 0 !in r
  {
    if message == [] then []
    else (if message[0] == 0 then [0xc0, 0x80] else [message[0]]) + EscapeNulls(message[1..])
  }

  /** What undoes the escape */
  function UnescapeNulls(message: Bytes): Bytes {
    if message == [] then []
    else if |message| >= 2 && message[..2] == [0xc0, 0x80] then [0] + UnescapeNulls(message[2..])
    else [message[0]] + UnescapeNulls(message[1..])
  }

  /** Nothing else is escaped. */
  lemma {:induction false} NoNullsNoEscape(message: Bytes)
    requires 0 !in message
    ensures EscapeNulls(message) == message
  {
    if message != [] {
      NoNullsNoEscape(message[1..]);
      assert message == [message[0]] + message[1..];
    }
  }

  /** Nothing is lost: 0xc0 occurs in no UTF-8 text, so it marks the escaped nulls. */
  lemma {:induction false} NullsRoundTrip(message: Bytes)
    requires 0xc0 !in message
    ensures UnescapeNulls(EscapeNulls(message)) == message
  {
    if message != [] {
      NullsRoundTrip(message[1..]);
      assert message == [message[0]] + message[1..];
      var rest := EscapeNulls(message[1..]);
      if message[0] == 0 {
        assert EscapeNulls(message) == [0xc0, 0x80] + rest;
        assert ([0xc0, 0x80] + rest)[..2] == [0xc0, 0x80] && ([0xc0, 0x80] + rest)[2..] == rest;
      } else {
        assert EscapeNulls(message) == [message[0]] + rest;
        assert ([message[0]] + rest)[1..] == rest;
      }
    }
  }

  function Cost(tag: Bytes, message: Bytes): int {
    PER_MESSAGE_OVERHEAD + |tag| + |message|
  }

  function Min(x: real, y: real): real {
    if x < y then x else y
  }

  function Max(x: real, y: real): real {
    if x < y then y else x
  }

  /** The bytes that the rate allows from time s to time t, `Lib/_android_support.py:174` */
  function Allowance(s: real, t: real): real {
    (t - s) * MAX_BYTES_PER_SECOND as real
  }

  /** `Lib/_android_support.py:173-181`: the level after refilling, clamping and paying. */
  function NextLevel(level: real, prev: real, now: real, cost: int): real {
    Max(0.0, Min(level + Allowance(prev, now), BUCKET_SIZE as real)) - cost as real
  }

  /** `Lib/_android_support.py:183`: the sleep asked for when the bucket is overdrawn. */
  function Delay(level: real): real {
    if level < 0.0 then -level / MAX_BYTES_PER_SECOND as real else 0.0
  }

  /** The level after the first i writes, and the time the last of them read. */
  function LevelAfter(trace: seq<Event>, i: nat): real
    requires i <= |trace|
  {
    if i == 0 then 0.0 else trace[i - 1].level
  }

  function TimeAfter(start: real, trace: seq<Event>, i: nat): real
    requires i <= |trace|
  {
    if i == 0 then start else trace[i - 1].now
  }

  ghost predicate FollowsFromPrevious(start: real, trace: seq<Event>, i: nat) {
    i < |trace| ==>
      trace[i].level == NextLevel(LevelAfter(trace, i), TimeAfter(start, trace, i), trace[i].now,
        Cost(trace[i].tag, trace[i].out))
  }

  /** Every level in the trace follows from the one before. */
  ghost predicate Recorded(start: real, trace: seq<Event>) {
    forall i: nat {:trigger FollowsFromPrevious(start, trace, i)} :: FollowsFromPrevious(start, trace, i)
  }

  lemma RecordedMore(start: real, trace: seq<Event>, e: Event)
    requires Recorded(start, trace)
    requires e.level ==
      NextLevel(LevelAfter(trace, |trace|), TimeAfter(start, trace, |trace|), e.now, Cost(e.tag, e.out))
    ensures Recorded(start, trace + [e])
  {
    forall i: nat
      ensures FollowsFromPrevious(start, trace + [e], i)
    {
      assert FollowsFromPrevious(start, trace, i);
    }
  }

  /** The message went out only after the sleep asked for. */
  ghost predicate SleepsEnough(e: Event) {
    e.now + Delay(e.level) <= e.emitted
  }

  ghost predicate ReadsAfter(trace: seq<Event>, i: nat) {
    0 < i < |trace| ==> trace[i - 1].emitted <= trace[i].now
  }

  /** The clock does not go backwards, and sleeps last at least as long as asked. */
  ghost predicate Timely(trace: seq<Event>) {
    && (forall i: nat {:trigger SleepsEnough(trace[i])} :: i < |trace| ==> SleepsEnough(trace[i]))
    && (forall i: nat {:trigger ReadsAfter(trace, i)} :: ReadsAfter(trace, i))
  }

  class Logcat {
    var bucketLevel: real
    var prevWriteTime: real
    ghost var start: real
    ghost var trace: seq<Event>

    ghost predicate Valid()
      reads this
    {
      && Recorded(start, trace)
      && bucketLevel == LevelAfter(trace, |trace|)
      && prevWriteTime == TimeAfter(start, trace, |trace|)
    }

    constructor (now: real)
      ensures Valid() && trace == [] && start == now
    {
      bucketLevel, prevWriteTime := 0.0, now;
      start, trace := now, [];
    }

    /** Returns the sleep asked for and the bytes handed to the log.  `now` is what the clock said and `emitted`
        when the message went out. */
    method Write(tag: Bytes, message: Bytes, now: real, ghost emitted: real) returns (delay: real, out: Bytes)
      requires Valid()
      modifies this
      ensures Valid() && start == old(start)
      ensures out == EscapeNulls(message)
      ensures trace == old(trace) + [Event(now, tag, out, emitted, bucketLevel)]
      ensures delay == Delay(bucketLevel)
      ensures bucketLevel >= 0.0 ==> delay == 0.0
      ensures bucketLevel < 0.0 ==> delay > 0.0 && bucketLevel + 1048576.0 * delay == 0.0
    {
      out := EscapeNulls(message);
      bucketLevel := bucketLevel + Allowance(prevWriteTime, now);
      bucketLevel := Max(0.0, Min(bucketLevel, BUCKET_SIZE as real));
      prevWriteTime := now;
      bucketLevel := bucketLevel - Cost(tag, out) as real;
      delay := Delay(bucketLevel);
      RecordedMore(start, trace, Event(now, tag, out, emitted, bucketLevel));
      trace := trace + [Event(now, tag, out, emitted, bucketLevel)];
    }
  }

  // ----- The bound over whole runs -----

  /** The bytes of a message, its tag and its header, summed over the block from write i to write j */
  function TotalBytes(trace: seq<Event>, i: nat, j: nat): nat
    requires i <= j <= |trace|
    decreases j
  {
    if i == j then 0 else TotalBytes(trace, i, j - 1) + 28 + |trace[j - 1].tag| + |trace[j - 1].out|
  }

  /** What the reset to zero adds to the level, `Lib/_android_support.py:178` */
  function Forgiven(level: real, prev: real, now: real): real {
    Max(0.0, -(level + Allowance(prev, now)))
  }

  /** The reset changes nothing exactly when the clock has come far enough; after an overdraft, exactly when it has
      come as far as the sleep that was asked for. */
  lemma ResetIsIdle(level: real, prev: real, now: real, cost: int)
    ensures prev - level / MAX_BYTES_PER_SECOND as real <= now <==>
      NextLevel(level, prev, now, cost) == Min(level + Allowance(prev, now), BUCKET_SIZE as real) - cost as real
    ensures prev - level / MAX_BYTES_PER_SECOND as real <= now <==> Forgiven(level, prev, now) == 0.0
    ensures level <= 0.0 ==> prev - level / MAX_BYTES_PER_SECOND as real == prev + Delay(level)
  {
    assert prev - level / MAX_BYTES_PER_SECOND as real <= now <==> level + Allowance(prev, now) >= 0.0;
  }

  /** The write k found a bucket that had recovered. */
  ghost predicate Recovered(trace: seq<Event>, k: nat) {
    0 < k < |trace| ==> trace[k - 1].now - trace[k - 1].level / MAX_BYTES_PER_SECOND as real <= trace[k].now
  }

  /** What the resets added after the write i and before the write j */
  function TotalForgiven(trace: seq<Event>, i: nat, j: nat): real
    requires i < j <= |trace|
    decreases j
  {
    if j == i + 1 then 0.0
    else TotalForgiven(trace, i, j - 1) + Forgiven(trace[j - 2].level, trace[j - 2].now, trace[j - 1].now)
  }

  lemma {:induction false} LevelBound(start: real, trace: seq<Event>, i: nat, j: nat)
    requires Recorded(start, trace) && i < j <= |trace|
    ensures trace[j - 1].level + TotalBytes(trace, i, j) as real <=
      BUCKET_SIZE as real + Allowance(trace[i].now, trace[j - 1].now) + TotalForgiven(trace, i, j)
    decreases j
  {
    assert FollowsFromPrevious(start, trace, j - 1);
    BytesStep(trace, i, j);
    if j > i + 1 {
      LevelBound(start, trace, i, j - 1);
      AllowanceAdds(trace[i].now, trace[j - 2].now, trace[j - 1].now);
      LevelStep(trace[j - 2].level, trace[j - 2].now, trace[j - 1].now, Cost(trace[j - 1].tag, trace[j - 1].out));
    } else {
      assert TotalBytes(trace, i, i) == 0;
    }
  }

  lemma BytesStep(trace: seq<Event>, i: nat, j: nat)
    requires i < j <= |trace|
    ensures TotalBytes(trace, i, j) as real
         == TotalBytes(trace, i, j - 1) as real + Cost(trace[j - 1].tag, trace[j - 1].out) as real
  {
  }

  lemma AllowanceAdds(s: real, t: real, u: real)
    ensures Allowance(s, u) == Allowance(s, t) + Allowance(t, u)
  {
  }

  lemma LevelStep(level: real, prev: real, now: real, cost: int)
    ensures NextLevel(level, prev, now, cost) + cost as real
         <= level + Allowance(prev, now) + Forgiven(level, prev, now)
  {
  }

  /** Whatever the clock does, a block of consecutive writes costs at most a full bucket, what the time from its first
      look at the clock to the end of its last sleep allows, and what the resets within the block gave away. */
  lemma AnyClockBound(start: real, trace: seq<Event>, i: nat, j: nat)
    requires Recorded(start, trace) && i < j <= |trace|
    ensures var last := trace[j - 1];
      TotalBytes(trace, i, j) as real <=
        131072.0 + 1048576.0 * (last.now + Delay(last.level) - trace[i].now) + TotalForgiven(trace, i, j)
  {
    LevelBound(start, trace, i, j);
  }

  lemma {:induction false} NothingForgiven(trace: seq<Event>, i: nat, j: nat)
    requires i < j <= |trace| && forall k: nat :: i < k < j ==> Recovered(trace, k)
    ensures TotalForgiven(trace, i, j) == 0.0
    decreases j
  {
    if j > i + 1 {
      NothingForgiven(trace, i, j - 1);
      assert Recovered(trace, j - 1);
      ResetIsIdle(trace[j - 2].level, trace[j - 2].now, trace[j - 1].now, 0);
    }
  }

  /** A block within which the bucket recovers between writes, and whose last sleep is long enough, costs at most a
      full bucket plus what the time from its first look at the clock to its last emission allows. */
  lemma RateBound(start: real, trace: seq<Event>, i: nat, j: nat)
    requires Recorded(start, trace) && i < j <= |trace|
    requires SleepsEnough(trace[j - 1]) && forall k: nat :: i < k < j ==> Recovered(trace, k)
    ensures TotalBytes(trace, i, j) as real <= 131072.0 + 1048576.0 * (trace[j - 1].emitted - trace[i].now)
  {
    AnyClockBound(start, trace, i, j);
    NothingForgiven(trace, i, j);
  }

  /** With a clock that does not go backwards, and sleeps that last as long as asked, the bucket always recovers. */
  lemma TimelyRecovers(trace: seq<Event>, i: nat, j: nat)
    requires Timely(trace) && i < j <= |trace|
    ensures SleepsEnough(trace[j - 1]) && forall k: nat :: i < k < j ==> Recovered(trace, k)
  {
    forall k: nat | i < k < j
      ensures Recovered(trace, k)
    {
      assert SleepsEnough(trace[k - 1]) && ReadsAfter(trace, k);
    }
  }

  /** The level after the write j is what the rate has allowed since some point, less the bytes written since: since
      the start, or since a write i that found the bucket full, or since one that found it reset. */
  ghost predicate Explained(start: real, trace: seq<Event>, i: nat, j: nat)
    requires i <= j < |trace|
  {
    var level, bytes, t := trace[j].level, TotalBytes(trace, i, j + 1) as real, trace[j].now;
    var found := LevelAfter(trace, i) + 1048576.0 * (trace[i].now - TimeAfter(start, trace, i));
    || (i == 0 && level == 1048576.0 * (t - start) - bytes)
    || (found > 131072.0 && level == 131072.0 + 1048576.0 * (t - trace[i].now) - bytes)
    || (found < 0.0 && level == 1048576.0 * (t - trace[i].now) - bytes)
  }

  /** So a write is delayed only if the bytes since that point exceed what was allowed: nothing is held back without
      need. */
  lemma {:induction false} LevelExplained(start: real, trace: seq<Event>, j: nat) returns (i: nat)
    requires Recorded(start, trace) && j < |trace|
    ensures i <= j && Explained(start, trace, i, j)
  {
    assert FollowsFromPrevious(start, trace, j);
    var found := LevelAfter(trace, j) + Allowance(TimeAfter(start, trace, j), trace[j].now);
    if 0.0 <= found <= BUCKET_SIZE as real && j > 0 {
      i := LevelExplained(start, trace, j - 1);
      ExplainedMore(start, trace, i, j);
    } else {
      i := j;
      ExplainedHere(start, trace, j);
    }
  }

  lemma ExplainedMore(start: real, trace: seq<Event>, i: nat, j: nat)
    requires FollowsFromPrevious(start, trace, j) && i < j < |trace| && Explained(start, trace, i, j - 1)
    requires 0.0 <= trace[j - 1].level + Allowance(trace[j - 1].now, trace[j].now) <= BUCKET_SIZE as real
    ensures Explained(start, trace, i, j)
  {
    BytesStep(trace, i, j + 1);
  }

  lemma ExplainedHere(start: real, trace: seq<Event>, j: nat)
    requires FollowsFromPrevious(start, trace, j) && j < |trace|
    requires var found := LevelAfter(trace, j) + Allowance(TimeAfter(start, trace, j), trace[j].now);
      !(0.0 <= found <= BUCKET_SIZE as real) || j == 0
    ensures Explained(start, trace, j, j)
  {
    BytesStep(trace, j, j + 1);
    assert TotalBytes(trace, j, j) == 0;
  }

  /** Without a monotone clock the bound fails: a clock set back to zero after each write refills the bucket. */
  lemma BackwardClockBreaksBound()
    ensures exists start: real, trace: seq<Event> :: (
      && |trace| == 2 && Recorded(start, trace) && SleepsEnough(trace[0]) && SleepsEnough(trace[1])
      && TotalBytes(trace, 0, 2) as real > 131072.0 + 1048576.0 * (trace[1].emitted - trace[0].now))
  {
    var out: Bytes := seq(131044, k => 1);
    assert Cost([], out) == 131072;
    var a := Event(1.0, [], out, 1.0, 0.0);
    var b := Event(0.0, [], out, 0.125, -131072.0);
    var trace := [a, b];
    assert NextLevel(0.0, 0.0, 1.0, 131072) == 0.0;
    assert NextLevel(0.0, 1.0, 0.0, 131072) == -131072.0;
    assert TotalBytes(trace, 0, 0) == 0 && TotalBytes(trace, 0, 1) == 131072 && TotalBytes(trace, 0, 2) == 262144;
    assert Recorded(0.0, trace);
    assert Delay(-131072.0) == 0.125;
  }
}

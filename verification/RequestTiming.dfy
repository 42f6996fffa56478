/** The bounded buffer of request samples and its conversion into metric records. */
module RequestTiming {
  import opened Wrappers
  import opened Grouping

  const BUFFER_SIZE := 5000
  const CHUNK := 150
  const MAX_RECORDS := 900

  /** A sample belongs to the whole second its timestamp lies in. */
  type Samples = seq<(int, real)>

  datatype Record = Record(second: int, values: seq<real>)

  /** The records of one second: its samples in runs of at most 150. */
  function Chunks(second: int, values: seq<real>): (records: seq<Record>)
    decreases |values|
  {
    if values == [] then []
    else
      var size := if |values| < CHUNK then |values| else CHUNK;
      [Record(second, values[..size])] + Chunks(second, values[size..])
  }

  function AllChunks(samples: Samples, seconds: seq<int>): seq<Record> {
    if seconds == [] then []
    else
      var last := seconds[|seconds| - 1];
      AllChunks(samples, seconds[..|seconds| - 1]) + Chunks(last, Values(samples, last))
  }

  function Newest(records: seq<Record>): (kept: seq<Record>)
    ensures |kept| <= MAX_RECORDS
    ensures kept == records <==> |records| <= MAX_RECORDS
    ensures |records| > 900 ==> |kept| == 900
    ensures forall k :: |records| - |kept| <= k < |records| ==> records[k] == kept[k - (|records| - |kept|)]
  {
    if |records| > MAX_RECORDS then records[|records| - MAX_RECORDS..] else records
  }

  /** The newest samples that fit in the buffer. */
  function Buffered(all: Samples): (kept: Samples)
    ensures |kept| <= BUFFER_SIZE
    ensures |kept| == if |all| > 5000 then 5000 else |all|
    ensures forall k :: |all| - |kept| <= k < |all| ==> all[k] == kept[k - (|all| - |kept|)]
  {
    if |all| > BUFFER_SIZE then all[|all| - BUFFER_SIZE..] else all
  }

  class Recorder {
    var samples: Samples
    /** Everything recorded since the last drain. */
    ghost var recorded: Samples

    ghost predicate Valid()
      reads this
    {
      samples == Buffered(recorded)
    }

    constructor ()
      ensures Valid() && recorded == []
    {
      samples, recorded := [], [];
    }

    /** Append to the bounded deque; the oldest sample falls out when it is full. */
    method Append(second: int, duration: real)
      requires Valid()
      modifies this
      ensures Valid() && recorded == old(recorded) + [(second, duration)]
      ensures samples == (if |old(samples)| < 5000 then old(samples) else old(samples)[1..]) + [(second, duration)]
    {
      recorded := recorded + [(second, duration)];
      samples := samples + [(second, duration)];
      if |samples| > BUFFER_SIZE {
        samples := samples[1..];
      }
    }

    /** Empty the buffer into chunked records and keep the newest 900. */
    method Drain() returns (records: seq<Record>)
      requires Valid()
      modifies this
      ensures Valid() && recorded == [] && samples == []
      ensures records == Newest(AllChunks(Buffered(old(recorded)), Keys(Buffered(old(recorded)))))
    {
      hide Chunks, Keys, Values, Buffered;
      assert Buffered([]) == [] by { NothingBuffered(); }
      var taken := samples;
      samples, recorded := [], [];
      var order, groups := GroupBy(taken);
      records := [];
      for n := 0 to |order|
        invariant samples == [] && recorded == []
        invariant records == AllChunks(taken, order[..n])
      {
        assert order[n] in groups;
        var values := groups[order[n]];
        var chunks := ChunkValues(order[n], values);
        assert order[..n + 1][..n] == order[..n];
        records := records + chunks;
      }
      assert order[..|order|] == order;
      if |records| > MAX_RECORDS {
        records := records[|records| - MAX_RECORDS..];
      }
    }
  }

  lemma NothingBuffered()
    ensures Buffered([]) == []
  {
  }

  lemma {:induction false} ChunksStep(second: int, values: seq<real>, offset: nat)
    requires offset < |values| && offset % CHUNK == 0
    ensures var size := if |values| - offset < CHUNK then |values| - offset else CHUNK;
            Chunks(second, values[offset..])
            == [Record(second, values[offset..offset + size])] + Chunks(second, values[offset + size..])
  {
    var size := if |values| - offset < CHUNK then |values| - offset else CHUNK;
    assert values[offset..][..size] == values[offset..offset + size];
    assert values[offset..][size..] == values[offset + size..];
  }

  lemma NoChunks(second: int)
    ensures Chunks(second, []) == []
  {
  }

  /** Step through one second's values 150 at a time. */
  method ChunkValues(second: int, values: seq<real>) returns (records: seq<Record>)
    ensures records == Chunks(second, values)
  {
    hide Chunks;
    NoChunks(second);
    assert values[0..] == values && values[|values|..] == [];
    records := [];
    var offset := 0;
    while offset < |values|
      invariant offset % CHUNK == 0
      invariant records + Chunks(second, if offset < |values| then values[offset..] else []) == Chunks(second, values)
    {
      ChunksStep(second, values, offset);
      var size := if |values| - offset < CHUNK then |values| - offset else CHUNK;
      ghost var before := records;
      records := records + [Record(second, values[offset..offset + size])];
      assert before + ([Record(second, values[offset..offset + size])] + Chunks(second, values[offset + size..]))
             == records + Chunks(second, values[offset + size..]);
      offset := offset + CHUNK;
    }
  }

  // ----- bounds and conservation -----

  /** Every record carries 1 to 150 values. */
  lemma {:induction false} ChunksAreBounded(second: int, values: seq<real>)
    ensures forall r :: r in Chunks(second, values) ==> r.second == second && 1 <= |r.values| <= CHUNK
    ensures values != [] ==> CHUNK * (|Chunks(second, values)| - 1) <= |values| - 1
    ensures values == [] ==> Chunks(second, values) == []
    decreases |values|
  {
    if values != [] {
      var size := if |values| < CHUNK then |values| else CHUNK;
      ChunksAreBounded(second, values[size..]);
    }
  }

  lemma {:induction false} AllChunksAreBounded(samples: Samples, seconds: seq<int>)
    requires forall s :: s in seconds ==> Values(samples, s) != []
    ensures forall r :: r in AllChunks(samples, seconds) ==> 1 <= |r.values| <= CHUNK
    ensures CHUNK * (|AllChunks(samples, seconds)| - |seconds|) <= Total(samples, seconds) - |seconds|
  {
    if seconds != [] {
      var front, last := seconds[..|seconds| - 1], seconds[|seconds| - 1];
      assert seconds == front + [last];
      AllChunksAreBounded(samples, front);
      ChunksAreBounded(last, Values(samples, last));
    }
  }

  /** The records of a drain of this buffer. */
  function Drained(samples: Samples): seq<Record> {
    Newest(AllChunks(samples, Keys(samples)))
  }

  lemma KeysCover(samples: Samples)
    ensures Distinct(Keys(samples))
    ensures forall s :: s in Keys(samples) ==> Values(samples, s) != []
    ensures Total(samples, Keys(samples)) == |samples|
  {
    KeysAreDistinct(samples);
    forall s | s in Keys(samples) ensures Values(samples, s) != [] {
      KeyHasValues(samples, s);
    }
    TotalIsEverything(samples, Keys(samples));
  }

  /** A drain emits at most 900 records of 1 to 150 values each. */
  lemma DrainIsBounded(samples: Samples)
    ensures |Drained(samples)| <= 900
    ensures forall r :: r in Drained(samples) ==> 1 <= |r.values| <= 150
  {
    KeysCover(samples);
    AllChunksAreBounded(samples, Keys(samples));
  }

  lemma {:induction false} ChunkCount(second: int, values: seq<real>)
    ensures |Chunks(second, values)| == (|values| + CHUNK - 1) / CHUNK
    decreases |values|
  {
    if |values| > CHUNK {
      ChunkCount(second, values[CHUNK..]);
    } else if values != [] {
      assert values[|values|..] == [];
    }
  }

  /** How many records the listed seconds need: one for every 150 of their samples, rounded up. */
  function RecordsNeeded(samples: Samples, seconds: seq<int>): nat {
    if seconds == [] then 0
    else
      RecordsNeeded(samples, seconds[..|seconds| - 1])
      + (|Values(samples, seconds[|seconds| - 1])| + CHUNK - 1) / CHUNK
  }

  lemma {:induction false} RecordsAreNeeded(samples: Samples, seconds: seq<int>)
    ensures |AllChunks(samples, seconds)| == RecordsNeeded(samples, seconds)
  {
    hide Chunks, Values;
    if seconds != [] {
      RecordsAreNeeded(samples, seconds[..|seconds| - 1]);
      ChunkCount(seconds[|seconds| - 1], Values(samples, seconds[|seconds| - 1]));
    }
  }

  /** Exactly when a drain keeps everything: when its seconds need no more than 900 records. */
  lemma NothingIsDroppedIff(samples: Samples)
    ensures Drained(samples) == AllChunks(samples, Keys(samples)) <==> RecordsNeeded(samples, Keys(samples)) <= MAX_RECORDS
  {
    RecordsAreNeeded(samples, Keys(samples));
  }

  /**
   Nothing is dropped as long as the n samples span d distinct seconds with
   d + (n - d) / 150 at most 900; a full buffer therefore keeps everything up to
   873 distinct seconds.
   */
  lemma NothingIsDropped(samples: Samples)
    ensures var n, d := |samples|, |Keys(samples)|;
            && (d + (n - d) / CHUNK <= MAX_RECORDS ==> Drained(samples) == AllChunks(samples, Keys(samples)))
            && (n <= BUFFER_SIZE && d <= 873 ==> Drained(samples) == AllChunks(samples, Keys(samples)))
  {
    KeysCover(samples);
    AllChunksAreBounded(samples, Keys(samples));
  }

  /** All values the records carry for one second, in record order. */
  function Restored(records: seq<Record>, second: int): seq<real> {
    if records == [] then []
    else
      var last := records[|records| - 1];
      Restored(records[..|records| - 1], second) + if last.second == second then last.values else []
  }

  // ----- the threshold is sharp -----

  /** 873 seconds with one sample each, and everything else in the next second. */
  function Spread(n: nat): (samples: Samples)
    ensures |samples| == n
    ensures forall k :: 0 <= k < n ==> samples[k] == (if k < 873 then k else 873, 0.0)
  {
    seq(n, k => (if k < 873 then k else 873, 0.0))
  }

  function Upto(n: nat): (s: seq<int>)
    ensures |s| == n && forall k :: 0 <= k < n ==> s[k] == k
  {
    seq(n, k => k)
  }

  lemma SpreadGrows(n: nat)
    requires n > 0
    ensures Spread(n)[..n - 1] == Spread(n - 1) && Spread(n)[n - 1] == (if n <= 873 then n - 1 else 873, 0.0)
    ensures Upto(n) == Upto(n - 1) + [n - 1]
    ensures n > 874 ==> 873 in Upto(874)
  {
    assert n > 874 ==> Upto(874)[873] == 873;
  }

  lemma {:induction false} SpreadKeys(n: nat)
    ensures Keys(Spread(n)) == Upto(if n < 874 then n else 874)
  {
    if n > 0 {
      SpreadKeys(n - 1);
      SpreadGrows(n);
      var front := Upto(if n - 1 < 874 then n - 1 else 874);
      assert n <= 874 ==> n - 1 !in front;
      hide Spread, Upto;
    }
  }

  lemma {:induction false} SpreadValues(n: nat, second: int)
    requires 0 <= second <= 873
    ensures |Values(Spread(n), second)| ==
            if second < 873 then (if second < n then 1 else 0) else (if n < 873 then 0 else n - 873)
  {
    if n > 0 {
      SpreadValues(n - 1, second);
      SpreadGrows(n);
      hide Spread, Upto;
    }
  }

  lemma {:induction false} SingleChunks(n: nat, m: nat)
    requires m <= n && m <= 873
    ensures |AllChunks(Spread(n), Upto(m))| == m
  {
    if m > 0 {
      SingleChunks(n, m - 1);
      assert Upto(m)[..m - 1] == Upto(m - 1);
      SpreadValues(n, m - 1);
      ChunkCount(m - 1, Values(Spread(n), m - 1));
    }
  }

  /** With one second more, a full buffer can need 901 records, and the oldest is dropped. */
  lemma ThresholdIsSharp()
    ensures exists samples: Samples :: |samples| == BUFFER_SIZE && |Keys(samples)| == 874
                                       && Drained(samples) != AllChunks(samples, Keys(samples))
  {
    var samples := Spread(BUFFER_SIZE);
    hide Spread, Keys, Values, Chunks;
    SpreadKeys(BUFFER_SIZE);
    SpreadValues(BUFFER_SIZE, 873);
    SingleChunks(BUFFER_SIZE, 873);
    ChunkCount(873, Values(samples, 873));
    assert Upto(874)[..873] == Upto(873);
    assert |AllChunks(samples, Upto(874))| == 901;
    assert |samples| == BUFFER_SIZE && |Keys(samples)| == 874;
  }

  lemma {:induction false} RestoredOfConcat(a: seq<Record>, b: seq<Record>, second: int)
    ensures Restored(a + b, second) == Restored(a, second) + Restored(b, second)
  {
    if b == [] {
      assert a + b == a;
    } else {
      assert (a + b)[..|a + b| - 1] == a + b[..|b| - 1];
      RestoredOfConcat(a, b[..|b| - 1], second);
    }
  }

  lemma {:induction false} ChunksRestore(second: int, values: seq<real>, other: int)
    ensures Restored(Chunks(second, values), other) == if second == other then values else []
    decreases |values|
  {
    if values != [] {
      var size := if |values| < CHUNK then |values| else CHUNK;
      ChunksRestore(second, values[size..], other);
      RestoredOfConcat([Record(second, values[..size])], Chunks(second, values[size..]), other);
      assert values == values[..size] + values[size..];
      assert Restored([Record(second, values[..size])], other) == if second == other then values[..size] else [];
    }
  }

  /** Concatenating a second's chunks restores its samples in order, for every second. */
  lemma {:induction false} AllChunksRestore(samples: Samples, seconds: seq<int>, second: int)
    requires Distinct(seconds)
    ensures Restored(AllChunks(samples, seconds), second) == if second in seconds then Values(samples, second) else []
  {
    if seconds != [] {
      var front, last := seconds[..|seconds| - 1], seconds[|seconds| - 1];
      assert seconds == front + [last];
      AllChunksRestore(samples, front, second);
      ChunksRestore(last, Values(samples, last), second);
      RestoredOfConcat(AllChunks(samples, front), Chunks(last, Values(samples, last)), second);
    }
  }

  /** An undropped drain is lossless: every second's samples come back, in order. */
  lemma DrainIsLossless(samples: Samples, second: int)
    requires Drained(samples) == AllChunks(samples, Keys(samples))
    ensures Restored(Drained(samples), second) == Values(samples, second)
  {
    KeysAreDistinct(samples);
    AllChunksRestore(samples, Keys(samples), second);
    KeyHasValues(samples, second);
  }
}

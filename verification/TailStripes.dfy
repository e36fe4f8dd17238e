/** The tail phase: scarce chunks are coded together in stripes of `k`, and a
  * stripe is recovered from the shards that survive. */
module TailStripes {
  import opened Bytes
  import opened Wrappers
  import opened Sequences
  import opened ErasureCodes
  import opened ErasureCoders

  datatype TailConfig = TailConfig(dataShards: nat, parityShards: nat)

  datatype ScarceChunk = ScarceChunk(index: nat, data: Bytes)

  datatype EcStripe = EcStripe(chunkIndices: seq<nat>, shards: seq<Bytes>, shardSize: nat)

  /** The longest chunk of the window decides the shard size. */
  function MaxLength(window: seq<ScarceChunk>): (n: nat)
    ensures forall j :: 0 <= j < |window| ==> |window[j].data| <= n
  {
    if |window| == 0 then 0 else
      var rest := MaxLength(window[1..]);
      if |window[0].data| >= rest then |window[0].data| else rest
  }

  /** It is zero only when every chunk of the window is empty. */
  lemma {:induction false} MaxLengthAttained(window: seq<ScarceChunk>)
    ensures MaxLength(window) > 0 ==> exists c :: c in window && |c.data| == MaxLength(window)
  {
    if |window| > 0 {
      MaxLengthAttained(window[1..]);
      assert window[0] in window;
      assert forall c :: c in window[1..] ==> c in window;
    }
  }

  function WindowIndices(window: seq<ScarceChunk>): (ids: seq<nat>)
    ensures |ids| == |window|
  {
    seq(|window|, j requires 0 <= j < |window| => window[j].index)
  }

  /** The data shards of a window: its chunks zero-padded to the longest, then zero shards. */
  function Padded(window: seq<ScarceChunk>, k: nat): (data: seq<Bytes>)
    requires |window| <= k
    ensures |data| == k && Rectangular(data, MaxLength(window))
    ensures forall j :: 0 <= j < |window| ==> window[j].data <= data[j]
  {
    var size := MaxLength(window);
    seq(k, j requires 0 <= j < k =>
      if j < |window| then Resize(window[j].data, size, ZERO) else Repeat(ZERO, size))
  }

  function Coder(cfg: TailConfig): ErasureCoder {
    ErasureCoder(cfg.dataShards, cfg.parityShards)
  }

  /** The stripe a window is coded into. */
  function StripeOf(cfg: TailConfig, window: seq<ScarceChunk>): EcStripe
    requires Coder(cfg).Valid() && |window| <= cfg.dataShards
  {
    var size := MaxLength(window);
    EcStripe(WindowIndices(window), Coder(cfg).Code(Padded(window, cfg.dataShards), size), size)
  }

  /** What is in a stripe: its chunks, each followed by zeros up to the longest, zeros
    * for the chunks a short window lacks, and the parity. */
  lemma StripeShape(cfg: TailConfig, window: seq<ScarceChunk>)
    requires Coder(cfg).Valid() && 0 < |window| <= cfg.dataShards
    ensures var stripe := StripeOf(cfg, window);
      && |stripe.chunkIndices| == |window| && |stripe.shards| == cfg.dataShards + cfg.parityShards
      && (forall s :: s in stripe.shards ==> |s| == stripe.shardSize)
      && (stripe.shardSize > 0 ==> exists c :: c in window && |c.data| == stripe.shardSize)
      && (forall j :: 0 <= j < |window| ==>
            stripe.shards[j] == window[j].data + Repeat(ZERO, stripe.shardSize - |window[j].data|))
      && (forall j :: |window| <= j < cfg.dataShards ==> stripe.shards[j] == Repeat(ZERO, stripe.shardSize))
  {
    var padded, stripe := Padded(window, cfg.dataShards), StripeOf(cfg, window);
    MaxLengthAttained(window);
    forall j | 0 <= j < cfg.dataShards ensures stripe.shards[j] == padded[j] {
      assert stripe.shards[..cfg.dataShards][j] == stripe.shards[j];
    }
    forall j | 0 <= j < |window|
      ensures padded[j] == window[j].data + Repeat(ZERO, stripe.shardSize - |window[j].data|)
    {
    }
  }

  /** The padded window followed by empty parity slots. */
  method PadWindow(window: seq<ScarceChunk>, cfg: TailConfig) returns (shards: seq<Bytes>)
    requires |window| <= cfg.dataShards
    ensures |shards| == cfg.dataShards + cfg.parityShards && Rectangular(shards, MaxLength(window))
    ensures shards[..cfg.dataShards] == Padded(window, cfg.dataShards)
  {
    var size := MaxLength(window);
    ghost var padded := Padded(window, cfg.dataShards);
    shards := [];
    for j := 0 to |window|
      invariant shards == padded[..j]
    {
      shards := shards + [Resize(window[j].data, size, ZERO)];
    }
    while |shards| < cfg.dataShards
      invariant |window| <= |shards| <= cfg.dataShards && shards == padded[..|shards|]
    {
      shards := shards + [Repeat(ZERO, size)];
    }
    for i := 0 to cfg.parityShards
      invariant |shards| == cfg.dataShards + i && Rectangular(shards, size)
      invariant shards[..cfg.dataShards] == padded
    {
      shards := shards + [Repeat(ZERO, size)];
    }
  }

  /** One stripe; coding fails when every chunk of the window is empty. */
  method BuildStripe(window: seq<ScarceChunk>, cfg: TailConfig) returns (r: Result<EcStripe>)
    requires Coder(cfg).Valid() && 0 < |window| <= cfg.dataShards
    ensures r == if MaxLength(window) > 0 then Success(StripeOf(cfg, window)) else Failure(ErasureError)
  {
    var shards := PadWindow(window, cfg);
    var slots := new Bytes[|shards|](i requires 0 <= i < |shards| => shards[i]);
    assert slots[..] == shards;
    assert slots[..cfg.dataShards] == shards[..cfg.dataShards];
    var outcome := Coder(cfg).Encode(slots);
    if outcome.Fail? {
      return Failure(outcome.error);
    }
    return Success(EcStripe(WindowIndices(window), slots[..], MaxLength(window)));
  }

  /** No window is all empty chunks. */
  ghost predicate Codable(windows: seq<seq<ScarceChunk>>) {
    forall t :: 0 <= t < |windows| ==> MaxLength(windows[t]) > 0
  }

  ghost predicate AreStripes(stripes: seq<EcStripe>, windows: seq<seq<ScarceChunk>>, cfg: TailConfig)
    requires Coder(cfg).Valid()
    requires forall t :: 0 <= t < |windows| ==> |windows[t]| <= cfg.dataShards
  {
    && |stripes| == |windows|
    && forall t :: 0 <= t < |windows| ==>
         stripes[t] == StripeOf(cfg, windows[t]) && |stripes[t].shards| == cfg.dataShards + cfg.parityShards
  }

  ghost function StripesOf(windows: seq<seq<ScarceChunk>>, cfg: TailConfig): (all: seq<EcStripe>)
    requires Coder(cfg).Valid()
    requires forall t :: 0 <= t < |windows| ==> |windows[t]| <= cfg.dataShards
    ensures |all| == |windows|
  {
    seq(|windows|, t requires 0 <= t < |windows| => StripeOf(cfg, windows[t]))
  }

  lemma AreStripesOf(windows: seq<seq<ScarceChunk>>, cfg: TailConfig)
    requires Coder(cfg).Valid()
    requires forall t :: 0 <= t < |windows| ==> |windows[t]| <= cfg.dataShards
    ensures AreStripes(StripesOf(windows, cfg), windows, cfg)
  {
  }

  method BuildEcStripes(scarce: seq<ScarceChunk>, cfg: TailConfig) returns (r: Result<seq<EcStripe>>)
    ensures r.Success? <==> Coder(cfg).Valid() && Codable(Chunks(scarce, cfg.dataShards))
    ensures r.Success? ==> AreStripes(r.value, Chunks(scarce, cfg.dataShards), cfg)
    ensures r.Failure? ==> r.error == ErasureError
  {
    var coder :- ErasureCoder.New(cfg.dataShards, cfg.parityShards);
    r := BuildAll(Chunks(scarce, cfg.dataShards), cfg);
    AreStripesOf(Chunks(scarce, cfg.dataShards), cfg);
  }

  /** The first `t` windows have been coded. */
  ghost predicate CodedSoFar(windows: seq<seq<ScarceChunk>>, cfg: TailConfig, t: nat, stripes: seq<EcStripe>)
    requires Coder(cfg).Valid() && t <= |windows|
    requires forall t :: 0 <= t < |windows| ==> |windows[t]| <= cfg.dataShards
  {
    Codable(windows[..t]) && stripes == StripesOf(windows, cfg)[..t]
  }

  lemma StripesStep(windows: seq<seq<ScarceChunk>>, cfg: TailConfig, t: nat, stripes: seq<EcStripe>)
    requires Coder(cfg).Valid() && t < |windows| && MaxLength(windows[t]) > 0
    requires forall t :: 0 <= t < |windows| ==> |windows[t]| <= cfg.dataShards
    requires CodedSoFar(windows, cfg, t, stripes)
    ensures CodedSoFar(windows, cfg, t + 1, stripes + [StripeOf(cfg, windows[t])])
  {
  }

  method BuildAll(windows: seq<seq<ScarceChunk>>, cfg: TailConfig) returns (r: Result<seq<EcStripe>>)
    requires Coder(cfg).Valid()
    requires forall t :: 0 <= t < |windows| ==> 0 < |windows[t]| <= cfg.dataShards
    ensures r.Success? <==> Codable(windows)
    ensures r.Success? ==> r.value == StripesOf(windows, cfg)
    ensures r.Failure? ==> r.error == ErasureError
  {
    var stripes: seq<EcStripe> := [];
    for t := 0 to |windows|
      invariant CodedSoFar(windows, cfg, t, stripes)
    {
      var built := BuildStripe(windows[t], cfg);
      if built.Failure? {
        return Failure(built.error);
      }
      StripesStep(windows, cfg, t, stripes);
      stripes := stripes + [built.value];
    }
    return Success(stripes);
  }

  /** The shards of a stripe that are listed; other indices are ignored. */
  function Kept(shards: seq<Bytes>, present: seq<nat>, total: nat): (recv: seq<Option<Bytes>>)
    requires forall i :: i in present && i < total ==> i < |shards|
    ensures |recv| == total
    ensures forall i :: 0 <= i < total ==> (recv[i].Some? <==> i in present)
    ensures forall i :: 0 <= i < total && i in present ==> recv[i].value == shards[i]
  {
    seq(total, i requires 0 <= i < total => if i in present then Some(shards[i]) else None)
  }

  /** How many distinct shards a list of indices names. */
  function Named(present: seq<nat>, total: nat): set<nat> {
    set i | i in present && i < total
  }

  lemma KeptCount(shards: seq<Bytes>, present: seq<nat>, total: nat)
    requires forall i :: i in present && i < total ==> i < |shards|
    ensures |Present(Kept(shards, present, total), 0)| == |Named(present, total)|
  {
    var recv := Kept(shards, present, total);
    var idx := Present(recv, 0);
    forall i | i in Named(present, total) ensures i in idx {
      PresentIsAll(recv, 0, i);
    }
    assert Elements(idx) == Named(present, total);
    ElementsSize(idx);
  }

  /** What recovering a stripe from the listed shards returns. */
  ghost function RecoveredStripe(stripe: EcStripe, present: seq<nat>, cfg: TailConfig): Result<Bytes>
    requires Coder(cfg).Valid() ==>
      forall i :: i in present && i < Coder(cfg).TotalShards() ==> i < |stripe.shards|
  {
    if !Coder(cfg).Valid() then Failure(ErasureError) else
      var recv := Kept(stripe.shards, present, Coder(cfg).TotalShards());
      if |Present(recv, 0)| < cfg.dataShards || !PresentWellShaped(recv) then Failure(ErasureError) else
        assert recv[Present(recv, 0)[0]].Some?;
        var size: nat :| size > 0 && UniformlySized(recv, size);
        Success(ErasureCoder.Merged(Coder(cfg).Restored(recv, size),
                                    |stripe.shards[0]| * cfg.dataShards, cfg.dataShards))
  }

  method ReconstructStripe(stripe: EcStripe, present: seq<nat>, cfg: TailConfig) returns (r: Result<Bytes>)
    requires Coder(cfg).Valid() ==>
      forall i :: i in present && i < Coder(cfg).TotalShards() ==> i < |stripe.shards|
    ensures r == RecoveredStripe(stripe, present, cfg)
  {
    var coder :- ErasureCoder.New(cfg.dataShards, cfg.parityShards);
    var kept := Kept(stripe.shards, present, coder.TotalShards());
    var recv := new Option<Bytes>[|kept|](i requires 0 <= i < |kept| => kept[i]);
    assert recv[..] == kept;
    var outcome := coder.Reconstruct(recv);
    if outcome.Fail? {
      return Failure(outcome.error);
    }
    assert kept[Present(kept, 0)[0]].Some?;
    var out := ErasureCoder.MergeShards(recv[..], |stripe.shards[0]| * cfg.dataShards, cfg.dataShards);
    return Success(out);
  }

  lemma KeptIsErasure(shards: seq<Bytes>, present: seq<nat>, size: nat)
    requires Rectangular(shards, size)
    ensures Erasure(Kept(shards, present, |shards|), shards)
    ensures UniformlySized(Kept(shards, present, |shards|), size)
  {
  }

  /** A stripe is recovered exactly when the list names `k` of its shards,
    * and then the bytes are those of its data shards. */
  lemma {:induction false} StripeRecovery(window: seq<ScarceChunk>, present: seq<nat>, cfg: TailConfig)
    requires Coder(cfg).Valid() && 0 < |window| <= cfg.dataShards && MaxLength(window) > 0
    ensures RecoveredStripe(StripeOf(cfg, window), present, cfg) ==
      if |Named(present, cfg.dataShards + cfg.parityShards)| >= cfg.dataShards
      then Success(Flatten(Padded(window, cfg.dataShards)))
      else Failure(ErasureError)
  {
    var k, size := cfg.dataShards, MaxLength(window);
    var data := Padded(window, k);
    var shards := Coder(cfg).Code(data, size);
    var recv := Kept(shards, present, |shards|);
    KeptCount(shards, present, |shards|);
    KeptIsErasure(shards, present, size);
    if |Present(recv, 0)| >= k {
      ErasureCoder.OneSize(recv, Present(recv, 0)[0], size);
      Coder(cfg).LoseMerge(data, size, recv);
    }
  }

  /** Entry `j` of window `t` is chunk `t k + j`. */
  lemma {:induction false} ChunkOfWindow(scarce: seq<ScarceChunk>, k: nat, t: nat, j: nat)
    requires k > 0 && t < |Chunks(scarce, k)| && j < |Chunks(scarce, k)[t]|
    ensures 0 <= t * k && t * k + j < |scarce|
    ensures Chunks(scarce, k)[t][j] == scarce[t * k + j]
  {
    ChunksSlice(scarce, k, t);
  }

  /** Chunk `j` of the stripe lies at its block, cut to its own length. */
  ghost predicate ComesBack(r: Result<Bytes>, stripe: EcStripe, j: nat, chunk: ScarceChunk)
    requires j < |stripe.chunkIndices|
  {
    var offset := j * stripe.shardSize;
    && stripe.chunkIndices[j] == chunk.index
    && r.Success?
    && 0 <= offset <= offset + |chunk.data| <= |r.value|
    && r.value[offset..offset + |chunk.data|] == chunk.data
  }

  lemma {:induction false} WindowRecovered(window: seq<ScarceChunk>, j: nat, present: seq<nat>, cfg: TailConfig)
    requires Coder(cfg).Valid() && j < |window| <= cfg.dataShards && MaxLength(window) > 0
    requires |Named(present, cfg.dataShards + cfg.parityShards)| >= cfg.dataShards
    ensures ComesBack(RecoveredStripe(StripeOf(cfg, window), present, cfg), StripeOf(cfg, window), j, window[j])
  {
    StripeRecovery(window, present, cfg);
    FlattenPrefix(Padded(window, cfg.dataShards), MaxLength(window), j, window[j].data);
  }

  /** The shards below `total` that the list leaves out. */
  function Unnamed(present: seq<nat>, total: nat): set<nat> {
    set i | 0 <= i < total && i !in present
  }

  lemma {:induction false} NamedOrNot(present: seq<nat>, total: nat)
    ensures |Named(present, total)| + |Unnamed(present, total)| == total
  {
    if total > 0 {
      NamedOrNot(present, total - 1);
      NamedStep(present, total - 1);
    } else {
      assert Named(present, total) == {} && Unnamed(present, total) == {};
    }
  }

  lemma NamedStep(present: seq<nat>, i: nat)
    ensures i !in Named(present, i) && i !in Unnamed(present, i)
    ensures Named(present, i + 1) == Named(present, i) + if i in present then {i} else {}
    ensures Unnamed(present, i + 1) == Unnamed(present, i) + if i in present then {} else {i}
  {
  }

  /** Every scarce chunk comes back from its stripe, whichever `parityShards` of the
    * shards are lost. */
  lemma {:induction false} ScarceChunkRecovered(scarce: seq<ScarceChunk>, t: nat, j: nat, present: seq<nat>,
                                                cfg: TailConfig)
    requires Coder(cfg).Valid()
    requires t < |Chunks(scarce, cfg.dataShards)| && j < |Chunks(scarce, cfg.dataShards)[t]|
    requires MaxLength(Chunks(scarce, cfg.dataShards)[t]) > 0
    requires |Unnamed(present, cfg.dataShards + cfg.parityShards)| <= cfg.parityShards
    ensures 0 <= t * cfg.dataShards && t * cfg.dataShards + j < |scarce|
    ensures var stripe := StripeOf(cfg, Chunks(scarce, cfg.dataShards)[t]);
      && |stripe.shards| == cfg.dataShards + cfg.parityShards
      && ComesBack(RecoveredStripe(stripe, present, cfg), stripe, j, scarce[t * cfg.dataShards + j])
  {
    ChunkOfWindow(scarce, cfg.dataShards, t, j);
    NamedOrNot(present, cfg.dataShards + cfg.parityShards);
    WindowRecovered(Chunks(scarce, cfg.dataShards)[t], j, present, cfg);
  }
}

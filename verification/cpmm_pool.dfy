/** The CPMM pool view that `getRpcPoolInfos` assembles (cpmm/index.ts)
    and the integer path of `computeSwapAmount`. The three batched RPC
    fetches are modelled as maps from account address to the decoded
    account: an address missing from a map is an account the node returned
    as null. Decoding the pool, config and token accounts is the SDK's and
    is not modelled; the maps hold the decoded records. */
module CpmmPool {
  import opened Solana
  import opened Outcomes
  import opened BnMath
  import opened Bytes
  import opened Curve
  import CpmmInstruction

  // ----- batch lookups -----

  /** Every key of `ks` is in `m`. */
  predicate AllIn<K, V>(ks: seq<K>, m: map<K, V>) {
    forall i :: 0 <= i < |ks| ==> ks[i] in m
  }

  /** `k` is the first key of `ks`, in request order, that `m` lacks. */
  predicate IsFirstAbsent<K, V>(ks: seq<K>, m: map<K, V>, k: K) {
    exists i :: 0 <= i < |ks| && ks[i] == k && k !in m && AllIn(ks[..i], m)
  }

  lemma IsFirstAbsentCons<K, V>(x: K, ks: seq<K>, m: map<K, V>, k: K)
    requires x in m && IsFirstAbsent(ks, m, k)
    ensures IsFirstAbsent([x] + ks, m, k)
  {
    var i :| 0 <= i < |ks| && ks[i] == k && k !in m && AllIn(ks[..i], m);
    var xs := [x] + ks;
    assert xs[i + 1] == k;
    assert xs[..i + 1] == [x] + ks[..i];
    var pre := xs[..i + 1];
    forall j | 0 <= j < |pre|
      ensures pre[j] in m
    {
      if j > 0 {
        assert pre[j] == ks[..i][j - 1];
      }
    }
  }

  /** The key a batch fetch throws on: the first key, in request order,
      whose account came back null; `None` when every account is there. */
  function FirstAbsent<K, V>(ks: seq<K>, m: map<K, V>): (r: Option<K>)
    ensures r.None? <==> AllIn(ks, m)
    ensures r.Some? ==> IsFirstAbsent(ks, m, r.value)
  {
    if |ks| == 0 then None
    else if ks[0] !in m then
      assert ks[..0] == [];
      Some(ks[0])
    else
      var r := FirstAbsent(ks[1..], m);
      assert ks == [ks[0]] + ks[1..];
      if r.Some? then
        IsFirstAbsentCons(ks[0], ks[1..], m, r.value);
        r
      else
        assert forall i :: 1 <= i < |ks| ==> ks[i] == ks[1..][i - 1];
        r
  }

  /** The keys of `ks` not in `seen`, first occurrences only, in order: the
      order in which a JavaScript `Set` filled from `ks` yields them. */
  function DistinctAfter(ks: seq<PublicKey>, seen: set<PublicKey>): (r: seq<PublicKey>)
    ensures forall k :: k in r <==> k in ks && k !in seen
    ensures forall i, j :: 0 <= i < j < |r| ==> r[i] != r[j]
  {
    if |ks| == 0 then []
    else if ks[0] in seen then
      assert forall k :: k in ks ==> k == ks[0] || k in ks[1..];
      DistinctAfter(ks[1..], seen)
    else
      assert forall k :: k in ks ==> k == ks[0] || k in ks[1..];
      var rest := DistinctAfter(ks[1..], seen + {ks[0]});
      assert forall j :: 0 < j < |[ks[0]] + rest| ==> ([ks[0]] + rest)[j] == rest[j - 1];
      [ks[0]] + rest
  }

  /** Removing duplicates does not change which key a batch fetch throws
      on, provided the keys already seen were all present. */
  lemma {:induction false} FirstAbsentDistinct<V>(ks: seq<PublicKey>, seen: set<PublicKey>, m: map<PublicKey, V>)
    requires forall k :: k in seen ==> k in m
    ensures FirstAbsent(DistinctAfter(ks, seen), m) == FirstAbsent(ks, m)
    decreases |ks|
  {
    if |ks| == 0 {
    } else if ks[0] in seen {
      FirstAbsentDistinct(ks[1..], seen, m);
    } else if ks[0] in m {
      FirstAbsentDistinct(ks[1..], seen + {ks[0]}, m);
      var d := [ks[0]] + DistinctAfter(ks[1..], seen + {ks[0]});
      assert d[1..] == DistinctAfter(ks[1..], seen + {ks[0]});
    }
  }

  // ----- decoded accounts -----

  /** The fields of a decoded CPMM pool account that the reserve
      derivation and the swap path use. `programId` is the account's owner. */
  datatype PoolState = PoolState(
    programId: PublicKey,
    configId: PublicKey,
    vaultA: PublicKey,
    vaultB: PublicKey,
    mintA: PublicKey,
    mintB: PublicKey,
    protocolFeesMintA: nat,
    protocolFeesMintB: nat,
    fundFeesMintA: nat,
    fundFeesMintB: nat)

  /** The field of a decoded AMM config account that the swap path uses. */
  datatype ConfigState = ConfigState(tradeFeeRate: nat)

  /** The accounts the node can return: pools, configs and token-account
      amounts, each keyed by address. */
  datatype Chain = Chain(
    pools: map<PublicKey, PoolState>,
    configs: map<PublicKey, ConfigState>,
    vaults: map<PublicKey, nat>)

  /** `CpmmRpcData`, without the decimal pool price. */
  datatype RpcData = RpcData(
    state: PoolState,
    baseReserve: int,
    quoteReserve: int,
    vaultAAmount: nat,
    vaultBAmount: nat,
    configInfo: Option<ConfigState>)

  /** The decoded pools, in request order. */
  function States(poolIds: seq<PublicKey>, pools: map<PublicKey, PoolState>): (r: seq<PoolState>)
    requires AllIn(poolIds, pools)
    ensures |r| == |poolIds|
    ensures forall i :: 0 <= i < |poolIds| ==> r[i] == pools[poolIds[i]]
  {
    seq(|poolIds|, i requires 0 <= i < |poolIds| => pools[poolIds[i]])
  }

  /** The config ids of the pools, in request order, duplicates included. */
  function ConfigIds(poolIds: seq<PublicKey>, pools: map<PublicKey, PoolState>): (r: seq<PublicKey>)
    requires AllIn(poolIds, pools)
    ensures |r| == |poolIds|
    ensures forall i :: 0 <= i < |poolIds| ==> r[i] == pools[poolIds[i]].configId
  {
    seq(|poolIds|, i requires 0 <= i < |poolIds| => pools[poolIds[i]].configId)
  }

  /** The vaults to fetch: vault A then vault B of every pool, in order. */
  function VaultIds(states: seq<PoolState>): (r: seq<PublicKey>)
    ensures |r| == 2 * |states|
    ensures forall i :: 0 <= i < |states| ==> r[2 * i] == states[i].vaultA && r[2 * i + 1] == states[i].vaultB
  {
    if |states| == 0 then []
    else
      var rest := VaultIds(states[1..]);
      var r := [states[0].vaultA, states[0].vaultB] + rest;
      assert forall i :: 1 <= i < |states| ==> states[i] == states[1..][i - 1];
      assert forall j :: 2 <= j < |r| ==> r[j] == rest[j - 2];
      r
  }

  /** Everything `getRpcPoolInfos` needs for one pool is on chain: the pool
      account, both vault accounts, and the config when it is fetched. */
  predicate Loadable(id: PublicKey, chain: Chain, fetchConfigInfo: bool) {
    id in chain.pools
    && chain.pools[id].vaultA in chain.vaults
    && chain.pools[id].vaultB in chain.vaults
    && (fetchConfigInfo ==> chain.pools[id].configId in chain.configs)
  }

  /** The returned record of one pool. */
  function PoolRpcData(p: PoolState, chain: Chain, fetchConfigInfo: bool): (r: RpcData)
    requires p.vaultA in chain.vaults && p.vaultB in chain.vaults
    requires fetchConfigInfo ==> p.configId in chain.configs
    ensures r.state == p
    ensures r.vaultAAmount == chain.vaults[p.vaultA] && r.vaultBAmount == chain.vaults[p.vaultB]
    ensures r.baseReserve + p.protocolFeesMintA + p.fundFeesMintA == r.vaultAAmount
    ensures r.quoteReserve + p.protocolFeesMintB + p.fundFeesMintB == r.vaultBAmount
    ensures r.configInfo.Some? <==> fetchConfigInfo
    ensures r.configInfo.Some? ==> r.configInfo.value == chain.configs[p.configId]
  {
    var a := chain.vaults[p.vaultA];
    var b := chain.vaults[p.vaultB];
    RpcData(
      p,
      a - p.protocolFeesMintA - p.fundFeesMintA,
      b - p.protocolFeesMintB - p.fundFeesMintB,
      a,
      b,
      if fetchConfigInfo then Some(chain.configs[p.configId]) else None)
  }

  /** All vaults of the batch are present exactly when both vaults of
      every pool are. */
  lemma VaultsPresent(poolIds: seq<PublicKey>, chain: Chain)
    requires AllIn(poolIds, chain.pools)
    ensures AllIn(VaultIds(States(poolIds, chain.pools)), chain.vaults)
        <==> forall i :: 0 <= i < |poolIds| ==>
               chain.pools[poolIds[i]].vaultA in chain.vaults && chain.pools[poolIds[i]].vaultB in chain.vaults
  {
    var states := States(poolIds, chain.pools);
    var vs := VaultIds(states);
    if forall i :: 0 <= i < |poolIds| ==>
         chain.pools[poolIds[i]].vaultA in chain.vaults && chain.pools[poolIds[i]].vaultB in chain.vaults
    {
      forall j | 0 <= j < |vs|
        ensures vs[j] in chain.vaults
      {
        var i := j / 2;
        assert j == 2 * i || j == 2 * i + 1;
        assert vs[2 * i] == states[i].vaultA && vs[2 * i + 1] == states[i].vaultB;
      }
    }
    if AllIn(vs, chain.vaults) {
      forall i | 0 <= i < |poolIds|
        ensures chain.pools[poolIds[i]].vaultA in chain.vaults && chain.pools[poolIds[i]].vaultB in chain.vaults
      {
        assert vs[2 * i] == states[i].vaultA && vs[2 * i + 1] == states[i].vaultB;
      }
    }
  }

  /** `getRpcPoolInfos`. The whole batch fails on the first null account:
      pools are checked first in request order, then, when asked for, the
      configs in pool order, then the vaults A and B of each pool in pool
      order. Otherwise every requested pool maps to its record, whose
      reserves are the vault amounts less the protocol and fund fees
      owed. */
  function GetRpcPoolInfos(poolIds: seq<PublicKey>, fetchConfigInfo: bool, chain: Chain)
    : (r: Result<map<PublicKey, RpcData>>)
    ensures r.Ok? <==> forall i :: 0 <= i < |poolIds| ==> Loadable(poolIds[i], chain, fetchConfigInfo)
    ensures !AllIn(poolIds, chain.pools) ==>
      r.Err? && r.error.PoolNotFound? && IsFirstAbsent(poolIds, chain.pools, r.error.pool)
    ensures AllIn(poolIds, chain.pools) && fetchConfigInfo && !AllIn(ConfigIds(poolIds, chain.pools), chain.configs) ==>
      r.Err? && r.error.ConfigNotFound? && IsFirstAbsent(ConfigIds(poolIds, chain.pools), chain.configs, r.error.config)
    ensures (&& AllIn(poolIds, chain.pools)
             && (fetchConfigInfo ==> AllIn(ConfigIds(poolIds, chain.pools), chain.configs))
             && !AllIn(VaultIds(States(poolIds, chain.pools)), chain.vaults)) ==>
      r.Err? && r.error.VaultNotFound? && IsFirstAbsent(VaultIds(States(poolIds, chain.pools)), chain.vaults, r.error.vault)
    ensures r.Ok? ==> forall id :: id in r.value <==> id in poolIds
    ensures r.Ok? ==> forall id :: id in r.value ==>
      var d, p := r.value[id], chain.pools[id];
      && d.state == p
      && d.vaultAAmount == chain.vaults[p.vaultA] && d.vaultBAmount == chain.vaults[p.vaultB]
      && d.baseReserve == d.vaultAAmount - p.protocolFeesMintA - p.fundFeesMintA
      && d.quoteReserve == d.vaultBAmount - p.protocolFeesMintB - p.fundFeesMintB
      && d.configInfo == (if fetchConfigInfo then Some(chain.configs[p.configId]) else None)
  {
    var missingPool := FirstAbsent(poolIds, chain.pools);
    if missingPool.Some? then
      Err(PoolNotFound(missingPool.value))
    else
      var configIds := ConfigIds(poolIds, chain.pools);
      FirstAbsentDistinct(configIds, {}, chain.configs);
      var missingConfig := if fetchConfigInfo then FirstAbsent(DistinctAfter(configIds, {}), chain.configs) else None;
      if missingConfig.Some? then
        Err(ConfigNotFound(missingConfig.value))
      else
        var vaultIds := VaultIds(States(poolIds, chain.pools));
        VaultsPresent(poolIds, chain);
        var missingVault := FirstAbsent(vaultIds, chain.vaults);
        if missingVault.Some? then
          Err(VaultNotFound(missingVault.value))
        else
          Ok(map id | id in poolIds :: PoolRpcData(chain.pools[id], chain, fetchConfigInfo))
  }

  /** `getRpcPoolInfo`: the batch of one. */
  function GetRpcPoolInfo(poolId: PublicKey, fetchConfigInfo: bool, chain: Chain): (r: Result<RpcData>)
    ensures r.Ok? <==> Loadable(poolId, chain, fetchConfigInfo)
    ensures poolId !in chain.pools ==> r == Err(PoolNotFound(poolId))
    ensures r.Ok? ==> r.value == PoolRpcData(chain.pools[poolId], chain, fetchConfigInfo)
  {
    var infos :- GetRpcPoolInfos([poolId], fetchConfigInfo, chain);
    Ok(infos[poolId])
  }

  /** A pool's record does not depend on the rest of its batch: whenever a
      batch loads, each of its pools loads alone, to the same record. */
  lemma BatchAgreesWithSingle(poolIds: seq<PublicKey>, fetchConfigInfo: bool, chain: Chain, id: PublicKey)
    requires GetRpcPoolInfos(poolIds, fetchConfigInfo, chain).Ok?
    requires id in poolIds
    ensures GetRpcPoolInfo(id, fetchConfigInfo, chain).Ok?
    ensures GetRpcPoolInfo(id, fetchConfigInfo, chain).value == GetRpcPoolInfos(poolIds, fetchConfigInfo, chain).value[id]
  {
    var i :| 0 <= i < |poolIds| && poolIds[i] == id;
    assert Loadable(poolIds[i], chain, fetchConfigInfo);
  }

  // ----- computeSwapAmount -----

  /** The scale of the slippage factor `(1 - slippage) * 10000`. */
  const SlippageScale: int := 10_000

  /** The integer part of `computeSwapAmount`'s result. */
  datatype SwapAmount = SwapAmount(
    allTrade: bool,
    amountIn: int,
    amountOut: int,
    minAmountOut: int,
    fee: int)

  /** `computeSwapAmount` (integer path). The swap runs base to quote when
      the requested output mint is the pool's mint B and quote to base
      otherwise, at the config's trade fee rate; an absent config is an
      error. `keepBps` is the factor `(1 - slippage) * 10000`, and the
      minimum output is the curve's output scaled by it, truncated. The
      whole input is always traded. */
  function ComputeSwapAmount(pool: RpcData, amountIn: int, outputMint: PublicKey, keepBps: int): (r: Result<SwapAmount>)
    ensures pool.configInfo.None? ==> r == Err(ConfigInfoMissing)
    ensures pool.configInfo.Some? ==>
      var (s, d) := OrientReserves(outputMint == pool.state.mintB, pool.baseReserve, pool.quoteReserve);
      var c := CurveSwap(amountIn, s, d, pool.configInfo.value.tradeFeeRate);
      && (r.Ok? <==> c.Ok?)
      && (r.Err? ==> r.error == c.error)
      && (r.Ok? ==> r.value.amountOut == c.value.destinationAmountSwapped && r.value.fee == c.value.tradeFee)
    ensures r.Ok? ==> r.value.allTrade && r.value.amountIn == amountIn
    ensures r.Ok? && r.value.amountOut >= 0 && keepBps >= 0 ==>
      IsFloor(r.value.minAmountOut, r.value.amountOut * keepBps, SlippageScale)
    ensures r.Ok? && r.value.amountOut >= 0 && 0 <= keepBps <= SlippageScale ==>
      0 <= r.value.minAmountOut <= r.value.amountOut
  {
    if pool.configInfo.None? then Err(ConfigInfoMissing)
    else
      var isBaseIn := outputMint == pool.state.mintB;
      var (s, d) := OrientReserves(isBaseIn, pool.baseReserve, pool.quoteReserve);
      var swap :- CurveSwap(amountIn, s, d, pool.configInfo.value.tradeFeeRate);
      var out := swap.destinationAmountSwapped;
      var minAmountOut := Div(out * keepBps, SlippageScale);
      assert out >= 0 && keepBps >= 0 ==>
               IsFloor(minAmountOut, out * keepBps, SlippageScale)
               && (keepBps <= SlippageScale ==> 0 <= minAmountOut <= out) by {
        if out >= 0 && keepBps >= 0 { MinAmountOutBounds(out, keepBps); }
      }
      Ok(SwapAmount(swap.sourceAmountSwapped == amountIn, amountIn, out, minAmountOut, swap.tradeFee))
  }

  lemma MinAmountOutBounds(out: int, keepBps: int)
    requires out >= 0 && keepBps >= 0
    ensures IsFloor(Div(out * keepBps, SlippageScale), out * keepBps, SlippageScale)
    ensures keepBps <= SlippageScale ==> 0 <= Div(out * keepBps, SlippageScale) <= out
  {
    ScaledShareBounds(out, keepBps, SlippageScale);
    DivIsEuclidean(out * keepBps, SlippageScale);
    FloorDivBounds(out * keepBps, SlippageScale);
  }

  /** A quote for an input that fits in a u64, taken on a pool whose
      output-side reserve fits in a u64 and whose fee rate is at most 100%,
      always encodes: the minimum output is non-negative and below the
      output reserve, so the `swap_base_input` builder accepts the pair. */
  lemma QuoteEncodes(pool: RpcData, amountIn: int, outputMint: PublicKey, keepBps: int, a: CpmmInstruction.SwapAccounts)
    requires pool.baseReserve >= 0 && pool.quoteReserve >= 0
    requires pool.configInfo.Some? && pool.configInfo.value.tradeFeeRate <= FeeRateDenominator
    requires 0 <= amountIn < U64Limit && 0 <= keepBps <= SlippageScale
    requires OrientReserves(outputMint == pool.state.mintB, pool.baseReserve, pool.quoteReserve).1 < U64Limit
    ensures ComputeSwapAmount(pool, amountIn, outputMint, keepBps).Ok? ==>
      CpmmInstruction.MakeSwapCpmmBaseInInstruction(a, amountIn, ComputeSwapAmount(pool, amountIn, outputMint, keepBps).value.minAmountOut).Ok?
  {
    if ComputeSwapAmount(pool, amountIn, outputMint, keepBps).Ok? {
      var q := ComputeSwapAmount(pool, amountIn, outputMint, keepBps).value;
      var (s, d) := OrientReserves(outputMint == pool.state.mintB, pool.baseReserve, pool.quoteReserve);
      var c := CurveSwap(amountIn, s, d, pool.configInfo.value.tradeFeeRate);
      assert 0 < c.value.destinationAmountSwapped < d;
      assert 0 <= q.minAmountOut <= q.amountOut;
    }
  }

  /** A quote on a freshly loaded pool prices the swap on the vault
      balances less the fees the pool owes, oriented by the output mint, at
      the fee rate of the pool's own config; a pool loaded without its
      config cannot be quoted. */
  lemma QuoteFromVaults(id: PublicKey, fetchConfigInfo: bool, chain: Chain,
                        amountIn: int, outputMint: PublicKey, keepBps: int)
    requires Loadable(id, chain, fetchConfigInfo)
    ensures GetRpcPoolInfo(id, fetchConfigInfo, chain).Ok?
    ensures !fetchConfigInfo ==>
      ComputeSwapAmount(GetRpcPoolInfo(id, fetchConfigInfo, chain).value, amountIn, outputMint, keepBps)
        == Err(ConfigInfoMissing)
    ensures fetchConfigInfo ==>
      var p := chain.pools[id];
      var (s, d) := OrientReserves(outputMint == p.mintB,
                                   chain.vaults[p.vaultA] - p.protocolFeesMintA - p.fundFeesMintA,
                                   chain.vaults[p.vaultB] - p.protocolFeesMintB - p.fundFeesMintB);
      var c := CurveSwap(amountIn, s, d, chain.configs[p.configId].tradeFeeRate);
      var q := ComputeSwapAmount(GetRpcPoolInfo(id, fetchConfigInfo, chain).value, amountIn, outputMint, keepBps);
      && (q.Ok? <==> c.Ok?)
      && (q.Ok? ==> q.value.amountOut == c.value.destinationAmountSwapped && q.value.fee == c.value.tradeFee)
  {
  }
}

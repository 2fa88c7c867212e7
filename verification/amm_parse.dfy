/** The hand-written decoder of the AMM v4 pool account (amm/src/parse.ts):
    fifty-four fields read in declaration order from offset 0. */
module AmmParse {
  import opened Solana
  import opened Outcomes
  import opened Bytes
  import opened Layout
  import opened AmmTypes

  /** The kind of field `i` of the pool account, in the order
      `parseAmmInfo` reads them: 0-15 status .. sysDecimalValue, 16-19 the
      fees, 20-31 pnlNumerator .. orderbookToInitTime, 32-35 the u128
      swap counters, 36-37 the u64 swap counters, 38-49 baseVault ..
      ammOwner, 50-53 lpAmount, clientOrderId and the two padding words. */
  function AmmKind(i: int): Kind {
    if i < 32 then U64
    else if i < 36 then U128
    else if i < 38 then U64
    else if i < 50 then Key
    else U64
  }

  const AmmFieldCount: nat := 54

  /** The pool account layout. */
  function AmmLayout(): seq<Kind> {
    seq(AmmFieldCount, AmmKind)
  }

  /** Bytes the pool account decoder reads through. */
  const AmmAccountSize: nat := 752

  /** The running offset of field `i` of the pool account, group by group. */
  function AmmOffset(i: nat): nat {
    if i <= 32 then 8 * i
    else if i <= 36 then 256 + 16 * (i - 32)
    else if i <= 38 then 320 + 8 * (i - 36)
    else if i <= 50 then 336 + 32 * (i - 38)
    else 720 + 8 * (i - 50)
  }

  lemma {:induction false} AmmOffsetClosed(i: nat)
    requires i <= AmmFieldCount
    ensures Offset(AmmLayout(), i) == AmmOffset(i)
  {
    if i > 0 {
      AmmOffsetClosed(i - 1);
      assert AmmLayout()[i - 1] == AmmKind(i - 1);
    }
  }

  lemma AmmSpan()
    ensures Span(AmmLayout()) == AmmAccountSize
  {
    AmmOffsetClosed(AmmFieldCount);
  }

  /** The pool account layout fits in a buffer exactly when the buffer
      holds at least 752 bytes. */
  lemma AmmFits(buf: seq<byte>)
    ensures Fits(buf, 0, AmmLayout()) <==> |buf| >= AmmAccountSize
  {
    if Fits(buf, 0, AmmLayout()) {
      AmmOffsetClosed(53);
      assert 0 + Offset(AmmLayout(), 53) + Extent(AmmLayout()[53]) <= |buf|;
    }
    if |buf| >= AmmAccountSize {
      forall i | 0 <= i < |AmmLayout()|
        ensures 0 + Offset(AmmLayout(), i) + Extent(AmmLayout()[i]) <= |buf|
      {
        AmmOffsetClosed(i);
      }
    }
  }

  lemma AmmFieldFits(i: nat)
    requires i < AmmFieldCount
    ensures AmmOffset(i) + Extent(AmmKind(i)) <= AmmAccountSize
  {
  }

  /** Field `i` of a pool account record. */
  function Field(info: AmmInfo, i: nat): (v: Value)
    requires i < AmmFieldCount
    ensures HasKind(v, AmmKind(i))
  {
    match i
    case 0 => Num(info.status)
    case 1 => Num(info.nonce)
    case 2 => Num(info.orderNum)
    case 3 => Num(info.depth)
    case 4 => Num(info.coinDecimals)
    case 5 => Num(info.pcDecimals)
    case 6 => Num(info.state)
    case 7 => Num(info.resetFlag)
    case 8 => Num(info.minSize)
    case 9 => Num(info.volMaxCutRatio)
    case 10 => Num(info.amountWave)
    case 11 => Num(info.coinLotSize)
    case 12 => Num(info.pcLotSize)
    case 13 => Num(info.minPriceMultiplier)
    case 14 => Num(info.maxPriceMultiplier)
    case 15 => Num(info.sysDecimalValue)
    case 16 => Num(info.fees.minSeparateNumerator)
    case 17 => Num(info.fees.minSeparateDenominator)
    case 18 => Num(info.fees.tradeFeeNumerator)
    case 19 => Num(info.fees.tradeFeeDenominator)
    case 20 => Num(info.pnlNumerator)
    case 21 => Num(info.pnlDenominator)
    case 22 => Num(info.swapFeeNumerator)
    case 23 => Num(info.swapFeeDenominator)
    case 24 => Num(info.baseNeedTakePnl)
    case 25 => Num(info.quoteNeedTakePnl)
    case 26 => Num(info.quoteTotalPnl)
    case 27 => Num(info.baseTotalPnl)
    case 28 => Num(info.poolOpenTime)
    case 29 => Num(info.punishPcAmount)
    case 30 => Num(info.punishCoinAmount)
    case 31 => Num(info.orderbookToInitTime)
    case 32 => Num(info.outPut.swapBaseInAmount)
    case 33 => Num(info.outPut.swapQuoteOutAmount)
    case 34 => Num(info.outPut.swapBase2QuoteFee)
    case 35 => Num(info.outPut.swapQuoteInAmount)
    case 36 => Num(info.outPut.swapBaseOutAmount)
    case 37 => Num(info.outPut.swapQuote2BaseFee)
    case 38 => KeyValue(info.baseVault)
    case 39 => KeyValue(info.quoteVault)
    case 40 => KeyValue(info.baseMint)
    case 41 => KeyValue(info.quoteMint)
    case 42 => KeyValue(info.lpMint)
    case 43 => KeyValue(info.openOrders)
    case 44 => KeyValue(info.marketId)
    case 45 => KeyValue(info.marketProgramId)
    case 46 => KeyValue(info.targetOrders)
    case 47 => KeyValue(info.withdrawQueue)
    case 48 => KeyValue(info.lpVault)
    case 49 => KeyValue(info.ammOwner)
    case 50 => Num(info.lpAmount)
    case 51 => Num(info.clientOrderId)
    case 52 => Num(info.padding.0)
    case _ => Num(info.padding.1)
  }

  /** The fields of a pool account record in layout order. */
  function Values(info: AmmInfo): (r: seq<Value>)
    ensures |r| == AmmFieldCount
    ensures forall i :: 0 <= i < |r| ==> HasKind(r[i], AmmKind(i))
  {
    seq(AmmFieldCount, i requires 0 <= i < AmmFieldCount => Field(info, i))
  }

  /** The record whose fields, in layout order, are `vs`. */
  function Build(vs: seq<Value>): AmmInfo
    requires WellKinded(vs, AmmLayout())
  {
    AmmInfo(
      status := vs[0].n,
      nonce := vs[1].n,
      orderNum := vs[2].n,
      depth := vs[3].n,
      coinDecimals := vs[4].n,
      pcDecimals := vs[5].n,
      state := vs[6].n,
      resetFlag := vs[7].n,
      minSize := vs[8].n,
      volMaxCutRatio := vs[9].n,
      amountWave := vs[10].n,
      coinLotSize := vs[11].n,
      pcLotSize := vs[12].n,
      minPriceMultiplier := vs[13].n,
      maxPriceMultiplier := vs[14].n,
      sysDecimalValue := vs[15].n,
      fees := Fees(minSeparateNumerator := vs[16].n, minSeparateDenominator := vs[17].n, tradeFeeNumerator := vs[18].n, tradeFeeDenominator := vs[19].n),
      pnlNumerator := vs[20].n,
      pnlDenominator := vs[21].n,
      swapFeeNumerator := vs[22].n,
      swapFeeDenominator := vs[23].n,
      baseNeedTakePnl := vs[24].n,
      quoteNeedTakePnl := vs[25].n,
      quoteTotalPnl := vs[26].n,
      baseTotalPnl := vs[27].n,
      poolOpenTime := vs[28].n,
      punishPcAmount := vs[29].n,
      punishCoinAmount := vs[30].n,
      orderbookToInitTime := vs[31].n,
      outPut := OutPutData(
        swapBaseInAmount := vs[32].n,
        swapQuoteOutAmount := vs[33].n,
        swapBase2QuoteFee := vs[34].n,
        swapQuoteInAmount := vs[35].n,
        swapBaseOutAmount := vs[36].n,
        swapQuote2BaseFee := vs[37].n),
      baseVault := vs[38].key,
      quoteVault := vs[39].key,
      baseMint := vs[40].key,
      quoteMint := vs[41].key,
      lpMint := vs[42].key,
      openOrders := vs[43].key,
      marketId := vs[44].key,
      marketProgramId := vs[45].key,
      targetOrders := vs[46].key,
      withdrawQueue := vs[47].key,
      lpVault := vs[48].key,
      ammOwner := vs[49].key,
      lpAmount := vs[50].n,
      clientOrderId := vs[51].n,
      padding := (vs[52].n, vs[53].n))
  }

  lemma BuildValues(info: AmmInfo)
    ensures Build(Values(info)) == info
  {
  }

  lemma FieldBuild(vs: seq<Value>, i: nat)
    requires WellKinded(vs, AmmLayout()) && i < AmmFieldCount
    ensures Field(Build(vs), i) == vs[i]
  {
    assert HasKind(vs[i], AmmLayout()[i]);
  }

  lemma ValuesBuild(vs: seq<Value>)
    requires WellKinded(vs, AmmLayout())
    ensures Values(Build(vs)) == vs
  {
    var ws := Values(Build(vs));
    forall i | 0 <= i < AmmFieldCount
      ensures ws[i] == vs[i]
    {
      FieldBuild(vs, i);
    }
  }

  /** Field `i` of the pool account as its reader yields it from `buf`. */
  function AmmField(buf: seq<byte>, i: nat): Value
    requires |buf| >= AmmAccountSize && i < AmmFieldCount
  {
    AmmFieldFits(i);
    ReadAt(buf, AmmOffset(i), AmmKind(i))
  }

  lemma AmmReads(buf: seq<byte>)
    requires |buf| >= AmmAccountSize
    ensures Fits(buf, 0, AmmLayout())
    ensures forall i | 0 <= i < AmmFieldCount :: Reads(buf, 0, AmmLayout())[i] == AmmField(buf, i)
  {
    AmmFits(buf);
    forall i | 0 <= i < AmmFieldCount
      ensures Reads(buf, 0, AmmLayout())[i] == AmmField(buf, i)
    {
      AmmOffsetClosed(i);
    }
  }

  lemma AmmReadFields(buf: seq<byte>)
    ensures ReadFields(buf, 0, AmmLayout()).Ok? <==> |buf| >= AmmAccountSize
    ensures ReadFields(buf, 0, AmmLayout()).Ok? ==>
      var vs := ReadFields(buf, 0, AmmLayout()).value;
      Values(Build(vs)) == vs && Representable(vs) && forall i | 0 <= i < AmmFieldCount :: vs[i] == AmmField(buf, i)
  {
    ReadFieldsCharacterized(buf, 0, AmmLayout());
    AmmFits(buf);
    if |buf| >= AmmAccountSize {
      var vs := ReadFields(buf, 0, AmmLayout()).value;
      ValuesBuild(vs);
      ReadsRepresentable(buf, 0, AmmLayout());
      AmmReads(buf);
    }
  }

  /** `parseAmmInfo`: succeeds exactly when the buffer holds the 752 bytes
      of the layout (every other length makes a u64 read fall off the end),
      and then field `i` of the record is the value read at its running
      offset. */
  function ParseAmmInfo(buf: seq<byte>): (r: Result<AmmInfo>)
    ensures r.Ok? <==> |buf| >= AmmAccountSize
    ensures r.Err? ==> r.error == BufferOutOfRange
    ensures r.Ok? ==> forall i | 0 <= i < AmmFieldCount :: Values(r.value)[i] == AmmField(buf, i)
    ensures r.Ok? ==> Representable(Values(r.value))
  {
    AmmReadFields(buf);
    var vs :- ReadFields(buf, 0, AmmLayout());
    Ok(Build(vs))
  }

  lemma ParsedField(buf: seq<byte>, i: nat)
    requires |buf| >= AmmAccountSize && i < AmmFieldCount
    ensures ParseAmmInfo(buf).Ok?
    ensures Field(ParseAmmInfo(buf).value, i) == AmmField(buf, i)
  {
    assert Values(ParseAmmInfo(buf).value)[i] == AmmField(buf, i);
  }

  lemma NamedNumFields(info: AmmInfo)
    ensures Field(info, 18) == Num(info.fees.tradeFeeNumerator)
    ensures Field(info, 19) == Num(info.fees.tradeFeeDenominator)
    ensures Field(info, 22) == Num(info.swapFeeNumerator)
    ensures Field(info, 23) == Num(info.swapFeeDenominator)
    ensures Field(info, 28) == Num(info.poolOpenTime)
    ensures Field(info, 32) == Num(info.outPut.swapBaseInAmount)
    ensures Field(info, 50) == Num(info.lpAmount)
  {
  }

  lemma NamedKeyFields(info: AmmInfo)
    ensures Field(info, 38) == KeyValue(info.baseVault)
    ensures Field(info, 39) == KeyValue(info.quoteVault)
    ensures Field(info, 40) == KeyValue(info.baseMint)
    ensures Field(info, 41) == KeyValue(info.quoteMint)
    ensures Field(info, 43) == KeyValue(info.openOrders)
    ensures Field(info, 44) == KeyValue(info.marketId)
    ensures Field(info, 45) == KeyValue(info.marketProgramId)
    ensures Field(info, 46) == KeyValue(info.targetOrders)
  {
    NamedMarketFields(info);
  }

  lemma NamedMarketFields(info: AmmInfo)
    ensures Field(info, 44) == KeyValue(info.marketId)
    ensures Field(info, 45) == KeyValue(info.marketProgramId)
    ensures Field(info, 46) == KeyValue(info.targetOrders)
  {
  }

  lemma NamedFieldReads(buf: seq<byte>)
    requires |buf| >= AmmAccountSize
    ensures AmmField(buf, 18) == Num(LeValue(buf[144..152]))
    ensures AmmField(buf, 19) == Num(LeValue(buf[152..160]))
    ensures AmmField(buf, 22) == Num(LeValue(buf[176..184]))
    ensures AmmField(buf, 23) == Num(LeValue(buf[184..192]))
    ensures AmmField(buf, 28) == Num(LeValue(buf[224..232]))
    ensures AmmField(buf, 32) == Num(LeValue(buf[256..264]))
    ensures AmmField(buf, 50) == Num(LeValue(buf[720..728]))
    ensures AmmField(buf, 38) == KeyValue(buf[336..368])
    ensures AmmField(buf, 39) == KeyValue(buf[368..400])
    ensures AmmField(buf, 40) == KeyValue(buf[400..432])
    ensures AmmField(buf, 41) == KeyValue(buf[432..464])
    ensures AmmField(buf, 43) == KeyValue(buf[496..528])
    ensures AmmField(buf, 44) == KeyValue(buf[528..560])
    ensures AmmField(buf, 45) == KeyValue(buf[560..592])
    ensures AmmField(buf, 46) == KeyValue(buf[592..624])
  {
  }

  /** Byte offsets of the fields the swap paths use: the trade and swap
      fee ratios at 144, 152, 176 and 184, the vaults and mints from 336,
      the market accounts from 496, the pool's LP supply at 720. */
  lemma ParsedFieldOffsets(buf: seq<byte>)
    requires |buf| >= AmmAccountSize
    ensures ParseAmmInfo(buf).Ok?
    ensures ParseAmmInfo(buf).value.fees.tradeFeeNumerator == LeValue(buf[144..152])
    ensures ParseAmmInfo(buf).value.fees.tradeFeeDenominator == LeValue(buf[152..160])
    ensures ParseAmmInfo(buf).value.swapFeeNumerator == LeValue(buf[176..184])
    ensures ParseAmmInfo(buf).value.swapFeeDenominator == LeValue(buf[184..192])
    ensures ParseAmmInfo(buf).value.poolOpenTime == LeValue(buf[224..232])
    ensures ParseAmmInfo(buf).value.outPut.swapBaseInAmount == LeValue(buf[256..264])
    ensures ParseAmmInfo(buf).value.lpAmount == LeValue(buf[720..728])
    ensures ParseAmmInfo(buf).value.baseVault == buf[336..368]
    ensures ParseAmmInfo(buf).value.quoteVault == buf[368..400]
    ensures ParseAmmInfo(buf).value.baseMint == buf[400..432]
    ensures ParseAmmInfo(buf).value.quoteMint == buf[432..464]
    ensures ParseAmmInfo(buf).value.openOrders == buf[496..528]
    ensures ParseAmmInfo(buf).value.marketId == buf[528..560]
    ensures ParseAmmInfo(buf).value.marketProgramId == buf[560..592]
    ensures ParseAmmInfo(buf).value.targetOrders == buf[592..624]
  {
    var info := ParseAmmInfo(buf).value;
    NamedNumFields(info);
    NamedKeyFields(info);
    NamedFieldReads(buf);
    ParsedField(buf, 18);
    ParsedField(buf, 19);
    ParsedField(buf, 22);
    ParsedField(buf, 23);
    ParsedField(buf, 28);
    ParsedField(buf, 32);
    ParsedField(buf, 50);
    ParsedField(buf, 38);
    ParsedField(buf, 39);
    ParsedField(buf, 40);
    ParsedField(buf, 41);
    ParsedField(buf, 43);
    ParsedField(buf, 44);
    ParsedField(buf, 45);
    ParsedField(buf, 46);
  }

  /** Every numeric field of the record fits in a u64. */
  predicate Bounded(info: AmmInfo) {
    Representable(Values(info))
  }

  /** The account image of a record: the inverse of `ParseAmmInfo`, with
      the u128 counters zero-extended. */
  function EncodeAmmInfo(info: AmmInfo): (r: seq<byte>)
    ensures |r| == AmmAccountSize
  {
    WriteFieldsLength(Values(info), AmmLayout());
    AmmSpan();
    WriteFields(Values(info), AmmLayout())
  }

  /** Decoding the image of a record, whatever follows it, gives the record
      back. */
  lemma ParseEncode(info: AmmInfo, tail: seq<byte>)
    requires Bounded(info)
    ensures ParseAmmInfo(EncodeAmmInfo(info) + tail) == Ok(info)
  {
    ReadWriteFieldsAtStart(Values(info), AmmLayout(), tail);
    BuildValues(info);
  }

  /** Bytes the decoder never looks at: the high halves of the four u128
      counters. */
  predicate U128HighByte(j: int) {
    256 <= j < 320 && (j - 256) % 16 >= 8
  }

  /** No byte of a field's window is a high half of a u128 counter. */
  lemma AmmWindowHasNoHighByte(i: nat, k: int)
    requires i < AmmFieldCount && AmmOffset(i) <= k < AmmOffset(i) + Extent(AmmKind(i))
    ensures !U128HighByte(k)
  {
  }

  /** The decoded record does not depend on the high halves of the u128
      counters: two buffers that differ only there decode alike. */
  lemma ParseIgnoresU128HighBytes(a: seq<byte>, b: seq<byte>)
    requires |a| == |b|
    requires forall k :: 0 <= k < |a| && !U128HighByte(k) ==> a[k] == b[k]
    ensures ParseAmmInfo(a) == ParseAmmInfo(b)
  {
    ReadFieldsIgnoreHighBytes(a, b);
  }

  lemma ReadFieldsIgnoreHighBytes(a: seq<byte>, b: seq<byte>)
    requires |a| == |b|
    requires forall k :: 0 <= k < |a| && !U128HighByte(k) ==> a[k] == b[k]
    ensures ReadFields(a, 0, AmmLayout()) == ReadFields(b, 0, AmmLayout())
  {
    AmmFits(a);
    AmmFits(b);
    if |a| >= AmmAccountSize {
      forall i | 0 <= i < |AmmLayout()|
        ensures SameWindow(a, b, 0, AmmLayout(), i)
      {
        FieldWindowAgrees(a, b, i);
      }
      ReadFieldsLocal(a, b, 0, AmmLayout());
    } else {
      ReadFieldsCharacterized(a, 0, AmmLayout());
      ReadFieldsCharacterized(b, 0, AmmLayout());
    }
  }

  lemma FieldWindowAgrees(a: seq<byte>, b: seq<byte>, i: nat)
    requires |a| == |b| >= AmmAccountSize && i < |AmmLayout()|
    requires forall k :: 0 <= k < |a| && !U128HighByte(k) ==> a[k] == b[k]
    ensures Offset(AmmLayout(), i) + Extent(AmmLayout()[i]) <= |a|
    ensures a[Offset(AmmLayout(), i)..Offset(AmmLayout(), i) + Extent(AmmLayout()[i])]
         == b[Offset(AmmLayout(), i)..Offset(AmmLayout(), i) + Extent(AmmLayout()[i])]
  {
    FieldWindow(i);
    var p, q := AmmOffset(i), AmmOffset(i) + Extent(AmmKind(i));
    forall k | p <= k < q
      ensures !U128HighByte(k)
    {
      AmmWindowHasNoHighByte(i, k);
    }
    WindowAgrees(a, b, p, q);
  }

  lemma WindowAgrees(a: seq<byte>, b: seq<byte>, p: nat, q: nat)
    requires p <= q <= |a| == |b|
    requires forall k :: p <= k < q ==> a[k] == b[k]
    ensures a[p..q] == b[p..q]
  {
  }

  /** The decoded record depends only on the first 752 bytes. */
  lemma ParseIgnoresTail(buf: seq<byte>)
    requires |buf| >= AmmAccountSize
    ensures ParseAmmInfo(buf) == ParseAmmInfo(buf[..AmmAccountSize])
  {
    var b := buf[..AmmAccountSize];
    AmmFits(buf);
    AmmFits(b);
    forall i | 0 <= i < |AmmLayout()|
      ensures SameWindow(buf, b, 0, AmmLayout(), i)
    {
      FieldWindowInPrefix(buf, i);
    }
    ReadFieldsLocal(buf, b, 0, AmmLayout());
  }

  lemma FieldWindowInPrefix(buf: seq<byte>, i: nat)
    requires |buf| >= AmmAccountSize && i < |AmmLayout()|
    ensures Offset(AmmLayout(), i) + Extent(AmmLayout()[i]) <= AmmAccountSize
    ensures buf[Offset(AmmLayout(), i)..Offset(AmmLayout(), i) + Extent(AmmLayout()[i])]
         == buf[..AmmAccountSize][Offset(AmmLayout(), i)..Offset(AmmLayout(), i) + Extent(AmmLayout()[i])]
  {
    FieldWindow(i);
    SlicePrefix(buf, AmmAccountSize, Offset(AmmLayout(), i), Offset(AmmLayout(), i) + Extent(AmmLayout()[i]));
  }

  /** Field `i` of the layout sits at `AmmOffset(i)` and ends by byte 752. */
  lemma FieldWindow(i: nat)
    requires i < |AmmLayout()|
    ensures Offset(AmmLayout(), i) == AmmOffset(i) && AmmLayout()[i] == AmmKind(i)
    ensures AmmOffset(i) + Extent(AmmKind(i)) <= AmmAccountSize
  {
    AmmOffsetClosed(i);
    AmmFieldFits(i);
  }

  lemma SlicePrefix(buf: seq<byte>, n: nat, p: nat, q: nat)
    requires p <= q <= n <= |buf|
    ensures buf[p..q] == buf[..n][p..q]
  {
  }
}

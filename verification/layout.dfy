/** Fixed layouts of little-endian fields read with a running offset, as
    the AMM v4 pool account decoder (amm/src/parse.ts) reads them: u64
    fields take 8 bytes, u128 fields advance 16 bytes but keep only the
    value of their low 8, and public keys are raw 32-byte slices. */
module Layout {
  import opened Solana
  import opened Outcomes
  import opened Bytes

  datatype Kind = U64 | U128 | Key

  /** How far a field advances the running offset. */
  function Width(k: Kind): nat {
    match k
    case U64 => 8
    case U128 => 16
    case Key => 32
  }

  /** How many bytes a field's reader looks at: `readU128` reads only 8. */
  function Extent(k: Kind): nat {
    match k
    case U64 => 8
    case U128 => 8
    case Key => 32
  }

  datatype Value = Num(n: nat) | KeyValue(key: PublicKey)

  predicate HasKind(v: Value, k: Kind) {
    if k == Key then v.KeyValue? else v.Num?
  }

  predicate WellKinded(vs: seq<Value>, l: seq<Kind>) {
    |vs| == |l| && forall i :: 0 <= i < |l| ==> HasKind(vs[i], l[i])
  }

  /** The running offset before field `i`. */
  function Offset(l: seq<Kind>, i: nat): nat
    requires i <= |l|
  {
    if i == 0 then 0 else Offset(l, i - 1) + Width(l[i - 1])
  }

  /** Total bytes a layout advances over. */
  function Span(l: seq<Kind>): nat {
    Offset(l, |l|)
  }

  /** The value a field of kind `k` has when read at `pos`. */
  function ReadAt(buf: seq<byte>, pos: nat, k: Kind): Value
    requires pos + Extent(k) <= |buf|
  {
    match k
    case Key => KeyValue(buf[pos..pos + 32])
    case _ => Num(LeValue(buf[pos..pos + 8]))
  }

  /** `readU64`, `readU128` and `readPublicKey` at the running offset. The
      two integer readers are `readBigUInt64LE` on the first eight bytes;
      the key reader takes the 32-byte slice. */
  function ReadField(buf: seq<byte>, off: nat, k: Kind): (r: Result<Value>)
    ensures k != Key ==> (r.Ok? <==> ReadU64(buf, off).Ok?)
    ensures k != Key && r.Ok? ==> r.value == Num(ReadU64(buf, off).value)
    ensures k == Key ==> (r.Ok? <==> off + 32 <= |buf|)
    ensures k == Key && r.Ok? ==> r.value == KeyValue(buf[off..off + 32])
    ensures r.Ok? <==> off + Extent(k) <= |buf|
    ensures r.Ok? ==> r.value == ReadAt(buf, off, k)
    ensures r.Err? ==> r.error == BufferOutOfRange
  {
    match k
    case Key => if off + 32 <= |buf| then Ok(KeyValue(buf[off..off + 32])) else Err(BufferOutOfRange)
    case _ =>
      var n :- ReadU64(buf, off);
      LeRoundTrip(n, 8);
      Ok(Num(n))
  }

  /** Reads the fields of `l` in order starting at `off`, advancing by each
      field's width. */
  function ReadFields(buf: seq<byte>, off: nat, l: seq<Kind>): (r: Result<seq<Value>>)
    ensures r.Ok? ==> WellKinded(r.value, l)
    ensures r.Err? ==> r.error == BufferOutOfRange
    decreases |l|
  {
    if |l| == 0 then Ok([])
    else
      var v :- ReadField(buf, off, l[0]);
      var rest :- ReadFields(buf, off + Width(l[0]), l[1..]);
      Ok([v] + rest)
  }

  /** Every field of `l`, placed at its running offset from `off`, lies
      within the buffer. */
  predicate Fits(buf: seq<byte>, off: nat, l: seq<Kind>) {
    forall i :: 0 <= i < |l| ==> off + Offset(l, i) + Extent(l[i]) <= |buf|
  }

  /** The fields of `l` read at their running offsets from `off`. */
  function Reads(buf: seq<byte>, off: nat, l: seq<Kind>): seq<Value>
    requires Fits(buf, off, l)
  {
    seq(|l|, i requires 0 <= i < |l| => ReadAt(buf, off + Offset(l, i), l[i]))
  }

  lemma {:induction false} OffsetCons(l: seq<Kind>, i: nat)
    requires 0 < |l| && i < |l|
    ensures Offset(l, i + 1) == Width(l[0]) + Offset(l[1..], i)
  {
    if i > 0 {
      OffsetCons(l, i - 1);
    }
  }

  /** Field `i + 1` of `l` at `off` is field `i` of the tail at the
      offset after the head. */
  lemma ShiftedField(off: nat, l: seq<Kind>, i: nat)
    requires i + 1 < |l|
    ensures off + Offset(l, i + 1) == off + Width(l[0]) + Offset(l[1..], i)
    ensures l[i + 1] == l[1..][i]
  {
    OffsetCons(l, i);
  }

  lemma FitsConsIntro(buf: seq<byte>, off: nat, l: seq<Kind>)
    requires |l| > 0 && off + Extent(l[0]) <= |buf| && Fits(buf, off + Width(l[0]), l[1..])
    ensures Fits(buf, off, l)
  {
    forall i | 0 <= i < |l|
      ensures off + Offset(l, i) + Extent(l[i]) <= |buf|
    {
      if i > 0 {
        ShiftedField(off, l, i - 1);
      }
    }
  }

  lemma FitsConsElim(buf: seq<byte>, off: nat, l: seq<Kind>)
    requires |l| > 0 && Fits(buf, off, l)
    ensures off + Extent(l[0]) <= |buf| && Fits(buf, off + Width(l[0]), l[1..])
  {
    assert off + Offset(l, 0) + Extent(l[0]) <= |buf|;
    forall i | 0 <= i < |l| - 1
      ensures off + Width(l[0]) + Offset(l[1..], i) + Extent(l[1..][i]) <= |buf|
    {
      ShiftedField(off, l, i);
      assert off + Offset(l, i + 1) + Extent(l[i + 1]) <= |buf|;
    }
  }

  lemma FitsCons(buf: seq<byte>, off: nat, l: seq<Kind>)
    requires |l| > 0
    ensures Fits(buf, off, l) <==> off + Extent(l[0]) <= |buf| && Fits(buf, off + Width(l[0]), l[1..])
  {
    if off + Extent(l[0]) <= |buf| && Fits(buf, off + Width(l[0]), l[1..]) {
      FitsConsIntro(buf, off, l);
    }
    if Fits(buf, off, l) {
      FitsConsElim(buf, off, l);
    }
  }

  lemma ReadsConsAt(buf: seq<byte>, off: nat, l: seq<Kind>, i: nat)
    requires 0 < i < |l| && Fits(buf, off, l) && Fits(buf, off + Width(l[0]), l[1..])
    ensures Reads(buf, off, l)[i] == Reads(buf, off + Width(l[0]), l[1..])[i - 1]
  {
    ShiftedField(off, l, i - 1);
    var p := off + Offset(l, i);
    assert Reads(buf, off, l)[i] == ReadAt(buf, p, l[i]);
    assert Reads(buf, off + Width(l[0]), l[1..])[i - 1] == ReadAt(buf, p, l[1..][i - 1]);
  }

  lemma ReadsCons(buf: seq<byte>, off: nat, l: seq<Kind>)
    requires |l| > 0 && Fits(buf, off, l)
    ensures Fits(buf, off + Width(l[0]), l[1..])
    ensures Reads(buf, off, l) == [ReadAt(buf, off, l[0])] + Reads(buf, off + Width(l[0]), l[1..])
  {
    FitsConsElim(buf, off, l);
    var tail, off' := l[1..], off + Width(l[0]);
    var whole, parts := Reads(buf, off, l), [ReadAt(buf, off, l[0])] + Reads(buf, off', tail);
    forall i | 0 <= i < |l|
      ensures whole[i] == parts[i]
    {
      if i > 0 {
        ReadsConsAt(buf, off, l, i);
      }
    }
  }

  /** The running-offset reader succeeds exactly when every field fits,
      and then yields each field read at its offset. */
  lemma {:induction false} ReadFieldsCharacterized(buf: seq<byte>, off: nat, l: seq<Kind>)
    ensures ReadFields(buf, off, l) == if Fits(buf, off, l) then Ok(Reads(buf, off, l)) else Err(BufferOutOfRange)
    decreases |l|
  {
    if |l| > 0 {
      var k, tail, off' := l[0], l[1..], off + Width(l[0]);
      ReadFieldsCharacterized(buf, off', tail);
      FitsCons(buf, off, l);
      if off + Extent(k) > |buf| {
        assert ReadFields(buf, off, l) == Err(BufferOutOfRange);
      } else if !Fits(buf, off', tail) {
        assert ReadFields(buf, off, l) == Err(BufferOutOfRange);
      } else {
        ReadsCons(buf, off, l);
        assert ReadFields(buf, off, l) == Ok([ReadAt(buf, off, k)] + Reads(buf, off', tail));
      }
    } else {
      assert Reads(buf, off, l) == [];
    }
  }

  /** Every number of `vs` fits in a u64, the most a field reader yields. */
  predicate Representable(vs: seq<Value>) {
    forall i :: 0 <= i < |vs| && vs[i].Num? ==> vs[i].n < U64Limit
  }

  lemma ReadsRepresentable(buf: seq<byte>, off: nat, l: seq<Kind>)
    requires Fits(buf, off, l)
    ensures Representable(Reads(buf, off, l))
  {
    Pow256Of8();
    var vs := Reads(buf, off, l);
    forall i | 0 <= i < |vs| && vs[i].Num?
      ensures vs[i].n < U64Limit
    {
      var p := off + Offset(l, i);
      var w := buf[p..p + 8];
      assert vs[i] == ReadAt(buf, p, l[i]);
      assert l[i] != Key;
      assert |w| == 8;
      LeValueBound(w);
    }
  }

  lemma ReadAtLocal(a: seq<byte>, b: seq<byte>, p: nat, k: Kind)
    requires p + Extent(k) <= |a| && p + Extent(k) <= |b|
    requires a[p..p + Extent(k)] == b[p..p + Extent(k)]
    ensures ReadAt(a, p, k) == ReadAt(b, p, k)
  {
  }

  /** Both buffers hold field `i` of `l` at `off`, with the same bytes
      where its reader looks. */
  predicate SameWindow(a: seq<byte>, b: seq<byte>, off: nat, l: seq<Kind>, i: nat) {
    var p := off + (if i < |l| then Offset(l, i) else 0);
    i < |l| && p + Extent(l[i]) <= |a| && p + Extent(l[i]) <= |b|
    && a[p..p + Extent(l[i])] == b[p..p + Extent(l[i])]
  }

  /** Two buffers that agree on every byte the readers of `l` look at
      decode alike. */
  lemma ReadFieldsLocal(a: seq<byte>, b: seq<byte>, off: nat, l: seq<Kind>)
    requires Fits(a, off, l) && Fits(b, off, l)
    requires forall i :: 0 <= i < |l| ==> SameWindow(a, b, off, l, i)
    ensures ReadFields(a, off, l) == ReadFields(b, off, l)
  {
    ReadFieldsCharacterized(a, off, l);
    ReadFieldsCharacterized(b, off, l);
    ReadsLocal(a, b, off, l);
  }

  lemma ReadsLocal(a: seq<byte>, b: seq<byte>, off: nat, l: seq<Kind>)
    requires Fits(a, off, l) && Fits(b, off, l)
    requires forall i :: 0 <= i < |l| ==> SameWindow(a, b, off, l, i)
    ensures Reads(a, off, l) == Reads(b, off, l)
  {
    forall i | 0 <= i < |l|
      ensures Reads(a, off, l)[i] == Reads(b, off, l)[i]
    {
      ReadsLocalAt(a, b, off, l, i);
    }
  }

  lemma ReadsLocalAt(a: seq<byte>, b: seq<byte>, off: nat, l: seq<Kind>, i: nat)
    requires Fits(a, off, l) && Fits(b, off, l) && SameWindow(a, b, off, l, i)
    ensures Reads(a, off, l)[i] == Reads(b, off, l)[i]
  {
    ReadAtLocal(a, b, off + Offset(l, i), l[i]);
  }

  /** The bytes a field of kind `k` occupies when written: numbers
      little-endian over the whole width, keys verbatim. */
  function WriteField(v: Value, k: Kind): (r: seq<byte>)
    requires HasKind(v, k)
    ensures |r| == Width(k)
  {
    match k
    case Key => v.key
    case _ => LeBytes(v.n, Width(k))
  }

  /** The inverse of `ReadFields`: the fields of `l` written back to back. */
  function WriteFields(vs: seq<Value>, l: seq<Kind>): (r: seq<byte>)
    requires WellKinded(vs, l)
    decreases |l|
  {
    if |l| == 0 then []
    else
      assert WellKinded(vs[1..], l[1..]) by {
        assert forall i :: 0 <= i < |l| - 1 ==> vs[1..][i] == vs[i + 1] && l[1..][i] == l[i + 1];
      }
      WriteField(vs[0], l[0]) + WriteFields(vs[1..], l[1..])
  }

  lemma {:induction false} WriteFieldsLength(vs: seq<Value>, l: seq<Kind>)
    requires WellKinded(vs, l)
    ensures |WriteFields(vs, l)| == Span(l)
    decreases |l|
  {
    if |l| > 0 {
      WriteFieldsLength(vs[1..], l[1..]);
      OffsetCons(l, |l| - 1);
    }
  }

  lemma ReadWriteField(pre: seq<byte>, v: Value, k: Kind, post: seq<byte>)
    requires HasKind(v, k) && (v.Num? ==> v.n < U64Limit)
    ensures ReadField(pre + WriteField(v, k) + post, |pre|, k) == Ok(v)
  {
    var buf, w := pre + WriteField(v, k) + post, WriteField(v, k);
    assert buf[|pre|..|pre| + Width(k)] == w;
    if k == Key {
      assert buf[|pre|..|pre| + 32] == v.key;
    } else {
      Pow256Of8();
      LeRoundTrip(v.n, 8);
      if k == U128 {
        LeBytesPrefix(v.n, 8, 8);
        assert buf[|pre|..|pre| + 8] == w[..8];
      }
      assert buf[|pre|..|pre| + 8] == LeBytes(v.n, 8);
    }
  }

  /** Reading back what `WriteFields` wrote, wherever it sits in a buffer,
      gives the values written. */
  lemma {:induction false} ReadWriteFields(pre: seq<byte>, vs: seq<Value>, l: seq<Kind>, post: seq<byte>)
    requires WellKinded(vs, l) && Representable(vs)
    ensures ReadFields(pre + WriteFields(vs, l) + post, |pre|, l) == Ok(vs)
    decreases |l|
  {
    if |l| > 0 {
      var w, rest := WriteField(vs[0], l[0]), WriteFields(vs[1..], l[1..]);
      assert Representable(vs[1..]) by {
        assert forall i :: 0 <= i < |vs| - 1 ==> vs[1..][i] == vs[i + 1];
      }
      assert pre + WriteFields(vs, l) + post == pre + w + (rest + post) == (pre + w) + rest + post;
      ReadWriteField(pre, vs[0], l[0], rest + post);
      ReadWriteFields(pre + w, vs[1..], l[1..], post);
      assert [vs[0]] + vs[1..] == vs;
    }
  }

  lemma ReadWriteFieldsAtStart(vs: seq<Value>, l: seq<Kind>, tail: seq<byte>)
    requires WellKinded(vs, l) && Representable(vs)
    ensures ReadFields(WriteFields(vs, l) + tail, 0, l) == Ok(vs)
  {
    var w := WriteFields(vs, l);
    assert [] + w + tail == w + tail;
    ReadWriteFields([], vs, l, tail);
  }
}

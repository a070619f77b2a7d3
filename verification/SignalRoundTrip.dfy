/** Both round trips of the signal codec. */
module SignalRoundTrip {
  import opened Bytes
  import opened Signals
  import opened LdfDatabase
  import opened SignalCodec

  function Min(a: nat, b: nat): nat {
    if a < b then a else b
  }

  /** No reference after i uses the same signal name, so decoding keeps the value read for i. */
  predicate LastUse(refs: seq<SignalRef>, i: nat)
    requires i < |refs|
  {
    forall j :: i < j < |refs| ==> refs[j].name != refs[i].name
  }

  /** No reference after i covers a payload bit that i covers, so encoding keeps the bits of i. */
  ghost predicate NotOverwritten(len: nat, signals: map<string, Signal>, refs: seq<SignalRef>, i: nat)
    requires i < |refs|
  {
    forall j, b: nat :: i < j < |refs| && b < 8 * len && Covers(signals, refs[i], b) ==> !Covers(signals, refs[j], b)
  }

  lemma {:induction false} DecodedAt(signals: map<string, Signal>, refs: seq<SignalRef>, data: seq<byte>, i: nat)
    requires SoundRefs(refs) && i < |refs| && refs[i].name in signals && LastUse(refs, i)
    ensures refs[i].name in Decoded(signals, refs, data)
    ensures Decoded(signals, refs, data)[refs[i].name] == SignalValue(data, refs[i], signals[refs[i].name])
  {
    var n := |refs| - 1;
    if i < n {
      DecodedAt(signals, refs[..n], data, i);
    }
  }

  /** Exactly the declared signals the frame refers to are decoded. */
  lemma {:induction false} DecodedNames(
    signals: map<string, Signal>, refs: seq<SignalRef>, data: seq<byte>, name: string)
    requires SoundRefs(refs)
    ensures name in Decoded(signals, refs, data) <==>
            name in signals && exists i :: 0 <= i < |refs| && refs[i].name == name
  {
    if |refs| > 0 {
      DecodedNames(signals, refs[..|refs| - 1], data, name);
    }
  }

  /** Bit k of a decoded value: the payload bit at offset + k inside width, payload and 64 bits, and 0 elsewhere. */
  lemma SignalValueBit(data: seq<byte>, ref: SignalRef, sig: Signal, k: nat)
    requires ref.bitOffset >= 0
    ensures ValueBit(SignalValue(data, ref, sig), k) <==>
            && k < sig.bitWidth && k < 64 && ref.bitOffset + k < 8 * |data|
            && DataBit(data, ref.bitOffset + k)
  {
    ExtractedBit(data, ref.bitOffset, Span(|data|, ref.bitOffset, sig.bitWidth), k);
  }

  lemma {:induction false} LastCoverDecides(signals: map<string, Signal>, refs: seq<SignalRef>,
                                            values: map<string, uint64>, i: nat, b: nat)
    requires i < |refs| && Covers(signals, refs[i], b)
    requires forall j :: i < j < |refs| ==> !Covers(signals, refs[j], b)
    ensures EncodedBit(signals, refs, values, b) ==
            ValueBit(ValueFor(signals, values, refs[i].name), b - refs[i].bitOffset)
  {
    var n := |refs| - 1;
    if i < n {
      LastCoverDecides(signals, refs[..n], values, i, b);
    }
  }

  lemma {:induction false} NoCoverIsZero(signals: map<string, Signal>, refs: seq<SignalRef>,
                                         values: map<string, uint64>, b: nat)
    requires forall j :: 0 <= j < |refs| ==> !Covers(signals, refs[j], b)
    ensures !EncodedBit(signals, refs, values, b)
  {
    if |refs| > 0 {
      NoCoverIsZero(signals, refs[..|refs| - 1], values, b);
    }
  }

  /** Bit k of a signal read back from an encoded payload. */
  lemma ReadBackBit(len: nat, signals: map<string, Signal>, refs: seq<SignalRef>, values: map<string, uint64>,
                    i: nat, k: nat)
    requires SoundRefs(refs) && i < |refs| && refs[i].name in signals
    requires NotOverwritten(len, signals, refs, i)
    ensures var data := Encoded(len, signals, refs, values);
            var n := Span(len, refs[i].bitOffset, signals[refs[i].name].bitWidth);
            ValueBit(SignalValue(data, refs[i], signals[refs[i].name]), k) ==
            (k < Min(n, 64) && ValueBit(ValueFor(signals, values, refs[i].name), k))
  {
    var data := Encoded(len, signals, refs, values);
    var offset := refs[i].bitOffset;
    var n := Span(len, offset, signals[refs[i].name].bitWidth);
    ExtractedBit(data, offset, n, k);
    if k < n {
      var b: nat := offset + k;
      EncodeIsBitExact(len, signals, refs, values, b);
      assert Covers(signals, refs[i], b);
      forall j | i < j < |refs| ensures !Covers(signals, refs[j], b) {
      }
      LastCoverDecides(signals, refs, values, i, b);
    }
  }

  /**
   * Decode after Encode: every declared signal that no later reference reuses or overwrites comes back as its
   * value modulo 2^min(width, 64, room in the payload), the width counting as zero when it is negative.
   */
  lemma DecodeAfterEncode(
    len: nat, signals: map<string, Signal>, refs: seq<SignalRef>, values: map<string, uint64>, i: nat)
    requires SoundRefs(refs) && i < |refs| && refs[i].name in signals
    requires LastUse(refs, i) && NotOverwritten(len, signals, refs, i)
    ensures var decoded := Decoded(signals, refs, Encoded(len, signals, refs, values));
            var n := Min(Span(len, refs[i].bitOffset, signals[refs[i].name].bitWidth), 64);
            && refs[i].name in decoded
            && Pow2(n) > 0
            && decoded[refs[i].name] == ValueFor(signals, values, refs[i].name) % Pow2(n)
  {
    var data := Encoded(len, signals, refs, values);
    var n := Min(Span(len, refs[i].bitOffset, signals[refs[i].name].bitWidth), 64);
    var v := ValueFor(signals, values, refs[i].name);
    var back := SignalValue(data, refs[i], signals[refs[i].name]);
    DecodedAt(signals, refs, data, i);
    TruncatedBit(v, n, 0);
    var expected := v % Pow2(n);
    forall k: nat ensures ValueBit(back, k) == ValueBit(expected, k) {
      ReadBackBit(len, signals, refs, values, i, k);
      TruncatedBit(v, n, k);
    }
    SameValueBits(back, expected);
  }

  /** Reference i is the last one to cover payload bit b. */
  predicate CoveredLastBy(len: nat, signals: map<string, Signal>, refs: seq<SignalRef>, i: nat, b: nat) {
    && i < |refs| && b < 8 * len && refs[i].name in signals
    && refs[i].bitOffset <= b < refs[i].bitOffset + signals[refs[i].name].bitWidth
    && forall j :: i < j < |refs| ==> !Covers(signals, refs[j], b)
  }

  /** A value that is given is what is sent. */
  lemma GivenValueIsSent(
    len: nat, signals: map<string, Signal>, refs: seq<SignalRef>, values: map<string, uint64>, i: nat, b: nat)
    requires CoveredLastBy(len, signals, refs, i, b) && refs[i].name in values
    ensures DataBit(Encoded(len, signals, refs, values), b) == ValueBit(values[refs[i].name], b - refs[i].bitOffset)
  {
    EncodeIsBitExact(len, signals, refs, values, b);
    LastCoverDecides(signals, refs, values, i, b);
  }

  /** A declared signal without a value is sent with its initial value. */
  lemma InitialValueIsSent(
    len: nat, signals: map<string, Signal>, refs: seq<SignalRef>, values: map<string, uint64>, i: nat, b: nat)
    requires CoveredLastBy(len, signals, refs, i, b) && refs[i].name !in values
    ensures DataBit(Encoded(len, signals, refs, values), b) ==
            ValueBit(signals[refs[i].name].initValue, b - refs[i].bitOffset)
  {
    EncodeIsBitExact(len, signals, refs, values, b);
    LastCoverDecides(signals, refs, values, i, b);
  }

  /** A bit that no declared signal covers is 0. */
  lemma UncoveredIsZero(
    len: nat, signals: map<string, Signal>, refs: seq<SignalRef>, values: map<string, uint64>, b: nat)
    requires b < 8 * len && forall j :: 0 <= j < |refs| ==> !Covers(signals, refs[j], b)
    ensures !DataBit(Encoded(len, signals, refs, values), b)
  {
    EncodeIsBitExact(len, signals, refs, values, b);
    NoCoverIsZero(signals, refs, values, b);
  }

  /** The round trip of a signal whose value is given, and of one that is left out. */
  lemma GivenValueReturns(
    len: nat, signals: map<string, Signal>, refs: seq<SignalRef>, values: map<string, uint64>, i: nat)
    requires SoundRefs(refs) && i < |refs| && refs[i].name in signals
    requires LastUse(refs, i) && NotOverwritten(len, signals, refs, i) && refs[i].name in values
    ensures var decoded := Decoded(signals, refs, Encoded(len, signals, refs, values));
            var n := Min(Span(len, refs[i].bitOffset, signals[refs[i].name].bitWidth), 64);
            && refs[i].name in decoded && Pow2(n) > 0
            && decoded[refs[i].name] == values[refs[i].name] % Pow2(n)
  {
    DecodeAfterEncode(len, signals, refs, values, i);
  }

  lemma InitialValueReturns(
    len: nat, signals: map<string, Signal>, refs: seq<SignalRef>, values: map<string, uint64>, i: nat)
    requires SoundRefs(refs) && i < |refs| && refs[i].name in signals
    requires LastUse(refs, i) && NotOverwritten(len, signals, refs, i) && refs[i].name !in values
    ensures var decoded := Decoded(signals, refs, Encoded(len, signals, refs, values));
            var n := Min(Span(len, refs[i].bitOffset, signals[refs[i].name].bitWidth), 64);
            && refs[i].name in decoded && Pow2(n) > 0
            && decoded[refs[i].name] == signals[refs[i].name].initValue % Pow2(n)
  {
    DecodeAfterEncode(len, signals, refs, values, i);
  }

  /** Distinct names and pairwise disjoint bit ranges, as in a well-formed frame description. */
  predicate WellLaidOut(signals: map<string, Signal>, refs: seq<SignalRef>) {
    forall i, j :: 0 <= i < j < |refs| ==>
      && refs[i].name != refs[j].name
      && (refs[i].name in signals && refs[j].name in signals ==>
            || refs[i].bitOffset + signals[refs[i].name].bitWidth <= refs[j].bitOffset
            || refs[j].bitOffset + signals[refs[j].name].bitWidth <= refs[i].bitOffset)
  }

  /** In a well laid out frame every declared signal survives the round trip, those left out as their initial value. */
  lemma WellLaidOutRoundTrip(len: nat, signals: map<string, Signal>, refs: seq<SignalRef>, values: map<string, uint64>)
    requires SoundRefs(refs) && WellLaidOut(signals, refs)
    ensures var decoded := Decoded(signals, refs, Encoded(len, signals, refs, values));
            forall i :: 0 <= i < |refs| && refs[i].name in signals ==>
              && refs[i].name in decoded
              && Pow2(Min(Span(len, refs[i].bitOffset, signals[refs[i].name].bitWidth), 64)) > 0
              && decoded[refs[i].name] ==
                 (if refs[i].name in values then values[refs[i].name] else signals[refs[i].name].initValue) %
                   Pow2(Min(Span(len, refs[i].bitOffset, signals[refs[i].name].bitWidth), 64))
  {
    forall i | 0 <= i < |refs| && refs[i].name in signals
      ensures var decoded := Decoded(signals, refs, Encoded(len, signals, refs, values));
              && refs[i].name in decoded
              && Pow2(Min(Span(len, refs[i].bitOffset, signals[refs[i].name].bitWidth), 64)) > 0
              && decoded[refs[i].name] ==
                 (if refs[i].name in values then values[refs[i].name] else signals[refs[i].name].initValue) %
                   Pow2(Min(Span(len, refs[i].bitOffset, signals[refs[i].name].bitWidth), 64))
    {
      DecodeAfterEncode(len, signals, refs, values, i);
    }
  }

  // ---------- The other direction ----------

  predicate Covered(signals: map<string, Signal>, refs: seq<SignalRef>, b: nat) {
    exists i :: 0 <= i < |refs| && Covers(signals, refs[i], b)
  }

  lemma LastCover(signals: map<string, Signal>, refs: seq<SignalRef>, b: nat) returns (i: nat)
    requires Covered(signals, refs, b)
    ensures i < |refs| && Covers(signals, refs[i], b)
    ensures forall j :: i < j < |refs| ==> !Covers(signals, refs[j], b)
  {
    i :| i < |refs| && Covers(signals, refs[i], b);
    var k := i;
    while k < |refs|
      invariant i < |refs| && k <= |refs| && Covers(signals, refs[i], b)
      invariant forall j :: i < j < k ==> !Covers(signals, refs[j], b)
    {
      if Covers(signals, refs[k], b) {
        i := k;
      }
      k := k + 1;
    }
  }

  /**
   * Encode after Decode: with distinct names and widths of at most 64, re-encoding what was decoded reproduces the
   * payload on every covered bit and clears the others, even where signals overlap.
   */
  lemma EncodeAfterDecode(signals: map<string, Signal>, refs: seq<SignalRef>, data: seq<byte>, b: nat)
    requires SoundRefs(refs) && b < 8 * |data|
    requires forall i, j :: 0 <= i < j < |refs| ==> refs[i].name != refs[j].name
    requires forall i :: 0 <= i < |refs| && refs[i].name in signals ==> signals[refs[i].name].bitWidth <= 64
    ensures DataBit(Encoded(|data|, signals, refs, Decoded(signals, refs, data)), b) ==
            (Covered(signals, refs, b) && DataBit(data, b))
  {
    var values := Decoded(signals, refs, data);
    EncodeIsBitExact(|data|, signals, refs, values, b);
    if Covered(signals, refs, b) {
      var i := LastCover(signals, refs, b);
      LastCoverDecides(signals, refs, values, i, b);
      DecodedAt(signals, refs, data, i);
      ReadBit(data, refs[i], signals[refs[i].name], b);
    } else {
      NoCoverIsZero(signals, refs, values, b);
    }
  }

  lemma ReadBit(data: seq<byte>, ref: SignalRef, sig: Signal, b: nat)
    requires 0 <= ref.bitOffset <= b < ref.bitOffset + sig.bitWidth && b < 8 * |data| && sig.bitWidth <= 64
    ensures ValueBit(SignalValue(data, ref, sig), b - ref.bitOffset) == DataBit(data, b)
  {
    ExtractedBit(data, ref.bitOffset, Span(|data|, ref.bitOffset, sig.bitWidth), b - ref.bitOffset);
  }
}

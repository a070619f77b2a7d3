/** Core types of the LIN library: frames, filters, protected identifiers and checksums. */
module Lin {
  import opened Bytes

  const MAX_DATA_LEN := 8
  const MAX_ID: uint8 := 0x3F
  const DIAG_REQUEST_ID: uint8 := 0x3C
  const DIAG_RESPONSE_ID: uint8 := 0x3D

  /** Identifiers are numbers; protected identifiers and data bytes are bit vectors. */
  type uint8 = v: nat | v < 0x100
  type uint32 = v: nat | v < 0x1_0000_0000

  // The checksum type is a plain integer in the library, so values other than these two can occur.
  type ChecksumType = int
  const CLASSIC: ChecksumType := 0
  const ENHANCED: ChecksumType := 1

  datatype Frame = Frame(id: uint8, data: seq<byte>, checksum: byte, checksumType: ChecksumType)

  datatype ScheduleEntry = ScheduleEntry(id: uint8, delayMs: uint32)

  datatype Error =
    | Closed
    | NoResponse
    | InvalidFrame
    | PayloadTooLarge
    | IdOutOfRange
    | ParityMismatch

  datatype Result<+T> = Ok(value: T) | Err(error: Error)

  /** A frame passes a filter when the identifiers agree or the filter takes everything. */
  datatype Filter = Filter(id: uint8, all: bool) {
    predicate Matches(f: Frame) {
      all || f.id == id
    }
  }

  /** No filters at all means "every frame". */
  predicate MatchesAny(filters: seq<Filter>, f: Frame) {
    |filters| == 0 || exists i :: 0 <= i < |filters| && filters[i].Matches(f)
  }

  method MatchesAnyScan(filters: seq<Filter>, f: Frame) returns (m: bool)
    ensures m == MatchesAny(filters, f)
    ensures m <==> |filters| == 0 || exists i :: 0 <= i < |filters| && (filters[i].all || filters[i].id == f.id)
  {
    if |filters| == 0 {
      return true;
    }
    for i := 0 to |filters|
      invariant forall j :: 0 <= j < i ==> !filters[j].Matches(f)
    {
      if filters[i].Matches(f) {
        return true;
      }
    }
    return false;
  }

  // ---------- Protected identifiers ----------

  const ID_BITS: byte := 0x3F

  function ProtectID(rawId: byte): byte {
    var id := if rawId > ID_BITS then rawId & ID_BITS else rawId;
    var p0 := ((id >> 0) ^ (id >> 1) ^ (id >> 2) ^ (id >> 4)) & 0x01;
    var p1 := (!((id >> 1) ^ (id >> 3) ^ (id >> 4) ^ (id >> 5))) & 0x01;
    id | (p0 << 6) | (p1 << 7)
  }

  function VerifyPID(pid: byte): Result<byte> {
    var id := pid & ID_BITS;
    if ProtectID(id) != pid then Err(ParityMismatch) else Ok(id)
  }

  function Pid(id: uint8): byte {
    ProtectID(FromNat(id))
  }

  /** Verification inverts protection, and accepts nothing else. */
  lemma VerifyInvertsProtect(id: byte, pid: byte)
    ensures VerifyPID(ProtectID(id)) == Ok(id & ID_BITS)
    ensures VerifyPID(pid).Ok? <==> exists raw: byte :: raw <= ID_BITS && ProtectID(raw) == pid
  {
    if VerifyPID(pid).Ok? {
      assert pid & ID_BITS <= ID_BITS && ProtectID(pid & ID_BITS) == pid;
    }
  }

  /** The two parity bits detect every single-bit error in a protected identifier. */
  lemma PidDetectsSingleBit(id: byte, k: nat)
    requires k < 8
    ensures VerifyPID(ProtectID(id) ^ (1 << k)) == Err(ParityMismatch)
  {
    var pid := ProtectID(id);
    assert pid ^ 1 != ProtectID((pid ^ 1) & ID_BITS);
    assert pid ^ 2 != ProtectID((pid ^ 2) & ID_BITS);
    assert pid ^ 4 != ProtectID((pid ^ 4) & ID_BITS);
    assert pid ^ 8 != ProtectID((pid ^ 8) & ID_BITS);
    assert pid ^ 16 != ProtectID((pid ^ 16) & ID_BITS);
    assert pid ^ 32 != ProtectID((pid ^ 32) & ID_BITS);
    assert pid ^ 64 != ProtectID((pid ^ 64) & ID_BITS);
    assert pid ^ 128 != ProtectID((pid ^ 128) & ID_BITS);
  }

  /** Two different 6-bit identifiers never share a protected identifier, and none is 0x00. */
  lemma ProtectIsInjective(a: byte, b: byte)
    ensures ProtectID(a) != 0
    ensures ProtectID(a) == ProtectID(b) <==> a & ID_BITS == b & ID_BITS
  {
    assert ProtectID(a) & ID_BITS == a & ID_BITS;
    assert ProtectID(b) & ID_BITS == b & ID_BITS;
  }

  predicate Has(b: byte, mask: byte) {
    b & mask != 0
  }

  /** An odd number of the four. */
  predicate OddOf(a: bool, b: bool, c: bool, d: bool) {
    (a != b) != (c != d)
  }

  /** Bits 0 to 5 are the identifier, bit 6 is even parity over bits 0, 1, 2 and 4, bit 7 odd over 1, 3, 4 and 5. */
  lemma ParityBits(id: byte)
    ensures var pid := ProtectID(id);
            && pid & 0x3F == id & 0x3F
            && (Has(pid, 0x40) <==> OddOf(Has(id, 0x01), Has(id, 0x02), Has(id, 0x04), Has(id, 0x10)))
            && (Has(pid, 0x80) <==> !OddOf(Has(id, 0x02), Has(id, 0x08), Has(id, 0x10), Has(id, 0x20)))
  {
  }

  /** The protected identifier of a number up to 0x3F verifies and gives the number back. */
  lemma PidCarriesId(id: uint8)
    requires id <= 0x3F
    ensures VerifyPID(Pid(id)).Ok? && Val(VerifyPID(Pid(id)).value) == id
  {
    var raw := FromNat(id);
    ValOfFromNat(id);
    ValIsConversion(raw);
    SmallByte(raw);
    VerifyInvertsProtect(raw, 0);
  }

  lemma SmallByte(b: byte)
    requires b as nat <= 0x3F
    ensures b & 0x3F == b
  {
  }

  // ---------- Checksums ----------

  /** The plain arithmetic sum of the bytes. */
  function Sum(data: seq<byte>): nat {
    if |data| == 0 then 0 else Sum(data[..|data| - 1]) + Val(data[|data| - 1])
  }

  /** Everything the checksum of the given type covers: the data and, when enhanced, the PID. */
  function Total(pid: byte, data: seq<byte>, ct: ChecksumType): nat {
    (if ct == ENHANCED then Val(pid) else 0) + Sum(data)
  }

  /** Closed form of 8-bit addition in which every carry is added back in. */
  function EndAround(total: nat): (r: nat)
    ensures r <= 255
    ensures r % 255 == total % 255
    ensures r == 0 <==> total == 0
  {
    if total == 0 then 0 else (total - 1) % 255 + 1
  }

  function Checksum(pid: byte, data: seq<byte>, ct: ChecksumType): byte {
    FromNat(255 - EndAround(Total(pid, data, ct)))
  }

  lemma EndAroundStep(total: nat, b: nat)
    requires b <= 255
    ensures var s := EndAround(total) + b;
            EndAround(total + b) == if s > 255 then s - 255 else s
  {
    if total > 0 {
      FoldStep((total - 1) / 255, (total - 1) % 255, b);
    }
  }

  lemma FoldStep(q: nat, r: nat, b: nat)
    requires r < 255 && b <= 255
    ensures (255 * q + r + b) % 255 == if r + b < 255 then r + b else r + b - 255
  {
    assert r + b >= 255 ==> 255 * q + r + b == 255 * (q + 1) + (r + b - 255);
  }

  lemma SumOfPrefix(data: seq<byte>, i: nat)
    requires i < |data|
    ensures Sum(data[..i + 1]) == Sum(data[..i]) + Val(data[i])
    ensures Val(data[i]) <= 255
  {
    assert data[..i + 1][..i] == data[..i];
    ValBound(data[i]);
  }

  lemma FoldOneMore(start: nat, data: seq<byte>, i: nat)
    requires i < |data|
    ensures var s := EndAround(start + Sum(data[..i])) + Val(data[i]);
            s <= 510 && EndAround(start + Sum(data[..i + 1])) == if s > 255 then s - 255 else s
  {
    SumOfPrefix(data, i);
    EndAroundStep(start + Sum(data[..i]), Val(data[i]));
  }

  /** The byte loop computes the closed form; its 16-bit accumulator never exceeds 0xFF between bytes. */
  method CalcChecksum(pid: byte, data: seq<byte>, ct: ChecksumType) returns (c: byte)
    ensures c == Checksum(pid, data, ct)
  {
    ValBound(pid);
    var start := if ct == ENHANCED then Val(pid) else 0;
    var sum := start;
    for i := 0 to |data|
      invariant sum <= 0xFF
      invariant sum == EndAround(start + Sum(data[..i]))
    {
      FoldOneMore(start, data, i);
      sum := sum + Val(data[i]);
      assert sum < 0x10000;
      if sum > 0xFF {
        sum := sum - 0xFF;
      }
    }
    assert data[..|data|] == data;
    c := 0xFF - FromNat(sum);
    ChecksumComplement(sum);
  }

  lemma ChecksumComplement(sum: nat)
    requires sum <= 0xFF
    ensures 0xFF - FromNat(sum) == FromNat(255 - sum)
  {
    ValOfFromNat(sum);
    ComplementValue(FromNat(sum));
    FromNatOfVal(0xFF - FromNat(sum));
  }

  lemma ChecksumValue(pid: byte, data: seq<byte>, ct: ChecksumType)
    ensures Val(Checksum(pid, data, ct)) == 255 - EndAround(Total(pid, data, ct))
  {
    ValOfFromNat(255 - EndAround(Total(pid, data, ct)));
  }

  /** The closed forms of the two checksums: only the enhanced one covers the PID. */
  lemma ChecksumIs(pid: byte, data: seq<byte>, ct: ChecksumType)
    ensures ct == ENHANCED ==> Val(Checksum(pid, data, ct)) == 255 - EndAround(Val(pid) + Sum(data))
    ensures ct != ENHANCED ==> Val(Checksum(pid, data, ct)) == 255 - EndAround(Sum(data))
  {
    ChecksumValue(pid, data, ct);
  }

  /** A checksum that is not enhanced is the same under every protected identifier. */
  lemma ClassicIgnoresPid(p: byte, q: byte, data: seq<byte>, ct: ChecksumType)
    requires ct != ENHANCED
    ensures Checksum(p, data, ct) == Checksum(q, data, ct)
  {
    ChecksumIs(p, data, ct);
    ChecksumIs(q, data, ct);
    ValInjective(Checksum(p, data, ct), Checksum(q, data, ct));
  }

  /** With the enhanced checksum the data cannot pass for that of another identifier. */
  lemma EnhancedSeesPid(a: uint8, b: uint8, data: seq<byte>)
    requires a <= MAX_ID && b <= MAX_ID && Checksum(Pid(a), data, ENHANCED) == Checksum(Pid(b), data, ENHANCED)
    ensures a == b
  {
    ChecksumCollision(Pid(a), data, ENHANCED, Pid(b), data, ENHANCED);
    PidValue(a);
    PidValue(b);
    if Val(Pid(a)) != Val(Pid(b)) {
      SameModulo255(Sum(data), Val(Pid(a)), Val(Pid(b)));
    }
    ValInjective(Pid(a), Pid(b));
    PidCarriesId(a);
    PidCarriesId(b);
  }

  lemma PidValue(id: uint8)
    ensures 0 < Val(Pid(id)) <= 255
  {
    ValBound(Pid(id));
    ProtectIsInjective(FromNat(id), FromNat(id));
    Extremes(Pid(id));
  }

  lemma SumOfOne(b: byte)
    ensures Sum([]) == 0 && Sum([b]) == Val(b)
  {
    assert [b][..0] == [];
  }

  /** A receiver that folds the checksum byte into its own sum always ends at 0xFF. */
  lemma ChecksumVerifies(pid: byte, data: seq<byte>, ct: ChecksumType)
    ensures EndAround(Total(pid, data, ct) + Val(Checksum(pid, data, ct))) == 0xFF
  {
    ChecksumValue(pid, data, ct);
  }

  /** Two inputs share a checksum exactly when their sums agree modulo 255 and are both zero or both not. */
  lemma ChecksumCollision(p1: byte, d1: seq<byte>, c1: ChecksumType, p2: byte, d2: seq<byte>, c2: ChecksumType)
    ensures Checksum(p1, d1, c1) == Checksum(p2, d2, c2) <==>
            && Total(p1, d1, c1) % 255 == Total(p2, d2, c2) % 255
            && (Total(p1, d1, c1) == 0 <==> Total(p2, d2, c2) == 0)
  {
    SameFold(Total(p1, d1, c1), Total(p2, d2, c2));
    ChecksumValue(p1, d1, c1);
    ChecksumValue(p2, d2, c2);
  }

  lemma SameFold(t1: nat, t2: nat)
    ensures EndAround(t1) == EndAround(t2) <==> t1 % 255 == t2 % 255 && (t1 == 0 <==> t2 == 0)
  {
  }

  lemma {:induction false} SumConcat(a: seq<byte>, b: seq<byte>)
    ensures Sum(a + b) == Sum(a) + Sum(b)
  {
    if |b| == 0 {
      assert a + b == a;
    } else {
      assert (a + b)[..|a + b| - 1] == a + b[..|b| - 1];
      SumConcat(a, b[..|b| - 1]);
    }
  }

  lemma SumSplit(data: seq<byte>, i: nat)
    requires i < |data|
    ensures Sum(data) == Sum(data[..i]) + Val(data[i]) + Sum(data[i + 1..])
  {
    assert data == data[..i] + ([data[i]] + data[i + 1..]);
    SumConcat(data[..i], [data[i]] + data[i + 1..]);
    SumConcat([data[i]], data[i + 1..]);
    assert [data[i]][..0] == [];
  }

  lemma RemoveOne<T>(s: seq<T>, i: nat)
    requires i < |s|
    ensures multiset(s[..i] + s[i + 1..]) == multiset(s) - multiset{s[i]}
  {
    assert s == s[..i] + [s[i]] + s[i + 1..];
  }

  lemma SumWithoutOne(data: seq<byte>, i: nat)
    requires i < |data|
    ensures Sum(data) == Sum(data[..i] + data[i + 1..]) + Val(data[i])
  {
    SumSplit(data, i);
    SumConcat(data[..i], data[i + 1..]);
  }

  lemma {:induction false} SumOfPermutation(a: seq<byte>, b: seq<byte>)
    requires multiset(a) == multiset(b)
    ensures Sum(a) == Sum(b)
  {
    if |a| == 0 {
      assert |multiset(b)| == |b|;
    } else {
      assert a[0] in multiset(b);
      var i :| 0 <= i < |b| && b[i] == a[0];
      RemoveOne(a, 0);
      RemoveOne(b, i);
      SumWithoutOne(a, 0);
      SumWithoutOne(b, i);
      SumOfPermutation(a[..0] + a[1..], b[..i] + b[i + 1..]);
    }
  }

  /** The checksum cannot see the order of the data bytes. */
  lemma ChecksumOrderIndependent(pid: byte, d1: seq<byte>, d2: seq<byte>, ct: ChecksumType)
    requires multiset(d1) == multiset(d2)
    ensures Checksum(pid, d1, ct) == Checksum(pid, d2, ct)
  {
    SumOfPermutation(d1, d2);
  }

  predicate SwapsExtremes(x: byte, y: byte) {
    (x == 0x00 && y == 0xFF) || (x == 0xFF && y == 0x00)
  }

  /**
   * A change of one data byte goes unnoticed exactly when it swaps 0x00 and 0xFF and the rest of the sum is nonzero.
   */
  lemma OneByteBlindSpot(pid: byte, data: seq<byte>, ct: ChecksumType, i: nat, x: byte)
    requires i < |data| && x != data[i]
    ensures Checksum(pid, data[i := x], ct) == Checksum(pid, data, ct) <==>
            && SwapsExtremes(data[i], x)
            && Total(pid, data[..i] + data[i + 1..], ct) > 0
  {
    SumWithoutOne(data, i);
    SumWithoutOne(data[i := x], i);
    assert data[i := x][..i] == data[..i] && data[i := x][i + 1..] == data[i + 1..];
    ChecksumCollision(pid, data, ct, pid, data[i := x], ct);
    var rest := Total(pid, data[..i] + data[i + 1..], ct);
    ValInjective(data[i], x);
    ValBound(data[i]);
    ValBound(x);
    SameModulo255(rest, Val(data[i]), Val(x));
    Extremes(data[i]);
    Extremes(x);
  }

  lemma SameModulo255(rest: nat, u: nat, v: nat)
    requires u <= 255 && v <= 255 && u != v
    ensures (rest + u) % 255 == (rest + v) % 255 <==> ((u == 0 && v == 255) || (u == 255 && v == 0))
  {
  }

  /** With the enhanced checksum of a protected identifier the swap of 0x00 and 0xFF is never noticed. */
  lemma EnhancedBlindSpot(id: uint8, data: seq<byte>, i: nat, x: byte)
    requires i < |data| && x != data[i]
    ensures Checksum(Pid(id), data[i := x], ENHANCED) == Checksum(Pid(id), data, ENHANCED) <==>
            SwapsExtremes(data[i], x)
  {
    OneByteBlindSpot(Pid(id), data, ENHANCED, i, x);
    ProtectIsInjective(FromNat(id), FromNat(id));
    Extremes(Pid(id));
  }

  // ---------- Frame validation ----------

  predicate IsDiagnosticId(id: uint8) {
    id == DIAG_REQUEST_ID || id == DIAG_RESPONSE_ID
  }

  function ValidateFrame(f: Frame): Result<()> {
    if f.id > MAX_ID then Err(InvalidFrame)
    else if |f.data| == 0 then Err(InvalidFrame)
    else if |f.data| > MAX_DATA_LEN then Err(InvalidFrame)
    else if IsDiagnosticId(f.id) && f.checksumType != CLASSIC then Err(InvalidFrame)
    else Ok(())
  }

  /** Identifiers up to 0x3F and one to eight bytes, classic on 0x3C and 0x3D; the only error is an invalid frame. */
  lemma ValidationIsExact(f: Frame)
    ensures ValidateFrame(f) == Ok(()) <==>
            f.id <= 0x3F && 1 <= |f.data| <= 8 && (f.id == 0x3C || f.id == 0x3D ==> f.checksumType == CLASSIC)
    ensures ValidateFrame(f) == Ok(()) || ValidateFrame(f) == Err(InvalidFrame)
  {
  }
}

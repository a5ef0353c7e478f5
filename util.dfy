/** The two pure helpers of util.go: the slot complement `OtherUserId` and the
    identifier generator `NewId` (FNV-1a, 32 bits, rendered in decimal). */
module Util {
  import opened Base

  // ---------------------------------------------------------------------------
  // OtherUserId: (^userId) + 2 on Go's 64-bit int
  // ---------------------------------------------------------------------------

  const MinInt64: int := -0x8000_0000_0000_0000
  const TwoTo64: int := 0x1_0000_0000_0000_0000

  /** Go's unary `^` on a signed integer: the bitwise complement, which in
      two's complement is -x-1 (never out of range). */
  function Complement(x: int64): int64
  {
    (-(x as int) - 1) as int64
  }

  /** Go's `+` on int64: the mathematical sum reduced into range modulo 2^64. */
  function AddWrap(a: int64, b: int64): (r: int64)
    ensures (r as int - (a as int + b as int)) % TwoTo64 == 0
    ensures MinInt64 <= a as int + b as int < -MinInt64 ==> r as int == a as int + b as int
  {
    var s := a as int + b as int;
    if s >= -MinInt64 then (s - TwoTo64) as int64
    else if s < MinInt64 then (s + TwoTo64) as int64
    else s as int64
  }

  /** The slot of the other party: (^userId) + 2 with Go's wrap-around. */
  function OtherUserId(userId: int64): (r: int64)
    ensures userId as int > MinInt64 + 1 ==> r as int == 1 - userId as int
    ensures r != userId
  {
    AddWrap(Complement(userId), 2)
  }

  /** The two slots are each other's complement. */
  lemma OtherUserIdSlots()
    ensures OtherUserId(0) == 1 && OtherUserId(1) == 0
  {
  }

  /** `OtherUserId` is an involution on every int64, the two values where the
      addition wraps included. */
  lemma OtherUserIdInvolution(x: int64)
    ensures OtherUserId(OtherUserId(x)) == x
  {
  }

  /** `OtherUserId` maps the slot indices {0, 1} onto themselves, and only the
      slot indices are mapped there. */
  lemma OtherUserIdSlotRange(x: int64)
    ensures 0 <= OtherUserId(x) < 2 <==> 0 <= x < 2
  {
  }

  // ---------------------------------------------------------------------------
  // FNV-1a, 32 bits (section 2 of the IETF draft draft-eastlake-fnv)
  // ---------------------------------------------------------------------------

  const OffsetBasis32: bv32 := 2166136261
  const Prime32: bv32 := 16777619

  /** One FNV-1a round: xor in the octet, then multiply by the prime modulo 2^32. */
  function FnvStep(h: bv32, b: byte): bv32
  {
    (h ^ (b as bv32)) * Prime32
  }

  /** Continue an FNV-1a hash in state `h` over `data`, first octet first. */
  function FnvFold(h: bv32, data: Bytes): bv32
    decreases |data|
  {
    if data == [] then h else FnvFold(FnvStep(h, data[0]), data[1..])
  }

  /** The FNV-1a 32-bit digest of `data`, as `fnv.New32a`, `Write` and `Sum32`
      compute it. */
  function Fnv1a32(data: Bytes): bv32
  {
    FnvFold(OffsetBasis32, data)
  }

  /** The draft's description, "for each octet, from the last state", says
      that the last octet is hashed into the digest of everything before it. */
  lemma {:induction false} FnvFoldSnoc(h: bv32, data: Bytes, b: byte)
    ensures FnvFold(h, data + [b]) == FnvStep(FnvFold(h, data), b)
    decreases |data|
  {
    if data == [] {
      assert [] + [b] == [b];
      assert [b][1..] == [];
    } else {
      assert (data + [b])[1..] == data[1..] + [b];
      FnvFoldSnoc(FnvStep(h, data[0]), data[1..], b);
    }
  }

  /** Hashing is streaming: one `Write` of `a + b` gives the same state as a
      `Write` of `a` followed by a `Write` of `b`. */
  lemma {:induction false} FnvFoldAppend(h: bv32, a: Bytes, b: Bytes)
    ensures FnvFold(h, a + b) == FnvFold(FnvFold(h, a), b)
    decreases |a|
  {
    if a == [] {
      assert [] + b == b;
    } else {
      assert (a + b)[1..] == a[1..] + b;
      FnvFoldAppend(FnvStep(h, a[0]), a[1..], b);
    }
  }

  /** Test vectors of the draft: the empty string and "a". */
  lemma FnvTestVectors()
    ensures Fnv1a32([]) == 0x811c9dc5
    ensures Fnv1a32([97]) == 0xe40c292c  // "a"
  {
    var a: Bytes := [97];
    assert a[1..] == [];
    assert (97 as byte) as bv32 == 0x61;
    assert FnvStep(OffsetBasis32, 97) == 0xe40c292c;
  }

  // ---------------------------------------------------------------------------
  // Decimal rendering: fmt.Sprintf("%d", v) for an unsigned value
  // ---------------------------------------------------------------------------

  const Zero: byte := '0' as byte

  predicate IsDigit(c: byte)
  {
    '0' as byte <= c <= '9' as byte
  }

  /** The shape `%d` gives an unsigned value: at least one digit, digits only,
      and no leading zero unless the whole rendering is "0". */
  predicate IsCanonicalDecimal(s: Bytes)
  {
    && |s| > 0
    && (forall i | 0 <= i < |s| :: IsDigit(s[i]))
    && (s[0] == Zero ==> |s| == 1)
  }

  function DigitChar(d: nat): (c: byte)
    requires d < 10
    ensures IsDigit(c) && c as int - Zero as int == d
  {
    (Zero as int + d) as byte
  }

  function DigitValue(c: byte): (d: nat)
    requires IsDigit(c)
    ensures d < 10 && DigitChar(d) == c
  {
    c as int - Zero as int
  }

  /** The decimal rendering of `n`, most significant digit first. */
  function Decimal(n: nat): (r: Bytes)
    ensures IsCanonicalDecimal(r)
    ensures r[0] == Zero <==> n == 0
    decreases n
  {
    if n < 10 then [DigitChar(n)] else Decimal(n / 10) + [DigitChar(n % 10)]
  }

  /** The value a string of digits denotes, read most significant digit first. */
  function ParseDecimal(s: Bytes): nat
    requires forall i | 0 <= i < |s| :: IsDigit(s[i])
    decreases |s|
  {
    if s == [] then 0 else ParseDecimal(s[..|s| - 1]) * 10 + DigitValue(s[|s| - 1])
  }

  /** Reading the rendering back gives the value rendered. */
  lemma {:induction false} ParseDecimalOfDecimal(n: nat)
    ensures ParseDecimal(Decimal(n)) == n
    decreases n
  {
    var r := Decimal(n);
    if n >= 10 {
      ParseDecimalOfDecimal(n / 10);
      assert r[..|r| - 1] == Decimal(n / 10);
    }
  }

  /** A string of digits with no leading zero is the rendering of its value. */
  lemma {:induction false} DecimalOfParseDecimal(s: Bytes)
    requires IsCanonicalDecimal(s)
    ensures Decimal(ParseDecimal(s)) == s
    decreases |s|
  {
    if |s| > 1 {
      var init := s[..|s| - 1];
      assert init[0] == s[0];
      DecimalOfParseDecimal(init);
      var p := ParseDecimal(init);
      // the leading digit is not zero, so the value has at least two digits
      assert p != 0;
      var d := DigitValue(s[|s| - 1]);
      var n := p * 10 + d;
      assert n / 10 == p && n % 10 == d;
      assert s == init + [s[|s| - 1]];
    }
  }

  /** Two values have the same rendering only if they are equal. */
  lemma DecimalInjective(a: nat, b: nat)
    ensures Decimal(a) == Decimal(b) <==> a == b
  {
    ParseDecimalOfDecimal(a);
    ParseDecimalOfDecimal(b);
  }

  function Pow10(k: nat): nat
  {
    if k == 0 then 1 else 10 * Pow10(k - 1)
  }

  /** A value below 10^k has at most k digits. */
  lemma {:induction false} DecimalLength(n: nat, k: nat)
    requires 1 <= k && n < Pow10(k)
    ensures |Decimal(n)| <= k
    decreases k
  {
    if n >= 10 {
      assert k >= 2;
      assert n / 10 < Pow10(k - 1);
      DecimalLength(n / 10, k - 1);
    }
  }

  /** A 32-bit value has at most ten decimal digits. */
  lemma DecimalLength32(h: bv32)
    ensures |Decimal(h as nat)| <= 10
  {
    assert Pow10(10) == 10_000_000_000;
    DecimalLength(h as nat, 10);
  }

  // ---------------------------------------------------------------------------
  // NewId
  // ---------------------------------------------------------------------------

  /** A new identifier from the serialised clock reading `now` (the outcome of
      time.Now().MarshalBinary()) and the salt: the FNV-1a 32-bit digest of
      the timestamp bytes followed by the salt, rendered in decimal. */
  function NewId(now: Result<Bytes>, salt: Bytes): (r: Result<Bytes>)
    ensures r.Err? <==> now.Err?
    ensures r.Err? ==> r.error == now.error
    ensures r.Ok? ==> IsCanonicalDecimal(r.value) && |r.value| <= 10
    ensures r.Ok? ==> ParseDecimal(r.value) == Fnv1a32(now.value + salt) as nat
  {
    if now.Err? then Err(now.error)
    else
      var h := Fnv1a32(now.value + salt);
      DecimalLength32(h);
      ParseDecimalOfDecimal(h as nat);
      Ok(Decimal(h as nat))
  }

  /** The salt is hashed on from the digest of the timestamp, and an empty
      (nil) salt hashes the timestamp alone, which is how conversation ids
      are made. */
  lemma NewIdContinuesTimestamp(ts: Bytes, salt: Bytes)
    ensures NewId(Ok(ts), salt) == Ok(Decimal(FnvFold(Fnv1a32(ts), salt) as nat))
    ensures NewId(Ok(ts), []) == Ok(Decimal(Fnv1a32(ts) as nat))
  {
    FnvFoldAppend(OffsetBasis32, ts, salt);
    assert ts + [] == ts;
  }

  /** A successful id is the rendering of the digest of its input. */
  lemma NewIdOfDigest(ts: Bytes, salt: Bytes)
    ensures NewId(Ok(ts), salt) == Ok(Decimal(Fnv1a32(ts + salt) as nat))
  {
  }

  /** Widening a 32-bit value to a natural number loses nothing. */
  lemma NatOfBv32Injective(a: bv32, b: bv32)
    requires a as nat == b as nat
    ensures a == b
  {
    assert (a as nat) as bv32 == a;
  }

  /** Two 32-bit digests have the same decimal rendering exactly when they
      are equal. */
  lemma DigestRenderingInjective(a: bv32, b: bv32)
    ensures Decimal(a as nat) == Decimal(b as nat) <==> a == b
  {
    DecimalInjective(a as nat, b as nat);
    if a as nat == b as nat {
      NatOfBv32Injective(a, b);
    }
  }

  /** Two successful calls give the same id exactly when the 32-bit digests of
      their inputs collide. */
  lemma NewIdCollision(ts1: Bytes, salt1: Bytes, ts2: Bytes, salt2: Bytes)
    ensures NewId(Ok(ts1), salt1) == NewId(Ok(ts2), salt2)
        <==> Fnv1a32(ts1 + salt1) == Fnv1a32(ts2 + salt2)
  {
    NewIdOfDigest(ts1, salt1);
    NewIdOfDigest(ts2, salt2);
    DigestRenderingInjective(Fnv1a32(ts1 + salt1), Fnv1a32(ts2 + salt2));
  }
}

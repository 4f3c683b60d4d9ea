/** Stream positions as term ids and term offsets. */
module TermPositions {
  import opened Messages
  import opened Decimals

  function Pow2(n: nat): nat {
    if n == 0 then 1 else 2 * Pow2(n - 1)
  }

  lemma {:induction false} PositivePow2(n: nat)
    ensures Pow2(n) > 0
  {
    if n > 0 {
      PositivePow2(n - 1);
    }
  }

  /** The shift of a valid term buffer length. */
  function PositionBitsToShift(termBufferLength: int): Option<nat> {
    match termBufferLength
    case 65536 => Some(16)
    case 131072 => Some(17)
    case 262144 => Some(18)
    case 524288 => Some(19)
    case 1048576 => Some(20)
    case 2097152 => Some(21)
    case 4194304 => Some(22)
    case 8388608 => Some(23)
    case 16777216 => Some(24)
    case 33554432 => Some(25)
    case 67108864 => Some(26)
    case 134217728 => Some(27)
    case 268435456 => Some(28)
    case 536870912 => Some(29)
    case 1073741824 => Some(30)
    case _ => None
  }

  /** The shift of the position is an arithmetic one, which rounds down; the narrowing and the sum are
      those of 32 bits. */
  function ComputeTermIdFromPosition(position: int, positionBitsToShift: nat, initialTermId: int): int {
    PositivePow2(positionBitsToShift);
    ToInt32(ToInt32(position / Pow2(positionBitsToShift)) + initialTermId)
  }

  /** The low bits of the position under the mask of a power of two. */
  function TermOffset(position: int, termBufferLength: int): int
    requires termBufferLength > 0
  {
    position % termBufferLength
  }

  /** How a publication places a term id and an offset: the inverse of the two functions above. */
  function PositionOf(termId: int, termOffset: int, termBufferLength: int, initialTermId: int): int {
    ToInt32(termId - initialTermId) * termBufferLength + termOffset
  }

  /** The positions within 2^31 terms of the start of the recording, on either side. */
  predicate Expressible(position: int, termBufferLength: int) {
    -0x8000_0000 * termBufferLength <= position < 0x8000_0000 * termBufferLength
  }

  // ----- Exact arithmetic -----

  lemma MulMonotone(a: int, b: int, c: nat)
    requires a <= b
    ensures a * c <= b * c
  {
  }

  lemma DivUnique(n: int, d: nat, q: int, r: int)
    requires d > 0 && n == q * d + r && 0 <= r < d
    ensures n / d == q && n % d == r
  {
    var q' := n / d;
    if q < q' {
      MulMonotone(q + 1, q', d);
    } else if q > q' {
      MulMonotone(q' + 1, q, d);
    }
  }

  /** The accepted lengths are the powers of two from 64 KiB to 1 GiB, with their exponents. */
  lemma BitsOfTermLength(termBufferLength: int, bits: nat)
    ensures PositionBitsToShift(termBufferLength) == Some(bits) <==> 16 <= bits <= 30 && termBufferLength == Pow2(bits)
  {
    SmallPowers();
    if bits > 30 {
      Pow2Grows(30, bits);
    } else if bits < 16 {
      Pow2Grows(bits, 16);
    }
  }

  lemma {:induction false} Pow2Grows(m: nat, n: nat)
    requires m < n
    ensures 0 < Pow2(m) < Pow2(n)
  {
    PositivePow2(m);
    if m < n - 1 {
      Pow2Grows(m, n - 1);
    }
  }

  lemma SmallPowers()
    ensures Pow2(16) == 65536 && Pow2(17) == 131072 && Pow2(18) == 262144 && Pow2(19) == 524288
    ensures Pow2(20) == 1048576 && Pow2(21) == 2097152 && Pow2(22) == 4194304 && Pow2(23) == 8388608
    ensures Pow2(24) == 16777216 && Pow2(25) == 33554432 && Pow2(26) == 67108864 && Pow2(27) == 134217728
    ensures Pow2(28) == 268435456 && Pow2(29) == 536870912 && Pow2(30) == 1073741824
  {
    assert Pow2(4) == 16;
    assert Pow2(8) == 256;
    assert Pow2(12) == 4096;
    assert Pow2(16) == 65536;
    assert Pow2(20) == 1048576;
    assert Pow2(24) == 16777216;
    assert Pow2(28) == 268435456;
  }

  /** Term id and offset give the position back exactly when it lies within 2^31 terms of the initial one. */
  lemma TermRoundTrip(position: int, termBufferLength: int, initialTermId: int)
    requires PositionBitsToShift(termBufferLength).Some? && IsInt32(initialTermId)
    ensures var bits := PositionBitsToShift(termBufferLength).value;
            var termId := ComputeTermIdFromPosition(position, bits, initialTermId);
            var termOffset := TermOffset(position, termBufferLength);
            && IsInt32(termId) && 0 <= termOffset < termBufferLength
            && (PositionOf(termId, termOffset, termBufferLength, initialTermId) == position
                <==> Expressible(position, termBufferLength))
            && (position % 32 == 0 <==> termOffset % 32 == 0)
            && position == position / termBufferLength * termBufferLength + termOffset
            && (termId - initialTermId - position / termBufferLength) % 0x1_0000_0000 == 0
  {
    var bits := PositionBitsToShift(termBufferLength).value;
    BitsOfTermLength(termBufferLength, bits);
    var terms, termOffset := position / termBufferLength, position % termBufferLength;
    TermsAcross(terms, initialTermId);
    RangeOfTerms(position, termBufferLength);
    assert position == terms * termBufferLength + termOffset;
    if ToInt32(terms) * termBufferLength + termOffset == position {
      DivUnique(position, termBufferLength, ToInt32(terms), termOffset);
    }
    Alignment(position, termBufferLength);
  }

  /** The position at an offset in the term that lies so many terms, in 32 bits, after the initial one. */
  lemma PositionAtTerm(termId: int, termOffset: int, termBufferLength: int, initialTermId: int, terms: int)
    requires -0x8000_0000 <= terms < 0x8000_0000 && (termId - initialTermId - terms) % 0x1_0000_0000 == 0
    ensures PositionOf(termId, termOffset, termBufferLength, initialTermId) == terms * termBufferLength + termOffset
  {
    ToInt32Is(termId - initialTermId);
    assert (ToInt32(termId - initialTermId) - terms) % 0x1_0000_0000 == 0;
  }

  /** The difference of the term ids is the number of terms, in 32 bits. */
  lemma TermsAcross(terms: int, initialTermId: int)
    ensures IsInt32(ToInt32(ToInt32(terms) + initialTermId))
    ensures ToInt32(ToInt32(ToInt32(terms) + initialTermId) - initialTermId) == ToInt32(terms)
    ensures ToInt32(terms) == terms <==> IsInt32(terms)
    ensures (ToInt32(ToInt32(terms) + initialTermId) - initialTermId - terms) % 0x1_0000_0000 == 0
  {
  }

  lemma RangeOfTerms(position: int, length: nat)
    requires length > 0
    ensures IsInt32(position / length) <==> Expressible(position, length)
  {
    var q := position / length;
    assert q * length <= position < (q + 1) * length;
    if q < -0x8000_0000 {
      MulMonotone(q + 1, -0x8000_0000, length);
    } else if q < 0x8000_0000 {
      MulMonotone(-0x8000_0000, q, length);
      MulMonotone(q + 1, 0x8000_0000, length);
    } else {
      MulMonotone(0x8000_0000, q, length);
    }
  }

  lemma Alignment(position: int, length: int)
    requires PositionBitsToShift(length).Some?
    ensures position % length % 32 == position % 32
  {
    var k := length / 32;
    assert length == 32 * k;
    var q, r := position / length, position % length;
    assert position == q * length + r == 32 * (q * k) + r;
    DivUnique(position, 32, q * k + r / 32, r % 32);
  }

  /** Distinct positions in range have distinct term positions. */
  lemma TermPositionsDistinct(p: int, q: int, termBufferLength: int, initialTermId: int)
    requires PositionBitsToShift(termBufferLength).Some? && IsInt32(initialTermId)
    requires Expressible(p, termBufferLength) && Expressible(q, termBufferLength)
    requires var bits := PositionBitsToShift(termBufferLength).value;
             ComputeTermIdFromPosition(p, bits, initialTermId) == ComputeTermIdFromPosition(q, bits, initialTermId)
    requires TermOffset(p, termBufferLength) == TermOffset(q, termBufferLength)
    ensures p == q
  {
    TermRoundTrip(p, termBufferLength, initialTermId);
    TermRoundTrip(q, termBufferLength, initialTermId);
  }
}

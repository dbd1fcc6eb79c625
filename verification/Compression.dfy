/** The 16-bit formats and the listing of RV32C (sections 16.2 and 16.8 of the RISC-V Unprivileged ISA,
 *  version 20191213), and the expansion of every word assembled with them. */
module Compression {
  import opened BaseIsa
  import opened CompressedIsa
  import opened Expansion
  import opened Wrappers

  /** A 16-bit word as it is fetched, with whatever follows it. */
  function Fetched(c: bv32, next: bv32): bv32 { (c & 0xffff) | (next << 16) }

  // The formats; x is where the immediate goes, its bits already in their places.

  function CRType(f4: bv32, rd: bv32, rs2: bv32, op: bv32): bv32 {
    (f4 << 12) | (rd << 7) | (rs2 << 2) | op
  }

  function CIType(f3: bv32, x: bv32, rd: bv32, op: bv32): bv32 {
    (f3 << 13) | x | (rd << 7) | op
  }

  function CSSType(f3: bv32, x: bv32, rs2: bv32, op: bv32): bv32 {
    (f3 << 13) | x | (rs2 << 2) | op
  }

  /** CL and CS: two registers of three bits each; CIW has the upper one in its immediate. */
  function CLType(f3: bv32, x: bv32, p: bv32, q: bv32, op: bv32): bv32 {
    (f3 << 13) | x | (p << 7) | (q << 2) | op
  }

  function CAType(f6: bv32, p: bv32, f2: bv32, q: bv32, op: bv32): bv32 {
    (f6 << 10) | (p << 7) | (f2 << 5) | (q << 2) | op
  }

  /** CB, CJ and CIW. */
  function CBType(f3: bv32, x: bv32, p: bv32, op: bv32): bv32 {
    (f3 << 13) | x | (p << 7) | op
  }

  // The places of the immediates.

  function Place6(i: bv32): bv32 { (((i >> 5) & 1) << 12) | ((i & 0x1f) << 2) }

  function Place10(i: bv32): bv32 {
    (((i >> 9) & 1) << 12) | (((i >> 4) & 1) << 6) | (((i >> 6) & 1) << 5) | (((i >> 7) & 3) << 3)
    | (((i >> 5) & 1) << 2)
  }

  function PlaceLwsp(i: bv32): bv32 { (((i >> 5) & 1) << 12) | (((i >> 2) & 7) << 4) | (((i >> 6) & 3) << 2) }

  function PlaceSwsp(i: bv32): bv32 { (((i >> 2) & 0xf) << 9) | (((i >> 6) & 3) << 7) }

  function PlaceSpn(i: bv32): bv32 {
    (((i >> 4) & 3) << 11) | (((i >> 6) & 0xf) << 7) | (((i >> 2) & 1) << 6) | (((i >> 3) & 1) << 5)
  }

  function PlaceWord(i: bv32): bv32 { (((i >> 3) & 7) << 10) | (((i >> 2) & 1) << 6) | (((i >> 6) & 1) << 5) }

  function PlaceBranch(i: bv32): bv32 {
    (((i >> 8) & 1) << 12) | (((i >> 3) & 3) << 10) | (((i >> 6) & 3) << 5) | (((i >> 1) & 3) << 3)
    | (((i >> 5) & 1) << 2)
  }

  function PlaceJump(i: bv32): bv32 {
    (((i >> 11) & 1) << 12) | (((i >> 4) & 1) << 11) | (((i >> 8) & 3) << 9) | (((i >> 10) & 1) << 8)
    | (((i >> 6) & 1) << 7) | (((i >> 7) & 1) << 6) | (((i >> 1) & 7) << 3) | (((i >> 5) & 1) << 2)
  }

  // The immediates that fit, written as the 32-bit words they stand for.

  predicate Fits6(i: bv32) { i >> 5 == 0 || i >> 5 == 0x7ff_ffff }
  predicate FitsStack(i: bv32) { (i >> 9 == 0 || i >> 9 == 0x7f_ffff) && i & 0xf == 0 && i != 0 }
  predicate FitsUpper(i: bv32) { (i >> 17 == 0 || i >> 17 == 0x7fff) && i & 0xfff == 0 && i != 0 }
  predicate FitsSpn(i: bv32) { i < 0x400 && i & 3 == 0 && i != 0 }
  predicate FitsWord(i: bv32) { i < 0x80 && i & 3 == 0 }
  predicate FitsStackWord(i: bv32) { i < 0x100 && i & 3 == 0 }
  predicate FitsBranch(i: bv32) { (i >> 8 == 0 || i >> 8 == 0xff_ffff) && i & 1 == 0 }
  predicate FitsJump(i: bv32) { (i >> 11 == 0 || i >> 11 == 0x1f_ffff) && i & 1 == 0 }

  // ----- the expansion, by the fields of the word -----

  lemma ExpandQuadrant0(w: bv32)
    requires COpcode(w) == 0
    ensures CFunct3(w) == 0 && UimmSpn(w) != 0 ==> Expand(w) == Some(IType(UimmSpn(w), 2, 0, CRs2p(w), 0x13))
    ensures CFunct3(w) == 2 ==> Expand(w) == Some(IType(UimmWord(w), CRs1p(w), 2, CRs2p(w), 0x03))
    ensures CFunct3(w) == 6 ==> Expand(w) == Some(SType(UimmWord(w), CRs2p(w), CRs1p(w), 2, 0x23))
  {
    hide COpcode, CFunct3, UimmSpn, UimmWord, CRs1p, CRs2p, IType, SType;
  }

  lemma ExpandQuadrant1(w: bv32)
    requires COpcode(w) == 1
    ensures CFunct3(w) == 0 ==> Expand(w) == Some(IType(Imm6(w), CRs1(w), 0, CRs1(w), 0x13))
    ensures CFunct3(w) == 1 ==> Expand(w) == Some(JType(OffsetJ(w), 1, 0x6f))
    ensures CFunct3(w) == 2 ==> Expand(w) == Some(IType(Imm6(w), 0, 0, CRs1(w), 0x13))
    ensures CFunct3(w) == 3 ==> Expand(w) == ExpandUpper(w)
    ensures CFunct3(w) == 4 ==> Expand(w) == ExpandAlu(w)
    ensures CFunct3(w) == 5 ==> Expand(w) == Some(JType(OffsetJ(w), 0, 0x6f))
    ensures CFunct3(w) == 6 ==> Expand(w) == Some(BType(OffsetB(w), 0, CRs1p(w), 0, 0x63))
    ensures CFunct3(w) == 7 ==> Expand(w) == Some(BType(OffsetB(w), 0, CRs1p(w), 1, 0x63))
  {
    hide COpcode, CFunct3, Imm6, OffsetJ, OffsetB, CRs1p, CRs1, IType, JType, BType, ExpandUpper, ExpandAlu;
  }

  lemma ExpandUppers(w: bv32)
    requires Imm6(w) != 0
    ensures CRs1(w) == 2 ==> ExpandUpper(w) == Some(IType(Imm10(w), 2, 0, 2, 0x13))
    ensures CRs1(w) != 2 ==> ExpandUpper(w) == Some(UType(Imm18(w), CRs1(w), 0x37))
  {
    hide Imm6, Imm10, Imm18, CRs1, IType, UType;
  }

  lemma ExpandAlus(w: bv32)
    ensures CFunct2(w) == 2 ==> ExpandAlu(w) == Some(IType(Imm6(w), CRs1p(w), 7, CRs1p(w), 0x13))
    ensures CBit12(w) == 0 ==>
              && (CFunct2(w) == 0 ==> ExpandAlu(w) == Some(IType(CRs2(w), CRs1p(w), 5, CRs1p(w), 0x13)))
              && (CFunct2(w) == 1 ==> ExpandAlu(w) == Some(IType(CRs2(w) | 0x400, CRs1p(w), 5, CRs1p(w), 0x13)))
    ensures CBit12(w) == 0 && CFunct2(w) == 3 ==>
              && (CFunct2b(w) == 0 ==> ExpandAlu(w) == Some(RType(0x20, CRs2p(w), CRs1p(w), 0, CRs1p(w), 0x33)))
              && (CFunct2b(w) == 1 ==> ExpandAlu(w) == Some(RType(0, CRs2p(w), CRs1p(w), 4, CRs1p(w), 0x33)))
              && (CFunct2b(w) == 2 ==> ExpandAlu(w) == Some(RType(0, CRs2p(w), CRs1p(w), 6, CRs1p(w), 0x33)))
              && (CFunct2b(w) == 3 ==> ExpandAlu(w) == Some(RType(0, CRs2p(w), CRs1p(w), 7, CRs1p(w), 0x33)))
  {
    hide CFunct2, CFunct2b, CBit12, Imm6, CRs1p, CRs2p, CRs2, IType, RType;
  }

  lemma ExpandQuadrant2(w: bv32)
    requires COpcode(w) == 2
    ensures CFunct3(w) == 0 && CBit12(w) == 0 ==> Expand(w) == Some(IType(CRs2(w), CRs1(w), 1, CRs1(w), 0x13))
    ensures CFunct3(w) == 2 && CRs1(w) != 0 ==> Expand(w) == Some(IType(UimmLwsp(w), 2, 2, CRs1(w), 0x03))
    ensures CFunct3(w) == 4 ==> Expand(w) == ExpandJr(w)
    ensures CFunct3(w) == 6 ==> Expand(w) == Some(SType(UimmSwsp(w), CRs2(w), 2, 2, 0x23))
  {
    hide COpcode, CFunct3, CBit12, UimmLwsp, UimmSwsp, CRs1, CRs2, IType, SType, ExpandJr;
  }

  lemma ExpandJumps(w: bv32)
    ensures CBit12(w) == 0 && CRs2(w) != 0 ==> ExpandJr(w) == Some(RType(0, CRs2(w), 0, 0, CRs1(w), 0x33))
    ensures CBit12(w) == 0 && CRs2(w) == 0 && CRs1(w) != 0 ==> ExpandJr(w) == Some(IType(0, CRs1(w), 0, 0, 0x67))
    ensures CBit12(w) == 1 && CRs2(w) != 0 ==> ExpandJr(w) == Some(RType(0, CRs2(w), CRs1(w), 0, CRs1(w), 0x33))
    ensures CBit12(w) == 1 && CRs2(w) == 0 && CRs1(w) != 0 ==> ExpandJr(w) == Some(IType(0, CRs1(w), 0, 1, 0x67))
    ensures CBit12(w) == 1 && CRs2(w) == 0 && CRs1(w) == 0 ==> ExpandJr(w) == Some(IType(1, 0, 0, 0, 0x73))
  {
    hide CBit12, CRs1, CRs2, IType, RType;
  }

  // ----- fields of assembled words -----

  lemma SpnFields(i: bv32, q: bv32, next: bv32)
    requires FitsSpn(i) && q < 8
    ensures var w := Fetched(CLType(0, PlaceSpn(i), 0, q, 0), next);
            COpcode(w) == 0 && CFunct3(w) == 0 && CRs2p(w) == q + 8
  {
  }

  lemma SpnPlaced(i: bv32, q: bv32, next: bv32)
    requires FitsSpn(i) && q < 8
    ensures var w := Fetched(CLType(0, PlaceSpn(i), 0, q, 0), next);
            UimmSpn(w) == i && i != 0
  {
  }

  lemma WordFields(f3: bv32, i: bv32, p: bv32, q: bv32, next: bv32)
    requires FitsWord(i) && f3 < 8 && p < 8 && q < 8
    ensures var w := Fetched(CLType(f3, PlaceWord(i), p, q, 0), next);
            COpcode(w) == 0 && CFunct3(w) == f3 && CRs1p(w) == p + 8 && CRs2p(w) == q + 8
  {
  }

  lemma WordPlaced(f3: bv32, i: bv32, p: bv32, q: bv32, next: bv32)
    requires FitsWord(i) && f3 < 8 && p < 8 && q < 8
    ensures var w := Fetched(CLType(f3, PlaceWord(i), p, q, 0), next);
            UimmWord(w) == i
  {
  }

  lemma ImmediateFields(f3: bv32, i: bv32, rd: bv32, next: bv32)
    requires Fits6(i) && f3 < 8 && rd < 32
    ensures var w := Fetched(CIType(f3, Place6(i), rd, 1), next);
            COpcode(w) == 1 && CFunct3(w) == f3 && CRs1(w) == rd
  {
  }

  lemma ImmediatePlaced(f3: bv32, i: bv32, rd: bv32, next: bv32)
    requires Fits6(i) && f3 < 8 && rd < 32
    ensures var w := Fetched(CIType(f3, Place6(i), rd, 1), next);
            Imm6(w) == i
  {
  }

  lemma JumpFields(f3: bv32, i: bv32, next: bv32)
    requires FitsJump(i) && f3 < 8
    ensures var w := Fetched(CBType(f3, PlaceJump(i), 0, 1), next);
            COpcode(w) == 1 && CFunct3(w) == f3
  {
  }

  lemma StackFields(i: bv32, next: bv32)
    requires FitsStack(i)
    ensures var w := Fetched(CIType(3, Place10(i), 2, 1), next);
            COpcode(w) == 1 && CFunct3(w) == 3 && CRs1(w) == 2
  {
  }

  lemma StackPlaced(i: bv32, next: bv32)
    requires FitsStack(i)
    ensures var w := Fetched(CIType(3, Place10(i), 2, 1), next);
            Imm10(w) == i && Imm6(w) != 0
  {
  }

  lemma UpperFields(i: bv32, rd: bv32, next: bv32)
    requires FitsUpper(i) && rd < 32 && rd != 2
    ensures var w := Fetched(CIType(3, Place6(i >> 12), rd, 1), next);
            COpcode(w) == 1 && CFunct3(w) == 3 && CRs1(w) == rd
  {
  }

  lemma UpperPlaced(i: bv32, rd: bv32, next: bv32)
    requires FitsUpper(i) && rd < 32
    ensures var w := Fetched(CIType(3, Place6(i >> 12), rd, 1), next);
            Imm18(w) == i && Imm6(w) != 0
  {
  }

  lemma SrliFields(n: bv32, p: bv32, next: bv32)
    requires n < 32 && p < 8
    ensures var w := Fetched(CAType(0x20, p, 0, 0, 1) | (n << 2), next);
            && COpcode(w) == 1 && CFunct3(w) == 4 && CFunct2(w) == 0 && CBit12(w) == 0
            && CRs1p(w) == p + 8 && CRs2(w) == n
  {
  }

  lemma SraiFields(n: bv32, p: bv32, next: bv32)
    requires n < 32 && p < 8
    ensures var w := Fetched(CAType(0x21, p, 0, 0, 1) | (n << 2), next);
            && COpcode(w) == 1 && CFunct3(w) == 4 && CFunct2(w) == 1 && CBit12(w) == 0
            && CRs1p(w) == p + 8 && CRs2(w) == n
  {
  }

  lemma AndiFields(i: bv32, p: bv32, next: bv32)
    requires Fits6(i) && p < 8
    ensures var w := Fetched(CAType(0x22, p, 0, 0, 1) | Place6(i), next);
            COpcode(w) == 1 && CFunct3(w) == 4 && CFunct2(w) == 2 && CRs1p(w) == p + 8
  {
  }

  lemma AndiPlaced(i: bv32, p: bv32, next: bv32)
    requires Fits6(i) && p < 8
    ensures var w := Fetched(CAType(0x22, p, 0, 0, 1) | Place6(i), next);
            Imm6(w) == i
  {
  }

  lemma RegisterFields(f2: bv32, p: bv32, q: bv32, next: bv32)
    requires f2 < 4 && p < 8 && q < 8
    ensures var w := Fetched(CAType(0x23, p, f2, q, 1), next);
            COpcode(w) == 1 && CFunct3(w) == 4 && CFunct2(w) == 3 && CBit12(w) == 0
  {
  }

  lemma RegistersPlaced(f2: bv32, p: bv32, q: bv32, next: bv32)
    requires f2 < 4 && p < 8 && q < 8
    ensures var w := Fetched(CAType(0x23, p, f2, q, 1), next);
            CFunct2b(w) == f2 && CRs1p(w) == p + 8 && CRs2p(w) == q + 8
  {
  }

  lemma BranchFields(f3: bv32, i: bv32, p: bv32, next: bv32)
    requires FitsBranch(i) && f3 < 8 && p < 8
    ensures var w := Fetched(CBType(f3, PlaceBranch(i), p, 1), next);
            COpcode(w) == 1 && CFunct3(w) == f3 && CRs1p(w) == p + 8
  {
  }

  lemma BranchPlaced(f3: bv32, i: bv32, p: bv32, next: bv32)
    requires FitsBranch(i) && f3 < 8 && p < 8
    ensures var w := Fetched(CBType(f3, PlaceBranch(i), p, 1), next);
            OffsetB(w) == i
  {
  }

  lemma SlliFields(n: bv32, rd: bv32, next: bv32)
    requires n < 32 && rd < 32
    ensures var w := Fetched(CIType(0, n << 2, rd, 2), next);
            COpcode(w) == 2 && CFunct3(w) == 0 && CBit12(w) == 0 && CRs1(w) == rd && CRs2(w) == n
  {
  }

  lemma LwspFields(i: bv32, rd: bv32, next: bv32)
    requires FitsStackWord(i) && rd < 32
    ensures var w := Fetched(CIType(2, PlaceLwsp(i), rd, 2), next);
            COpcode(w) == 2 && CFunct3(w) == 2 && CRs1(w) == rd
  {
  }

  lemma LwspPlaced(i: bv32, rd: bv32, next: bv32)
    requires FitsStackWord(i) && rd < 32
    ensures var w := Fetched(CIType(2, PlaceLwsp(i), rd, 2), next);
            UimmLwsp(w) == i
  {
  }

  lemma SwspFields(i: bv32, rs2: bv32, next: bv32)
    requires FitsStackWord(i) && rs2 < 32
    ensures var w := Fetched(CSSType(6, PlaceSwsp(i), rs2, 2), next);
            COpcode(w) == 2 && CFunct3(w) == 6 && CRs2(w) == rs2
  {
  }

  lemma SwspPlaced(i: bv32, rs2: bv32, next: bv32)
    requires FitsStackWord(i) && rs2 < 32
    ensures var w := Fetched(CSSType(6, PlaceSwsp(i), rs2, 2), next);
            UimmSwsp(w) == i
  {
  }

  lemma MoveFields(f4: bv32, rd: bv32, rs2: bv32, next: bv32)
    requires (f4 == 8 || f4 == 9) && rd < 32 && rs2 < 32
    ensures var w := Fetched(CRType(f4, rd, rs2, 2), next);
            COpcode(w) == 2 && CFunct3(w) == 4 && CBit12(w) == f4 & 1 && CRs1(w) == rd && CRs2(w) == rs2
  {
  }

  lemma JumpPlaced(f3: bv32, i: bv32, next: bv32)
    requires FitsJump(i) && f3 < 8
    ensures OffsetJ(Fetched(CBType(f3, PlaceJump(i), 0, 1), next)) == i
  {
    hide *;
    JumpBits(f3, i, next);
    JumpOfBits(Fetched(CBType(f3, PlaceJump(i), 0, 1), next));
    JumpCollected(i);
  }

  /** The bits of a jump offset, from bit 11 down to bit 1. */
  function Collected(a: bv32, b: bv32, c: bv32, d: bv32, e: bv32, f: bv32, g: bv32, h: bv32, j: bv32, k: bv32, l: bv32)
    : bv32
  {
    SignExtended(Cat(Cat(Cat(Cat(Cat(Cat(Cat(Cat(Cat(Cat(a, b), c), d), e), f), g), h), j), k), l) << 1,
                 0x800, 0xffff_f000)
  }

  function BitOf(i: bv32, n: bv32): bv32
    requires n < 32
  {
    (i >> n) & 1
  }

  lemma JumpOfBits(w: bv32)
    ensures OffsetJ(w)
         == Collected(B12(w), B8(w), B10(w), B9(w), B6(w), B7(w), B2(w), B11(w), B5(w), B4(w), B3(w))
  {
    hide Cat, SignExtended;
  }

  lemma JumpBits(f3: bv32, i: bv32, next: bv32)
    requires f3 < 8
    ensures var w := Fetched(CBType(f3, PlaceJump(i), 0, 1), next);
            && B12(w) == BitOf(i, 11) && B8(w) == BitOf(i, 10) && B10(w) == BitOf(i, 9) && B9(w) == BitOf(i, 8)
            && B6(w) == BitOf(i, 7) && B7(w) == BitOf(i, 6) && B2(w) == BitOf(i, 5) && B11(w) == BitOf(i, 4)
            && B5(w) == BitOf(i, 3) && B4(w) == BitOf(i, 2) && B3(w) == BitOf(i, 1)
  {
  }

  /** The bits from n on, as many as the mask m has. */
  function Part(i: bv32, n: bv32, m: bv32): bv32
    requires n < 32
  {
    (i >> n) & m
  }

  lemma UpperParts(i: bv32)
    ensures BitOf(i, 11) == Part(i, 11, 0x1)
    ensures Cat(Part(i, 11, 0x1), BitOf(i, 10)) == Part(i, 10, 0x3)
    ensures Cat(Part(i, 10, 0x3), BitOf(i, 9)) == Part(i, 9, 0x7)
  {
  }

  lemma MiddleParts(i: bv32)
    ensures Cat(Part(i, 9, 0x7), BitOf(i, 8)) == Part(i, 8, 0xf)
    ensures Cat(Part(i, 8, 0xf), BitOf(i, 7)) == Part(i, 7, 0x1f)
    ensures Cat(Part(i, 7, 0x1f), BitOf(i, 6)) == Part(i, 6, 0x3f)
  {
  }

  lemma InnerParts(i: bv32)
    ensures Cat(Part(i, 6, 0x3f), BitOf(i, 5)) == Part(i, 5, 0x7f)
    ensures Cat(Part(i, 5, 0x7f), BitOf(i, 4)) == Part(i, 4, 0xff)
    ensures Cat(Part(i, 4, 0xff), BitOf(i, 3)) == Part(i, 3, 0x1ff)
  {
  }

  lemma LowerParts(i: bv32)
    ensures Cat(Part(i, 3, 0x1ff), BitOf(i, 2)) == Part(i, 2, 0x3ff)
    ensures Cat(Part(i, 2, 0x3ff), BitOf(i, 1)) == Part(i, 1, 0x7ff)
  {
  }

  lemma PositiveJump(i: bv32)
    requires i >> 11 == 0 && i & 1 == 0
    ensures SignExtended(Part(i, 1, 0x7ff) << 1, 0x800, 0xffff_f000) == i
  {
  }

  lemma NegativeJump(i: bv32)
    requires i >> 11 == 0x1f_ffff && i & 1 == 0
    ensures SignExtended(Part(i, 1, 0x7ff) << 1, 0x800, 0xffff_f000) == i
  {
  }

  lemma JumpCollected(i: bv32)
    requires FitsJump(i)
    ensures Collected(BitOf(i, 11), BitOf(i, 10), BitOf(i, 9), BitOf(i, 8), BitOf(i, 7), BitOf(i, 6), BitOf(i, 5),
                      BitOf(i, 4), BitOf(i, 3), BitOf(i, 2), BitOf(i, 1))
         == i
  {
    hide Cat, Part, BitOf, SignExtended;
    UpperParts(i);
    MiddleParts(i);
    InnerParts(i);
    LowerParts(i);
    if i >> 11 == 0 {
      PositiveJump(i);
    } else {
      NegativeJump(i);
    }
  }

  // ----- the expansions -----

  /** C.ADDI4SPN. */
  lemma Addi4spnExpands(i: bv32, q: bv32, next: bv32)
    requires FitsSpn(i) && q < 8
    ensures Expand(Fetched(CLType(0, PlaceSpn(i), 0, q, 0), next)) == Some(IType(i, 2, 0, q + 8, 0x13))
  {
    hide *;
    SpnFields(i, q, next);
    SpnPlaced(i, q, next);
    ExpandQuadrant0(Fetched(CLType(0, PlaceSpn(i), 0, q, 0), next));
  }

  /** C.LW and C.SW. */
  lemma WordExpands(i: bv32, p: bv32, q: bv32, next: bv32)
    requires FitsWord(i) && p < 8 && q < 8
    ensures Expand(Fetched(CLType(2, PlaceWord(i), p, q, 0), next)) == Some(IType(i, p + 8, 2, q + 8, 0x03))
    ensures Expand(Fetched(CLType(6, PlaceWord(i), p, q, 0), next)) == Some(SType(i, q + 8, p + 8, 2, 0x23))
  {
    hide *;
    WordFields(2, i, p, q, next);
    WordPlaced(2, i, p, q, next);
    WordFields(6, i, p, q, next);
    WordPlaced(6, i, p, q, next);
    ExpandQuadrant0(Fetched(CLType(2, PlaceWord(i), p, q, 0), next));
    ExpandQuadrant0(Fetched(CLType(6, PlaceWord(i), p, q, 0), next));
  }

  /** C.ADDI and C.LI. */
  lemma AddiExpands(i: bv32, rd: bv32, next: bv32)
    requires Fits6(i) && rd < 32
    ensures Expand(Fetched(CIType(0, Place6(i), rd, 1), next)) == Some(IType(i, rd, 0, rd, 0x13))
    ensures Expand(Fetched(CIType(2, Place6(i), rd, 1), next)) == Some(IType(i, 0, 0, rd, 0x13))
  {
    hide *;
    ImmediateFields(0, i, rd, next);
    ImmediatePlaced(0, i, rd, next);
    ImmediateFields(2, i, rd, next);
    ImmediatePlaced(2, i, rd, next);
    ExpandQuadrant1(Fetched(CIType(0, Place6(i), rd, 1), next));
    ExpandQuadrant1(Fetched(CIType(2, Place6(i), rd, 1), next));
  }

  /** C.JAL and C.J. */
  lemma JumpExpands(i: bv32, next: bv32)
    requires FitsJump(i)
    ensures Expand(Fetched(CBType(1, PlaceJump(i), 0, 1), next)) == Some(JType(i, 1, 0x6f))
    ensures Expand(Fetched(CBType(5, PlaceJump(i), 0, 1), next)) == Some(JType(i, 0, 0x6f))
  {
    hide *;
    JumpFields(1, i, next);
    JumpPlaced(1, i, next);
    JumpFields(5, i, next);
    JumpPlaced(5, i, next);
    ExpandQuadrant1(Fetched(CBType(1, PlaceJump(i), 0, 1), next));
    ExpandQuadrant1(Fetched(CBType(5, PlaceJump(i), 0, 1), next));
  }

  /** C.ADDI16SP. */
  lemma StackExpands(i: bv32, next: bv32)
    requires FitsStack(i)
    ensures Expand(Fetched(CIType(3, Place10(i), 2, 1), next)) == Some(IType(i, 2, 0, 2, 0x13))
  {
    hide *;
    StackFields(i, next);
    StackPlaced(i, next);
    ExpandQuadrant1(Fetched(CIType(3, Place10(i), 2, 1), next));
    ExpandUppers(Fetched(CIType(3, Place10(i), 2, 1), next));
  }

  /** C.LUI. */
  lemma UpperExpands(i: bv32, rd: bv32, next: bv32)
    requires FitsUpper(i) && rd < 32 && rd != 2
    ensures Expand(Fetched(CIType(3, Place6(i >> 12), rd, 1), next)) == Some(UType(i, rd, 0x37))
  {
    hide *;
    UpperFields(i, rd, next);
    UpperPlaced(i, rd, next);
    ExpandQuadrant1(Fetched(CIType(3, Place6(i >> 12), rd, 1), next));
    ExpandUppers(Fetched(CIType(3, Place6(i >> 12), rd, 1), next));
  }

  /** C.SRLI and C.SRAI. */
  lemma ShiftExpands(n: bv32, p: bv32, next: bv32)
    requires n < 32 && p < 8
    ensures Expand(Fetched(CAType(0x20, p, 0, 0, 1) | (n << 2), next)) == Some(IType(n, p + 8, 5, p + 8, 0x13))
    ensures Expand(Fetched(CAType(0x21, p, 0, 0, 1) | (n << 2), next)) == Some(IType(n | 0x400, p + 8, 5, p + 8, 0x13))
  {
    hide *;
    SrliFields(n, p, next);
    SraiFields(n, p, next);
    ExpandQuadrant1(Fetched(CAType(0x20, p, 0, 0, 1) | (n << 2), next));
    ExpandAlus(Fetched(CAType(0x20, p, 0, 0, 1) | (n << 2), next));
    ExpandQuadrant1(Fetched(CAType(0x21, p, 0, 0, 1) | (n << 2), next));
    ExpandAlus(Fetched(CAType(0x21, p, 0, 0, 1) | (n << 2), next));
  }

  /** C.ANDI. */
  lemma AndiExpands(i: bv32, p: bv32, next: bv32)
    requires Fits6(i) && p < 8
    ensures Expand(Fetched(CAType(0x22, p, 0, 0, 1) | Place6(i), next)) == Some(IType(i, p + 8, 7, p + 8, 0x13))
  {
    hide *;
    AndiFields(i, p, next);
    AndiPlaced(i, p, next);
    ExpandQuadrant1(Fetched(CAType(0x22, p, 0, 0, 1) | Place6(i), next));
    ExpandAlus(Fetched(CAType(0x22, p, 0, 0, 1) | Place6(i), next));
  }

  /** C.SUB, C.XOR, C.OR and C.AND. */
  lemma RegisterExpands(p: bv32, q: bv32, next: bv32)
    requires p < 8 && q < 8
    ensures Expand(Fetched(CAType(0x23, p, 0, q, 1), next)) == Some(RType(0x20, q + 8, p + 8, 0, p + 8, 0x33))
    ensures Expand(Fetched(CAType(0x23, p, 1, q, 1), next)) == Some(RType(0, q + 8, p + 8, 4, p + 8, 0x33))
    ensures Expand(Fetched(CAType(0x23, p, 2, q, 1), next)) == Some(RType(0, q + 8, p + 8, 6, p + 8, 0x33))
    ensures Expand(Fetched(CAType(0x23, p, 3, q, 1), next)) == Some(RType(0, q + 8, p + 8, 7, p + 8, 0x33))
  {
    hide *;
    RegisterFields(0, p, q, next);
    RegistersPlaced(0, p, q, next);
    RegisterFields(1, p, q, next);
    RegistersPlaced(1, p, q, next);
    RegisterFields(2, p, q, next);
    RegistersPlaced(2, p, q, next);
    RegisterFields(3, p, q, next);
    RegistersPlaced(3, p, q, next);
    ExpandQuadrant1(Fetched(CAType(0x23, p, 0, q, 1), next));
    ExpandAlus(Fetched(CAType(0x23, p, 0, q, 1), next));
    ExpandQuadrant1(Fetched(CAType(0x23, p, 1, q, 1), next));
    ExpandAlus(Fetched(CAType(0x23, p, 1, q, 1), next));
    ExpandQuadrant1(Fetched(CAType(0x23, p, 2, q, 1), next));
    ExpandAlus(Fetched(CAType(0x23, p, 2, q, 1), next));
    ExpandQuadrant1(Fetched(CAType(0x23, p, 3, q, 1), next));
    ExpandAlus(Fetched(CAType(0x23, p, 3, q, 1), next));
  }

  /** C.BEQZ and C.BNEZ. */
  lemma BranchExpands(i: bv32, p: bv32, next: bv32)
    requires FitsBranch(i) && p < 8
    ensures Expand(Fetched(CBType(6, PlaceBranch(i), p, 1), next)) == Some(BType(i, 0, p + 8, 0, 0x63))
    ensures Expand(Fetched(CBType(7, PlaceBranch(i), p, 1), next)) == Some(BType(i, 0, p + 8, 1, 0x63))
  {
    hide *;
    BranchFields(6, i, p, next);
    BranchPlaced(6, i, p, next);
    BranchFields(7, i, p, next);
    BranchPlaced(7, i, p, next);
    ExpandQuadrant1(Fetched(CBType(6, PlaceBranch(i), p, 1), next));
    ExpandQuadrant1(Fetched(CBType(7, PlaceBranch(i), p, 1), next));
  }

  /** C.SLLI. */
  lemma SlliExpands(n: bv32, rd: bv32, next: bv32)
    requires n < 32 && rd < 32
    ensures Expand(Fetched(CIType(0, n << 2, rd, 2), next)) == Some(IType(n, rd, 1, rd, 0x13))
  {
    hide *;
    SlliFields(n, rd, next);
    ExpandQuadrant2(Fetched(CIType(0, n << 2, rd, 2), next));
  }

  /** C.LWSP. */
  lemma LwspExpands(i: bv32, rd: bv32, next: bv32)
    requires FitsStackWord(i) && 0 < rd < 32
    ensures Expand(Fetched(CIType(2, PlaceLwsp(i), rd, 2), next)) == Some(IType(i, 2, 2, rd, 0x03))
  {
    hide *;
    LwspFields(i, rd, next);
    LwspPlaced(i, rd, next);
    ExpandQuadrant2(Fetched(CIType(2, PlaceLwsp(i), rd, 2), next));
  }

  /** C.SWSP. */
  lemma SwspExpands(i: bv32, rs2: bv32, next: bv32)
    requires FitsStackWord(i) && rs2 < 32
    ensures Expand(Fetched(CSSType(6, PlaceSwsp(i), rs2, 2), next)) == Some(SType(i, rs2, 2, 2, 0x23))
  {
    hide *;
    SwspFields(i, rs2, next);
    SwspPlaced(i, rs2, next);
    ExpandQuadrant2(Fetched(CSSType(6, PlaceSwsp(i), rs2, 2), next));
  }

  /** C.JR, C.JALR, C.MV, C.ADD and C.EBREAK. */
  lemma MoveExpands(rd: bv32, rs2: bv32, next: bv32)
    requires 0 < rd < 32 && 0 < rs2 < 32
    ensures Expand(Fetched(CRType(8, rd, 0, 2), next)) == Some(IType(0, rd, 0, 0, 0x67))
    ensures Expand(Fetched(CRType(9, rd, 0, 2), next)) == Some(IType(0, rd, 0, 1, 0x67))
    ensures Expand(Fetched(CRType(8, rd, rs2, 2), next)) == Some(RType(0, rs2, 0, 0, rd, 0x33))
    ensures Expand(Fetched(CRType(9, rd, rs2, 2), next)) == Some(RType(0, rs2, rd, 0, rd, 0x33))
    ensures Expand(Fetched(CRType(9, 0, 0, 2), next)) == Some(IType(1, 0, 0, 0, 0x73))
  {
    hide *;
    MoveFields(8, rd, 0, next);
    MoveFields(9, rd, 0, next);
    MoveFields(8, rd, rs2, next);
    MoveFields(9, rd, rs2, next);
    MoveFields(9, 0, 0, next);
    ExpandQuadrant2(Fetched(CRType(8, rd, 0, 2), next));
    ExpandJumps(Fetched(CRType(8, rd, 0, 2), next));
    ExpandQuadrant2(Fetched(CRType(9, rd, 0, 2), next));
    ExpandJumps(Fetched(CRType(9, rd, 0, 2), next));
    ExpandQuadrant2(Fetched(CRType(8, rd, rs2, 2), next));
    ExpandJumps(Fetched(CRType(8, rd, rs2, 2), next));
    ExpandQuadrant2(Fetched(CRType(9, rd, rs2, 2), next));
    ExpandJumps(Fetched(CRType(9, rd, rs2, 2), next));
    ExpandQuadrant2(Fetched(CRType(9, 0, 0, 2), next));
    ExpandJumps(Fetched(CRType(9, 0, 0, 2), next));
  }
}

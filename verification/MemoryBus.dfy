/** The path of a data access: MemoryInterface.cpp builds a transaction around a 32-bit buffer,
 *  BusCtrl.cpp routes it, and Memory.cpp copies bytes.  Hosts are little-endian. */
module MemoryBus {
  import opened Arithmetic
  import opened Wrappers

  const SIZE := 0x100_0000               // Memory::SIZE, 16 MBytes
  const TRACE_MEMORY_ADDRESS := 0x4000_0000
  const TIMER_MEMORY_ADDRESS_LO := 0x4000_4000
  const TIMER_MEMORY_ADDRESS_HI := 0x4000_4004
  const TIMERCMP_MEMORY_ADDRESS_LO := 0x4000_4008
  const TIMERCMP_MEMORY_ADDRESS_HI := 0x4000_400C
  const TO_HOST_ADDRESS := 0x9000_0000

  type Address = x: int | 0 <= x < 0x1_0000_0000_0000_0000   // std::uint64_t

  // ----- bytes and words -----

  const BYTE := 0x100
  const HALF := 0x1_0000
  const WORD := 0x1_0000_0000
  const DOUBLE := 0x1_0000_0000_0000_0000

  type byte = x: int | 0 <= x < BYTE
  type word = x: int | 0 <= x < WORD
  type double = x: int | 0 <= x < DOUBLE

  function Word(b: seq<byte>): (w: word)
    requires |b| == 4
  {
    Joined(b[0], Joined(b[1], Joined(b[2], b[3])))
  }

  /** A byte and the bytes above it. */
  function Joined(low: byte, high: int): int {
    low + BYTE * high
  }

  lemma JoinedParts(low: byte, high: int)
    ensures Joined(low, high) % BYTE == low && Joined(low, high) / BYTE == high
  {
  }

  function Bytes(w: word): (b: seq<byte>)
    ensures |b| == 4
  {
    var w1 := w / BYTE;
    var w2 := w1 / BYTE;
    [w % BYTE, w1 % BYTE, w2 % BYTE, w2 / BYTE]
  }

  /** The buffer of a transaction: reinterpreting a word as bytes and back. */
  lemma WordOfBytes(w: word)
    ensures Word(Bytes(w)) == w
  {
  }

  // ----- loads -----

  datatype Width = Byte | Half | Full

  function Length(w: Width): (n: nat)
    ensures 0 < n <= 4
  {
    match w
    case Byte => 1
    case Half => 2
    case Full => 4
  }

  function Span(w: Width): (n: nat)
    ensures n > 0
  {
    match w
    case Byte => BYTE
    case Half => HALF
    case Full => WORD
  }

  /** The low 8, 16 or 32 bits of a value, extended by their sign or by zeros to 64 bits.  A
      32-bit register takes the lower half of this. */
  function Extended(v: int, w: Width, signed: bool): double {
    var x := v % Span(w);
    (if signed && x >= Span(w) / 2 then x - Span(w) else x) % DOUBLE
  }

  // ----- what an access does -----

  datatype Region = ToHost | Timer | Trace | Main

  /** The switch of BusCtrl::b_transport. */
  function RegionOf(address: Address): Region {
    var adr := address / 4;
    if adr >= TO_HOST_ADDRESS / 4 then ToHost
    else if adr in {TIMER_MEMORY_ADDRESS_HI / 4, TIMER_MEMORY_ADDRESS_LO / 4,
                    TIMERCMP_MEMORY_ADDRESS_HI / 4, TIMERCMP_MEMORY_ADDRESS_LO / 4} then Timer
    else if adr == TRACE_MEMORY_ADDRESS / 4 then Trace
    else Main
  }

  /** The addresses that Timer::b_transport answers; it ignores the other bytes of its words. */
  predicate TimerRegister(address: Address) {
    address in {TIMER_MEMORY_ADDRESS_LO, TIMER_MEMORY_ADDRESS_HI,
                TIMERCMP_MEMORY_ADDRESS_LO, TIMERCMP_MEMORY_ADDRESS_HI}
  }

  /** Who answers an address, in numbers. */
  lemma RegionExactly(address: Address)
    ensures RegionOf(address).ToHost? <==> 0x9000_0000 <= address
    ensures RegionOf(address).Timer? <==> 0x4000_4000 <= address < 0x4000_4010
    ensures RegionOf(address).Trace? <==> 0x4000_0000 <= address < 0x4000_0004
    ensures TimerRegister(address) <==> 0x4000_4000 <= address < 0x4000_4010 && address % 4 == 0
  {
  }

  lemma TimerRegisterIsTimer(address: Address)
    requires TimerRegister(address)
    ensures RegionOf(address) == Timer
  {
  }

  lemma MainMemoryIsMain(address: Address)
    requires address < SIZE
    ensures RegionOf(address) == Main
  {
  }

  /** Accesses that start inside the array and leave it are undefined behaviour. */
  predicate Defined(address: Address, length: nat) {
    address < SIZE ==> address + length <= SIZE
  }

  function Spliced<T>(m: seq<T>, at: nat, b: seq<T>): seq<T>
    requires at + |b| <= |m|
  {
    m[..at] + b + m[at + |b|..]
  }

  /** The read buffer afterwards; junk is what the uninitialised buffer held before, answer the
      contents of the addressed timer register.  The trace device never writes the buffer. */
  function ReadBuffer(m: seq<byte>, address: Address, length: nat, junk: seq<byte>, answer: seq<byte>): (b: seq<byte>)
    requires |m| == SIZE && |junk| == |answer| == 4 && 0 < length <= 4 && Defined(address, length)
    ensures |b| == 4
  {
    match RegionOf(address)
    case ToHost => junk
    case Timer => if TimerRegister(address) then answer[..length] + junk[length..] else junk
    case Trace => junk
    case Main => if address < SIZE then m[address..address + length] + junk[length..] else junk
  }

  function ReadWord(m: seq<byte>, address: Address, length: nat, junk: seq<byte>, answer: seq<byte>): word
    requires |m| == SIZE && |junk| == |answer| == 4 && 0 < length <= 4 && Defined(address, length)
  {
    Word(ReadBuffer(m, address, length, junk, answer))
  }

  function Written(m: seq<byte>, address: Address, length: nat, data: word): (r: seq<byte>)
    requires |m| == SIZE && 0 < length <= 4 && Defined(address, length)
    ensures |r| == |m|
  {
    if address < SIZE then Spliced(m, address, Bytes(data)[..length]) else m
  }

  // ----- a load after a store -----

  /** The accesses whose response stays incomplete, which MemoryInterface reports as an error.  By
      SystemC's default action that throws, so the access does not return. */
  predicate Reported(address: Address) {
    RegionOf(address).ToHost?
  }

  /** The value that a load returns, if it returns. */
  function Load(m: seq<byte>, address: Address, w: Width, signed: bool, junk: seq<byte>, answer: seq<byte>)
    : Option<double>
    requires |m| == SIZE && |junk| == |answer| == 4 && Defined(address, Length(w))
  {
    if Reported(address) then None else Some(Extended(ReadWord(m, address, Length(w), junk, answer), w, signed))
  }

  /** Stores take the lower half of the register. */
  function Store(m: seq<byte>, address: Address, w: Width, v: double): (r: seq<byte>)
    requires |m| == SIZE && Defined(address, Length(w))
    ensures |r| == |m|
  {
    Written(m, address, Length(w), v % WORD)
  }

  lemma WordModulo(b: seq<byte>)
    requires |b| == 4
    ensures Word(b) % BYTE == b[0] && Word(b) % HALF == b[0] + BYTE * b[1]
  {
    JoinedParts(b[0], Joined(b[1], Joined(b[2], b[3])));
    ModUnique(Word(b), HALF, Joined(b[2], b[3]), b[0] + BYTE * b[1]);
  }

  /** Only the addressed bytes of the buffer matter. */
  lemma ExtendedIgnoresRest(b: seq<byte>, c: seq<byte>, w: Width, signed: bool)
    requires |b| == |c| == 4 && b[..Length(w)] == c[..Length(w)]
    ensures Extended(Word(b), w, signed) == Extended(Word(c), w, signed)
  {
    assert forall i | 0 <= i < Length(w) :: b[i] == b[..Length(w)][i] == c[..Length(w)][i] == c[i];
    WordModulo(b);
    WordModulo(c);
    if w == Full {
      assert b == c;
    }
  }

  lemma LowModulo(v: int, n: int, k: int)
    requires n > 0 && k > 0
    ensures n * k > 0 && v % (n * k) % n == v % n
  {
    AtLeast(k, n);
    assert n * k == k * n;
    var r, q := v % (n * k), v / (n * k);
    assert v == q * (n * k) + r == (q * k) * n + r;
    assert r == (r / n) * n + r % n;
    assert v == (q * k + r / n) * n + r % n;
    ModUnique(v, n, q * k + r / n, r % n);
  }

  lemma ExtendedOfLowHalf(v: double, w: Width, signed: bool)
    ensures Extended(v % WORD, w, signed) == Extended(v, w, signed)
  {
    LowModulo(v, BYTE, 0x100_0000);
    LowModulo(v, HALF, HALF);
  }

  /** A matching load returns the stored value, extended; the uninitialised bytes do not matter. */
  lemma LoadAfterStore(m: seq<byte>, address: Address, w: Width, signed: bool, v: double, junk: seq<byte>,
                       answer: seq<byte>)
    requires |m| == SIZE && |junk| == |answer| == 4 && address + Length(w) <= SIZE
    ensures Load(Store(m, address, w, v), address, w, signed, junk, answer) == Some(Extended(v, w, signed))
  {
    var n, x := Length(w), v % WORD;
    var r := Store(m, address, w, v);
    SplicedRead(m, address, Bytes(x)[..n]);
    var b := ReadBuffer(r, address, n, junk, answer);
    assert b[..n] == Bytes(x)[..n];
    ExtendedIgnoresRest(b, Bytes(x), w, signed);
    WordOfBytes(x);
    ExtendedOfLowHalf(v, w, signed);
  }

  /** A 64-bit pattern as a two's complement number. */
  function TwosComplement(x: double): int {
    if x >= 0x8000_0000_0000_0000 then x - 0x1_0000_0000_0000_0000 else x
  }

  /** r is the number from lo on, m numbers in all, that is congruent to v modulo m. */
  predicate Residue(r: int, v: int, lo: int, m: int)
    requires m > 0
  {
    lo <= r < lo + m && (r - v) % m == 0
  }

  /** What a store of one, two or four bytes keeps of v: an unsigned load from there returns the number
      of 8, 16 or 32 bits that is congruent to v, a signed load the two's complement one; and no other
      byte changes. */
  lemma LoadAfterStoreMeans(m: seq<byte>, address: Address, w: Width, v: double, junk: seq<byte>, answer: seq<byte>)
    requires |m| == SIZE && |junk| == |answer| == 4
    requires address + (match w case Byte => 1 case Half => 2 case Full => 4) <= 0x100_0000
    ensures Defined(address, Length(w))
    ensures var r := Store(m, address, w, v);
            var u, x := Load(r, address, w, false, junk, answer), Load(r, address, w, true, junk, answer);
            && u.Some? && x.Some? && |r| == |m|
            && match w {
                 case Byte => Residue(u.value, v, 0, 0x100) && Residue(TwosComplement(x.value), v, -0x80, 0x100)
                   && (forall i | 0 <= i < |m| && i != address :: r[i] == m[i])
                 case Half => Residue(u.value, v, 0, 0x1_0000) && Residue(TwosComplement(x.value), v, -0x8000, 0x1_0000)
                   && (forall i | 0 <= i < |m| && !(address <= i < address + 2) :: r[i] == m[i])
                 case Full => Residue(u.value, v, 0, 0x1_0000_0000)
                   && Residue(TwosComplement(x.value), v, -0x8000_0000, 0x1_0000_0000)
                   && (forall i | 0 <= i < |m| && !(address <= i < address + 4) :: r[i] == m[i])
               }
  {
    hide Load, Store, Extended;
    LoadAfterStore(m, address, w, false, v, junk, answer);
    LoadAfterStore(m, address, w, true, v, junk, answer);
    StoreIsLocal(m, address, w, v, address + Length(w), Byte, false, junk, answer);
    ExtendedMeans(v, w);
  }

  lemma ExtendedMeans(v: double, w: Width)
    ensures Residue(Extended(v, w, false), v, 0,
                    match w case Byte => 0x100 case Half => 0x1_0000 case Full => 0x1_0000_0000)
    ensures match w
            case Byte => Residue(TwosComplement(Extended(v, w, true)), v, -0x80, 0x100)
            case Half => Residue(TwosComplement(Extended(v, w, true)), v, -0x8000, 0x1_0000)
            case Full => Residue(TwosComplement(Extended(v, w, true)), v, -0x8000_0000, 0x1_0000_0000)
  {
    hide Extended, TwosComplement, Residue;
    ExtendedIs(v, w);
    match w
    case Byte => CutResidue(v, BYTE);
    case Half => CutResidue(v, HALF);
    case Full => CutResidue(v, WORD);
  }

  lemma ExtendedIs(v: double, w: Width)
    ensures var x := v % Span(w);
            && Extended(v, w, false) == x
            && TwosComplement(Extended(v, w, true)) == if x >= Span(w) / 2 then x - Span(w) else x
  {
    BelowDouble(v % Span(w), Span(w));
  }

  lemma BelowDouble(x: int, n: int)
    requires 0 <= x < n <= WORD
    ensures x % DOUBLE == x && (x - n) % DOUBLE == x - n + DOUBLE
  {
  }

  lemma CutResidue(v: int, m: int)
    requires m > 0 && m % 2 == 0
    ensures var x := v % m; Residue(x, v, 0, m) && Residue(if x >= m / 2 then x - m else x, v, -(m / 2), m)
  {
    var x, q := v % m, v / m;
    assert x - v == (-q) * m && x - m - v == (-q - 1) * m;
    ModUnique(x - v, m, -q, 0);
    ModUnique(x - m - v, m, -q - 1, 0);
  }

  lemma SplicedRead<T>(m: seq<T>, at: nat, b: seq<T>)
    requires at + |b| <= |m|
    ensures Spliced(m, at, b)[at..at + |b|] == b
  {
  }

  lemma SplicedElsewhere<T>(m: seq<T>, at: nat, b: seq<T>)
    requires at + |b| <= |m|
    ensures |Spliced(m, at, b)| == |m|
    ensures forall i | 0 <= i < |m| && !(at <= i < at + |b|) :: Spliced(m, at, b)[i] == m[i]
  {
  }

  /** A store changes no byte outside its own, so loads elsewhere are not affected. */
  lemma StoreIsLocal(m: seq<byte>, address: Address, w: Width, v: double, other: Address, u: Width, signed: bool,
                     junk: seq<byte>, answer: seq<byte>)
    requires |m| == SIZE && |junk| == |answer| == 4 && Defined(address, Length(w)) && Defined(other, Length(u))
    requires other + Length(u) <= address || address + Length(w) <= other
    ensures forall i | 0 <= i < SIZE && !(address <= i < address + Length(w)) :: Store(m, address, w, v)[i] == m[i]
    ensures Load(Store(m, address, w, v), other, u, signed, junk, answer) == Load(m, other, u, signed, junk, answer)
  {
    hide Spliced, Extended, Word;
    if address < SIZE {
      var b := Bytes(v % WORD)[..Length(w)];
      SplicedElsewhere(m, address, b);
      if other < SIZE {
        assert Spliced(m, address, b)[other..other + Length(u)] == m[other..other + Length(u)];
      }
    }
  }

  /** The bytes of a stored word lie in memory from the lowest up. */
  lemma BytesOfStoredWord(m: seq<byte>, address: Address, v: double, k: nat, junk: seq<byte>, answer: seq<byte>)
    requires |m| == SIZE && |junk| == |answer| == 4 && address + 4 <= SIZE && k < 4
    ensures Load(Store(m, address, Full, v), address + k, Byte, false, junk, answer)
         == Some((if k == 0 then v else if k == 1 then v / BYTE
                  else if k == 2 then v / BYTE / BYTE else v / BYTE / BYTE / BYTE) % BYTE)
  {
    hide Word, Bytes;
    var x := v % WORD;
    var r := Store(m, address, Full, v);
    SplicedRead(m, address, Bytes(x)[..4]);
    assert r[address + k] == Bytes(x)[k] by {
      assert r[address..address + 4][k] == Bytes(x)[k];
    }
    MainMemoryIsMain(address + k);
    var b := ReadBuffer(r, address + k, 1, junk, answer);
    assert b[0] == r[address + k];
    WordModulo(b);
    ByteOfWord(v, k);
  }

  lemma ByteOfWord(v: double, k: nat)
    requires k < 4
    ensures Bytes(v % WORD)[k]
         == (if k == 0 then v else if k == 1 then v / BYTE
             else if k == 2 then v / BYTE / BYTE else v / BYTE / BYTE / BYTE) % BYTE
  {
    var x, q := v % WORD, v / WORD;
    var x1 := x / BYTE;
    assert v / BYTE == 0x100_0000 * q + x1;
    var x2 := x1 / BYTE;
    assert v / BYTE / BYTE == HALF * q + x2;
    assert v / BYTE / BYTE / BYTE == BYTE * q + x2 / BYTE;
  }

  /** What a load does is determined exactly if it starts inside main memory, at one of the four
      timer registers, or where it is reported as an error.  Anywhere else it returns what the
      buffer happened to hold. */
  lemma LoadIsDeterminedExactly(m: seq<byte>, address: Address, w: Width, signed: bool, answer: seq<byte>)
    requires |m| == SIZE && |answer| == 4 && Defined(address, Length(w))
    ensures (forall j: seq<byte>, k: seq<byte> | |j| == |k| == 4 ::
               Load(m, address, w, signed, j, answer) == Load(m, address, w, signed, k, answer))
       <==> (address < SIZE || TimerRegister(address) || Reported(address))
  {
    hide Extended, Word, RegionOf, TimerRegister;
    if Reported(address) {
    } else if address < SIZE || TimerRegister(address) {
      if address < SIZE {
        MainMemoryIsMain(address);
      } else {
        TimerRegisterIsTimer(address);
      }
      forall j: seq<byte>, k: seq<byte> | |j| == |k| == 4
        ensures Load(m, address, w, signed, j, answer) == Load(m, address, w, signed, k, answer)
      {
        ExtendedIgnoresRest(ReadBuffer(m, address, Length(w), j, answer),
                            ReadBuffer(m, address, Length(w), k, answer), w, signed);
      }
    } else {
      var j, k: seq<byte> := [0, 0, 0, 0], [1, 0, 0, 0];
      assert ReadBuffer(m, address, Length(w), j, answer) == j && ReadBuffer(m, address, Length(w), k, answer) == k;
      ZeroAndOneDiffer(w, signed);
      assert Load(m, address, w, signed, j, answer) != Load(m, address, w, signed, k, answer);
    }
  }

  /** The inputs that show it: a load from the trace device, or from inside a timer register,
      reports no error and returns the stale buffer. */
  lemma DeviceLoadIsStale(m: seq<byte>, address: Address, w: Width, signed: bool, junk: seq<byte>, answer: seq<byte>)
    requires |m| == SIZE && |junk| == |answer| == 4
    requires address == TRACE_MEMORY_ADDRESS || address == TIMER_MEMORY_ADDRESS_LO + 1
    ensures Load(m, address, w, signed, junk, answer) == Some(Extended(Word(junk), w, signed))
  {
    hide Extended, Word;
  }

  lemma ZeroAndOneDiffer(w: Width, signed: bool)
    ensures Extended(Word([0, 0, 0, 0]), w, signed) != Extended(Word([1, 0, 0, 0]), w, signed)
  {
  }

  // ----- 64-bit accesses -----

  /** The address of the upper half, in 64-bit arithmetic. */
  function UpperHalf(address: Address): Address {
    (address + 4) % DOUBLE
  }

  predicate DefinedDouble(address: Address) {
    Defined(address, 4) && Defined(UpperHalf(address), 4)
  }

  /** Exec_SD: two 32-bit stores, the second only if the first returns. */
  function StoreDouble(m: seq<byte>, address: Address, v: double): (r: seq<byte>)
    requires |m| == SIZE && DefinedDouble(address)
    ensures |r| == |m|
  {
    if Reported(address) then m
    else Written(Written(m, address, 4, v % WORD), UpperHalf(address), 4, v / WORD)
  }

  /** The stale buffer and the timer register of each half. */
  datatype Halves = Halves(junk: seq<byte>, answer: seq<byte>, upperJunk: seq<byte>, upperAnswer: seq<byte>)

  predicate Quads(h: Halves) {
    |h.junk| == |h.answer| == |h.upperJunk| == |h.upperAnswer| == 4
  }

  predicate ReportedDouble(address: Address) {
    Reported(address) || Reported(UpperHalf(address))
  }

  /** Exec_LD: two 32-bit loads. */
  function LoadDouble(m: seq<byte>, address: Address, h: Halves): Option<double>
    requires |m| == SIZE && Quads(h) && DefinedDouble(address)
  {
    if ReportedDouble(address) then None
    else
      var upper := ReadWord(m, UpperHalf(address), 4, h.upperJunk, h.upperAnswer);
      Some(ReadWord(m, address, 4, h.junk, h.answer) + WORD * upper)
  }

  lemma FullRead(m: seq<byte>, address: Address, junk: seq<byte>, answer: seq<byte>)
    requires |m| == SIZE && |junk| == |answer| == 4 && address + 4 <= SIZE
    ensures ReadWord(m, address, 4, junk, answer) == Word(m[address..address + 4])
  {
    MainMemoryIsMain(address);
    assert m[address..address + 4] + junk[4..] == m[address..address + 4];
  }

  /** SD then LD returns all 64 bits, and touches only those 8 bytes. */
  lemma LoadAfterStoreDouble(m: seq<byte>, address: Address, v: double, h: Halves)
    requires |m| == SIZE && Quads(h) && address + 8 <= SIZE
    ensures LoadDouble(StoreDouble(m, address, v), address, h) == Some(v)
    ensures forall i | 0 <= i < SIZE && !(address <= i < address + 8) :: StoreDouble(m, address, v)[i] == m[i]
  {
    hide Word, Bytes, Spliced;
    MainMemoryIsMain(address);
    MainMemoryIsMain(address + 4);
    var lo, hi := Bytes(v % WORD), Bytes(v / WORD);
    assert lo[..4] == lo && hi[..4] == hi;
    var s := Spliced(m, address, lo);
    SplicedElsewhere(m, address, lo);
    var r := Spliced(s, address + 4, hi);
    SplicedElsewhere(s, address + 4, hi);
    SplicedRead(m, address, lo);
    SplicedRead(s, address + 4, hi);
    SamePart(r, s, address, address + 4);
    FullRead(r, address, h.junk, h.answer);
    FullRead(r, address + 4, h.upperJunk, h.upperAnswer);
    WordOfBytes(v % WORD);
    WordOfBytes(v / WORD);
  }

  /** The two words of a stored 64-bit number, the lower one at the lower address. */
  lemma WordsOfStoredDouble(m: seq<byte>, address: Address, v: double, junk: seq<byte>, answer: seq<byte>)
    requires |m| == SIZE && |junk| == |answer| == 4 && address + 8 <= SIZE
    ensures var r := StoreDouble(m, address, v);
            && Load(r, address, Full, false, junk, answer) == Some(v % 0x1_0000_0000)
            && Load(r, address + 4, Full, false, junk, answer) == Some(v / 0x1_0000_0000)
  {
    hide Load, Store, Written, Extended;
    MainMemoryIsMain(address);
    var s := Store(m, address, Full, v);
    var r := Store(s, address + 4, Full, v / WORD);
    assert r == StoreDouble(m, address, v) by {
      TwoStores(m, address, v);
    }
    LoadAfterStore(m, address, Full, false, v, junk, answer);
    LoadAfterStore(s, address + 4, Full, false, v / WORD, junk, answer);
    StoreIsLocal(s, address + 4, Full, v / WORD, address, Full, false, junk, answer);
    FullIsWord(v);
    FullIsWord(v / WORD);
  }

  lemma TwoStores(m: seq<byte>, address: Address, v: double)
    requires |m| == SIZE && address + 8 <= SIZE
    ensures Store(Store(m, address, Full, v), address + 4, Full, v / WORD) == StoreDouble(m, address, v)
  {
    hide Written;
    MainMemoryIsMain(address);
  }

  lemma FullIsWord(v: double)
    ensures Extended(v, Full, false) == v % WORD
  {
  }

  function LittleEndian(a: int, b: int, c: int, d: int): int {
    a + 0x100 * b + 0x1_0000 * c + 0x100_0000 * d
  }

  /** A word in memory, least byte first. */
  lemma LoadedWord(m: seq<byte>, address: Address, junk: seq<byte>, answer: seq<byte>)
    requires |m| == SIZE && |junk| == |answer| == 4 && address + 4 <= SIZE
    ensures Load(m, address, Full, false, junk, answer)
         == Some(LittleEndian(m[address], m[address + 1], m[address + 2], m[address + 3]))
    ensures Some(ReadWord(m, address, 4, junk, answer)) == Load(m, address, Full, false, junk, answer)
  {
    hide Extended, ReadWord, Word, LittleEndian;
    MainMemoryIsMain(address);
    FullRead(m, address, junk, answer);
    FullIsWord(ReadWord(m, address, 4, junk, answer));
    WordIsLittleEndian(m[address..address + 4]);
  }

  /** Shorter loads from main memory, and loads from a timer register. */
  lemma LoadedBytes(m: seq<byte>, address: Address, junk: seq<byte>, answer: seq<byte>)
    requires |m| == SIZE && |junk| == |answer| == 4
    ensures address < SIZE ==> Load(m, address, Byte, false, junk, answer) == Some(m[address] as int)
    ensures address + 2 <= SIZE ==>
              Load(m, address, Half, false, junk, answer) == Some(LittleEndian(m[address], m[address + 1], 0, 0))
    ensures TimerRegister(address) ==>
              Load(m, address, Full, false, junk, answer)
                == Some(LittleEndian(answer[0], answer[1], answer[2], answer[3]))
  {
    hide Word, LittleEndian, RegionOf, TimerRegister;
    if address < SIZE {
      MainMemoryIsMain(address);
      WordModulo(ReadBuffer(m, address, 1, junk, answer));
    }
    if address + 2 <= SIZE {
      var b := ReadBuffer(m, address, 2, junk, answer);
      WordModulo(b);
      assert b[0] == m[address] && b[1] == m[address + 1];
      ShortLittleEndian(b[0], b[1]);
    }
    if TimerRegister(address) {
      TimerRegisterIsTimer(address);
      TimersAreAbove(address);
      assert answer[..4] + junk[4..] == answer;
      WordIsLittleEndian(answer);
      FullIsWord(Word(answer));
    }
  }

  lemma TimersAreAbove(address: Address)
    requires TimerRegister(address)
    ensures address >= SIZE
  {
  }

  lemma ShortLittleEndian(a: byte, b: byte)
    ensures LittleEndian(a, b, 0, 0) == a + 0x100 * b
  {
  }

  lemma WordIsLittleEndian(b: seq<byte>)
    requires |b| == 4
    ensures Word(b) == LittleEndian(b[0], b[1], b[2], b[3])
  {
  }

  lemma SamePart<T>(r: seq<T>, s: seq<T>, lo: nat, hi: nat)
    requires |r| == |s| && lo <= hi <= |s| && forall i | lo <= i < hi :: r[i] == s[i]
    ensures r[lo..hi] == s[lo..hi]
  {
  }

  // ----- the three layers -----

  datatype Command = Read | Write

  datatype Response = Incomplete | Okay | AddressError | ByteEnableError | BurstError

  /** The part of tlm_generic_payload that is used; data is the buffer behind the data pointer. */
  class Payload {
    const data: array<byte>
    const command: Command
    const address: Address
    const length: nat
    const streamingWidth: nat
    const byteEnables: bool
    var response: Response

    constructor (command: Command, address: Address, length: nat, data: array<byte>)
      ensures this.command == command && this.address == address && this.length == length && this.data == data
      ensures streamingWidth == 4 && !byteEnables && response == Incomplete
    {
      this.command, this.address, this.length, this.data := command, address, length, data;
      streamingWidth, byteEnables, response := 4, false, Incomplete;
    }
  }

  /** The error that Memory::b_transport reports, or that it does the access. */
  function Checked(address: Address, byteEnables: bool, length: nat, streamingWidth: nat): Response {
    if address >= SIZE then AddressError
    else if byteEnables then ByteEnableError
    else if length > 4 || streamingWidth < length then BurstError
    else Okay
  }

  lemma CheckedExactly(address: Address, byteEnables: bool, length: nat, streamingWidth: nat)
    ensures Checked(address, byteEnables, length, streamingWidth) == Okay <==>
            address < 0x100_0000 && !byteEnables && length <= 4 && length <= streamingWidth
  {
  }

  class Memory {
    const mem: array<byte>

    ghost predicate Valid()
      reads this
    {
      mem.Length == SIZE
    }

    constructor ()
      ensures Valid() && fresh(mem) && forall i | 0 <= i < SIZE :: mem[i] == 0
    {
      mem := new byte[SIZE](_ => 0);
    }

    /** Memory::b_transport. */
    method Transport(trans: Payload)
      requires Valid() && trans.data.Length == 4 && trans.data != mem && Defined(trans.address, trans.length)
      modifies trans`response, trans.data, mem
      ensures trans.response == Checked(trans.address, trans.byteEnables, trans.length, trans.streamingWidth)
      ensures mem[..] == if trans.response == Okay && trans.command == Write
                         then Spliced(old(mem[..]), trans.address, old(trans.data[..trans.length])) else old(mem[..])
      ensures trans.data[..] == if trans.response == Okay && trans.command == Read
                         then old(mem[trans.address..trans.address + trans.length]) + old(trans.data[trans.length..])
                         else old(trans.data[..])
    {
      var adr, len := trans.address, trans.length;
      if adr >= SIZE {
        trans.response := AddressError;
        return;
      }
      if trans.byteEnables {
        trans.response := ByteEnableError;
        return;
      }
      if len > 4 || trans.streamingWidth < len {
        trans.response := BurstError;
        return;
      }
      match trans.command {
        case Read =>
          forall i | 0 <= i < len {
            trans.data[i] := mem[adr + i];
          }
        case Write =>
          forall i | 0 <= i < len {
            mem[adr + i] := trans.data[i];
          }
      }
      trans.response := Okay;
    }
  }

  class BusCtrl {
    const memory: Memory

    ghost predicate Valid()
      reads this, memory
    {
      memory.Valid()
    }

    constructor (memory: Memory)
      requires memory.Valid()
      ensures Valid() && this.memory == memory
    {
      this.memory := memory;
    }

    /** BusCtrl::b_transport, with what Timer::b_transport and Trace::b_transport do to the buffer;
        answer is the contents of the addressed timer register.  The error of an address that the
        timer does not know is overwritten here. */
    method Transport(trans: Payload, answer: seq<byte>)
      requires Valid() && trans.data.Length == |answer| == 4 && trans.data != memory.mem
      requires trans.response == Incomplete && 0 < trans.length <= trans.streamingWidth == 4 && !trans.byteEnables
      requires Defined(trans.address, trans.length)
      modifies trans`response, trans.data, memory.mem
      ensures trans.response == if RegionOf(trans.address).ToHost? then Incomplete else Okay
      ensures trans.command == Read ==>
                && memory.mem[..] == old(memory.mem[..])
                && trans.data[..] == ReadBuffer(old(memory.mem[..]), trans.address, trans.length,
                    old(trans.data[..]), answer)
      ensures trans.command == Write ==>
                memory.mem[..] == (if trans.address < SIZE
                  then Spliced(old(memory.mem[..]), trans.address, old(trans.data[..trans.length]))
                  else old(memory.mem[..]))
    {
      var adr := trans.address / 4;
      if adr >= TO_HOST_ADDRESS / 4 {
        return;
      }
      if adr in {TIMER_MEMORY_ADDRESS_HI / 4, TIMER_MEMORY_ADDRESS_LO / 4,
                 TIMERCMP_MEMORY_ADDRESS_HI / 4, TIMERCMP_MEMORY_ADDRESS_LO / 4} {
        if trans.command == Read && TimerRegister(trans.address) {
          forall i | 0 <= i < trans.length {
            trans.data[i] := answer[i];
          }
        }
      } else if adr == TRACE_MEMORY_ADDRESS / 4 {
        // the first byte of the buffer goes to the terminal
      } else {
        memory.Transport(trans);
      }
      trans.response := Okay;
    }
  }

  class MemoryInterface {
    const bus: BusCtrl

    ghost predicate Valid()
      reads this, bus, bus.memory
    {
      bus.Valid()
    }

    constructor (bus: BusCtrl)
      requires bus.Valid()
      ensures Valid() && this.bus == bus
    {
      this.bus := bus;
    }

    /** MemoryInterface::readDataMem; junk is what the local variable held. */
    method ReadDataMem(addr: Address, size: nat, junk: seq<byte>, answer: seq<byte>) returns (data: word, error: bool)
      requires Valid() && |junk| == |answer| == 4 && 0 < size <= 4 && Defined(addr, size)
      modifies bus.memory.mem
      ensures bus.memory.mem[..] == old(bus.memory.mem[..])
      ensures data == ReadWord(bus.memory.mem[..], addr, size, junk, answer)
      ensures error == Reported(addr)
    {
      var buffer := new byte[4](i requires 0 <= i < 4 => junk[i]);
      assert buffer[..] == junk;
      var trans := new Payload(Read, addr, size, buffer);
      bus.Transport(trans, answer);
      data := Word(trans.data[..]);
      error := trans.response != Okay;
    }

    /** MemoryInterface::writeDataMem. */
    method WriteDataMem(addr: Address, data: word, size: nat) returns (error: bool)
      requires Valid() && 0 < size <= 4 && Defined(addr, size)
      modifies bus.memory.mem
      ensures bus.memory.mem[..] == Written(old(bus.memory.mem[..]), addr, size, data)
      ensures error == Reported(addr)
    {
      var bytes := Bytes(data);
      var buffer := new byte[4](i requires 0 <= i < 4 => bytes[i]);
      assert buffer[..size] == bytes[..size];
      var trans := new Payload(Write, addr, size, buffer);
      bus.Transport(trans, bytes);
      error := trans.response != Okay;
    }
  }

  /** The memory part of Exec_LB to Exec_LWU, Exec_SB to Exec_SW, Exec_LD and Exec_SD. */
  class LoadStore {
    const mem_intf: MemoryInterface

    ghost predicate Valid()
      reads this, mem_intf, mem_intf.bus, mem_intf.bus.memory
    {
      mem_intf.Valid()
    }

    constructor (mem_intf: MemoryInterface)
      requires mem_intf.Valid()
      ensures Valid() && this.mem_intf == mem_intf
    {
      this.mem_intf := mem_intf;
    }

    method LoadValue(mem_addr: Address, w: Width, signed: bool, junk: seq<byte>, answer: seq<byte>)
      returns (value: Option<double>)
      requires Valid() && |junk| == |answer| == 4 && Defined(mem_addr, Length(w))
      modifies mem_intf.bus.memory.mem
      ensures mem_intf.bus.memory.mem[..] == old(mem_intf.bus.memory.mem[..])
      ensures value == Load(mem_intf.bus.memory.mem[..], mem_addr, w, signed, junk, answer)
    {
      hide ReadWord, Extended, Reported;
      var data, error := mem_intf.ReadDataMem(mem_addr, Length(w), junk, answer);
      value := if error then None else Some(Extended(data, w, signed));
    }

    method StoreValue(mem_addr: Address, w: Width, value: double) returns (error: bool)
      requires Valid() && Defined(mem_addr, Length(w))
      modifies mem_intf.bus.memory.mem
      ensures error == Reported(mem_addr)
      ensures mem_intf.bus.memory.mem[..] == Store(old(mem_intf.bus.memory.mem[..]), mem_addr, w, value)
    {
      hide Written, Reported;
      error := mem_intf.WriteDataMem(mem_addr, value % WORD, Length(w));
    }

    method LD(mem_addr: Address, h: Halves) returns (data: Option<double>)
      requires Valid() && Quads(h) && DefinedDouble(mem_addr)
      modifies mem_intf.bus.memory.mem
      ensures mem_intf.bus.memory.mem[..] == old(mem_intf.bus.memory.mem[..])
      ensures data == LoadDouble(mem_intf.bus.memory.mem[..], mem_addr, h)
    {
      hide ReadWord, Reported;
      var low, error := mem_intf.ReadDataMem(mem_addr, 4, h.junk, h.answer);
      if error {
        return None;
      }
      var aux, error' := mem_intf.ReadDataMem((mem_addr + 4) % DOUBLE, 4, h.upperJunk, h.upperAnswer);
      data := if error' then None else Some(low + WORD * aux);
    }

    method SD(mem_addr: Address, data: double) returns (error: bool)
      requires Valid() && DefinedDouble(mem_addr)
      modifies mem_intf.bus.memory.mem
      ensures error == ReportedDouble(mem_addr)
      ensures mem_intf.bus.memory.mem[..] == StoreDouble(old(mem_intf.bus.memory.mem[..]), mem_addr, data)
    {
      error := mem_intf.WriteDataMem(mem_addr, data % WORD, 4);
      if error {
        return;
      }
      error := mem_intf.WriteDataMem((mem_addr + 4) % DOUBLE, data / WORD, 4);
    }
  }
}

/** memory.c: a byte array read and written in bytes, halves and words. */
module Memory {
  import opened Words

  datatype Mem = Mem(bytes: seq<Byte>, big: bool)

  datatype Width = B1 | H2 | W4

  function Size(w: Width): nat {
    match w case B1 => 1 case H2 => 2 case W4 => 4
  }

  /** The guard of every access: lines 57, 66, 79, 92, 100 and 114. */
  predicate Refused(m: Mem, a: Word, w: Width) {
    || a / 4 > |m.bytes|
    || (w == H2 && a % 4 > 2)
    || (w == W4 && a % 4 > 0)
  }

  /** The guard compares the word number with the byte count, so it lets
      through accesses that leave the array. C says nothing about those. */
  predicate Overruns(m: Mem, a: Word, w: Width) {
    !Refused(m, a, w) && a + Size(w) > |m.bytes|
  }

  predicate InRange(m: Mem, a: Word, w: Width) {
    !Refused(m, a, w) && a + Size(w) <= |m.bytes|
  }

  /** The weight of byte j of a value of width w. */
  function Weight(big: bool, w: Width, j: nat): (p: nat)
    requires j < Size(w)
    ensures p > 0
  {
    var k := if big then Size(w) - 1 - j else j;
    if k == 0 then 1 else if k == 1 then 0x100 else if k == 2 then 0x1_0000 else 0x100_0000
  }

  /** Byte j of a stored value, in address order. */
  function Digit(big: bool, w: Width, v: nat, j: nat): Byte
    requires j < Size(w)
  {
    v / Weight(big, w, j) % 0x100
  }

  /** The value the bytes at a stand for. */
  function Load(m: Mem, a: nat, w: Width): Word
    requires a + Size(w) <= |m.bytes|
  {
    match w
    case B1 => m.bytes[a]
    case H2 => m.bytes[a] * Weight(m.big, H2, 0) + m.bytes[a + 1] * Weight(m.big, H2, 1)
    case W4 =>
      WordFits(m.big, m.bytes[a], m.bytes[a + 1], m.bytes[a + 2], m.bytes[a + 3]);
      m.bytes[a] * Weight(m.big, W4, 0) + m.bytes[a + 1] * Weight(m.big, W4, 1)
      + m.bytes[a + 2] * Weight(m.big, W4, 2) + m.bytes[a + 3] * Weight(m.big, W4, 3)
  }

  lemma WordFits(big: bool, b0: Byte, b1: Byte, b2: Byte, b3: Byte)
    ensures 0 <= b0 * Weight(big, W4, 0) + b1 * Weight(big, W4, 1) + b2 * Weight(big, W4, 2) + b3 * Weight(big, W4, 3)
              < 0x1_0000_0000
  {
    WordWeights(big);
    hide Weight;
    if big {
      BytesFit(b0, b1, b2, b3);
    } else {
      BytesFit(b3, b2, b1, b0);
    }
  }

  lemma WordWeights(big: bool)
    ensures Weight(big, W4, 0) == (if big then 0x100_0000 else 1)
    ensures Weight(big, W4, 1) == (if big then 0x1_0000 else 0x100)
    ensures Weight(big, W4, 2) == (if big then 0x100 else 0x1_0000)
    ensures Weight(big, W4, 3) == (if big then 1 else 0x100_0000)
  {
  }

  lemma BytesFit(b3: Byte, b2: Byte, b1: Byte, b0: Byte)
    ensures 0 <= b3 * 0x100_0000 + b2 * 0x1_0000 + b1 * 0x100 + b0 < 0x1_0000_0000
  {
  }

  function Store(m: Mem, a: nat, w: Width, v: nat): (m': Mem)
    requires a + Size(w) <= |m.bytes|
    ensures |m'.bytes| == |m.bytes| && m'.big == m.big
  {
    match w
    case B1 => m.(bytes := m.bytes[a := Digit(m.big, B1, v, 0)])
    case H2 => m.(bytes := m.bytes[a := Digit(m.big, H2, v, 0)][a + 1 := Digit(m.big, H2, v, 1)])
    case W4 =>
      m.(bytes := m.bytes[a := Digit(m.big, W4, v, 0)][a + 1 := Digit(m.big, W4, v, 1)]
                         [a + 2 := Digit(m.big, W4, v, 2)][a + 3 := Digit(m.big, W4, v, 3)])
  }

  /** What fits in an access of width w. */
  function Limit(w: Width): nat {
    match w case B1 => 0x100 case H2 => 0x1_0000 case W4 => 0x1_0000_0000
  }

  /** A value read back where it was stored is the value. */
  lemma LoadStored(m: Mem, a: nat, w: Width, v: nat)
    requires a + Size(w) <= |m.bytes| && v < Limit(w)
    ensures Load(Store(m, a, w, v), a, w) == v
  {
    if w == W4 {
      LoadStoredWord(m, a, v);
      hide Store, Load;
    } else if w == H2 {
      HalfDigitsSum(m.big, v);
      hide Digit, Weight;
    }
  }

  lemma HalfDigitsSum(big: bool, v: nat)
    requires v < 0x1_0000
    ensures Digit(big, H2, v, 0) * Weight(big, H2, 0) + Digit(big, H2, v, 1) * Weight(big, H2, 1) == v
  {
    assert v / 0x100 % 0x100 == v / 0x100;
  }

  lemma LoadStoredWord(m: Mem, a: nat, v: Word)
    requires a + 4 <= |m.bytes|
    ensures Load(Store(m, a, W4, v), a, W4) == v
  {
    StoredWordBytes(m, a, v);
    DigitsSum(m.big, v);
    hide Store, Digit;
  }

  lemma StoredWordBytes(m: Mem, a: nat, v: Word)
    requires a + 4 <= |m.bytes|
    ensures var m' := Store(m, a, W4, v);
            && m'.bytes[a] == Digit(m.big, W4, v, 0) && m'.bytes[a + 1] == Digit(m.big, W4, v, 1)
            && m'.bytes[a + 2] == Digit(m.big, W4, v, 2) && m'.bytes[a + 3] == Digit(m.big, W4, v, 3)
  {
    hide Digit;
  }

  lemma DigitsSum(big: bool, v: Word)
    ensures Digit(big, W4, v, 0) * Weight(big, W4, 0) + Digit(big, W4, v, 1) * Weight(big, W4, 1)
            + Digit(big, W4, v, 2) * Weight(big, W4, 2) + Digit(big, W4, v, 3) * Weight(big, W4, 3) == v
  {
    var b3, b2, b1, b0 := DigitsOfWord(v);
    if big {
      BigDigits(v);
    } else {
      LittleDigits(v);
    }
    hide Digit;
  }

  lemma BigDigits(v: Word)
    ensures Digit(true, W4, v, 0) == v / 0x100_0000 && Digit(true, W4, v, 1) == v / 0x1_0000 % 0x100
    ensures Digit(true, W4, v, 2) == v / 0x100 % 0x100 && Digit(true, W4, v, 3) == v % 0x100
  {
  }

  lemma LittleDigits(v: Word)
    ensures Digit(false, W4, v, 0) == v % 0x100 && Digit(false, W4, v, 1) == v / 0x100 % 0x100
    ensures Digit(false, W4, v, 2) == v / 0x1_0000 % 0x100 && Digit(false, W4, v, 3) == v / 0x100_0000
  {
  }

  /** Bytes outside a store keep their value, and so do loads of them. */
  lemma LoadElsewhere(m: Mem, a: nat, w: Width, v: nat, a': nat, w': Width)
    requires a + Size(w) <= |m.bytes| && a' + Size(w') <= |m.bytes|
    requires a' + Size(w') <= a || a + Size(w) <= a'
    ensures Load(Store(m, a, w, v), a', w') == Load(m, a', w')
  {
  }

  class ByteMemory {
    const adresses: array<Byte>
    const isBigEndian: bool

    ghost function Value(): Mem
      reads adresses
    {
      Mem(adresses[..], isBigEndian)
    }

    /** memory_create; the allocated bytes are not initialised in C. */
    constructor (size: nat, isBigEndian: bool)
      ensures fresh(adresses) && adresses.Length == size
      ensures this.isBigEndian == isBigEndian
    {
      adresses := new Byte[size];
      this.isBigEndian := isBigEndian;
    }

    method ReadByte(address: Word) returns (status: int, value: Byte)
      requires !Overruns(Value(), address, B1)
      ensures status == if Refused(Value(), address, B1) then -1 else 0
      ensures status == 0 ==> value == Load(Value(), address, B1)
    {
      if address / 4 > adresses.Length {
        return -1, 0;
      }
      value := adresses[address];
      status := 0;
    }

    method ReadHalf(address: Word) returns (status: int, value: nat)
      requires !Overruns(Value(), address, H2)
      ensures status == if Refused(Value(), address, H2) then -1 else 0
      ensures status == 0 ==> value == Load(Value(), address, H2)
    {
      if address / 4 > adresses.Length || address % 4 > 2 {
        return -1, 0;
      }
      value := adresses[address] as int * 0x100 + adresses[address + 1];
      Reverse2Digits(adresses[address], adresses[address + 1]);
      if !isBigEndian {
        value := Reverse2(value);
      }
      status := 0;
    }

    method ReadWord(address: Word) returns (status: int, value: Word)
      requires !Overruns(Value(), address, W4)
      ensures status == if Refused(Value(), address, W4) then -1 else 0
      ensures status == 0 ==> value == Load(Value(), address, W4)
    {
      if address / 4 > adresses.Length || address % 4 > 0 {
        return -1, 0;
      }
      value := adresses[address] as int * 0x100_0000 + adresses[address + 1] as int * 0x1_0000
               + adresses[address + 2] as int * 0x100 + adresses[address + 3];
      FourDigits(value, adresses[address], adresses[address + 1], adresses[address + 2], adresses[address + 3]);
      if !isBigEndian {
        value := Reverse4(value);
      }
      status := 0;
    }

    method WriteByte(address: Word, value: Byte) returns (status: int)
      requires !Overruns(Value(), address, B1)
      modifies adresses
      ensures status == if Refused(old(Value()), address, B1) then -1 else 0
      ensures Value() == if status == 0 then Store(old(Value()), address, B1, value) else old(Value())
    {
      if address / 4 > adresses.Length {
        return -1;
      }
      adresses[address] := value;
      status := 0;
      assert Value().bytes == Store(old(Value()), address, B1, value).bytes;
    }

    method WriteHalf(address: Word, value: nat) returns (status: int)
      requires value < 0x1_0000
      requires !Overruns(Value(), address, H2)
      modifies adresses
      ensures status == if Refused(old(Value()), address, H2) then -1 else 0
      ensures Value() == if status == 0 then Store(old(Value()), address, H2, value) else old(Value())
    {
      if address / 4 > adresses.Length || address % 4 > 2 {
        return -1;
      }
      HalfBytes(value);
      hide Digit, Reverse2;
      var v := value;
      if isBigEndian {
        v := Reverse2(v);
      }
      adresses[address + 1] := v / 0x100;
      adresses[address] := v % 0x100;
      status := 0;
      assert Value().bytes == Store(old(Value()), address, H2, value).bytes;
    }

    method WriteWord(address: Word, value: Word) returns (status: int)
      requires !Overruns(Value(), address, W4)
      modifies adresses
      ensures status == if Refused(old(Value()), address, W4) then -1 else 0
      ensures Value() == if status == 0 then Store(old(Value()), address, W4, value) else old(Value())
    {
      if address / 4 > adresses.Length || address % 4 > 0 {
        return -1;
      }
      var v := value;
      if isBigEndian {
        v := Reverse4(v);
      }
      BigBytes(value);
      LittleDigits(value);
      ghost var m := Value();
      assert adresses[..] == m.bytes;
      adresses[address] := v % 0x100;
      adresses[address + 1] := v / 0x100 % 0x100;
      adresses[address + 2] := v / 0x1_0000 % 0x100;
      adresses[address + 3] := v / 0x100_0000;
      status := 0;
      hide Digit, Reverse4;
      assert adresses[..] == m.bytes[address := Digit(m.big, W4, value, 0)][address + 1 := Digit(m.big, W4, value, 1)]
                                    [address + 2 := Digit(m.big, W4, value, 2)]
                                    [address + 3 := Digit(m.big, W4, value, 3)];
    }
  }

  lemma HalfBytes(v: nat)
    requires v < 0x1_0000
    ensures Digit(false, H2, v, 0) == v % 0x100 && Digit(false, H2, v, 1) == v / 0x100
    ensures var r := Reverse2(v);
      Digit(true, H2, v, 0) == r % 0x100 && Digit(true, H2, v, 1) == r / 0x100
  {
    Reverse2Digits(v / 0x100, v % 0x100);
    assert v / 0x100 * 0x100 + v % 0x100 == v && v / 0x100 % 0x100 == v / 0x100;
    DivModUnique(Reverse2(v), 0x100, v % 0x100, v / 0x100);
    hide Reverse2;
  }

  lemma BigBytes(v: Word)
    ensures var r := Reverse4(v);
            && Digit(true, W4, v, 0) == r % 0x100 && Digit(true, W4, v, 1) == r / 0x100 % 0x100
            && Digit(true, W4, v, 2) == r / 0x1_0000 % 0x100 && Digit(true, W4, v, 3) == r / 0x100_0000
  {
    var b3, b2, b1, b0 := Reverse4Digits(v);
    FourDigits(v, b3, b2, b1, b0);
    FourDigits(Reverse4(v), b0, b1, b2, b3);
    BigDigits(v);
    hide Reverse4, Digit;
  }
}

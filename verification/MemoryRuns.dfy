/** What memory.c promises over whole sequences of accesses: reads see the most
    recent writes byte by byte, and a big-endian memory is a little-endian one
    with the bytes of every word mirrored. */
module MemoryRuns {
  import opened Words
  import opened Memory

  datatype Access = ReadAt(w: Width, a: Word) | WriteAt(w: Width, a: Word, v: Word)

  datatype Reply = Answer(value: Word) | Done | Refusal | OutOfArray

  function Perform(m: Mem, x: Access): (r: (Mem, Reply))
    ensures |r.0.bytes| == |m.bytes| && r.0.big == m.big
  {
    if Refused(m, x.a, x.w) then (m, Refusal)
    else if Overruns(m, x.a, x.w) then (m, OutOfArray)
    else match x
      case ReadAt(w, a) => (m, Answer(Load(m, a, w)))
      case WriteAt(w, a, v) => (Store(m, a, w, v), Done)
  }

  function Replay(m: Mem, xs: seq<Access>): (r: (Mem, seq<Reply>))
    ensures |r.0.bytes| == |m.bytes| && r.0.big == m.big
  {
    if xs == [] then (m, [])
    else
      var (m1, replies) := Replay(m, xs[..|xs| - 1]);
      var (m2, reply) := Perform(m1, xs[|xs| - 1]);
      (m2, replies + [reply])
  }

  // ---------- the most recent write ----------

  /** Whether access x writes byte a of a memory of the given size. */
  predicate Covers(m: Mem, x: Access, a: nat) {
    x.WriteAt? && InRange(m, x.a, x.w) && x.a <= a < x.a + Size(x.w)
  }

  /** Byte a after the accesses, found by looking back for the last write that
      covers it. */
  function Recent(m: Mem, xs: seq<Access>, a: nat): Byte
    requires a < |m.bytes|
  {
    if xs == [] then m.bytes[a]
    else
      var x := xs[|xs| - 1];
      if Covers(m, x, a) then Digit(m.big, x.w, x.v, a - x.a)
      else Recent(m, xs[..|xs| - 1], a)
  }

  lemma {:induction false} BytesAreRecent(m: Mem, xs: seq<Access>, a: nat)
    requires a < |m.bytes|
    ensures Replay(m, xs).0.bytes[a] == Recent(m, xs, a)
  {
    if xs != [] {
      BytesAreRecent(m, xs[..|xs| - 1], a);
    }
  }

  /** A read in range after any accesses combines the recent bytes in the order
      the endianness asks for. */
  lemma ReadsSeeRecentWrites(m: Mem, xs: seq<Access>, w: Width, a: Word)
    requires Inside(m, a, w)
    ensures Perform(Replay(m, xs).0, ReadAt(w, a)).1 ==
      Answer(match w
        case B1 => Recent(m, xs, a)
        case H2 =>
          if m.big then Recent(m, xs, a) * 0x100 + Recent(m, xs, a + 1)
          else Recent(m, xs, a) + Recent(m, xs, a + 1) * 0x100
        case W4 =>
          if m.big then
            Recent(m, xs, a) * 0x100_0000 + Recent(m, xs, a + 1) * 0x1_0000
            + Recent(m, xs, a + 2) * 0x100 + Recent(m, xs, a + 3)
          else
            Recent(m, xs, a) + Recent(m, xs, a + 1) * 0x100
            + Recent(m, xs, a + 2) * 0x1_0000 + Recent(m, xs, a + 3) * 0x100_0000)
  {
    GuardExact(m, a, w);
    BytesAreRecent(m, xs, a);
    if w != B1 {
      BytesAreRecent(m, xs, a + 1);
    }
    if w == W4 {
      BytesAreRecent(m, xs, a + 2);
      BytesAreRecent(m, xs, a + 3);
    }
    var m' := Replay(m, xs).0;
    LoadByEndianness(m', a, w);
    hide Recent, Replay, Load, Weight;
  }

  lemma LoadByEndianness(m: Mem, a: nat, w: Width)
    requires a + Size(w) <= |m.bytes|
    ensures Load(m, a, w) == match w
      case B1 => m.bytes[a] as int
      case H2 =>
        if m.big then m.bytes[a] as int * 0x100 + m.bytes[a + 1] as int
        else m.bytes[a] as int + m.bytes[a + 1] as int * 0x100
      case W4 =>
        if m.big then
          m.bytes[a] as int * 0x100_0000 + m.bytes[a + 1] as int * 0x1_0000
          + m.bytes[a + 2] as int * 0x100 + m.bytes[a + 3] as int
        else
          m.bytes[a] as int + m.bytes[a + 1] as int * 0x100
          + m.bytes[a + 2] as int * 0x1_0000 + m.bytes[a + 3] as int * 0x100_0000
  {
  }

  /** An access to bytes of the array that lie in one aligned word. */
  predicate Inside(m: Mem, a: Word, w: Width) {
    a + Size(w) <= |m.bytes| && (a + Size(w) - 1) / 4 == a / 4
  }

  /** The guard refuses exactly the accesses that straddle two words or begin beyond four
      times the array; so those of the array that do not straddle are all served. */
  lemma GuardExact(m: Mem, a: Word, w: Width)
    ensures Refused(m, a, w) <==> a >= 4 * |m.bytes| + 4 || (a + Size(w) - 1) / 4 != a / 4
    ensures InRange(m, a, w) <==> Inside(m, a, w)
  {
  }

  /** An access the guard accepts stays inside one aligned word. */
  lemma AcceptedStaysInWord(m: Mem, a: Word, w: Width)
    requires !Refused(m, a, w)
    ensures (a + Size(w) - 1) / 4 == a / 4
  {
  }

  // ---------- endianness ----------

  /** The byte at the same distance from the other end of its word. */
  function Opposite(a: nat): nat {
    a - a % 4 + 3 - a % 4
  }

  lemma OppositeAdd(a: nat, j: nat)
    requires a % 4 + j <= 3
    ensures Opposite(a + j) + j == Opposite(a)
    ensures Opposite(a + j) / 4 == a / 4
  {
  }

  /** Where an access goes when every word is turned around. A half that would
      straddle two words is refused and stays where it is. */
  function MirrorAddress(w: Width, a: Word): Word {
    if w == H2 && a % 4 == 3 then a
    else if w == W4 then a
    else Opposite(a) - (Size(w) - 1)
  }

  function Mirror(x: Access): Access {
    x.(a := MirrorAddress(x.w, x.a))
  }

  function MirrorAll(xs: seq<Access>): (ys: seq<Access>)
    ensures |ys| == |xs|
  {
    if xs == [] then [] else MirrorAll(xs[..|xs| - 1]) + [Mirror(xs[|xs| - 1])]
  }

  /** A big-endian memory of whole words and its little-endian mirror image. */
  ghost predicate Twins(be: Mem, le: Mem) {
    && be.big && !le.big
    && |be.bytes| == |le.bytes| && |be.bytes| % 4 == 0
    && forall a: nat :: a < |be.bytes| ==> be.bytes[a] == le.bytes[Opposite(a)]
  }

  lemma TwinGuards(be: Mem, le: Mem, w: Width, a: Word)
    requires Twins(be, le)
    ensures Refused(be, a, w) == Refused(le, MirrorAddress(w, a), w)
    ensures Overruns(be, a, w) == Overruns(le, MirrorAddress(w, a), w)
  {
    var b := MirrorAddress(w, a);
    assert a / 4 == b / 4;
  }

  lemma TwinLoads(be: Mem, le: Mem, w: Width, a: Word)
    requires Twins(be, le) && InRange(be, a, w)
    ensures InRange(le, MirrorAddress(w, a), w)
    ensures Load(be, a, w) == Load(le, MirrorAddress(w, a), w)
  {
    TwinGuards(be, le, w, a);
    MirroredBytes(be, le, w, a);
    hide MirrorAddress, Opposite, Twins;
  }

  lemma MirroredBytes(be: Mem, le: Mem, w: Width, a: Word)
    requires Twins(be, le) && InRange(be, a, w)
    requires InRange(le, MirrorAddress(w, a), w)
    ensures be.big && !le.big
    ensures be.bytes[a] == le.bytes[MirrorAddress(w, a) + Size(w) - 1]
    ensures w != B1 ==> be.bytes[a + 1] == le.bytes[MirrorAddress(w, a) + Size(w) - 2]
    ensures w == W4 ==> be.bytes[a + 2] == le.bytes[a + 1] && be.bytes[a + 3] == le.bytes[a]
  {
    assert MirrorAddress(w, a) + Size(w) - 1 == Opposite(a);
    assert w != B1 ==> a % 4 + (Size(w) - 1) <= 3;
    hide MirrorAddress;
    assert be.bytes[a] == le.bytes[Opposite(a)];
    if w != B1 {
      OppositeAdd(a, 1);
      assert be.bytes[a + 1] == le.bytes[Opposite(a + 1)];
    }
    if w == W4 {
      OppositeAdd(a, 2);
      OppositeAdd(a, 3);
      assert be.bytes[a + 2] == le.bytes[Opposite(a + 2)];
      assert be.bytes[a + 3] == le.bytes[Opposite(a + 3)];
    }
    hide Opposite;
  }

  lemma TwinStores(be: Mem, le: Mem, w: Width, a: Word, v: Word)
    requires Twins(be, le) && InRange(be, a, w)
    ensures InRange(le, MirrorAddress(w, a), w)
    ensures Twins(Store(be, a, w, v), Store(le, MirrorAddress(w, a), w, v))
  {
    TwinGuards(be, le, w, a);
    hide MirrorAddress, Opposite, Refused, Store;
    forall i: nat | i < |be.bytes|
      ensures Opposite(i) < |be.bytes|
      ensures Store(be, a, w, v).bytes[i] == Store(le, MirrorAddress(w, a), w, v).bytes[Opposite(i)]
    {
      TwinStoredByte(be, le, w, a, v, i);
    }
  }

  lemma TwinStoredByte(be: Mem, le: Mem, w: Width, a: Word, v: Word, i: nat)
    requires Twins(be, le) && InRange(be, a, w) && InRange(le, MirrorAddress(w, a), w)
    requires i < |be.bytes|
    ensures Opposite(i) < |be.bytes|
    ensures Store(be, a, w, v).bytes[i] == Store(le, MirrorAddress(w, a), w, v).bytes[Opposite(i)]
  {
    OppositeBelow(i, |be.bytes|);
    MirroredSpan(w, a, i);
    hide Opposite, MirrorAddress;
    StoredByte(be, a, w, v, i);
    StoredByte(le, MirrorAddress(w, a), w, v, Opposite(i));
    hide Store, Digit;
    if a <= i < a + Size(w) {
      MirroredDigit(w, v, i - a);
    } else {
      assert be.bytes[i] == le.bytes[Opposite(i)];
    }
  }

  lemma OppositeBelow(i: nat, n: nat)
    requires i < n && n % 4 == 0
    ensures Opposite(i) < n
  {
  }

  lemma MirroredSpan(w: Width, a: Word, i: nat)
    requires !(w == H2 && a % 4 == 3) && !(w == W4 && a % 4 != 0)
    ensures var b := MirrorAddress(w, a);
      a <= i < a + Size(w) <==> b <= Opposite(i) < b + Size(w)
    ensures a <= i < a + Size(w) ==> Opposite(i) - MirrorAddress(w, a) == Size(w) - 1 - (i - a)
  {
  }

  lemma StoredByte(m: Mem, a: nat, w: Width, v: Word, i: nat)
    requires a + Size(w) <= |m.bytes| && i < |m.bytes|
    ensures Store(m, a, w, v).bytes[i] ==
      if a <= i < a + Size(w) then Digit(m.big, w, v, i - a) else m.bytes[i]
  {
    hide Digit;
  }

  lemma MirroredDigit(w: Width, v: Word, j: nat)
    requires j < Size(w)
    ensures Digit(true, w, v, j) == Digit(false, w, v, Size(w) - 1 - j)
  {
  }

  /** Replaying the mirrored accesses on the mirrored memory gives the same
      replies, refusals included, and keeps the memories mirror images. */
  lemma {:induction false} EndianSimulation(be: Mem, le: Mem, xs: seq<Access>)
    requires Twins(be, le)
    ensures Replay(be, xs).1 == Replay(le, MirrorAll(xs)).1
    ensures Twins(Replay(be, xs).0, Replay(le, MirrorAll(xs)).0)
  {
    if xs != [] {
      var front, x := xs[..|xs| - 1], xs[|xs| - 1];
      EndianSimulation(be, le, front);
      var be', le' := Replay(be, front).0, Replay(le, MirrorAll(front)).0;
      TwinStep(be', le', x);
      var ys := MirrorAll(xs);
      assert ys[..|ys| - 1] == MirrorAll(front) && ys[|ys| - 1] == Mirror(x);
    }
  }

  lemma TwinStep(be: Mem, le: Mem, x: Access)
    requires Twins(be, le)
    ensures Perform(be, x).1 == Perform(le, Mirror(x)).1
    ensures Twins(Perform(be, x).0, Perform(le, Mirror(x)).0)
  {
    TwinGuards(be, le, x.w, x.a);
    if InRange(be, x.a, x.w) {
      TwinLoads(be, le, x.w, x.a);
      if x.WriteAt? {
        TwinStores(be, le, x.w, x.a, x.v);
      }
    }
    hide Load, Store, MirrorAddress, Twins;
  }
}

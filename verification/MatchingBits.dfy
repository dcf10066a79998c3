/** Bits kept in bytes, lowest bit first, and the ranks and positions of the bits that are set.

    The rank of a position is the number of bits set below it, and selecting finds the position of a rank.
    Both are functions on a list of flags; counting by bytes with a table, and bit by bit within a byte,
    is proved to give the same. */
module MatchingBits {
  type Byte = bv8

  function Mask(i: nat): Byte
    requires i < 8
  {
    match i
    case 0 => 0x01
    case 1 => 0x02
    case 2 => 0x04
    case 3 => 0x08
    case 4 => 0x10
    case 5 => 0x20
    case 6 => 0x40
    case 7 => 0x80
  }

  predicate BitOf(b: Byte, i: nat)
    requires i < 8
  {
    b & Mask(i) != 0
  }

  lemma SetBit(b: Byte, i: nat, j: nat)
    requires i < 8 && j < 8
    ensures BitOf(b | Mask(i), j) <==> j == i || BitOf(b, j)
  {
  }

  lemma ClearBit(b: Byte, i: nat, j: nat)
    requires i < 8 && j < 8
    ensures BitOf(b & !Mask(i), j) <==> j != i && BitOf(b, j)
  {
  }

  /** The table of the number of bits set in half a byte. */
  function BitsSet(n: Byte): nat {
    if n == 0 then 0
    else if n == 1 || n == 2 || n == 4 || n == 8 then 1
    else if n == 7 || n == 11 || n == 13 || n == 14 then 3
    else if n == 15 then 4
    else 2
  }

  function One(b: bool): nat {
    if b then 1 else 0
  }

  ghost function BitCount(b: Byte): nat {
    One(BitOf(b, 0)) + One(BitOf(b, 1)) + One(BitOf(b, 2)) + One(BitOf(b, 3))
    + One(BitOf(b, 4)) + One(BitOf(b, 5)) + One(BitOf(b, 6)) + One(BitOf(b, 7))
  }

  /** The table entries of the two halves of a byte add up to the bits of the byte. */
  lemma HalvesAddUp(b: Byte)
    ensures BitsSet(b & 0x0F) + BitsSet(b >> 4) == BitCount(b)
  {
  }

  // ----- Sequences of bytes

  predicate Bit(bytes: seq<Byte>, n: nat)
    requires n < 8 * |bytes|
  {
    BitOf(bytes[n / 8], n % 8)
  }

  lemma WriteBit(bytes: seq<Byte>, n: nat, b: Byte, k: nat, value: bool)
    requires n < 8 * |bytes| && k < 8 * |bytes|
    requires b == if value then bytes[n / 8] | Mask(n % 8) else bytes[n / 8] & !Mask(n % 8)
    ensures Bit(bytes[n / 8 := b], k) == if k == n then value else Bit(bytes, k)
  {
    if k / 8 == n / 8 {
      SetBit(bytes[n / 8], n % 8, k % 8);
      ClearBit(bytes[n / 8], n % 8, k % 8);
    }
  }

  /** The first `n` bits, one by one. */
  function FirstFlags(bytes: seq<Byte>, n: nat): (m: seq<bool>)
    requires n <= 8 * |bytes|
    ensures |m| == n
  {
    if n == 0 then [] else FirstFlags(bytes, n - 1) + [Bit(bytes, n - 1)]
  }

  /** All bits. */
  function Flags(bytes: seq<Byte>): (m: seq<bool>)
    ensures |m| == 8 * |bytes|
  {
    FirstFlags(bytes, 8 * |bytes|)
  }

  lemma {:induction false} FirstFlagAt(bytes: seq<Byte>, n: nat, i: nat)
    requires i < n <= 8 * |bytes|
    ensures FirstFlags(bytes, n)[i] == Bit(bytes, i)
  {
    if i < n - 1 {
      FirstFlagAt(bytes, n - 1, i);
    }
  }

  lemma FlagAt(bytes: seq<Byte>, i: nat)
    requires i < 8 * |bytes|
    ensures Flags(bytes)[i] == Bit(bytes, i)
  {
    FirstFlagAt(bytes, 8 * |bytes|, i);
  }

  /** Writing one bit of a byte writes one flag. */
  lemma WriteFlag(bytes: seq<Byte>, n: nat, b: Byte, value: bool)
    requires n < 8 * |bytes|
    requires b == if value then bytes[n / 8] | Mask(n % 8) else bytes[n / 8] & !Mask(n % 8)
    ensures Flags(bytes[n / 8 := b]) == Flags(bytes)[n := value]
  {
    var r := bytes[n / 8 := b];
    forall k | 0 <= k < 8 * |bytes| ensures Flags(r)[k] == if k == n then value else Flags(bytes)[k] {
      FlagAt(r, k);
      FlagAt(bytes, k);
      WriteBit(bytes, n, b, k, value);
    }
  }

  // ----- Rank and select

  /** How many of the first `n` flags are set. */
  function Rank(m: seq<bool>, n: nat): (r: nat)
    requires n <= |m|
    ensures r <= n
  {
    if n == 0 then 0 else Rank(m, n - 1) + One(m[n - 1])
  }

  /** The addresses of the flags that are set among the first `n`, in ascending order, when the first flag
      stands for the address `first`. */
  function Marked(m: seq<bool>, first: int, n: nat): (r: seq<int>)
    requires n <= |m|
    ensures |r| == Rank(m, n)
  {
    if n == 0 then [] else Marked(m, first, n - 1) + (if m[n - 1] then [first + n - 1] else [])
  }

  /** The list holds addresses of set flags, in ascending order. */
  lemma {:induction false} MarkedAscend(m: seq<bool>, first: int, n: nat, i: nat, j: nat)
    requires n <= |m| && i <= j < Rank(m, n)
    ensures first <= Marked(m, first, n)[i] < first + n && m[Marked(m, first, n)[i] - first]
    ensures i < j ==> Marked(m, first, n)[i] < Marked(m, first, n)[j]
  {
    if i < Rank(m, n - 1) {
      MarkedAscend(m, first, n - 1, i, if j < Rank(m, n - 1) then j else i);
    }
  }

  lemma {:induction false} RankGrows(m: seq<bool>, i: nat, n: nat)
    requires i <= n <= |m|
    ensures Rank(m, i) <= Rank(m, n)
    ensures i < n && m[i] ==> Rank(m, i) < Rank(m, n)
    decreases n
  {
    if i < n {
      RankGrows(m, i, n - 1);
    }
  }

  /** The address whose flag has a rank stands at that place in the list. */
  lemma {:induction false} SelectUndoesRank(m: seq<bool>, first: int, i: nat, n: nat)
    requires i < n <= |m| && m[i]
    ensures Rank(m, i) < Rank(m, n) && Marked(m, first, n)[Rank(m, i)] == first + i
  {
    RankGrows(m, i, n);
    if i < n - 1 {
      SelectUndoesRank(m, first, i, n - 1);
    }
  }

  /** The rank of an address of the list is its place in the list. */
  lemma {:induction false} RankUndoesSelect(m: seq<bool>, first: int, k: nat, n: nat)
    requires n <= |m| && k < Rank(m, n)
    ensures first <= Marked(m, first, n)[k] < first + n && m[Marked(m, first, n)[k] - first]
    ensures Rank(m, Marked(m, first, n)[k] - first) == k
  {
    if k < Rank(m, n - 1) {
      RankUndoesSelect(m, first, k, n - 1);
    }
  }

  ghost function SetBelow(m: seq<bool>, n: nat): set<nat>
    requires n <= |m|
  {
    set i | 0 <= i < n && m[i]
  }

  /** The rank counts the set of the flags below. */
  lemma {:induction false} RankIsCount(m: seq<bool>, n: nat)
    requires n <= |m|
    ensures |SetBelow(m, n)| == Rank(m, n)
  {
    if n == 0 {
      assert SetBelow(m, 0) == {};
    } else {
      RankIsCount(m, n - 1);
      assert SetBelow(m, n) == if m[n - 1] then SetBelow(m, n - 1) + {n - 1} else SetBelow(m, n - 1);
    }
  }

  lemma RankOfFour(m: seq<bool>, n: nat)
    requires n + 4 <= |m|
    ensures Rank(m, n + 4) == Rank(m, n) + One(m[n]) + One(m[n + 1]) + One(m[n + 2]) + One(m[n + 3])
  {
    assert Rank(m, n + 2) == Rank(m, n) + One(m[n]) + One(m[n + 1]);
  }

  lemma FlagOfByte(bytes: seq<Byte>, k: nat, j: nat)
    requires k < |bytes| && j < 8
    ensures Flags(bytes)[8 * k + j] == BitOf(bytes[k], j)
  {
    FlagAt(bytes, 8 * k + j);
    assert (8 * k + j) / 8 == k && (8 * k + j) % 8 == j;
  }

  /** Some flags are those of a byte. */
  ghost predicate ShowByte(m: seq<bool>, n: nat, b: Byte)
    requires n + 8 <= |m|
  {
    && m[n] == BitOf(b, 0) && m[n + 1] == BitOf(b, 1) && m[n + 2] == BitOf(b, 2) && m[n + 3] == BitOf(b, 3)
    && m[n + 4] == BitOf(b, 4) && m[n + 5] == BitOf(b, 5) && m[n + 6] == BitOf(b, 6) && m[n + 7] == BitOf(b, 7)
  }

  /** Shifting a value right shows some flags, one by one, and then nothing. */
  ghost predicate BitsLeft(v: Byte, m: seq<bool>, n: nat, left: nat)
    requires n + left <= |m|
    decreases left
  {
    if left == 0 then v == 0 else m[n] == (v & 1 != 0) && BitsLeft(v >> 1, m, n + 1, left - 1)
  }

  lemma {:induction false} NoBitLeft(m: seq<bool>, n: nat, left: nat)
    requires n + left <= |m| && BitsLeft(0, m, n, left)
    ensures forall i :: n <= i < n + left ==> !m[i]
    decreases left
  {
    if left > 0 {
      NoBitLeft(m, n + 1, left - 1);
    }
  }

  lemma FlagsShowByte(bytes: seq<Byte>, k: nat)
    requires k < |bytes|
    ensures ShowByte(Flags(bytes), 8 * k, bytes[k])
  {
    FlagOfByte(bytes, k, 0);
    FlagOfByte(bytes, k, 1);
    FlagOfByte(bytes, k, 2);
    FlagOfByte(bytes, k, 3);
    FlagOfByte(bytes, k, 4);
    FlagOfByte(bytes, k, 5);
    FlagOfByte(bytes, k, 6);
    FlagOfByte(bytes, k, 7);
  }

  lemma ByteIsLeft(bytes: seq<Byte>, k: nat)
    requires k < |bytes|
    ensures 8 * k + 8 <= |Flags(bytes)| && BitsLeft(bytes[k], Flags(bytes), 8 * k, 8)
  {
    FlagsShowByte(bytes, k);
  }

  /** A whole byte adds its bits. */
  lemma RankOfByte(m: seq<bool>, n: nat, b: Byte)
    requires n + 8 <= |m| && ShowByte(m, n, b)
    ensures Rank(m, n + 8) == Rank(m, n) + BitCount(b)
  {
    RankOfFour(m, n);
    RankOfFour(m, n + 4);
  }

  /** Counts the bits of a byte half by half. */
  method CountByte(b: Byte) returns (r: nat)
    ensures r == BitCount(b)
  {
    r := 0;
    if b != 0 {
      r := BitsSet(b & 0x0F) + BitsSet(b >> 4);
    }
    HalvesAddUp(b);
  }

  /** Counts the bits of whole bytes. */
  method CountWholeBytes(bytes: seq<Byte>, n: nat) returns (r: nat)
    requires n <= |bytes|
    ensures r == Rank(Flags(bytes), 8 * n)
  {
    r := 0;
    for k := 0 to n
      invariant r == Rank(Flags(bytes), 8 * k)
    {
      var more := CountByte(bytes[k]);
      FlagsShowByte(bytes, k);
      RankOfByte(Flags(bytes), 8 * k, bytes[k]);
      r := r + more;
    }
  }

  /** Counts the lowest bits of one byte. */
  method CountInByte(bytes: seq<Byte>, k: nat, n: nat, below: nat) returns (r: nat)
    requires n < 8 && k < |bytes|
    requires below == Rank(Flags(bytes), 8 * k)
    ensures r == Rank(Flags(bytes), 8 * k + n)
  {
    r := below;
    for j := 0 to n
      invariant r == Rank(Flags(bytes), 8 * k + j)
    {
      FlagOfByte(bytes, k, j);
      if BitOf(bytes[k], j) {
        r := r + 1;
      }
    }
  }

  lemma {:induction false} RankOfPrefix(m: seq<bool>, count: nat, n: nat)
    requires n <= count <= |m|
    ensures Rank(m[..count], n) == Rank(m, n)
  {
    if n > 0 {
      RankOfPrefix(m, count, n - 1);
    }
  }

  lemma {:induction false} MarkedInPrefix(m: seq<bool>, longer: seq<bool>, first: int, n: nat)
    requires n <= |m| <= |longer| && longer[..|m|] == m
    ensures Marked(longer, first, n) == Marked(m, first, n)
  {
    if n > 0 {
      MarkedInPrefix(m, longer, first, n - 1);
      assert longer[n - 1] == longer[..|m|][n - 1];
    }
  }

  /** A longer sequence of flags marks the same addresses exactly when nothing is set beyond. */
  lemma {:induction false} MarkedExtend(m: seq<bool>, longer: seq<bool>, first: int, n: nat)
    requires |m| <= n <= |longer| && longer[..|m|] == m
    ensures Marked(longer, first, n) == Marked(m, first, |m|) <==> forall i :: |m| <= i < n ==> !longer[i]
  {
    MarkedInPrefix(m, longer, first, |m|);
    if n > |m| {
      MarkedExtend(m, longer, first, n - 1);
      RankGrows(longer, |m|, n - 1);
    }
  }

  lemma {:induction false} MarkedGrow(m: seq<bool>, first: int, i: nat, n: nat)
    requires i <= n <= |m|
    ensures Marked(m, first, i) <= Marked(m, first, n)
    ensures (forall j :: i <= j < n ==> !m[j]) ==> Marked(m, first, i) == Marked(m, first, n)
    decreases n
  {
    if i < n {
      MarkedGrow(m, first, i, n - 1);
    }
  }
}

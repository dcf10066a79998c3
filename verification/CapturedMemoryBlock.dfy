/** The matching addresses of src/devkit/data/CapturedMemoryBlock.cpp: one bit per address of a block, or
    no bits at all while every address matches. */
module CapturedMemoryBlock {
  import opened Basics
  import opened MatchingBits

  const ADDRESS_SPACE := 0x1_0000_0000

  /** The value a 32-bit address takes. */
  function Wrap(a: int): int {
    a % ADDRESS_SPACE
  }

  predicate IsAddress(a: int) {
    0 <= a < ADDRESS_SPACE
  }

  // ----- Lists of addresses

  /** The callback has always said to go on so far. */
  ghost predicate WentOn(answers: nat -> bool, calls: nat) {
    forall j :: 0 <= j < calls ==> answers(j)
  }

  /** The callback has just said stop. */
  ghost predicate Stopped(visited: seq<int>, answers: nat -> bool) {
    visited != [] && !answers(|visited| - 1) && WentOn(answers, |visited| - 1)
  }

  /** What a callback that may stop gets to see of a list: all of it if it never stops, otherwise the part
      up to and with the address at which it stops. */
  ghost predicate Enumerated(visited: seq<int>, completed: bool, list: seq<int>, answers: nat -> bool) {
    && visited <= list
    && (completed ==> visited == list && WentOn(answers, |visited|))
    && (!completed ==> Stopped(visited, answers))
  }

  /** Calls back for the address of the flag at `n` if it is set. */
  method Report(marked: bool, address: int, before: seq<int>, answers: nat -> bool,
                ghost m: seq<bool>, ghost first: int, ghost n: nat)
    returns (visited: seq<int>, goOn: bool)
    requires n < |m| && marked == m[n] && address == first + n
    requires before == Marked(m, first, n) && WentOn(answers, |before|)
    ensures visited == Marked(m, first, n + 1)
    ensures if goOn then WentOn(answers, |visited|) else Stopped(visited, answers)
  {
    visited, goOn := before, true;
    if marked {
      visited := visited + [address];
      goOn := answers(|visited| - 1);
    }
  }

  /** The address some places on, which is an address again. */
  method NextAddress(a: int, n: int) returns (r: int)
    requires IsAddress(a + n)
    ensures r == a + n
  {
    r := Wrap(a + n);
  }

  /** Goes through the bits of one byte, lowest first, until no bit is left or the callback says stop. The
      bits are the flags from `at` up to `end`. */
  method ScanByte(nByte: Byte, nAddress: int, before: seq<int>, answers: nat -> bool,
                  ghost m: seq<bool>, ghost first: int, ghost at: nat, ghost end: nat)
    returns (visited: seq<int>, goOn: bool)
    requires at + 8 == end <= |m| && BitsLeft(nByte, m, at, end - at)
    requires nAddress == first + at && IsAddress(nAddress) && IsAddress(nAddress + 8)
    requires before == Marked(m, first, at) && WentOn(answers, |before|)
    ensures goOn ==> visited == Marked(m, first, end) && WentOn(answers, |visited|)
    ensures !goOn ==> visited <= Marked(m, first, end)
    ensures !goOn ==> Stopped(visited, answers)
  {
    visited, goOn := before, true;
    var nValue, nScanAddress := nByte, nAddress;
    ghost var n := at;
    while nValue != 0
      invariant at <= n <= end && BitsLeft(nValue, m, n, end - n) && nScanAddress == first + n
      invariant visited == Marked(m, first, n) && WentOn(answers, |visited|)
      decreases end - n
    {
      visited, goOn := Report(nValue & 1 != 0, nScanAddress, visited, answers, m, first, n);
      n := n + 1;
      if !goOn {
        MarkedGrow(m, first, n, end);
        return;
      }
      nScanAddress := NextAddress(nScanAddress, 1);
      nValue := nValue >> 1;
    }
    NoBitLeft(m, n, end - n);
    MarkedGrow(m, first, n, end);
  }

  /** Goes through the bytes of a block, at least one, until its addresses are passed or the callback says stop. */
  method ScanBytes(bytes: seq<Byte>, first: int, count: nat, answers: nat -> bool, ghost size: nat)
    returns (visited: seq<int>, goOn: bool)
    requires 1 <= size <= |bytes| && IsAddress(first) && IsAddress(first + 8 * size) && count <= 8 * size
    requires forall k :: 1 <= k <= size ==> (8 * k < count <==> k < size)
    ensures Enumerated(visited, goOn, Marked(Flags(bytes), first, 8 * size), answers)
  {
    var nStop := NextAddress(first, count);
    var k, nAddress := 0, first;
    ghost var m, at := Flags(bytes), 0;
    visited := [];
    var more := true;
    while more
      invariant k <= size && at == 8 * k && nAddress == first + at && (more <==> k < size)
      invariant visited == Marked(m, first, at) && WentOn(answers, |visited|)
      decreases size - k
    {
      ByteIsLeft(bytes, k);
      visited, goOn := ScanByte(bytes[k], nAddress, visited, answers, m, first, at, at + 8);
      k, at := k + 1, at + 8;
      if !goOn {
        MarkedGrow(m, first, at, 8 * size);
        return;
      }
      nAddress := NextAddress(nAddress, 8);
      more := nAddress < nStop;
    }
    goOn := true;
  }

  // ----- Slices of address lists

  ghost predicate InBlock(a: int, first: int, count: nat) {
    first <= a < first + count
  }

  ghost function Hits(slice: seq<int>, first: int, count: nat): set<int> {
    set a | a in slice && InBlock(a, first, count)
  }

  lemma DistinctOneMore(slice: seq<int>, a: int)
    ensures Distinct(slice + [a]) <==> Distinct(slice) && a !in slice
  {
    var r := slice + [a];
    if Distinct(r) {
      assert forall i :: 0 <= i < |slice| ==> r[i] == slice[i] && r[i] != r[|slice|];
    }
  }

  /** The addresses of a slice lie in a block and are distinct. */
  ghost predicate Fits(slice: seq<int>, first: int, count: nat) {
    Distinct(slice) && forall i :: 0 <= i < |slice| ==> InBlock(slice[i], first, count)
  }

  /** A slice hits as many addresses of a block as it has elements exactly when all of them lie in the
      block and are distinct. */
  lemma {:induction false} AllHit(slice: seq<int>, first: int, count: nat)
    ensures |Hits(slice, first, count)| <= |slice|
    ensures |Hits(slice, first, count)| == |slice|
       <==> Fits(slice, first, count)
  {
    if slice == [] {
      assert Hits(slice, first, count) == {};
    } else {
      var n := |slice| - 1;
      var rest, a := slice[..n], slice[n];
      AllHit(rest, first, count);
      assert slice == rest + [a];
      DistinctOneMore(rest, a);
      assert Hits(rest + [a], first, count) ==
             if InBlock(a, first, count) then Hits(rest, first, count) + {a} else Hits(rest, first, count);
      assert a in Hits(rest, first, count) <==> InBlock(a, first, count) && a in rest;
    }
  }

  /** For each address of a block whether it is in a slice. */
  ghost function Held(slice: seq<int>, first: int, count: nat): (m: seq<bool>)
    ensures |m| == count && forall i :: 0 <= i < count ==> (m[i] <==> first + i in slice)
  {
    seq(count, i => first + i in slice)
  }

  lemma NextHit(slice: seq<int>, first: int, n: nat)
    ensures |Hits(slice, first, n + 1)| == |Hits(slice, first, n)| + One(first + n in slice)
  {
    var hits, a := Hits(slice, first, n), first + n;
    assert Hits(slice, first, n + 1) == if a in slice then hits + {a} else hits;
  }

  /** The rank counts the addresses of a block that a slice hits. */
  lemma {:induction false} RankIsHits(slice: seq<int>, first: int, count: nat, n: nat)
    requires n <= count
    ensures Rank(Held(slice, first, count), n) == |Hits(slice, first, n)|
  {
    if n == 0 {
      assert Hits(slice, first, 0) == {};
    } else {
      RankIsHits(slice, first, count, n - 1);
      NextHit(slice, first, n - 1);
    }
  }

  lemma {:induction false} RankOfAll(m: seq<bool>, n: nat)
    requires n <= |m| && forall i :: 0 <= i < n ==> m[i]
    ensures Rank(m, n) == n
  {
    if n > 0 {
      RankOfAll(m, n - 1);
    }
  }

  lemma {:induction false} RankOfSome(m: seq<bool>, i: nat, n: nat)
    requires i < n <= |m| && !m[i]
    ensures Rank(m, n) < n
  {
    if i < n - 1 {
      RankOfSome(m, i, n - 1);
    }
  }

  /** A slice with as many elements as a block has addresses holds all of them exactly when it fits. */
  lemma FullSlice(slice: seq<int>, first: int, m: seq<bool>)
    requires |m| == |slice| && forall i :: 0 <= i < |m| ==> m[i]
    ensures m == Held(slice, first, |slice|) <==> Fits(slice, first, |slice|)
  {
    var held := Held(slice, first, |slice|);
    RankIsHits(slice, first, |slice|, |slice|);
    AllHit(slice, first, |slice|);
    if forall i :: 0 <= i < |slice| ==> held[i] {
      RankOfAll(held, |slice|);
    } else {
      var i :| 0 <= i < |slice| && !held[i];
      RankOfSome(held, i, |slice|);
    }
  }

  lemma {:induction false} RankWithout(m: seq<bool>, i: nat, n: nat)
    requires i < |m| && n <= |m|
    ensures Rank(m[i := false], n) == Rank(m, n) - (if i < n && m[i] then 1 else 0)
  {
    if n > 0 {
      RankWithout(m, i, n - 1);
    }
  }

  /** Without one of them there is one match less, and not all match. */
  lemma CountWithout(m: seq<bool>, i: nat)
    requires i < |m|
    ensures Rank(m[i := false], |m|) == Rank(m, |m|) - One(m[i])
    ensures Rank(m[i := false], |m|) < |m|
    ensures m[i] ==> Rank(m, |m|) > 0
  {
    RankWithout(m, i, |m|);
    RankOfSome(m[i := false], i, |m|);
  }

  class CapturedMemoryBlock {
    const firstAddress: int
    const addressCount: nat
    var matchingAddressCount: nat
    /** The eight bytes inside the block if they suffice, otherwise bytes allocated when first needed. */
    var addresses: array?<Byte>
    /** The bytes it takes to hold one bit for each address, (addressCount + 7) / 8. */
    const bitmapSize: nat

    /** The bytes an enumeration looks at; it always looks at one. */
    function ScannedSize(): nat {
      if addressCount == 0 then 1 else bitmapSize
    }

    /** The block lies in the 32-bit address space, and there are bits where they are needed. */
    ghost predicate Shape()
      reads this, addresses
    {
      && addressCount <= 8 * bitmapSize < addressCount + 8
      && IsAddress(firstAddress) && IsAddress(firstAddress + 8 * ScannedSize())
      && (bitmapSize <= 8 || matchingAddressCount != addressCount ==> addresses != null)
      && (addresses != null ==> addresses.Length == if bitmapSize <= 8 then 8 else bitmapSize)
    }

    predicate AllMatching()
      reads this
    {
      matchingAddressCount == addressCount
    }

    /** The bits that are there. */
    ghost function Marks(): seq<bool>
      reads this, addresses
      requires addresses != null
    {
      Flags(addresses[..])
    }

    /** For each address of the block whether it matches. */
    ghost function Matching(): (m: seq<bool>)
      reads this, addresses
      requires Shape()
      ensures |m| == addressCount
    {
      if AllMatching() then seq(addressCount, _ => true) else Marks()[..addressCount]
    }

    /** The stored count is the number of matching addresses. */
    ghost predicate Valid()
      reads this, addresses
    {
      Shape() && matchingAddressCount == Rank(Matching(), addressCount)
    }

    /** No bit is set behind the last address. */
    ghost predicate PaddingClear()
      reads this, addresses
      requires Shape()
    {
      !AllMatching() ==> forall i :: addressCount <= i < 8 * ScannedSize() ==> !Marks()[i]
    }

    /** The matching addresses in ascending order. */
    ghost function Listed(): seq<int>
      reads this, addresses
      requires Shape()
    {
      Marked(Matching(), firstAddress, addressCount)
    }

    /** The addresses of all bits an enumeration looks at. */
    ghost function Scanned(): seq<int>
      reads this, addresses
      requires Shape() && !AllMatching()
    {
      Marked(Marks(), firstAddress, 8 * ScannedSize())
    }

    constructor (first: int, maxAddresses: nat)
      requires IsAddress(first) && IsAddress(first + 8 * (if maxAddresses == 0 then 1 else (maxAddresses + 7) / 8))
      ensures Valid() && firstAddress == first && addressCount == maxAddresses && AllMatching()
      ensures addresses != null ==> fresh(addresses) && forall i :: 0 <= i < 8 * addresses.Length ==> !Marks()[i]
    {
      firstAddress, addressCount, matchingAddressCount := first, maxAddresses, maxAddresses;
      bitmapSize := (maxAddresses + 7) / 8;
      if (maxAddresses + 7) / 8 <= 8 {
        addresses := new Byte[8](_ => 0);
      } else {
        addresses := null;
      }
      new;
      if addresses != null {
        forall i | 0 <= i < 8 * addresses.Length ensures !Marks()[i] {
          FlagAt(addresses[..], i);
        }
      }
      RankOfAll(Matching(), addressCount);
    }

    method AllocateMatchingAddresses()
      requires Shape()
      modifies this`addresses
      ensures Shape() && addresses != null
      ensures if old(addresses) != null then addresses == old(addresses) else fresh(addresses)
    {
      if addresses == null {
        addresses := new Byte[bitmapSize];
      }
    }

    /** The matching addresses are those of a slice. */
    ghost predicate Selects(slice: seq<int>)
      reads this, addresses
      requires Shape()
    {
      Matching() == Held(slice, firstAddress, addressCount)
    }

    /** Sets or clears all bytes that count. */
    method SetBytes(value: bool)
      requires addresses != null && bitmapSize <= addresses.Length
      modifies addresses
      ensures bitmapSize == 0 ==> Marks() == old(Marks())
      ensures forall i :: 0 <= i < 8 * bitmapSize ==> Marks()[i] == value
    {
      for k := 0 to bitmapSize
        invariant bitmapSize == 0 ==> addresses[..] == old(addresses[..])
        invariant forall j :: 0 <= j < k ==> addresses[j] == if value then 0xFF else 0
      {
        addresses[k] := if value then 0xFF else 0;
      }
      forall i | 0 <= i < 8 * bitmapSize ensures Marks()[i] == value {
        FlagAt(addresses[..], i);
      }
    }

    method WriteMark(nOffset: nat, value: bool)
      requires addresses != null && nOffset < 8 * addresses.Length
      modifies addresses
      ensures Marks() == old(Marks())[nOffset := value]
    {
      var b := if value then addresses[nOffset / 8] | Mask(nOffset % 8)
      else addresses[nOffset / 8] & !Mask(nOffset % 8);
      WriteFlag(addresses[..], nOffset, b, value);
      ghost var was := addresses[..];
      addresses[nOffset / 8] := b;
      assert addresses[..] == was[nOffset / 8 := b];
    }

    /** Clears the bits that count, then sets those of a slice. */
    method FillMatching(vAddresses: seq<int>, nFirstIndex: nat, nLastIndex: int)
      requires Shape() && addresses != null && nFirstIndex <= nLastIndex + 1 <= |vAddresses|
      requires forall i :: 0 <= i < |vAddresses| ==> IsAddress(vAddresses[i])
      modifies addresses
      ensures bitmapSize == 0 ==> Marks() == old(Marks())
      ensures forall i :: 0 <= i < 8 * bitmapSize ==>
                            (Marks()[i] <==>
                             i < addressCount && firstAddress + i in vAddresses[nFirstIndex..nLastIndex + 1])
    {
      SetBytes(false);
      for n := nFirstIndex to nLastIndex + 1
        invariant bitmapSize == 0 ==> Marks() == old(Marks())
        invariant forall i :: 0 <= i < 8 * bitmapSize ==>
                                (Marks()[i] <==> i < addressCount && firstAddress + i in vAddresses[nFirstIndex..n])
      {
        var nOffset := Wrap(vAddresses[n] - firstAddress);
        if nOffset < addressCount {
          WriteMark(nOffset, true);
        }
      }
    }

    /** Marks the addresses of a slice and no others, except that a slice of as many addresses as the block
        has is taken for all of them without a look at it. */
    method SetMatchingAddresses(vAddresses: seq<int>, nFirstIndex: nat, nLastIndex: int)
      requires Shape() && nFirstIndex <= nLastIndex + 1 <= |vAddresses|
      requires forall i :: 0 <= i < |vAddresses| ==> IsAddress(vAddresses[i])
      modifies this, addresses
      ensures Shape() && (addressCount > 0 ==> PaddingClear())
      ensures addresses == old(addresses) || fresh(addresses)
      ensures var slice := vAddresses[nFirstIndex..nLastIndex + 1];
              && matchingAddressCount == |slice|
              && (Selects(slice) <==> |slice| != addressCount || Fits(slice, firstAddress, addressCount))
              && (Valid() <==> |slice| == addressCount || Fits(slice, firstAddress, addressCount))
    {
      matchingAddressCount := nLastIndex + 1 - nFirstIndex;
      ghost var slice := vAddresses[nFirstIndex..nLastIndex + 1];
      if matchingAddressCount != addressCount {
        if addresses == null {
          addresses := new Byte[bitmapSize];
        }
        FillMatching(vAddresses, nFirstIndex, nLastIndex);
        assert Selects(slice);
        RankIsHits(slice, firstAddress, addressCount, addressCount);
        AllHit(slice, firstAddress, addressCount);
      } else {
        RankOfAll(Matching(), addressCount);
        FullSlice(slice, firstAddress, Matching());
      }
    }

    method TestMark(nIndex: nat) returns (r: bool)
      requires addresses != null && nIndex < 8 * addresses.Length
      ensures r == Marks()[nIndex]
    {
      FlagAt(addresses[..], nIndex);
      r := addresses[nIndex / 8] & Mask(nIndex % 8) != 0;
    }

    /** The stored count after one exclusion, as 32 bits hold it. */
    function Lowered(): nat
      reads this`matchingAddressCount
    {
      if matchingAddressCount == 0 then ADDRESS_SPACE - 1 else matchingAddressCount - 1
    }

    /** Excluding an address lowers a count that was too large to that of a block in which all match. */
    ghost predicate FillsUp(nIndex: nat)
      reads this, addresses
      requires Shape() && nIndex < addressCount
    {
      !AllMatching() && Matching()[nIndex] && Lowered() == addressCount
    }

    method ExcludeFirst(nIndex: nat)
      requires Shape() && AllMatching() && nIndex < addressCount
      modifies this, addresses
      ensures Shape() && (old(Valid()) ==> Valid())
      ensures !AllMatching() && Matching() == old(Matching())[nIndex := false]
      ensures matchingAddressCount == old(Lowered())
      ensures addresses == old(addresses) || fresh(addresses)
      ensures PaddingClear() <==> addressCount == 8 * bitmapSize
    {
      CountWithout(Matching(), nIndex);
      AllocateMatchingAddresses();
      SetBytes(true);
      WriteMark(nIndex, false);
      matchingAddressCount := Lowered();
      assert Matching() == old(Matching())[nIndex := false];
      assert addressCount < 8 * bitmapSize ==> Marks()[addressCount];
    }

    method ClearMatch(nIndex: nat)
      requires Shape() && !AllMatching() && nIndex < addressCount && Matching()[nIndex]
      modifies this, addresses
      ensures Shape() && (old(Valid()) ==> Valid())
      ensures matchingAddressCount == old(Lowered()) && addresses == old(addresses)
      ensures if AllMatching() then Matching()[nIndex] else Matching() == old(Matching())[nIndex := false]
      ensures !AllMatching() ==> (PaddingClear() <==> old(PaddingClear()))
    {
      CountWithout(Matching(), nIndex);
      WriteMark(nIndex, false);
      matchingAddressCount := Lowered();
      if !AllMatching() {
        assert Matching() == old(Matching())[nIndex := false];
        assert forall i :: addressCount <= i < 8 * ScannedSize() ==> Marks()[i] == old(Marks())[i];
      }
    }

    method ExcludeNext(nIndex: nat)
      requires Shape() && !AllMatching() && nIndex < addressCount
      modifies this, addresses
      ensures Shape() && (old(Valid()) ==> Valid()) && addresses == old(addresses)
      ensures AllMatching() <==> old(FillsUp(nIndex))
      ensures if AllMatching() then Matching()[nIndex] else Matching() == old(Matching())[nIndex := false]
      ensures matchingAddressCount == if old(Matching())[nIndex] then old(Lowered()) else old(matchingAddressCount)
      ensures !AllMatching() ==> (PaddingClear() <==> old(PaddingClear()))
    {
      var marked := TestMark(nIndex);
      if marked {
        ClearMatch(nIndex);
      } else {
        assert Matching() == Matching()[nIndex := false];
      }
    }

    /** Marks an address of the block as no longer matching. The first exclusion sets all bits, those behind
        the last address too. */
    method ExcludeMatchingAddress(nAddress: int)
      requires Shape() && InBlock(nAddress, firstAddress, addressCount)
      modifies this, addresses
      ensures Shape() && (old(Valid()) ==> Valid())
      ensures Matching() == old(Matching())[nAddress - firstAddress := false] <==>
              !old(FillsUp(nAddress - firstAddress))
      ensures AllMatching() <==> old(FillsUp(nAddress - firstAddress))
      ensures matchingAddressCount == if old(Matching())[nAddress - firstAddress] then old(Lowered()) else
                                      old(matchingAddressCount)
      ensures addresses == old(addresses) || fresh(addresses)
      ensures !AllMatching() ==>
                (PaddingClear() <==> if old(AllMatching()) then addressCount % 8 == 0 else old(PaddingClear()))
    {
      var nIndex := Wrap(nAddress - firstAddress);
      assert nIndex == nAddress - firstAddress;
      if AllMatching() {
        assert addressCount % 8 == 0 <==> addressCount == 8 * bitmapSize;
        ExcludeFirst(nIndex);
      } else {
        ExcludeNext(nIndex);
      }
    }

    method ContainsMatchingAddress(nAddress: int) returns (r: bool)
      requires Shape() && IsAddress(nAddress)
      ensures r <==> InBlock(nAddress, firstAddress, addressCount) && Matching()[nAddress - firstAddress]
    {
      if nAddress < firstAddress {
        return false;
      }
      var nIndex := nAddress - firstAddress;
      if nIndex >= addressCount {
        return false;
      }
      if AllMatching() {
        return true;
      }
      r := TestMark(nIndex);
    }

    /** The bits to pass to HasMatchingAddress; none while all addresses match. */
    function MatchingAddressPointer(): array?<Byte>
      reads this
    {
      if AllMatching() then null else addresses
    }

    /** The quick test: without bits every address counts as matching, even one that is not in the block. */
    method HasMatchingAddress(p: array?<Byte>, nAddress: int) returns (r: bool)
      requires Shape() && IsAddress(nAddress) && p == MatchingAddressPointer()
      ensures InBlock(nAddress, firstAddress, addressCount) ==> r == Matching()[nAddress - firstAddress]
      ensures !InBlock(nAddress, firstAddress, addressCount) ==> r == AllMatching()
    {
      if p == null {
        return true;
      }
      var nIndex := Wrap(nAddress - firstAddress);
      if nIndex >= addressCount {
        return false;
      }
      r := TestMark(nIndex);
    }

    /** How many matching addresses lie below an address, if it matches itself. */
    method GetAddressIndex(nAddress: int) returns (r: int)
      requires Shape() && IsAddress(nAddress)
      ensures InBlock(nAddress, firstAddress, addressCount) && Matching()[nAddress - firstAddress]
              ==> r == Rank(Matching(), nAddress - firstAddress)
      ensures !(InBlock(nAddress, firstAddress, addressCount) && Matching()[nAddress - firstAddress]) ==> r == -1
    {
      if nAddress < firstAddress {
        return -1;
      }
      var nIndex := nAddress - firstAddress;
      if nIndex >= addressCount {
        return -1;
      }
      if AllMatching() {
        RankOfAll(Matching(), nIndex);
        return nIndex;
      }
      var marked := TestMark(nIndex);
      if !marked {
        return -1;
      }
      RankOfPrefix(Marks(), addressCount, nIndex);
      r := CountWholeBytes(addresses[..], nIndex / 8);
      r := CountInByte(addresses[..], nIndex / 8, nIndex % 8, r);
    }

    method CopyBytes(from: array<Byte>)
      requires addresses != null && from != addresses && bitmapSize <= addresses.Length && bitmapSize <= from.Length
      modifies addresses
      ensures forall i :: 0 <= i < 8 * bitmapSize ==> Marks()[i] == Flags(from[..])[i]
    {
      for k := 0 to bitmapSize
        invariant forall j :: 0 <= j < k ==> addresses[j] == from[j]
      {
        addresses[k] := from[k];
      }
      forall i | 0 <= i < 8 * bitmapSize ensures Marks()[i] == Flags(from[..])[i] {
        FlagAt(addresses[..], i);
        FlagAt(from[..], i);
      }
    }

    /** Takes over the marks of another block with as many addresses. */
    method CopyMatchingAddresses(source: CapturedMemoryBlock)
      requires Shape() && source.Shape() && source.addressCount == addressCount
      requires source != this && (addresses == null || addresses != source.addresses)
      modifies this, addresses
      ensures Shape() && matchingAddressCount == source.matchingAddressCount && Matching() == source.Matching()
      ensures source.Valid() ==> Valid()
      ensures addressCount > 0 ==> (PaddingClear() <==> source.PaddingClear())
    {
      matchingAddressCount := source.matchingAddressCount;
      if !source.AllMatching() {
        if addresses == null {
          addresses := new Byte[bitmapSize];
        }
        assert bitmapSize == source.bitmapSize;
        CopyBytes(source.addresses);
        assert forall i :: 0 <= i < addressCount ==> Matching()[i] == source.Matching()[i];
        assert addressCount > 0 ==>
            forall i :: addressCount <= i < 8 * ScannedSize() ==> Marks()[i] == source.Marks()[i];
      }
      assert Matching() == source.Matching();
    }

    // ----- Enumeration

    /** Enumerating the bits lists the matching addresses exactly when no padding bit is set. */
    lemma ScannedIsListed()
      requires Shape() && !AllMatching()
      ensures Scanned() == Listed() <==> PaddingClear()
    {
      MarkedExtend(Matching(), Marks(), firstAddress, 8 * ScannedSize());
    }

    /** The listed addresses are the matching ones, in ascending order; the position of each one in the
        list is its rank, and each rank below the count is the position of one. */
    lemma ListedIsRanked(i: nat)
      requires Shape()
      ensures |Listed()| == Rank(Matching(), addressCount)
      ensures i < |Listed()| ==> InBlock(Listed()[i], firstAddress, addressCount)
                                 && Matching()[Listed()[i] - firstAddress]
                                 && Rank(Matching(), Listed()[i] - firstAddress) == i
      ensures i < addressCount && Matching()[i] ==>
                Rank(Matching(), i) < |Listed()| && Listed()[Rank(Matching(), i)] == firstAddress + i
    {
      if i < |Listed()| {
        RankUndoesSelect(Matching(), firstAddress, i, addressCount);
      }
      if i < addressCount && Matching()[i] {
        SelectUndoesRank(Matching(), firstAddress, i, addressCount);
      }
    }

    /** The matching addresses come first among those enumerated; a padding bit adds to them. */
    lemma ListedComesFirst()
      requires Shape() && !AllMatching()
      ensures Listed() <= Scanned()
      ensures !PaddingClear() ==> |Listed()| < |Scanned()|
    {
      MarkedInPrefix(Matching(), Marks(), firstAddress, addressCount);
      MarkedGrow(Marks(), firstAddress, addressCount, 8 * ScannedSize());
      ScannedIsListed();
    }

    lemma AllAreListed(i: nat)
      requires Shape() && AllMatching() && i < addressCount
      ensures i < |Listed()| && Listed()[i] == firstAddress + i
    {
      RankOfAll(Matching(), i);
      SelectUndoesRank(Matching(), firstAddress, i, addressCount);
    }

    /** Calls back for each bit that is set, until the callback says stop. */
    method EnumerateMatchingAddressesInternal(answers: nat -> bool) returns (visited: seq<int>, completed: bool)
      requires Shape() && !AllMatching()
      ensures Enumerated(visited, completed, Scanned(), answers)
      ensures PaddingClear() <==> Scanned() == Listed()
    {
      ScannedIsListed();
      visited, completed := ScanBytes(addresses[..], firstAddress, addressCount, answers, ScannedSize());
    }

    /** Calls back for all addresses of the block. */
    method EnumerateAll(ghost m: seq<bool>, answers: nat -> bool) returns (visited: seq<int>, completed: bool)
      requires |m| == addressCount && forall i :: 0 <= i < |m| ==> m[i]
      ensures Enumerated(visited, completed, Marked(m, firstAddress, addressCount), answers)
    {
      visited, completed := [], true;
      var nAddress := firstAddress;
      while nAddress < firstAddress + addressCount
        invariant firstAddress <= nAddress <= firstAddress + addressCount
        invariant visited == Marked(m, firstAddress, nAddress - firstAddress) && WentOn(answers, |visited|)
      {
        visited, completed := Report(true, nAddress, visited, answers, m, firstAddress, nAddress - firstAddress);
        nAddress := nAddress + 1;
        if !completed {
          MarkedGrow(m, firstAddress, nAddress - firstAddress, addressCount);
          return;
        }
      }
      completed := true;
    }

    /** Calls back for each matching address, until the callback says stop. */
    method EnumerateMatchingAddresses(answers: nat -> bool) returns (visited: seq<int>, completed: bool)
      requires Shape()
      ensures AllMatching() ==> Enumerated(visited, completed, Listed(), answers)
      ensures !AllMatching() ==> Enumerated(visited, completed, Scanned(), answers)
      ensures !AllMatching() ==> (PaddingClear() <==> Scanned() == Listed())
    {
      if AllMatching() {
        visited, completed := EnumerateAll(Matching(), answers);
      } else {
        visited, completed := EnumerateMatchingAddressesInternal(answers);
      }
    }

    /** The matching address with a given rank. For any other index it is the address behind the first one
        while all match; else it is 0, unless a padding bit is set and listed there. */
    method GetMatchingAddress(nIndex: int) returns (r: int)
      requires Shape()
      ensures 0 <= nIndex < Rank(Matching(), addressCount) ==> r == Listed()[nIndex]
      ensures AllMatching() ==> r == Wrap(firstAddress + nIndex)
      ensures !AllMatching() ==> r == if 0 <= nIndex < |Scanned()| then Scanned()[nIndex] else 0
    {
      if AllMatching() {
        RankOfAll(Matching(), addressCount);
        if 0 <= nIndex < addressCount {
          AllAreListed(nIndex);
        }
        return Wrap(firstAddress + nIndex);
      }
      var visited, completed := EnumerateMatchingAddressesInternal(k => k != nIndex);
      ListedComesFirst();
      r := if 0 <= nIndex < |visited| then visited[nIndex] else 0;
    }
  }

  // ----- Where the promises end

  /** A block of two addresses and a slice that names the first one twice: the second one matches too. */
  method DuplicatesMatchAll() returns (matches: bool)
    ensures matches
  {
    var block := new CapturedMemoryBlock(0, 2);
    block.SetMatchingAddresses([0, 0], 0, 1);
    matches := block.ContainsMatchingAddress(1);
  }

  /** A block of nine addresses of which the first was excluded: the enumeration lists more than the eight
      addresses that match. */
  method PaddingIsListed() returns (visited: seq<int>, count: nat)
    ensures count == 8 && |visited| > 8
  {
    var block := new CapturedMemoryBlock(0, 9);
    RankOfAll(block.Matching(), 9);
    RankWithout(block.Matching(), 0, 9);
    block.ExcludeMatchingAddress(0);
    count := block.matchingAddressCount;
    block.ListedComesFirst();
    var completed;
    visited, completed := block.EnumerateMatchingAddresses(_ => true);
  }

  /** A block of two addresses and a slice with one of them and two others: its count is three, and once an
      address is excluded all match, that one too. */
  method ExcludedMatchesAgain() returns (matches: bool, all: bool)
    ensures matches && all
  {
    var block := new CapturedMemoryBlock(0, 2);
    var slice := [0, 7, 9];
    assert slice[..3] == slice && slice[0] == 0;
    block.SetMatchingAddresses(slice, 0, 2);
    assert block.Matching()[0];
    block.ExcludeMatchingAddress(0);
    matches := block.ContainsMatchingAddress(0);
    all := block.AllMatching();
  }
}

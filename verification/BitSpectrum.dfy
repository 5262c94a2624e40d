/** The bit spectrum: one count for each bit set in a parameter (main/Core/BitSpectrum.hpp:81-98). */
module BitSpectra {
  import opened Options
  import opened Bytes
  import opened FilterRecords

  /** The positions of the set bits, the lowest first, when the lowest bit is at position k. */
  function SetBits(n: nat, k: nat): seq<nat> {
    if n == 0 then [] else (if n % 2 == 1 then [k] else []) + SetBits(n / 2, k + 1)
  }

  function Sum(channels: seq<nat>): nat {
    if channels == [] then 0 else Pow2(channels[0]) + Sum(channels[1..])
  }

  /** Each channel is above the one before it, the first at least k. */
  predicate AscendingFrom(channels: seq<nat>, k: nat)
    decreases |channels|
  {
    channels == [] || (k <= channels[0] && AscendingFrom(channels[1..], channels[0] + 1))
  }

  lemma Doubled(k: nat, n: nat)
    ensures Pow2(k + 1) * n == Pow2(k) * (2 * n)
  {
  }

  lemma Distribute(p: nat, a: nat, b: nat)
    ensures p * (a + b) == p * a + p * b
  {
  }

  lemma Associate(a: nat, b: nat, c: nat)
    ensures a * b * c == a * (b * c)
  {
  }

  lemma Larger(p: nat, a: nat, b: nat)
    ensures p > 0 && a < b ==> p * a < p * b
  {
    if p > 0 && a < b {
      Distribute(p, a, b - a);
    }
  }

  lemma Cancel(p: nat, a: nat, b: nat)
    requires p > 0 && p * a == p * b
    ensures a == b
  {
    Larger(p, a, b);
    Larger(p, b, a);
  }

  lemma {:induction false} Pow2Sum(a: nat, b: nat)
    ensures Pow2(a + b) == Pow2(a) * Pow2(b)
  {
    if b > 0 {
      Pow2Sum(a, b - 1);
    }
  }

  /** The channels ascend from k, and their powers add up to the number. */
  lemma {:induction false} SetBitsSum(n: nat, k: nat)
    ensures Sum(SetBits(n, k)) == Pow2(k) * n && AscendingFrom(SetBits(n, k), k)
    decreases n
  {
    hide Pow2;
    if n > 0 {
      SetBitsSum(n / 2, k + 1);
      Doubled(k, n / 2);
      var rest := SetBits(n / 2, k + 1);
      if n % 2 == 1 {
        assert SetBits(n, k) == [k] + rest && ([k] + rest)[1..] == rest;
        Distribute(Pow2(k), 2 * (n / 2), 1);
      } else {
        assert SetBits(n, k) == rest;
      }
    }
  }

  lemma {:induction false} SumDivides(channels: seq<nat>, k: nat) returns (q: nat)
    requires AscendingFrom(channels, k)
    ensures Sum(channels) == Pow2(k) * q
    decreases |channels|
  {
    hide Pow2;
    q := 0;
    if channels != [] {
      var c := channels[0];
      var more := SumDivides(channels[1..], c + 1);
      Doubled(c, more);
      Distribute(Pow2(c), 1, 2 * more);
      Pow2Sum(k, c - k);
      q := Pow2(c - k) * (1 + 2 * more);
      Associate(Pow2(k), Pow2(c - k), 1 + 2 * more);
    }
  }

  /** No other ascending channels add up to the number. */
  lemma {:induction false} SetBitsUnique(channels: seq<nat>, n: nat, k: nat)
    requires AscendingFrom(channels, k) && Sum(channels) == Pow2(k) * n
    ensures channels == SetBits(n, k)
    decreases n
  {
    hide Pow2;
    if n > 0 {
      var first := channels != [] && channels[0] == k;
      var rest := if first then channels[1..] else channels;
      var q := SumDivides(rest, k + 1);
      Doubled(k, q);
      Distribute(Pow2(k), 2 * q, 1);
      Cancel(Pow2(k), n, 2 * q + if first then 1 else 0);
      SetBitsUnique(rest, n / 2, k + 1);
    } else {
      assert Sum(channels) == 0;
    }
  }

  /** Bit k of a multiple of 2^k is the lowest bit of the factor. */
  lemma {:induction false} BitOfMultiple(m: nat, k: nat)
    ensures Bit(Pow2(k) * m, k) <==> m % 2 == 1
  {
    if k > 0 {
      assert Pow2(k) * m == 2 * (Pow2(k - 1) * m);
      BitOfMultiple(m, k - 1);
    }
  }

  class BitSpectrum {
    const parameter: nat

    /** The channels filled so far. */
    var fills: seq<nat>

    constructor (parameter: nat)
      ensures this.parameter == parameter && fills == []
    {
      this.parameter, fills := parameter, [];
    }

    /** Clear the bits of the parameter from the lowest on, filling one channel for each. */
    method Increment(event: seq<Option<word>>)
      modifies `fills
      ensures fills == old(fills) + if parameter < |event| && event[parameter].Some?
                                    then SetBits(event[parameter].value, 0) else []
    {
      hide Pow2, Bit, SetBits;
      if parameter < |event| && event[parameter].Some? {
        var nParam: nat := event[parameter].value;
        var bitnum, bit := 0, 1;
        ghost var high := nParam;
        FirstPower();
        while nParam != 0
          invariant nParam == Pow2(bitnum) * high < WORD_LIMIT
          invariant bitnum <= WORD_BITS && bit == (if bitnum < WORD_BITS then Pow2(bitnum) else 0)
          invariant fills + SetBits(high, bitnum) == old(fills) + SetBits(event[parameter].value, 0)
          decreases WORD_BITS - bitnum
        {
          BitOfMultiple(high, bitnum);
          StaysInWord(high, bitnum);
          ShiftOut(high, bitnum);
          if Bit(nParam, bitnum) {
            nParam := nParam - bit;
            fills := fills + [bitnum];
          }
          bit := bit * 2 % WORD_LIMIT;
          bitnum := bitnum + 1;
          high := high / 2;
        }
        NothingHigh(high, bitnum);
      }
    }
  }

  lemma FirstPower()
    ensures Pow2(0) == 1
  {
  }

  lemma NothingHigh(high: nat, k: nat)
    requires Pow2(k) * high == 0
    ensures SetBits(high, k) == []
  {
    Larger(Pow2(k), 0, high);
  }

  /** The bit that is shifted stays within a word as long as there are higher bits. */
  lemma StaysInWord(high: nat, k: nat)
    requires 0 < Pow2(k) * high < WORD_LIMIT && k <= WORD_BITS
    ensures k < WORD_BITS && high > 0
    ensures Pow2(k) * 2 % WORD_LIMIT == if k + 1 < WORD_BITS then Pow2(k + 1) else 0
  {
    hide Pow2;
    Pow32();
    Larger(Pow2(k), 1, high);
    Doubled(k, 1);
    Doubled(WORD_BITS - 1, 1);
    if k + 1 < WORD_BITS {
      Pow2Monotone(k + 1, WORD_BITS - 1);
    }
  }

  /** Taking off the lowest bit of the factor. */
  lemma ShiftOut(high: nat, k: nat)
    requires high > 0
    ensures Pow2(k) * high == Pow2(k + 1) * (high / 2) + if high % 2 == 1 then Pow2(k) else 0
    ensures SetBits(high, k) == (if high % 2 == 1 then [k] else []) + SetBits(high / 2, k + 1)
  {
    hide Pow2;
    Doubled(k, high / 2);
    Distribute(Pow2(k), 2 * (high / 2), 1);
  }

  /** The channels an event fills: ascending, below 32, and adding up to the parameter. */
  lemma FilledChannels(w: word)
    ensures Sum(SetBits(w, 0)) == w && AscendingFrom(SetBits(w, 0), 0)
    ensures forall c :: c in SetBits(w, 0) ==> c < WORD_BITS
  {
    SetBitsSum(w, 0);
    Pow32();
    forall c | c in SetBits(w, 0) ensures c < WORD_BITS {
      PartOfSum(SetBits(w, 0), c);
      if c >= WORD_BITS {
        Pow2Monotone(WORD_BITS, c);
      }
    }
  }

  lemma {:induction false} PartOfSum(channels: seq<nat>, c: nat)
    requires c in channels
    ensures Pow2(c) <= Sum(channels)
  {
    if channels[0] != c {
      PartOfSum(channels[1..], c);
    }
  }
}

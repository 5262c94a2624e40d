/** Filter-file records as XDR items, and the table that filter2ascii prints for them
    (main/Core/CXdrFilterOutputStage.cpp:204-285, filter2ascii/filter2ascii.cpp:82-153). */
module FilterRecords {
  import opened Options
  import opened Bytes
  import opened Xdr

  const WORD_BITS := 32

  // Bit masks

  /** `m & (1 << j)`: halve j times and look at the lowest bit. */
  predicate Bit(m: nat, j: nat)
    decreases j
  {
    if j == 0 then m % 2 == 1 else Bit(m / 2, j - 1)
  }

  /** `m | (1 << j)`. */
  function SetBit(m: nat, j: nat): nat
    decreases j
  {
    if j == 0 then (if m % 2 == 1 then m else m + 1) else m % 2 + 2 * SetBit(m / 2, j - 1)
  }

  /** The mask with bit j set where p[j] holds. */
  function MaskOf(p: seq<bool>): nat {
    if p == [] then 0 else (if p[0] then 1 else 0) + 2 * MaskOf(p[1..])
  }

  lemma {:induction false} BitOfMask(p: seq<bool>, j: nat)
    ensures Bit(MaskOf(p), j) <==> j < |p| && p[j]
    decreases j
  {
    if p == [] {
      if j > 0 {
        BitOfMask([], j - 1);
      }
    } else {
      assert MaskOf(p) / 2 == MaskOf(p[1..]);
      if j > 0 {
        BitOfMask(p[1..], j - 1);
      }
    }
  }

  lemma {:induction false} SetBitOfMask(p: seq<bool>, j: nat)
    requires j < |p|
    ensures SetBit(MaskOf(p), j) == MaskOf(p[j := true])
    decreases j
  {
    assert MaskOf(p) / 2 == MaskOf(p[1..]);
    if j > 0 {
      SetBitOfMask(p[1..], j - 1);
      assert p[j := true][1..] == p[1..][j - 1 := true];
    } else {
      assert p[0 := true][1..] == p[1..];
    }
  }

  lemma {:induction false} MaskBound(p: seq<bool>)
    ensures MaskOf(p) < Pow2(|p|)
  {
    if p != [] {
      MaskBound(p[1..]);
    }
  }

  lemma {:induction false} Pow2Monotone(a: nat, b: nat)
    requires a <= b
    ensures Pow2(a) <= Pow2(b)
  {
    if a < b {
      Pow2Monotone(a, b - 1);
    }
  }

  // Events

  /** The parameter values of an event, None where not valid. */
  type Values = seq<Option<Double>>

  function MaskWords(n: nat): nat {
    (n + WORD_BITS - 1) / WORD_BITS
  }

  /** Presence of the parameters that mask word i covers. */
  function Presence(values: Values, i: nat): (p: seq<bool>)
    requires i < MaskWords(|values|)
    ensures |p| <= WORD_BITS
  {
    var from := WORD_BITS * i;
    var n := if |values| - from < WORD_BITS then |values| - from else WORD_BITS;
    seq(n, j requires 0 <= j < n => values[from + j].Some?)
  }

  function MaskWord(values: Values, i: nat): word
    requires i < MaskWords(|values|)
  {
    var p := Presence(values, i);
    MaskBound(p);
    Pow2Monotone(|p|, WORD_BITS);
    assert Pow2(32) == 0x1_0000_0000 by { Pow32(); }
    MaskOf(p)
  }

  lemma Pow32()
    ensures Pow2(32) == 0x1_0000_0000
  {
    assert Pow2(8) == 0x100;
    assert Pow2(16) == 0x1_0000 by { assert Pow2(12) == 0x1000; }
    assert Pow2(24) == 0x100_0000 by { assert Pow2(20) == 0x10_0000; }
    assert Pow2(28) == 0x1000_0000;
  }

  lemma BitOfMaskWord(values: Values, i: nat, j: nat)
    requires WORD_BITS * i + j < |values| && j < WORD_BITS
    ensures i < MaskWords(|values|) && (Bit(MaskWord(values, i), j) <==> values[WORD_BITS * i + j].Some?)
  {
    BitOfMask(Presence(values, i), j);
  }

  function MaskItems(values: Values): (items: seq<Item>)
    ensures |items| == MaskWords(|values|)
  {
    seq(MaskWords(|values|), i requires 0 <= i < MaskWords(|values|) => IntItem(MaskWord(values, i)))
  }

  /** The valid values, in parameter order. */
  function ValueItems(values: Values): seq<Item> {
    if values == [] then []
    else (if values[0].Some? then [DoubleItem(values[0].value)] else []) + ValueItems(values[1..])
  }

  function CountValid(values: Values): nat {
    if values == [] then 0 else (if values[0].Some? then 1 else 0) + CountValid(values[1..])
  }

  /** An event record has as many doubles as its masks have bits set. */
  lemma {:induction false} OneDoublePerBit(values: Values)
    ensures |ValueItems(values)| == CountValid(values) <= |values|
  {
    if values != [] {
      OneDoublePerBit(values[1..]);
    }
  }

  // "header" and "event"
  const HEADER_TAG: seq<byte> := [104, 101, 97, 100, 101, 114]
  const EVENT_TAG: seq<byte> := [101, 118, 101, 110, 116]

  lemma TagsSpell()
    ensures |HEADER_TAG| == |"header"| && forall i :: 0 <= i < |"header"| ==> HEADER_TAG[i] == "header"[i] as int
    ensures |EVENT_TAG| == |"event"| && forall i :: 0 <= i < |"event"| ==> EVENT_TAG[i] == "event"[i] as int
  {
  }

  type Name = seq<byte>

  datatype Record = HeaderRecord(names: seq<Name>) | EventRecord(values: Values) | Unknown(tag: seq<byte>)

  function NameItems(names: seq<Name>): (items: seq<Item>)
    ensures |items| == |names|
  {
    seq(|names|, i requires 0 <= i < |names| => StringItem(names[i]))
  }

  predicate Writable(r: Record) {
    match r
    case HeaderRecord(names) => |names| < 0x8000_0000
    case EventRecord(_) => true
    case Unknown(tag) => tag != HEADER_TAG && tag != EVENT_TAG
  }

  function RecordItems(r: Record): (items: seq<Item>)
    requires Writable(r)
    ensures items != []
  {
    match r
    case HeaderRecord(names) => [StringItem(HEADER_TAG), IntItem(|names|)] + NameItems(names)
    case EventRecord(values) => [StringItem(EVENT_TAG)] + MaskItems(values) + ValueItems(values)
    case Unknown(tag) => [StringItem(tag)]
  }

  predicate AllWritable(records: seq<Record>) {
    forall i :: 0 <= i < |records| ==> Writable(records[i])
  }

  function FileItems(records: seq<Record>): seq<Item>
    requires AllWritable(records)
  {
    if records == [] then [] else RecordItems(records[0]) + FileItems(records[1..])
  }

  // The table

  datatype Token = NameCell(name: Name) | ValueCell(d: Double) | GapCell | LineEnd

  function Cell(v: Option<Double>): Token {
    if v.Some? then ValueCell(v.value) else GapCell
  }

  /** One column per parameter. */
  function Row(values: Values): (row: seq<Token>)
    ensures |row| == |values|
  {
    seq(|values|, i requires 0 <= i < |values| => Cell(values[i]))
  }

  function NameCells(names: seq<Name>): (cells: seq<Token>)
    ensures |cells| == |names|
  {
    seq(|names|, i requires 0 <= i < |names| => NameCell(names[i]))
  }

  /** Events after a header of n parameters have n values. */
  predicate Consistent(records: seq<Record>, n: nat)
    decreases |records|
  {
    records == [] ||
    match records[0]
    case HeaderRecord(names) => Consistent(records[1..], n + |names|)
    case EventRecord(values) => n > 0 ==> |values| == n && Consistent(records[1..], n)
    case Unknown(_) => true
  }

  /** The output for a file whose earlier headers named n parameters. An event without a header
      and an unknown record end the translation, after the line that precedes the first
      record that is not a header. If the last block is empty, the string that a reader takes
      from behind its header counts as one more record, which ends the translation. */
  function Table(records: seq<Record>, n: nat, started: bool, stale: Option<seq<byte>>): seq<Token>
    decreases |records|
  {
    var lead := if started then [] else [LineEnd];
    if records == [] then StaleEnd(stale, started)
    else
      match records[0]
      case HeaderRecord(names) => NameCells(names) + Table(records[1..], n + |names|, started, stale)
      case EventRecord(values) =>
        if n == 0 then lead else lead + Row(values) + [LineEnd] + Table(records[1..], n, true, stale)
      case Unknown(_) => lead
  }

  /** What that string still prints. */
  function StaleEnd(stale: Option<seq<byte>>, started: bool): seq<Token> {
    if stale.Some? && stale.value != HEADER_TAG && !started then [LineEnd] else []
  }
}

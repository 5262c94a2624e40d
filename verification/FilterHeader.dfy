/** How the names of a filter file's parameters are split into header records
    (main/Core/CXdrFilterOutputStage.cpp:138-181). */
module FilterHeaders {
  import opened Sequences
  import opened Xdr
  import opened XdrOutputStreams
  import opened FilterRecords

  /** sizeof(int) + strlen("header") */
  const START_BYTES := 10

  /** The position behind the tag and the count of a header record. */
  const NAMES_START := 20

  /** Names that fit behind some bytes; the padding and the counts of strings are not reckoned. */
  function FitCount(bufferSize: nat, names: seq<Name>, nBytes: nat): (n: nat)
    ensures n <= |names|
  {
    if names == [] || !Fits(bufferSize, HEADER, nBytes + |names[0]|) then 0
    else 1 + FitCount(bufferSize, names[1..], nBytes + |names[0]|)
  }

  predicate NameFits(bufferSize: nat, name: Name) {
    Fits(bufferSize, HEADER, START_BYTES + |name|)
  }

  predicate AllFit(bufferSize: nat, names: seq<Name>) {
    forall i :: 0 <= i < |names| ==> NameFits(bufferSize, names[i])
  }

  /** The names left after some rounds of describing. */
  function NamesLeft(bufferSize: nat, names: seq<Name>, rounds: nat): seq<Name>
    decreases rounds
  {
    if rounds == 0 || names == [] then names
    else NamesLeft(bufferSize, names[FitCount(bufferSize, names, START_BYTES)..], rounds - 1)
  }

  lemma {:induction false} FittingNames(bufferSize: nat, names: seq<Name>, nBytes: nat)
    requires START_BYTES <= nBytes
    ensures forall i :: 0 <= i < FitCount(bufferSize, names, nBytes) ==> NameFits(bufferSize, names[i])
  {
    if names != [] && Fits(bufferSize, HEADER, nBytes + |names[0]|) {
      FittingNames(bufferSize, names[1..], nBytes + |names[0]|);
      forall i | 0 <= i < FitCount(bufferSize, names, nBytes) ensures NameFits(bufferSize, names[i]) {
        assert i > 0 ==> names[i] == names[1..][i - 1];
      }
    }
  }

  /** Some number of rounds describes all the names if and only if each name fits a header
      record of its own; then as many rounds as names are enough. */
  lemma {:induction false} DescribingEnds(bufferSize: nat, names: seq<Name>, rounds: nat)
    ensures NamesLeft(bufferSize, names, rounds) == [] ==> AllFit(bufferSize, names)
    ensures AllFit(bufferSize, names) && |names| <= rounds ==> NamesLeft(bufferSize, names, rounds) == []
    decreases rounds
  {
    if rounds > 0 && names != [] {
      var n := FitCount(bufferSize, names, START_BYTES);
      FittingNames(bufferSize, names, START_BYTES);
      DescribingEnds(bufferSize, names[n..], rounds - 1);
      assert names == names[..n] + names[n..];
      if AllFit(bufferSize, names[n..]) {
        forall i | 0 <= i < |names| ensures NameFits(bufferSize, names[i]) {
          assert i >= n ==> names[i] == names[n..][i - n];
        }
      }
      if AllFit(bufferSize, names) {
        assert NameFits(bufferSize, names[0]);
      }
    }
  }

  /** The names of each header record. */
  function Groups(bufferSize: nat, names: seq<Name>): (groups: seq<seq<Name>>)
    requires AllFit(bufferSize, names)
    ensures groups == [] <==> names == []
    decreases |names|
  {
    if names == [] then []
    else
      assert NameFits(bufferSize, names[0]);
      var n := FitCount(bufferSize, names, START_BYTES);
      [names[..n]] + Groups(bufferSize, names[n..])
  }

  lemma {:induction false} GroupsKeepNames(bufferSize: nat, names: seq<Name>)
    requires AllFit(bufferSize, names)
    ensures Flatten(Groups(bufferSize, names)) == names
    ensures forall g :: 0 <= g < |Groups(bufferSize, names)| ==> Groups(bufferSize, names)[g] != []
    decreases |names|
  {
    if names != [] {
      assert NameFits(bufferSize, names[0]);
      var n := FitCount(bufferSize, names, START_BYTES);
      GroupsKeepNames(bufferSize, names[n..]);
      assert names == names[..n] + names[n..];
    }
  }

  function HeaderRecords(groups: seq<seq<Name>>): (records: seq<Record>)
    ensures |records| == |groups|
  {
    seq(|groups|, g requires 0 <= g < |groups| => HeaderRecord(groups[g]))
  }

  predicate ShortGroups(groups: seq<seq<Name>>) {
    forall g :: 0 <= g < |groups| ==> |groups[g]| < 0x8000_0000
  }

  lemma {:induction false} GroupsShort(bufferSize: nat, names: seq<Name>)
    requires AllFit(bufferSize, names) && |names| < 0x8000_0000
    ensures ShortGroups(Groups(bufferSize, names))
    decreases |names|
  {
    if names != [] {
      assert NameFits(bufferSize, names[0]);
      GroupsShort(bufferSize, names[FitCount(bufferSize, names, START_BYTES)..]);
    }
  }

  /** The position after some names have been put one by one. */
  function EndPos(bufferSize: nat, pos: nat, names: seq<Name>): nat
    decreases |names|
  {
    if names == [] then pos
    else
      var from := RequirePos(bufferSize, pos, |names[0]| + 1);
      EndPos(bufferSize, NextPos(bufferSize, from, Length(StringItem(names[0]))), names[1..])
  }

  /** The string that the block in the buffer starts with after some names have been put. */
  function LeadAfter(bufferSize: nat, pos: nat, lead: Name, names: seq<Name>): Name
    decreases |names|
  {
    if names == [] then lead
    else
      var from := RequirePos(bufferSize, pos, |names[0]| + 1);
      LeadAfter(bufferSize, NextPos(bufferSize, from, Length(StringItem(names[0]))),
                if from == HEADER then names[0] else lead, names[1..])
  }

  /** The string that the last block of the description starts with. */
  function LastLead(bufferSize: nat, names: seq<Name>): Name
    requires AllFit(bufferSize, names) && names != []
  {
    var groups := Groups(bufferSize, names);
    LeadAfter(bufferSize, NAMES_START, HEADER_TAG, groups[|groups| - 1])
  }

  /** No record's last name fills the buffer, so that the flush behind it has something to write. */
  predicate HeadersEndPending(bufferSize: nat, groups: seq<seq<Name>>) {
    forall g :: 0 <= g < |groups| ==> EndPos(bufferSize, NAMES_START, groups[g]) != HEADER
  }

  /** A name that fits a record of its own can always be put. */
  lemma NameRoom(bufferSize: nat, pos: nat, name: Name)
    requires bufferSize % 4 == 0 && pos % 4 == 0 && NameFits(bufferSize, name)
    ensures RequirePos(bufferSize, pos, |name| + 1) + Length(StringItem(name)) <= bufferSize
    ensures pos == HEADER ==> Fits(bufferSize, pos, |name| + 1)
  {
    var p := RequirePos(bufferSize, pos, |name| + 1);
    assert Fits(bufferSize, p, |name| + 1) && p % 4 == 0;
    var padded := |name| + Padding(|name|);
    assert p + 2 * |name| + 2 < bufferSize;
    if |name| >= 3 {
      assert padded <= 2 * |name|;
    }
  }

  /** A name of 4084 bytes fits no record of the usual buffer: no number of rounds describes it. */
  lemma LongNameNeverDescribed(name: Name, rounds: nat)
    requires |name| == 4084
    ensures NamesLeft(USUAL_SIZE, [name], rounds) != []
  {
    DescribingEnds(USUAL_SIZE, [name], rounds);
    assert !NameFits(USUAL_SIZE, [name][0]);
  }

  // With the usual buffer, 1021 names that fill it exactly

  const USUAL_SIZE := 8192

  const SHORT_NAME: Name := [120]

  function ManyNames(): (names: seq<Name>)
    ensures AllFit(USUAL_SIZE, names)
  {
    [[97, 97, 97, 97, 97]] + seq(1020, _ => SHORT_NAME)
  }

  predicate AllShort(names: seq<Name>) {
    forall i :: 0 <= i < |names| ==> names[i] == SHORT_NAME
  }

  lemma {:induction false} ShortNamesFit(names: seq<Name>, nBytes: nat)
    requires AllShort(names) && Fits(USUAL_SIZE, HEADER, nBytes + |names|)
    ensures FitCount(USUAL_SIZE, names, nBytes) == |names|
  {
    if names != [] {
      ShortNamesFit(names[1..], nBytes + 1);
    }
  }

  lemma {:induction false} ShortNamesEnd(names: seq<Name>, pos: nat)
    requires AllShort(names) && names != [] && pos + 8 * |names| == USUAL_SIZE
    ensures EndPos(USUAL_SIZE, pos, names) == HEADER
    decreases |names|
  {
    if |names| > 1 {
      ShortNamesEnd(names[1..], pos + 8);
    } else {
      assert EndPos(USUAL_SIZE, HEADER, names[1..]) == HEADER;
    }
  }

  lemma FitCountFirst(bufferSize: nat, names: seq<Name>, nBytes: nat)
    requires names != [] && Fits(bufferSize, HEADER, nBytes + |names[0]|)
    ensures FitCount(bufferSize, names, nBytes) == 1 + FitCount(bufferSize, names[1..], nBytes + |names[0]|)
  {
  }

  lemma EndPosFirst(bufferSize: nat, pos: nat, names: seq<Name>)
    requires names != []
    ensures EndPos(bufferSize, pos, names) ==
              EndPos(bufferSize, NextPos(bufferSize, RequirePos(bufferSize, pos, |names[0]| + 1),
                                         Length(StringItem(names[0]))), names[1..])
  {
  }

  lemma LeadAfterFirst(bufferSize: nat, pos: nat, lead: Name, names: seq<Name>)
    requires names != []
    ensures var from := RequirePos(bufferSize, pos, |names[0]| + 1);
            LeadAfter(bufferSize, pos, lead, names) ==
              LeadAfter(bufferSize, NextPos(bufferSize, from, Length(StringItem(names[0]))),
                        if from == HEADER then names[0] else lead, names[1..])
  {
  }

  lemma OneGroup(bufferSize: nat, names: seq<Name>)
    requires names != [] && AllFit(bufferSize, names) && FitCount(bufferSize, names, START_BYTES) == |names|
    ensures Groups(bufferSize, names) == [names]
  {
    assert names[|names|..] == [] && names[..|names|] == names;
  }

  /** Their one header record fills the buffer, and the flush behind it writes an empty block. */
  lemma ManyNamesLeaveNothing()
    ensures Groups(USUAL_SIZE, ManyNames()) == [ManyNames()]
    ensures !HeadersEndPending(USUAL_SIZE, Groups(USUAL_SIZE, ManyNames()))
  {
    hide FitCount, EndPos, Groups;
    var names := ManyNames();
    var rest := names[1..];
    assert |names[0]| == 5 && |rest| == 1020 && AllShort(rest);
    FitCountFirst(USUAL_SIZE, names, START_BYTES);
    ShortNamesFit(rest, START_BYTES + 5);
    OneGroup(USUAL_SIZE, names);
    EndPosFirst(USUAL_SIZE, NAMES_START, names);
    assert Length(StringItem(names[0])) == 12;
    ShortNamesEnd(rest, NAMES_START + 12);
    assert Groups(USUAL_SIZE, names)[0] == names;
  }
}

/** The parameter lists of a gamma summary spectrum, flattened into one list of ids, written as
    one list of names and read back (main/Core/CGammaSummarySpectrum.hpp:290-299, 458-470,
    main/Core/CHDF5SpectrumFormatter.cpp:487-510, 550-588,
    main/hdf5reader/hdf5SpectrumReader.cpp:261-286). */
module GammaSummary {
  import opened Bytes

  // Lists ended by a separator

  /** Each list followed by the separator. */
  function Join<T>(lists: seq<seq<T>>, end: T): seq<T> {
    if lists == [] then [] else lists[0] + [end] + Join(lists[1..], end)
  }

  function IndexOf<T(==)>(s: seq<T>, end: T): (i: nat)
    ensures i <= |s| && (i < |s| ==> s[i] == end) && end !in s[..i]
  {
    if s == [] || s[0] == end then 0
    else
      var i := IndexOf(s[1..], end);
      assert s[..i + 1] == [s[0]] + s[1..][..i];
      i + 1
  }

  /** The lists between the separators; the last may lack its own. */
  function Split<T(==)>(s: seq<T>, end: T): seq<seq<T>>
    decreases |s|
  {
    if s == [] then []
    else
      var i := IndexOf(s, end);
      [s[..i]] + if i < |s| then Split(s[i + 1..], end) else []
  }

  lemma {:induction false} SplitHasNoEnds<T>(s: seq<T>, end: T)
    ensures forall k :: 0 <= k < |Split(s, end)| ==> end !in Split(s, end)[k]
    decreases |s|
  {
    if s != [] {
      var i := IndexOf(s, end);
      if i < |s| {
        SplitHasNoEnds(s[i + 1..], end);
      }
    }
  }

  lemma {:induction false} IndexOfIs<T>(s: seq<T>, n: nat, end: T)
    requires n <= |s| && end !in s[..n] && (n < |s| ==> s[n] == end)
    ensures IndexOf(s, end) == n
  {
    if n > 0 {
      assert s[..n][0] == s[0] && s[..n][1..] == s[1..][..n - 1];
      IndexOfIs(s[1..], n - 1, end);
    }
  }

  /** The first list ends at the first separator, or where everything ends. */
  lemma SplitAt<T>(s: seq<T>, n: nat, end: T)
    requires s != [] && n <= |s| && end !in s[..n] && (n < |s| ==> s[n] == end)
    ensures Split(s, end) == [s[..n]] + if n < |s| then Split(s[n + 1..], end) else []
  {
    IndexOfIs(s, n, end);
  }

  lemma JoinFirst<T>(lists: seq<seq<T>>, end: T)
    requires lists != []
    ensures var all, list := Join(lists, end), lists[0];
            && |list| < |all| && all[..|list|] == list && all[|list|] == end
            && all[|list| + 1..] == Join(lists[1..], end)
  {
  }

  /** Splitting recovers the lists that were joined if and only if none holds the separator. */
  lemma {:induction false} SplitOfJoin<T>(lists: seq<seq<T>>, end: T)
    ensures Split(Join(lists, end), end) == lists <==> forall k :: 0 <= k < |lists| ==> end !in lists[k]
  {
    if lists != [] {
      hide IndexOf, Split, Join;
      SplitHasNoEnds(Join(lists, end), end);
      assert Split(Join(lists, end), end) == lists ==> forall k :: 0 <= k < |lists| ==> end !in lists[k];
      if forall k :: 0 <= k < |lists| ==> end !in lists[k] {
        JoinFirst(lists, end);
        SplitAt(Join(lists, end), |lists[0]|, end);
        SplitOfJoin(lists[1..], end);
        assert lists == [lists[0]] + lists[1..];
      }
    }
  }

  lemma JoinCut<T>(lists: seq<seq<T>>, i: nat, end: T)
    requires lists != [] && i <= |lists[0]|
    ensures i < |Join(lists, end)| && Join(lists, end)[..i] == lists[0][..i]
    ensures i < |lists[0]| ==>
              Join(lists, end)[i] == lists[0][i]
              && Join(lists, end)[i + 1..] == Join([lists[0][i + 1..]] + lists[1..], end)
  {
    if i < |lists[0]| {
      assert ([lists[0][i + 1..]] + lists[1..])[1..] == lists[1..];
    }
  }

  /** A separator inside a list makes for more lists. */
  lemma {:induction false} SplitCount<T>(lists: seq<seq<T>>, end: T)
    ensures |Split(Join(lists, end), end)| >= |lists|
    ensures (exists k :: 0 <= k < |lists| && end in lists[k]) ==> |Split(Join(lists, end), end)| > |lists|
    decreases |Join(lists, end)|
  {
    if lists != [] {
      hide Split, Join, IndexOf;
      var list, all := lists[0], Join(lists, end);
      var rest, i := lists[1..], IndexOf(list, end);
      JoinFirst(lists, end);
      JoinCut(lists, i, end);
      SplitAt(all, i, end);
      if i < |list| {
        SplitCount([list[i + 1..]] + rest, end);
      } else {
        assert list[..i] == list;
        SplitCount(rest, end);
        assert forall k :: 1 <= k < |lists| ==> lists[k] == rest[k - 1];
      }
    }
  }

  // Names for ids

  /** UINT_MAX */
  const SENTINEL: word := 0xFFFF_FFFF

  const DELETED := "--DELETED--"

  /** The parameter dictionary in the order of its names. */
  type Parameters = seq<(string, word)>

  /** The name of an id; of several parameters with that id the last one counts. */
  function NameOf(dict: Parameters, id: word): string {
    if dict == [] then DELETED
    else if dict[|dict| - 1].1 == id then dict[|dict| - 1].0
    else NameOf(dict[..|dict| - 1], id)
  }

  /** A known id has the name of its last parameter in the dictionary. */
  lemma {:induction false} NameOfExact(dict: Parameters, id: word, k: nat)
    ensures (forall j :: 0 <= j < |dict| ==> dict[j].1 != id) ==> NameOf(dict, id) == DELETED
    ensures k < |dict| && dict[k].1 == id && (forall j :: k < j < |dict| ==> dict[j].1 != id) ==>
              NameOf(dict, id) == dict[k].0
  {
    if dict != [] {
      NameOfExact(dict[..|dict| - 1], id, k);
    }
  }

  /** The last occurrence of an id in a list. */
  predicate IsLast(ids: seq<word>, k: nat)
    requires k < |ids|
  {
    ids[k] !in ids[k + 1..]
  }

  function NamesOf(dict: Parameters, ids: seq<word>): (names: seq<string>)
    ensures |names| == |ids|
  {
    seq(|ids|, k requires 0 <= k < |ids| => if IsLast(ids, k) then NameOf(dict, ids[k]) else DELETED)
  }

  /** Every place gets the name of its id if and only if ids that come again are unknown. */
  lemma NamesInOrder(dict: Parameters, ids: seq<word>)
    ensures (forall k :: 0 <= k < |ids| ==> NamesOf(dict, ids)[k] == NameOf(dict, ids[k])) <==>
            (forall k :: 0 <= k < |ids| && !IsLast(ids, k) ==> NameOf(dict, ids[k]) == DELETED)
  {
    forall k | 0 <= k < |ids| && !IsLast(ids, k)
      ensures NamesOf(dict, ids)[k] == NameOf(dict, ids[k]) <==> NameOf(dict, ids[k]) == DELETED {
    }
    forall k | 0 <= k < |ids| && IsLast(ids, k) ensures NamesOf(dict, ids)[k] == NameOf(dict, ids[k]) {
    }
  }

  /** An id that comes twice is named only at its last place. */
  lemma RepeatedIdLosesName()
    ensures NamesOf([("e", 7)], [7, 7]) == [DELETED, "e"]
  {
    var ids: seq<word> := [7, 7];
    assert ids[1..] == [7] && ids[2..] == [];
    assert IsLast(ids, 1) && !IsLast(ids, 0);
  }

  function AllNames(dict: Parameters, lists: seq<seq<word>>): (names: seq<seq<string>>)
    ensures |names| == |lists|
  {
    seq(|lists|, k requires 0 <= k < |lists| => NamesOf(dict, lists[k]))
  }

  class GammaSummarySpectrum {
    var parameters: seq<seq<word>>

    /** The definition's list of ids, kept from call to call. */
    var vParameters: seq<word>

    constructor ()
      ensures parameters == []
    {
      parameters, vParameters := [], [];
    }

    /** Append the ids of each strip's parameters. */
    method FillParameterArray(params: seq<seq<(string, word)>>, xChannels: nat)
      requires xChannels <= |params|
      modifies `parameters
      ensures parameters == old(parameters) + seq(xChannels, i requires 0 <= i < xChannels => IdsOf(params[i]))
      ensures forall i, j :: 0 <= i < xChannels && 0 <= j < |params[i]| ==>
                |parameters[|old(parameters)| + i]| == |params[i]|
                && parameters[|old(parameters)| + i][j] == params[i][j].1
    {
      ghost var added := seq(xChannels, i requires 0 <= i < xChannels => IdsOf(params[i]));
      for i := 0 to xChannels
        invariant parameters == old(parameters) + added[..i]
      {
        var v := [];
        for j := 0 to |params[i]|
          invariant v == IdsOf(params[i])[..j]
        {
          v := v + [params[i][j].1];
        }
        assert v == IdsOf(params[i]) == added[i];
        parameters := parameters + [v];
      }
    }

    method GetDefinition() returns (ids: seq<word>)
      modifies `vParameters
      ensures ids == vParameters == Join(parameters, SENTINEL)
    {
      vParameters := [];
      assert parameters[0..] == parameters;
      for i := 0 to |parameters|
        invariant vParameters + Join(parameters[i..], SENTINEL) == Join(parameters, SENTINEL)
      {
        ghost var before := vParameters;
        for j := 0 to |parameters[i]|
          invariant vParameters == before + parameters[i][..j]
        {
          vParameters := vParameters + [parameters[i][j]];
        }
        vParameters := vParameters + [SENTINEL];
        assert parameters[i..][1..] == parameters[i + 1..];
        assert before + (parameters[i] + [SENTINEL] + Join(parameters[i + 1..], SENTINEL))
            == vParameters + Join(parameters[i + 1..], SENTINEL);
      }
      ids := vParameters;
    }
  }

  function IdsOf(params: seq<(string, word)>): (ids: seq<word>)
    ensures |ids| == |params|
  {
    seq(|params|, j requires 0 <= j < |params| => params[j].1)
  }

  /** Map each id to its last place, then fill in the names that the dictionary has. */
  method ParameterIdsToNames(dict: Parameters, ids: seq<word>) returns (result: seq<string>)
    ensures result == NamesOf(dict, ids)
  {
    var idmap: map<word, nat> := map[];
    result := [];
    for i := 0 to |ids|
      invariant |result| == i && forall k :: 0 <= k < i ==> result[k] == DELETED
      invariant forall k :: 0 <= k < i ==> ids[k] in idmap
      invariant forall id :: id in idmap ==> idmap[id] < i && ids[idmap[id]] == id
      invariant forall id, k :: id in idmap && idmap[id] < k < i ==> ids[k] != id
    {
      idmap := idmap[ids[i] := i];
      result := result + [DELETED];
    }
    forall k | 0 <= k < |ids| ensures IsLast(ids, k) <==> idmap[ids[k]] == k {
      if idmap[ids[k]] != k {
        assert ids[k + 1..][idmap[ids[k]] - k - 1] == ids[k];
      }
    }
    for d := 0 to |dict|
      invariant |result| == |ids|
      invariant forall k :: 0 <= k < |ids| ==>
                  result[k] == if IsLast(ids, k) then NameOf(dict[..d], ids[k]) else DELETED
    {
      assert dict[..d + 1][..d] == dict[..d];
      if dict[d].1 in idmap {
        result := result[idmap[dict[d].1] := dict[d].0];
      }
    }
    assert dict[..|dict|] == dict;
  }

  /** Accumulate one strip's ids; also where the next one starts. */
  method TakeSubList(ids: seq<word>, from: nat) returns (subListIds: seq<word>, index: nat)
    requires from < |ids|
    ensures from + |subListIds| <= |ids| && subListIds == ids[from..from + |subListIds|] && SENTINEL !in subListIds
    ensures from + |subListIds| < |ids| ==> ids[from + |subListIds|] == SENTINEL
    ensures index == if from + |subListIds| < |ids| then from + |subListIds| + 1 else |ids|
  {
    subListIds, index := [], from;
    while index < |ids|
      invariant from <= index <= |ids| && subListIds == ids[from..index] && SENTINEL !in subListIds
      decreases |ids| - index
    {
      if ids[index] == SENTINEL {
        index := index + 1;
        break;
      } else {
        subListIds := subListIds + [ids[index]];
        index := index + 1;
      }
    }
  }

  /** Split the ids at the sentinels and end each strip's names with an empty string. */
  method WriteGammaSummaryParameters(dict: Parameters, ids: seq<word>) returns (dataList: seq<string>)
    ensures dataList == Join(AllNames(dict, Split(ids, SENTINEL)), "")
  {
    hide Join, Split, AllNames, NamesOf;
    dataList := [];
    var index := 0;
    assert ids[0..] == ids;
    while index < |ids|
      invariant 0 <= index <= |ids|
      invariant dataList + Join(AllNames(dict, Split(ids[index..], SENTINEL)), "")
             == Join(AllNames(dict, Split(ids, SENTINEL)), "")
      decreases |ids| - index
    {
      var subListIds, next := TakeSubList(ids, index);
      SplitStep(dict, ids, index, |subListIds|);
      var sublistNames := ParameterIdsToNames(dict, subListIds);
      dataList := dataList + sublistNames;
      dataList := dataList + [""];
      index := next;
    }
    NothingLeft(dict);
    assert ids[index..] == [];
  }

  lemma NothingLeft(dict: Parameters)
    ensures Join(AllNames(dict, Split([], SENTINEL)), "") == []
    ensures Split<string>([], "") == [] && Split<word>([], SENTINEL) == []
  {
  }

  lemma SplitStep(dict: Parameters, ids: seq<word>, from: nat, n: nat)
    requires from < |ids| && from + n <= |ids| && SENTINEL !in ids[from..from + n]
    requires from + n < |ids| ==> ids[from + n] == SENTINEL
    ensures var next := if from + n < |ids| then from + n + 1 else |ids|;
            Join(AllNames(dict, Split(ids[from..], SENTINEL)), "") ==
              NamesOf(dict, ids[from..from + n]) + [""] + Join(AllNames(dict, Split(ids[next..], SENTINEL)), "")
  {
    hide IndexOf, NamesOf, Split, Join, AllNames;
    var s, next := ids[from..], if from + n < |ids| then from + n + 1 else |ids|;
    SplitAt(s, n, SENTINEL);
    assert s[..n] == ids[from..from + n] && (n < |s| ==> s[n + 1..] == ids[next..]);
    var rest := Split(ids[next..], SENTINEL);
    NothingLeft(dict);
    assert ids[|ids|..] == [];
    assert Split(s, SENTINEL) == [s[..n]] + rest;
    JoinNames(dict, s[..n], rest);
  }

  lemma JoinNames(dict: Parameters, list: seq<word>, rest: seq<seq<word>>)
    ensures Join(AllNames(dict, [list] + rest), "") == NamesOf(dict, list) + [""] + Join(AllNames(dict, rest), "")
  {
    hide NamesOf;
    var all := AllNames(dict, [list] + rest);
    assert all[0] == NamesOf(dict, list) && all[1..] == AllNames(dict, rest);
  }

  /** Unwrap the names; an empty string ends a strip. */
  method GetGammaSummaryParameters(parameterSoup: seq<string>) returns (result: seq<seq<string>>)
    requires parameterSoup != [] ==> parameterSoup[|parameterSoup| - 1] == ""
    ensures result == Split(parameterSoup, "")
  {
    hide Split;
    result := [];
    var index := 0;
    assert parameterSoup[0..] == parameterSoup;
    while index < |parameterSoup|
      invariant 0 <= index <= |parameterSoup|
      invariant result + Split(parameterSoup[index..], "") == Split(parameterSoup, "")
      decreases |parameterSoup| - index
    {
      var channelParams, end := TakeNames(parameterSoup, index);
      var s := parameterSoup[index..];
      assert s[..|channelParams|] == channelParams && s[|channelParams| + 1..] == parameterSoup[end + 1..];
      SplitAt(s, |channelParams|, "");
      index := end + 1;
      result := result + [channelParams];
    }
    NothingLeft([]);
    assert parameterSoup[index..] == [];
  }

  method TakeNames(parameterSoup: seq<string>, from: nat) returns (channelParams: seq<string>, index: nat)
    requires from < |parameterSoup| && parameterSoup[|parameterSoup| - 1] == ""
    ensures from <= index < |parameterSoup| && parameterSoup[index] == ""
    ensures channelParams == parameterSoup[from..index] && "" !in channelParams
  {
    channelParams, index := [], from;
    while parameterSoup[index] != ""
      invariant from <= index < |parameterSoup| && channelParams == parameterSoup[from..index]
      invariant "" !in channelParams
      decreases |parameterSoup| - index
    {
      channelParams := channelParams + [parameterSoup[index]];
      index := index + 1;
    }
  }

  /** No parameter in the lists has an empty name. */
  predicate NoEmptyNames(dict: Parameters, lists: seq<seq<word>>) {
    forall k :: 0 <= k < |lists| ==> "" !in AllNames(dict, lists)[k]
  }

  lemma {:induction false} JoinEnds<T>(lists: seq<seq<T>>, end: T)
    ensures Join(lists, end) != [] ==> Join(lists, end)[|Join(lists, end)| - 1] == end
  {
    if lists != [] {
      JoinEnds(lists[1..], end);
    }
  }

  predicate NoSentinels(lists: seq<seq<word>>) {
    forall k :: 0 <= k < |lists| ==> SENTINEL !in lists[k]
  }

  /** A spectrum's lists come back from its file strip by strip, as names in order, if and only
      if no id is the sentinel and no name is empty. */
  method SaveAndRestore(spectrum: GammaSummarySpectrum, dict: Parameters) returns (names: seq<seq<string>>)
    modifies spectrum`vParameters
    ensures names == AllNames(dict, spectrum.parameters) <==>
              NoSentinels(spectrum.parameters) && NoEmptyNames(dict, spectrum.parameters)
  {
    hide Join, Split;
    ghost var lists := spectrum.parameters;
    var ids := spectrum.GetDefinition();
    SplitOfJoin(lists, SENTINEL);
    SplitCount(lists, SENTINEL);
    var dataList := WriteGammaSummaryParameters(dict, ids);
    ghost var written := AllNames(dict, Split(ids, SENTINEL));
    JoinEnds(written, "");
    SplitOfJoin(written, "");
    SplitCount(written, "");
    names := GetGammaSummaryParameters(dataList);
  }
}

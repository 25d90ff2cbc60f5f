/** Roster maintenance of components/ParticipantManager.tsx: counting names, flagging and
    removing duplicates, adding names from pasted text, an imported file or the sample list,
    removing one entry and clearing the roster. Each operation returns the list handed to
    `onUpdate`; fresh ids are supplied by the caller. */
module ParticipantManager {
  import opened Roster
  import opened LineParsing

  /** The twelve sample names of `handleLoadMockData`. */
  const MockData: seq<string> := [
    "王大同", "李小龍", "張小泉", "陳美玲",
    "林志豪", "吳淑芬", "周杰倫", "蔡依林",
    "郭台銘", "徐若瑄", "黃秋生", "劉德華"
  ]

  /** The names that occur in the roster. */
  function Names(ps: seq<Participant>): set<string> {
    set p | p in ps :: p.name
  }

  /** No name occurs twice. */
  predicate NamesDistinct(ps: seq<Participant>) {
    forall i, j :: 0 <= i < j < |ps| ==> ps[i].name != ps[j].name
  }

  // ---------------------------------------------------------------------------
  // Counting names
  // ---------------------------------------------------------------------------

  /** How many entries carry `name`. */
  function Count(ps: seq<Participant>, name: string): (c: nat)
    ensures c <= |ps|
    decreases |ps|
  {
    if ps == [] then 0
    else Count(ps[..|ps| - 1], name) + (if ps[|ps| - 1].name == name then 1 else 0)
  }

  lemma NamesSnoc(ps: seq<Participant>, i: nat)
    requires i < |ps|
    ensures Names(ps[..i + 1]) == Names(ps[..i]) + {ps[i].name}
  {
    assert ps[..i + 1] == ps[..i] + [ps[i]];
  }

  /** `nameCounts`: one `forEach` over the roster, adding one to the count of each name. */
  method NameCounts(ps: seq<Participant>) returns (counts: map<string, nat>)
    ensures forall n :: n in counts <==> n in Names(ps)
    ensures forall n :: n in counts ==> counts[n] == Count(ps, n) && counts[n] >= 1
  {
    counts := map[];
    var i := 0;
    while i < |ps|
      invariant 0 <= i <= |ps|
      invariant forall n :: n in counts <==> n in Names(ps[..i])
      invariant forall n :: n in counts ==> counts[n] == Count(ps[..i], n) && counts[n] >= 1
    {
      var name := ps[i].name;
      var previous := if name in counts then counts[name] else 0;
      NameCountsStep(ps, i, counts);
      counts := counts[name := previous + 1];
      i := i + 1;
    }
    assert ps[..i] == ps;
  }

  /** One pass of the `forEach`: adding one to the count of entry `i`'s name gives the counts
      of the first `i + 1` entries. */
  lemma NameCountsStep(ps: seq<Participant>, i: nat, counts: map<string, nat>)
    requires i < |ps|
    requires forall n :: n in counts <==> n in Names(ps[..i])
    requires forall n :: n in counts ==> counts[n] == Count(ps[..i], n) && counts[n] >= 1
    ensures
      var name := ps[i].name;
      var next := counts[name := (if name in counts then counts[name] else 0) + 1];
      && (forall n :: n in next <==> n in Names(ps[..i + 1]))
      && (forall n :: n in next ==> next[n] == Count(ps[..i + 1], n) && next[n] >= 1)
  {
    var name := ps[i].name;
    var next := counts[name := (if name in counts then counts[name] else 0) + 1];
    NamesSnoc(ps, i);
    assert ps[..i + 1][..i] == ps[..i];
    forall n | n in next
      ensures next[n] == Count(ps[..i + 1], n) && next[n] >= 1
    {
      assert Count(ps[..i + 1], n) == Count(ps[..i], n) + (if name == n then 1 else 0);
      if n == name && name !in counts {
        CountAbsent(ps[..i], name);
      }
    }
  }

  lemma {:induction false} CountAbsent(ps: seq<Participant>, name: string)
    requires name !in Names(ps)
    ensures Count(ps, name) == 0
    decreases |ps|
  {
    if ps != [] {
      var init := ps[..|ps| - 1];
      assert forall p :: p in init ==> p in ps;
      CountAbsent(init, name);
    }
  }

  /** A name is counted at least once exactly when an entry carries it. */
  lemma {:induction false} CountPositive(ps: seq<Participant>, name: string)
    ensures Count(ps, name) >= 1 <==> exists i :: 0 <= i < |ps| && ps[i].name == name
    decreases |ps|
  {
    if ps != [] {
      var init := ps[..|ps| - 1];
      CountPositive(init, name);
      if exists i :: 0 <= i < |init| && init[i].name == name {
        var i :| 0 <= i < |init| && init[i].name == name;
        assert ps[i].name == name;
      }
      if exists i :: 0 <= i < |ps| && ps[i].name == name {
        var i :| 0 <= i < |ps| && ps[i].name == name;
        if i < |init| {
          assert init[i].name == name;
        }
      }
    }
  }

  /** A count above one comes from two entries carrying the name. */
  lemma {:induction false} CountTwoHasPair(ps: seq<Participant>, name: string)
    requires Count(ps, name) > 1
    ensures exists i, j :: 0 <= i < j < |ps| && ps[i].name == name && ps[j].name == name
    decreases |ps|
  {
    var last := |ps| - 1;
    var init := ps[..last];
    assert Count(ps, name) == Count(init, name) + (if ps[last].name == name then 1 else 0);
    if Count(init, name) > 1 {
      CountTwoHasPair(init, name);
      var i, j :| 0 <= i < j < |init| && init[i].name == name && init[j].name == name;
      assert ps[i] == init[i] && ps[j] == init[j];
    } else {
      CountPositive(init, name);
      var i :| 0 <= i < |init| && init[i].name == name;
      assert ps[i] == init[i];
    }
  }

  /** Two entries carrying the name make its count exceed one. */
  lemma {:induction false} PairCountsTwo(ps: seq<Participant>, name: string, i: nat, j: nat)
    requires i < j < |ps| && ps[i].name == name && ps[j].name == name
    ensures Count(ps, name) > 1
    decreases |ps|
  {
    var last := |ps| - 1;
    var init := ps[..last];
    assert Count(ps, name) == Count(init, name) + (if ps[last].name == name then 1 else 0);
    assert init[i] == ps[i];
    if j < last {
      assert init[j] == ps[j];
      PairCountsTwo(init, name, i, j);
    } else {
      CountPositive(init, name);
    }
  }

  /** A name is counted more than once exactly when two entries carry it. */
  lemma CountAtLeastTwo(ps: seq<Participant>, name: string)
    ensures Count(ps, name) > 1 <==> exists i, j :: 0 <= i < j < |ps| && ps[i].name == name && ps[j].name == name
  {
    if Count(ps, name) > 1 {
      CountTwoHasPair(ps, name);
    }
    if exists i, j :: 0 <= i < j < |ps| && ps[i].name == name && ps[j].name == name {
      var i, j :| 0 <= i < j < |ps| && ps[i].name == name && ps[j].name == name;
      PairCountsTwo(ps, name, i, j);
    }
  }

  /** `Object.values(nameCounts).some(count => count > 1)`. */
  predicate HasDuplicates(counts: map<string, nat>) {
    exists n :: n in counts && counts[n] > 1
  }

  /** The flag is raised exactly when some name occurs more than once. */
  lemma HasDuplicatesIff(ps: seq<Participant>, counts: map<string, nat>)
    requires forall n :: n in counts <==> n in Names(ps)
    requires forall n :: n in counts ==> counts[n] == Count(ps, n)
    ensures HasDuplicates(counts) <==> !NamesDistinct(ps)
  {
    if HasDuplicates(counts) {
      var n :| n in counts && counts[n] > 1;
      CountAtLeastTwo(ps, n);
    }
    if !NamesDistinct(ps) {
      var i, j :| 0 <= i < j < |ps| && ps[i].name == ps[j].name;
      var n := ps[i].name;
      CountAtLeastTwo(ps, n);
      assert n in Names(ps);
    }
  }

  // ---------------------------------------------------------------------------
  // The counting object as written
  // ---------------------------------------------------------------------------

  /** A value of the plain object `counts`: a number, or the string that `+ 1` makes of a
      value inherited from `Object.prototype`. */
  datatype CountValue = Num(n: nat) | Text

  /** The function-valued properties every plain object inherits from `Object.prototype`. */
  const InheritedMethods: set<string> := {
    "constructor", "hasOwnProperty", "isPrototypeOf", "propertyIsEnumerable",
    "toString", "toLocaleString", "valueOf",
    "__defineGetter__", "__defineSetter__", "__lookupGetter__", "__lookupSetter__"
  }

  /** The inherited accessor: assigning a string to it is ignored and adds no own property. */
  const ProtoKey: string := "__proto__"

  /** `counts[p.name] = (counts[p.name] || 0) + 1` on an object literal, entry by entry: an own
      number grows by one; an inherited method turns into a string, which stays a string; the
      `__proto__` key is never stored. */
  function CountsAsWritten(ps: seq<Participant>): (counts: map<string, CountValue>)
    ensures ProtoKey !in counts
    ensures forall n :: n in counts && counts[n].Num? ==> counts[n].n >= 1
    decreases |ps|
  {
    if ps == [] then map[]
    else
      var counts := CountsAsWritten(ps[..|ps| - 1]);
      var name := ps[|ps| - 1].name;
      if name == ProtoKey then counts
      else if name in counts then
        counts[name := match counts[name] case Num(n) => Num(n + 1) case Text => Text]
      else if name in InheritedMethods then counts[name := Text]
      else counts[name := Num(1)]
  }

  /** `Object.values(nameCounts).some(count => count > 1)` on those values: a string of
      function source compares as `NaN`, so only numbers can raise the flag. */
  predicate HasDuplicatesAsWritten(counts: map<string, CountValue>) {
    exists n :: n in counts && counts[n].Num? && counts[n].n > 1
  }

  /** A name inherited from `Object.prototype` never holds a number, however often it occurs. */
  lemma {:induction false} InheritedNamesNeverCounted(ps: seq<Participant>, name: string)
    requires name in InheritedMethods
    ensures name in CountsAsWritten(ps) ==> CountsAsWritten(ps)[name] == Text
    decreases |ps|
  {
    if ps != [] {
      InheritedNamesNeverCounted(ps[..|ps| - 1], name);
    }
  }

  /** Two participants named `constructor` are duplicates, yet the flag stays down. */
  lemma ConstructorDuplicatesMissed()
    ensures
      var ps := [Participant("1", "constructor"), Participant("2", "constructor")];
      !NamesDistinct(ps) && !HasDuplicatesAsWritten(CountsAsWritten(ps))
  {
    var ps := [Participant("1", "constructor"), Participant("2", "constructor")];
    var counts := CountsAsWritten(ps);
    assert ps[0].name == ps[1].name;
    InheritedNamesNeverCounted(ps, "constructor");
    assert ps[..1][..0] == [];
    assert CountsAsWritten(ps[..1]) == map["constructor" := Text];
    assert counts == map["constructor" := Text];
  }

  predicate KeysDistinct(keys: seq<string>) {
    forall i, j :: 0 <= i < j < |keys| ==> keys[i] != keys[j]
  }

  /** The counts summed over `keys`. */
  function SumValues(counts: map<string, nat>, keys: seq<string>): nat
    requires forall k :: 0 <= k < |keys| ==> keys[k] in counts
    decreases |keys|
  {
    if keys == [] then 0 else counts[keys[0]] + SumValues(counts, keys[1..])
  }

  /** `Count` summed over `keys`. */
  function SumCounts(ps: seq<Participant>, keys: seq<string>): nat
    decreases |keys|
  {
    if keys == [] then 0 else Count(ps, keys[0]) + SumCounts(ps, keys[1..])
  }

  /** How often `x` occurs in `keys`. */
  function Occurrences(keys: seq<string>, x: string): nat
    decreases |keys|
  {
    if keys == [] then 0 else (if keys[0] == x then 1 else 0) + Occurrences(keys[1..], x)
  }

  lemma {:induction false} OccurrencesOfDistinct(keys: seq<string>, x: string)
    requires KeysDistinct(keys)
    ensures Occurrences(keys, x) == (if x in keys then 1 else 0)
    decreases |keys|
  {
    if keys != [] {
      OccurrencesOfDistinct(keys[1..], x);
      if keys[0] == x {
        assert x !in keys[1..] by {
          forall k | 0 <= k < |keys[1..]| ensures keys[1..][k] != x {
            assert keys[1..][k] == keys[k + 1];
          }
        }
      }
    }
  }

  lemma {:induction false} SumCountsSnoc(ps: seq<Participant>, p: Participant, keys: seq<string>)
    ensures SumCounts(ps + [p], keys) == SumCounts(ps, keys) + Occurrences(keys, p.name)
    decreases |keys|
  {
    if keys != [] {
      SumCountsSnoc(ps, p, keys[1..]);
      assert (ps + [p])[..|ps + [p]| - 1] == ps;
    }
  }

  lemma {:induction false} SumCountsEmpty(keys: seq<string>)
    ensures SumCounts([], keys) == 0
    decreases |keys|
  {
    if keys != [] {
      SumCountsEmpty(keys[1..]);
    }
  }

  /** Over a list of distinct keys covering every name, the counts add up to the roster size. */
  lemma {:induction false} SumCountsIsLength(ps: seq<Participant>, keys: seq<string>)
    requires KeysDistinct(keys)
    requires forall n :: n in Names(ps) ==> n in keys
    ensures SumCounts(ps, keys) == |ps|
    decreases |ps|
  {
    if ps == [] {
      SumCountsEmpty(keys);
    } else {
      var init, p := ps[..|ps| - 1], ps[|ps| - 1];
      assert ps == init + [p];
      assert forall n :: n in Names(init) ==> n in Names(ps);
      SumCountsIsLength(init, keys);
      SumCountsSnoc(init, p, keys);
      assert p.name in Names(ps);
      OccurrencesOfDistinct(keys, p.name);
    }
  }

  /** `nameCounts` adds up to the roster size: summed over its keys, in any order, the counts
      give the number of entries. */
  lemma CountsSumToLength(ps: seq<Participant>, counts: map<string, nat>, keys: seq<string>)
    requires forall n :: n in counts <==> n in Names(ps)
    requires forall n :: n in counts ==> counts[n] == Count(ps, n)
    requires KeysDistinct(keys) && forall n :: n in counts <==> n in keys
    ensures SumValues(counts, keys) == |ps|
  {
    SumValuesIsSumCounts(ps, counts, keys);
    SumCountsIsLength(ps, keys);
  }

  lemma {:induction false} SumValuesIsSumCounts(ps: seq<Participant>, counts: map<string, nat>, keys: seq<string>)
    requires forall k :: 0 <= k < |keys| ==> keys[k] in counts
    requires forall n :: n in counts ==> counts[n] == Count(ps, n)
    ensures SumValues(counts, keys) == SumCounts(ps, keys)
    decreases |keys|
  {
    if keys != [] {
      SumValuesIsSumCounts(ps, counts, keys[1..]);
    }
  }

  // ---------------------------------------------------------------------------
  // Removing duplicates
  // ---------------------------------------------------------------------------

  /** The filter of `handleRemoveDuplicates` from a given `seen` set: an entry whose name was
      seen is dropped, otherwise it is kept and its name becomes seen. */
  function KeepFirst(ps: seq<Participant>, seen: set<string>): (r: seq<Participant>)
    ensures |r| <= |ps|
    decreases |ps|
  {
    if ps == [] then []
    else if ps[0].name in seen then KeepFirst(ps[1..], seen)
    else [ps[0]] + KeepFirst(ps[1..], seen + {ps[0].name})
  }

  /** The de-duplicated roster. */
  function Dedup(ps: seq<Participant>): seq<Participant> {
    KeepFirst(ps, {})
  }

  /** `handleRemoveDuplicates`: a filter that consults and grows a `seen` set. */
  method RemoveDuplicates(ps: seq<Participant>) returns (uniqueList: seq<Participant>)
    ensures uniqueList == Dedup(ps)
    ensures IsSubsequence(uniqueList, ps)
    ensures NamesDistinct(uniqueList)
    ensures Names(uniqueList) == Names(ps)
  {
    var seen: set<string> := {};
    uniqueList := [];
    var i := 0;
    while i < |ps|
      invariant 0 <= i <= |ps|
      invariant uniqueList + KeepFirst(ps[i..], seen) == Dedup(ps)
    {
      var p := ps[i];
      assert ps[i..][1..] == ps[i + 1..];
      if p.name !in seen {
        seen := seen + {p.name};
        uniqueList := uniqueList + [p];
      }
      i := i + 1;
    }
    assert uniqueList == Dedup(ps);
    DedupProperties(ps, {});
  }

  /** Started from `seen`, the filter keeps a subsequence whose names are distinct, avoid
      `seen`, and together with `seen` cover the names of the input. */
  lemma {:induction false} DedupProperties(ps: seq<Participant>, seen: set<string>)
    ensures IsSubsequence(KeepFirst(ps, seen), ps)
    ensures NamesDistinct(KeepFirst(ps, seen))
    ensures Names(KeepFirst(ps, seen)) == Names(ps) - seen
    decreases |ps|
  {
    if ps != [] {
      var p, rest := ps[0], ps[1..];
      assert Names(ps) == {p.name} + Names(rest) by {
        assert ps == [p] + rest;
      }
      if p.name in seen {
        DedupProperties(rest, seen);
        SubsequenceSkipOne(KeepFirst(rest, seen), ps);
      } else {
        var seen' := seen + {p.name};
        DedupProperties(rest, seen');
        var tail := KeepFirst(rest, seen');
        var r := [p] + tail;
        assert r[1..] == tail;
        assert Names(r) == {p.name} + Names(tail) by {
          assert r == [p] + tail;
        }
        forall i, j | 0 <= i < j < |r| ensures r[i].name != r[j].name {
          if i == 0 {
            assert r[j] == tail[j - 1];
            assert r[j].name in Names(tail);
          } else {
            assert r[i] == tail[i - 1] && r[j] == tail[j - 1];
          }
        }
      }
    }
  }

  /** The first entry carrying each name survives: an entry no earlier entry shares a name with
      is kept. */
  lemma {:induction false} DedupKeepsFirst(ps: seq<Participant>, seen: set<string>, i: nat)
    requires i < |ps| && ps[i].name !in seen
    requires forall j :: 0 <= j < i ==> ps[j].name != ps[i].name
    ensures ps[i] in KeepFirst(ps, seen)
    decreases i
  {
    if i > 0 {
      var seen' := if ps[0].name in seen then seen else seen + {ps[0].name};
      assert ps[1..][i - 1] == ps[i];
      DedupKeepsFirst(ps[1..], seen', i - 1);
    }
  }

  /** A roster whose names are distinct and avoid `seen` passes the filter unchanged. */
  lemma {:induction false} DedupOfDistinct(ps: seq<Participant>, seen: set<string>)
    requires NamesDistinct(ps) && Names(ps) !! seen
    ensures KeepFirst(ps, seen) == ps
    decreases |ps|
  {
    if ps != [] {
      var rest := ps[1..];
      assert ps[0].name in Names(ps);
      assert NamesDistinct(rest) by {
        forall i, j | 0 <= i < j < |rest| ensures rest[i].name != rest[j].name {
          assert rest[i] == ps[i + 1] && rest[j] == ps[j + 1];
        }
      }
      assert Names(rest) !! seen + {ps[0].name} by {
        forall n | n in Names(rest) ensures n !in seen && n != ps[0].name {
          var q :| q in rest && q.name == n;
          var m :| 0 <= m < |rest| && rest[m] == q;
          assert ps[m + 1] == q;
          assert q.name in Names(ps);
        }
      }
      DedupOfDistinct(rest, seen + {ps[0].name});
    }
  }

  /** Removing duplicates a second time changes nothing. */
  lemma DedupIdempotent(ps: seq<Participant>)
    ensures Dedup(Dedup(ps)) == Dedup(ps)
  {
    DedupProperties(ps, {});
    DedupOfDistinct(Dedup(ps), {});
  }

  // ---------------------------------------------------------------------------
  // Adding, removing, clearing
  // ---------------------------------------------------------------------------

  /** `ids` are fresh for the roster: pairwise distinct and unused by its entries. */
  predicate FreshIds(ps: seq<Participant>, ids: seq<string>) {
    && (forall i, j :: 0 <= i < j < |ids| ==> ids[i] != ids[j])
    && (forall k, m :: 0 <= k < |ids| && 0 <= m < |ps| ==> ids[k] != ps[m].id)
  }

  /** `[...participants, ...names.map(name => ({ id, name }))]`. */
  function AppendNamed(ps: seq<Participant>, names: seq<string>, ids: seq<string>): (r: seq<Participant>)
    requires |ids| == |names|
    ensures |r| == |ps| + |names| && r[..|ps|] == ps
    ensures forall k :: 0 <= k < |names| ==> r[|ps| + k] == Participant(ids[k], names[k])
  {
    ps + seq(|names|, k requires 0 <= k < |names| => Participant(ids[k], names[k]))
  }

  /** Appending entries with fresh ids keeps the ids unique. */
  lemma AppendKeepsIdsUnique(ps: seq<Participant>, names: seq<string>, ids: seq<string>)
    requires |ids| == |names| && IdsUnique(ps) && FreshIds(ps, ids)
    ensures IdsUnique(AppendNamed(ps, names, ids))
  {
    var r := AppendNamed(ps, names, ids);
    forall i, j | 0 <= i < j < |r| ensures r[i].id != r[j].id {
      if j >= |ps| {
        assert r[j].id == ids[j - |ps|];
        if i >= |ps| {
          assert r[i].id == ids[i - |ps|];
        } else {
          assert r[i] == ps[i];
        }
      } else {
        assert r[i] == ps[i] && r[j] == ps[j];
      }
    }
  }

  /** What pressing "add" leaves: the list handed to `onUpdate`, if any, and the text area. */
  datatype TextAdd = TextAdd(update: Option<seq<Participant>>, textInput: string)

  /** `handleAddFromText`: nothing happens when the text holds no non-blank line; otherwise the
      trimmed names are appended in line order and the text area is cleared. */
  function AddFromText(ps: seq<Participant>, textInput: string, ids: seq<string>): (r: TextAdd)
    requires |ids| == |TextNames(textInput)|
    ensures |TextNames(textInput)| == 0 ==> r == TextAdd(None, textInput)
    ensures |TextNames(textInput)| > 0 ==> r.textInput == "" && r.update.Some?
    ensures r.update.Some? ==>
      var names := TextNames(textInput);
      var list := r.update.value;
      && |list| == |ps| + |names| && list[..|ps|] == ps
      && (forall k :: 0 <= k < |names| ==> list[|ps| + k] == Participant(ids[k], names[k]))
  {
    var names := TextNames(textInput);
    if |names| == 0 then TextAdd(None, textInput)
    else TextAdd(Some(AppendNamed(ps, names, ids)), "")
  }

  /** `handleFileUpload`: the names of the file appended in line order; the list is handed on
      even when the file held no name. */
  function ImportFile(ps: seq<Participant>, content: string, ids: seq<string>): (r: seq<Participant>)
    requires |ids| == |FileNames(content)|
    ensures |r| == |ps| + |FileNames(content)| && r[..|ps|] == ps
    ensures forall k :: 0 <= k < |FileNames(content)| ==>
      r[|ps| + k] == Participant(ids[k], FileNames(content)[k])
    ensures |FileNames(content)| == 0 ==> r == ps
  {
    AppendNamed(ps, FileNames(content), ids)
  }

  /** `handleLoadMockData`: the twelve sample names appended in their order. */
  function LoadMockData(ps: seq<Participant>, ids: seq<string>): (r: seq<Participant>)
    requires |ids| == |MockData|
    ensures |r| == |ps| + 12 && r[..|ps|] == ps
    ensures forall k :: 0 <= k < 12 ==> r[|ps| + k] == Participant(ids[k], MockData[k])
  {
    AppendNamed(ps, MockData, ids)
  }

  /** The "clear all" button: `onUpdate([])`. */
  function ClearAll(ps: seq<Participant>): (r: seq<Participant>)
    ensures |r| == 0 && IdsUnique(r)
  {
    []
  }

  /** Every roster operation keeps the ids unique when the new ids are fresh. */
  lemma OperationsKeepIdsUnique(ps: seq<Participant>, id: string, text: string, content: string,
                                textIds: seq<string>, fileIds: seq<string>, mockIds: seq<string>)
    requires IdsUnique(ps)
    requires |textIds| == |TextNames(text)| && FreshIds(ps, textIds)
    requires |fileIds| == |FileNames(content)| && FreshIds(ps, fileIds)
    requires |mockIds| == |MockData| && FreshIds(ps, mockIds)
    ensures AddFromText(ps, text, textIds).update.Some? ==> IdsUnique(AddFromText(ps, text, textIds).update.value)
    ensures IdsUnique(ImportFile(ps, content, fileIds))
    ensures IdsUnique(LoadMockData(ps, mockIds))
    ensures IdsUnique(RemoveById(ps, id))
    ensures IdsUnique(Dedup(ps))
  {
    AppendKeepsIdsUnique(ps, TextNames(text), textIds);
    AppendKeepsIdsUnique(ps, FileNames(content), fileIds);
    AppendKeepsIdsUnique(ps, MockData, mockIds);
    SubsequenceKeepsIdsUnique(RemoveById(ps, id), ps);
    DedupProperties(ps, {});
    SubsequenceKeepsIdsUnique(Dedup(ps), ps);
  }
}

/** The group partitioner of components/GroupGenerator.tsx: a Fisher–Yates shuffle of the
    roster, consecutive chunks of `groupSize` with sequential ids and default names, names
    from the naming service applied by position, and the CSV text of the export. */
module GroupGenerator {
  import opened Roster

  // ---------------------------------------------------------------------------
  // Shuffle
  // ---------------------------------------------------------------------------

  /** `[s[i], s[j]] = [s[j], s[i]]` on a sequence. */
  function Swap<T>(s: seq<T>, i: nat, j: nat): (r: seq<T>)
    requires i < |s| && j < |s|
    ensures |r| == |s| && r[i] == s[j] && r[j] == s[i]
    ensures forall k :: 0 <= k < |s| && k != i && k != j ==> r[k] == s[k]
  {
    s[i := s[j]][j := s[i]]
  }

  lemma SwapPermutes<T>(s: seq<T>, i: nat, j: nat)
    requires i < |s| && j < |s|
    ensures multiset(Swap(s, i, j)) == multiset(s)
  {
    var t := s[i := s[j]];
    assert multiset(t) == multiset(s) - multiset{s[i]} + multiset{s[j]};
    assert multiset(t[j := s[i]]) == multiset(t) - multiset{t[j]} + multiset{s[i]};
  }

  /** The passes `i, i-1, …, 1` of the shuffle loop applied to `s`: pass `i` swaps entry `i`
      with entry `floor(rs[i] * (i + 1))`, `rs[i]` being the `Math.random()` value it draws. */
  function ShuffleDown<T>(s: seq<T>, rs: seq<real>, i: nat): (r: seq<T>)
    requires i < |s| && |rs| == |s| && RandomValues(rs)
    ensures |r| == |s|
    decreases i
  {
    if i == 0 then s
    else ShuffleDown(Swap(s, i, RandomIndex(rs[i], i + 1)), rs, i - 1)
  }

  /** What `shuffleArray` returns for the random values `rs`. */
  function Shuffled<T>(s: seq<T>, rs: seq<real>): (r: seq<T>)
    requires |rs| == |s| && RandomValues(rs)
    ensures |r| == |s|
  {
    if |s| == 0 then s else ShuffleDown(s, rs, |s| - 1)
  }

  lemma {:induction false} ShuffleDownPermutes<T>(s: seq<T>, rs: seq<real>, i: nat)
    requires i < |s| && |rs| == |s| && RandomValues(rs)
    ensures multiset(ShuffleDown(s, rs, i)) == multiset(s)
    decreases i
  {
    if i > 0 {
      var j := RandomIndex(rs[i], i + 1);
      SwapPermutes(s, i, j);
      ShuffleDownPermutes(Swap(s, i, j), rs, i - 1);
    }
  }

  /** The shuffle is a permutation of its input, and a list of at most one entry comes back as it was. */
  lemma ShuffledPermutes<T>(s: seq<T>, rs: seq<real>)
    requires |rs| == |s| && RandomValues(rs)
    ensures |Shuffled(s, rs)| == |s|
    ensures multiset(Shuffled(s, rs)) == multiset(s)
    ensures |s| <= 1 ==> Shuffled(s, rs) == s
  {
    if |s| > 0 {
      ShuffleDownPermutes(s, rs, |s| - 1);
    }
  }

  /** `[newArr[i], newArr[j]] = [newArr[j], newArr[i]]`. */
  method SwapInPlace<T>(a: array<T>, i: nat, j: nat)
    requires i < a.Length && j < a.Length
    modifies a
    ensures a[..] == Swap(old(a[..]), i, j)
  {
    var t := a[i];
    a[i] := a[j];
    a[j] := t;
  }

  /** `shuffleArray`: copies the input into a fresh array and swaps in place from the last
      index down to 1; the input is not touched. */
  method ShuffleArray<T>(items: seq<T>, rs: seq<real>) returns (r: seq<T>)
    requires |rs| == |items| && RandomValues(rs)
    ensures r == Shuffled(items, rs)
    ensures |r| == |items| && multiset(r) == multiset(items)
    ensures |items| <= 1 ==> r == items
  {
    var newArr := new T[|items|](k requires 0 <= k < |items| => items[k]);
    assert newArr[..] == items;
    var i := newArr.Length - 1;
    while i > 0
      invariant -1 <= i < newArr.Length
      invariant i < 0 ==> newArr.Length == 0
      invariant i >= 0 ==> ShuffleDown(newArr[..], rs, i) == Shuffled(items, rs)
    {
      var j := RandomIndex(rs[i], i + 1);
      assert 0 <= j <= i;
      ghost var before := newArr[..];
      SwapInPlace(newArr, i, j);
      assert ShuffleDown(before, rs, i) == ShuffleDown(Swap(before, i, j), rs, i - 1);
      i := i - 1;
    }
    r := newArr[..];
    ShuffledPermutes(items, rs);
  }

  // ---------------------------------------------------------------------------
  // Default group names
  // ---------------------------------------------------------------------------

  function DigitChar(d: nat): (c: char)
    requires d < 10
    ensures '0' <= c <= '9' && (c as int) - ('0' as int) == d
  {
    "0123456789"[d]
  }

  predicate AllDigits(s: string) {
    forall k :: 0 <= k < |s| ==> '0' <= s[k] <= '9'
  }

  /** The decimal text of `n`, as a template literal prints a number. */
  function NatToString(n: nat): (s: string)
    ensures |s| >= 1 && AllDigits(s)
    decreases n
  {
    if n < 10 then [DigitChar(n)] else NatToString(n / 10) + [DigitChar(n % 10)]
  }

  /** The number a string of decimal digits denotes. */
  function DigitsValue(s: string): nat
    requires AllDigits(s)
    decreases |s|
  {
    if s == [] then 0
    else 10 * DigitsValue(s[..|s| - 1]) + ((s[|s| - 1] as int) - ('0' as int))
  }

  lemma {:induction false} NatToStringRoundTrip(n: nat)
    ensures DigitsValue(NatToString(n)) == n
    decreases n
  {
    if n >= 10 {
      NatToStringRoundTrip(n / 10);
      var s := NatToString(n);
      assert s[..|s| - 1] == NatToString(n / 10);
    }
  }

  /** The default name of the group with id `id`: `第 {id+1} 小組`. */
  function DefaultName(id: nat): string {
    "第 " + NatToString(id + 1) + " 小組"
  }

  /** Distinct groups get distinct default names. */
  lemma DefaultNameInjective(i: nat, j: nat)
    requires DefaultName(i) == DefaultName(j)
    ensures i == j
  {
    var x, y := NatToString(i + 1), NatToString(j + 1);
    var p, q := "第 ", " 小組";
    var a := p + x + q;
    assert a == DefaultName(i) == DefaultName(j) == p + y + q;
    MiddleOf(p, x, q);
    MiddleOf(p, y, q);
    assert x == a[|p|..|a| - |q|] == y;
    NatToStringInjective(i + 1, j + 1);
  }

  /** Distinct numbers print differently. */
  lemma NatToStringInjective(a: nat, b: nat)
    requires NatToString(a) == NatToString(b)
    ensures a == b
  {
    NatToStringRoundTrip(a);
    NatToStringRoundTrip(b);
  }

  /** The middle part of `p + x + q` can be cut back out knowing only the lengths of `p` and `q`. */
  lemma MiddleOf(p: string, x: string, q: string)
    ensures (p + x + q)[|p|..|p + x + q| - |q|] == x
  {
    var w := p + x + q;
    assert |w| - |q| == |p| + |x|;
    forall k | 0 <= k < |x| ensures w[|p|..|w| - |q|][k] == x[k] {
      assert w[|p| + k] == x[k];
    }
  }

  // ---------------------------------------------------------------------------
  // Chunking
  // ---------------------------------------------------------------------------

  function Min(a: int, b: int): int {
    if a <= b then a else b
  }

  /** The members of the groups, read in group order. */
  function Members(gs: seq<Group>): seq<Participant>
    decreases |gs|
  {
    if gs == [] then [] else gs[0].members + Members(gs[1..])
  }

  /** The groups the chunking loop builds from `s`, the first with id `firstId`. */
  function Chunks(s: seq<Participant>, k: nat, firstId: nat): (gs: seq<Group>)
    requires k >= 1
    ensures gs == [] <==> |s| == 0
    decreases |s|
  {
    if |s| == 0 then []
    else
      var m := Min(k, |s|);
      [Group(firstId, DefaultName(firstId), s[..m])] + Chunks(s[m..], k, firstId + 1)
  }

  /** Read in order, the members of the chunks are exactly the input. */
  lemma {:induction false} ChunksMembers(s: seq<Participant>, k: nat, firstId: nat)
    requires k >= 1
    ensures Members(Chunks(s, k, firstId)) == s
    decreases |s|
  {
    if |s| > 0 {
      var m := Min(k, |s|);
      ChunksMembers(s[m..], k, firstId + 1);
      assert s[..m] + s[m..] == s;
    }
  }

  lemma MulMonotonic(a: int, b: int, k: nat)
    requires a <= b
    ensures a * k <= b * k
  {
    assert b * k == a * k + (b - a) * k;
  }

  /** `g` is the quotient of `x` by `k` when `x` lies in `[g*k, g*k + k)`. */
  lemma DivUnique(x: nat, k: nat, g: nat)
    requires k >= 1 && g * k <= x < g * k + k
    ensures x / k == g
  {
    var q := x / k;
    assert q * k <= x < q * k + k;
    assert (g + 1) * k == g * k + k;
    assert (q + 1) * k == q * k + k;
    if q > g {
      MulMonotonic(g + 1, q, k);
    }
    if q < g {
      MulMonotonic(q + 1, g, k);
    }
  }

  /** One more chunk of `k` entries: bounds for `g` chunks over `n` entries give bounds for
      `g + 1` chunks over `n + k` entries. */
  lemma BoundsStep(g: int, k: nat, n: int)
    requires (g - 1) * k < n <= g * k
    ensures g * k < n + k <= (g + 1) * k
  {
    assert (g + 1) * k == g * k + k;
    assert (g - 1) * k == g * k - k;
  }

  /** The number `g` of chunks is the fewest with `|s| <= g * k`; none when `s` is empty. */
  lemma {:induction false} ChunksBounds(s: seq<Participant>, k: nat, firstId: nat)
    requires k >= 1
    ensures |s| == 0 <==> |Chunks(s, k, firstId)| == 0
    ensures (|Chunks(s, k, firstId)| - 1) * k < |s| <= |Chunks(s, k, firstId)| * k
    decreases |s|
  {
    if |s| > 0 {
      var m := Min(k, |s|);
      var g := |Chunks(s, k, firstId)|;
      var rest := Chunks(s[m..], k, firstId + 1);
      assert g == |rest| + 1;
      if |s| <= k {
        assert rest == [];
        assert g == 1;
      } else {
        ChunksBounds(s[m..], k, firstId + 1);
        BoundsStep(|rest|, k, |s| - k);
      }
    }
  }

  /** There are `ceil(|s| / k)` chunks: none when `s` is empty, otherwise the fewest `g`
      with `|s| <= g * k`. */
  lemma ChunksCount(s: seq<Participant>, k: nat, firstId: nat)
    requires k >= 1
    ensures |s| == 0 <==> |Chunks(s, k, firstId)| == 0
    ensures (|Chunks(s, k, firstId)| - 1) * k < |s| <= |Chunks(s, k, firstId)| * k
    ensures |Chunks(s, k, firstId)| == (|s| + k - 1) / k
  {
    var g := |Chunks(s, k, firstId)|;
    ChunksBounds(s, k, firstId);
    assert (g - 1) * k + k == g * k;
    DivUnique(|s| + k - 1, k, g);
  }

  /** Chunk ids count up from `firstId` with their default names; every chunk but the last
      has `k` members and the last between 1 and `k`. */
  lemma {:induction false} ChunksShape(s: seq<Participant>, k: nat, firstId: nat)
    requires k >= 1
    ensures forall idx :: 0 <= idx < |Chunks(s, k, firstId)| ==>
      var g := Chunks(s, k, firstId)[idx];
      && g.id == firstId + idx
      && g.name == DefaultName(firstId + idx)
      && 1 <= |g.members| <= k
      && (idx < |Chunks(s, k, firstId)| - 1 ==> |g.members| == k)
    decreases |s|
  {
    if |s| > 0 {
      var m := Min(k, |s|);
      ChunksShape(s[m..], k, firstId + 1);
      var gs := Chunks(s, k, firstId);
      var rest := Chunks(s[m..], k, firstId + 1);
      assert gs == [Group(firstId, DefaultName(firstId), s[..m])] + rest;
      assert |s| <= k ==> rest == [];
      forall idx | 0 < idx < |gs| ensures gs[idx] == rest[idx - 1] {}
    }
  }

  /** The chunking loop of `handleGenerateGroups`: `i` advances by `groupSize`, each pass
      pushes `{ id: groupIdx++, name: 第 {groupIdx} 小組, members: shuffled.slice(i, i + groupSize) }`. */
  method MakeGroups(shuffled: seq<Participant>, groupSize: nat) returns (result: seq<Group>)
    requires groupSize >= 1
    ensures result == Chunks(shuffled, groupSize, 0)
    ensures Members(result) == shuffled
    ensures |result| == (|shuffled| + groupSize - 1) / groupSize
  {
    result := [];
    var groupIdx: nat := 0;
    var i: nat := 0;
    while i < |shuffled|
      invariant result + Chunks(shuffled[Min(i, |shuffled|)..], groupSize, groupIdx) == Chunks(shuffled, groupSize, 0)
    {
      var end := Min(i + groupSize, |shuffled|);
      var group := Group(groupIdx, DefaultName(groupIdx), shuffled[i..end]);
      ChunksStep(shuffled, i, groupSize, groupIdx);
      AppendAssociative(result, [group], Chunks(shuffled[end..], groupSize, groupIdx + 1));
      result := result + [group];
      groupIdx := groupIdx + 1;
      i := i + groupSize;
      assert Min(i, |shuffled|) == end;
    }
    assert Min(i, |shuffled|) == |shuffled|;
    assert shuffled[|shuffled|..] == [];
    assert result == Chunks(shuffled, groupSize, 0);
    assert Members(result) == shuffled by {
      ChunksMembers(shuffled, groupSize, 0);
    }
    assert |result| == (|shuffled| + groupSize - 1) / groupSize by {
      ChunksCount(shuffled, groupSize, 0);
    }
  }

  /** The chunks from index `i` on: one of up to `k` entries, then the chunks after it. */
  lemma ChunksStep(s: seq<Participant>, i: nat, k: nat, id: nat)
    requires k >= 1 && i < |s|
    ensures Chunks(s[i..], k, id) ==
      [Group(id, DefaultName(id), s[i..Min(i + k, |s|)])] + Chunks(s[Min(i + k, |s|)..], k, id + 1)
  {
    var rest := s[i..];
    var end := Min(i + k, |s|);
    assert rest[..Min(k, |rest|)] == s[i..end];
    assert rest[Min(k, |rest|)..] == s[end..];
  }

  // ---------------------------------------------------------------------------
  // Naming
  // ---------------------------------------------------------------------------

  /** `group.name = coolNames[idx] || group.name`: a present, non-empty name replaces the old one. */
  function NameAt(coolNames: seq<string>, idx: nat, current: string): (name: string)
    ensures name == current || (idx < |coolNames| && name == coolNames[idx])
    ensures current != "" ==> name != ""
  {
    if idx < |coolNames| && coolNames[idx] != "" then coolNames[idx] else current
  }

  /** The `forEach` that renames the groups in place by position. */
  method ApplyNames(groups: array<Group>, coolNames: seq<string>)
    modifies groups
    ensures forall idx :: 0 <= idx < groups.Length ==>
      && groups[idx].id == old(groups[idx].id)
      && groups[idx].members == old(groups[idx].members)
      && groups[idx].name == NameAt(coolNames, idx, old(groups[idx].name))
  {
    var idx := 0;
    while idx < groups.Length
      invariant 0 <= idx <= groups.Length
      invariant forall m :: 0 <= m < idx ==>
        groups[m] == old(groups[m]).(name := NameAt(coolNames, m, old(groups[m].name)))
      invariant forall m :: idx <= m < groups.Length ==> groups[m] == old(groups[m])
    {
      groups[idx] := groups[idx].(name := NameAt(coolNames, idx, groups[idx].name));
      idx := idx + 1;
    }
  }

  /** The name group `idx` ends with: the service's name when the call returned a present,
      non-empty one, otherwise the default. */
  function NamingResult(naming: Option<seq<string>>, idx: nat): (name: string)
    ensures name != ""
    ensures naming.None? ==> name == DefaultName(idx)
  {
    match naming
    case None => DefaultName(idx)
    case Some(coolNames) => NameAt(coolNames, idx, DefaultName(idx))
  }

  /** The groups after the `try`/`catch`: group `idx` renamed as `NamingResult` says. */
  function NamedAll(gs: seq<Group>, naming: Option<seq<string>>): (named: seq<Group>)
    ensures |named| == |gs|
    ensures forall idx :: 0 <= idx < |gs| ==>
      named[idx] == Group(gs[idx].id, NamingResult(naming, idx), gs[idx].members)
  {
    seq(|gs|, idx requires 0 <= idx < |gs| => gs[idx].(name := NamingResult(naming, idx)))
  }

  /** The `try`/`catch` around the naming service: its names are applied when it answered,
      and every group keeps its default name when it threw. */
  method NameGroups(result: seq<Group>, naming: Option<seq<string>>) returns (named: seq<Group>)
    requires forall idx :: 0 <= idx < |result| ==> result[idx].name == DefaultName(idx)
    ensures named == NamedAll(result, naming)
  {
    var arr := new Group[|result|](k requires 0 <= k < |result| => result[k]);
    match naming {
      case None =>
      case Some(coolNames) => ApplyNames(arr, coolNames);
    }
    named := arr[..];
    assert forall idx :: 0 <= idx < |result| ==> named[idx] == NamedAll(result, naming)[idx];
  }

  /** Groups with the same members position by position have the same members read in order. */
  lemma {:induction false} MembersPositionwise(a: seq<Group>, b: seq<Group>)
    requires |a| == |b|
    requires forall idx :: 0 <= idx < |a| ==> a[idx].members == b[idx].members
    ensures Members(a) == Members(b)
    decreases |a|
  {
    if a != [] {
      MembersPositionwise(a[1..], b[1..]);
    }
  }

  /** The groups `handleGenerateGroups` stores for size `k >= 1`, the `Math.random()` values
      `rs` of the shuffle and the answer `naming` of the naming service. */
  function Generated(ps: seq<Participant>, rs: seq<real>, k: nat, naming: Option<seq<string>>): seq<Group>
    requires k >= 1 && |rs| == |ps| && RandomValues(rs)
  {
    NamedAll(Chunks(Shuffled(ps, rs), k, 0), naming)
  }

  /** There are `ceil(n/k)` generated groups and, read in order, their members are the
      shuffled roster: every participant lands in exactly one group. */
  lemma GeneratedMembers(ps: seq<Participant>, rs: seq<real>, k: nat, naming: Option<seq<string>>)
    requires k >= 1 && |rs| == |ps| && RandomValues(rs)
    ensures |Generated(ps, rs, k, naming)| == (|ps| + k - 1) / k
    ensures Members(Generated(ps, rs, k, naming)) == Shuffled(ps, rs)
    ensures multiset(Members(Generated(ps, rs, k, naming))) == multiset(ps)
  {
    var shuffled := Shuffled(ps, rs);
    var result := Chunks(shuffled, k, 0);
    var gs := NamedAll(result, naming);
    assert |result| == (|ps| + k - 1) / k by {
      ShuffledPermutes(ps, rs);
      ChunksCount(shuffled, k, 0);
    }
    assert Members(gs) == shuffled by {
      ChunksMembers(shuffled, k, 0);
      MembersPositionwise(gs, result);
    }
    ShuffledPermutes(ps, rs);
  }

  /** Generated group ids count from 0; every group but the last has `k` members and the
      last 1 to `k`; each is named by the service or keeps its default. */
  lemma GeneratedGroups(ps: seq<Participant>, rs: seq<real>, k: nat, naming: Option<seq<string>>)
    requires k >= 1 && |rs| == |ps| && RandomValues(rs)
    ensures var gs := Generated(ps, rs, k, naming);
      forall idx :: 0 <= idx < |gs| ==>
        && gs[idx].id == idx
        && 1 <= |gs[idx].members| <= k
        && (idx < |gs| - 1 ==> |gs[idx].members| == k)
        && gs[idx].name == NamingResult(naming, idx)
  {
    var result := Chunks(Shuffled(ps, rs), k, 0);
    ChunksShape(Shuffled(ps, rs), k, 0);
  }

  // ---------------------------------------------------------------------------
  // CSV export
  // ---------------------------------------------------------------------------

  /** The byte-order mark and the header line. */
  const CsvHeader: string := "\U{FEFF}小組名稱,成員姓名\n"

  /** One exported line: `"<group>","<member>"` and a newline, without escaping. */
  function CsvLine(groupName: string, memberName: string): string {
    "\"" + groupName + "\",\"" + memberName + "\"\n"
  }

  /** The lines of one group, one per member in member order. */
  function GroupLines(groupName: string, members: seq<Participant>): (ls: seq<string>)
    ensures |ls| == |members|
  {
    seq(|members|, m requires 0 <= m < |members| => CsvLine(groupName, members[m].name))
  }

  /** The lines of all groups, in group order. */
  function CsvLines(gs: seq<Group>): seq<string>
    decreases |gs|
  {
    if gs == [] then [] else GroupLines(gs[0].name, gs[0].members) + CsvLines(gs[1..])
  }

  /** The name of the group each member belongs to, read in the order of `Members`. */
  function Owners(gs: seq<Group>): seq<string>
    decreases |gs|
  {
    if gs == [] then [] else seq(|gs[0].members|, _ => gs[0].name) + Owners(gs[1..])
  }

  function Concat(ls: seq<string>): string
    decreases |ls|
  {
    if ls == [] then "" else ls[0] + Concat(ls[1..])
  }

  lemma {:induction false} ConcatAppend(a: seq<string>, b: seq<string>)
    ensures Concat(a + b) == Concat(a) + Concat(b)
    decreases |a|
  {
    if a != [] {
      ConcatAppend(a[1..], b);
      calc {
        Concat(a + b);
        (a + b)[0] + Concat((a + b)[1..]);
        { assert (a + b)[0] == a[0]; assert (a + b)[1..] == a[1..] + b; }
        a[0] + Concat(a[1..] + b);
        a[0] + (Concat(a[1..]) + Concat(b));
        (a[0] + Concat(a[1..])) + Concat(b);
      }
    } else {
      assert a + b == b;
    }
  }

  lemma {:induction false} CsvLinesAppend(a: seq<Group>, g: Group)
    ensures CsvLines(a + [g]) == CsvLines(a) + GroupLines(g.name, g.members)
    decreases |a|
  {
    if a != [] {
      assert (a + [g])[1..] == a[1..] + [g];
      CsvLinesAppend(a[1..], g);
    } else {
      assert CsvLines([g]) == GroupLines(g.name, g.members) + CsvLines([]);
    }
  }

  /** The export has exactly one line per member, in group order then member order, and
      line `k` pairs the `k`-th member with the name of its group. */
  lemma {:induction false} CsvLinesOnePerMember(gs: seq<Group>)
    ensures |CsvLines(gs)| == |Members(gs)| == |Owners(gs)|
    ensures forall k :: 0 <= k < |CsvLines(gs)| ==>
      CsvLines(gs)[k] == CsvLine(Owners(gs)[k], Members(gs)[k].name)
    decreases |gs|
  {
    if gs != [] {
      CsvLinesOnePerMember(gs[1..]);
      var n := |gs[0].members|;
      forall k | 0 <= k < |CsvLines(gs)|
        ensures CsvLines(gs)[k] == CsvLine(Owners(gs)[k], Members(gs)[k].name)
      {
        if k >= n {
          assert CsvLines(gs)[k] == CsvLines(gs[1..])[k - n];
          assert Owners(gs)[k] == Owners(gs[1..])[k - n];
          assert Members(gs)[k] == Members(gs[1..])[k - n];
        }
      }
    }
  }

  /** The text of the first `gi + 1` groups is the text of the first `gi` followed by the lines of group `gi`. */
  lemma ExportStep(gs: seq<Group>, gi: nat)
    requires gi < |gs|
    ensures Concat(CsvLines(gs[..gi + 1])) == Concat(CsvLines(gs[..gi])) + Concat(GroupLines(gs[gi].name, gs[gi].members))
  {
    assert gs[..gi + 1] == gs[..gi] + [gs[gi]];
    CsvLinesAppend(gs[..gi], gs[gi]);
    ConcatAppend(CsvLines(gs[..gi]), GroupLines(gs[gi].name, gs[gi].members));
  }

  /** The inner `forEach` of the export: one line per member of `group` added to `csv`. */
  method AppendGroupLines(csv: string, group: Group) returns (out: string)
    ensures out == csv + Concat(GroupLines(group.name, group.members))
  {
    out := csv;
    var mi := 0;
    while mi < |group.members|
      invariant 0 <= mi <= |group.members|
      invariant out == csv + Concat(GroupLines(group.name, group.members[..mi]))
    {
      var line := CsvLine(group.name, group.members[mi].name);
      assert GroupLines(group.name, group.members[..mi + 1]) == GroupLines(group.name, group.members[..mi]) + [line];
      ConcatAppend(GroupLines(group.name, group.members[..mi]), [line]);
      out := out + line;
      mi := mi + 1;
    }
    assert group.members[..mi] == group.members;
  }

  /** What `handleDownloadCSV` hands to the download: nothing without groups, otherwise the
      header followed by every line. */
  function CsvExport(gs: seq<Group>): Option<string> {
    if |gs| == 0 then None else Some(CsvHeader + Concat(CsvLines(gs)))
  }

  // ---------------------------------------------------------------------------
  // The component
  // ---------------------------------------------------------------------------

  /** The state of the grouping view: the roster it was given, the group size input and the
      groups last generated. */
  class Partitioner {
    const participants: seq<Participant>
    var groupSize: int
    var groups: seq<Group>

    constructor (participants: seq<Participant>)
      ensures this.participants == participants
      ensures groupSize == Min(4, |participants|) && groups == []
    {
      this.participants := participants;
      groupSize := Min(4, |participants|);
      groups := [];
    }

    /** The size input: `parseInt(value) || 1`, so a value that does not parse (`None`) or
        parses to 0 becomes 1; negative values are kept. */
    method SetGroupSize(parsed: Option<int>)
      modifies this`groupSize
      ensures groupSize == (if parsed == None || parsed == Some(0) then 1 else parsed.value)
      ensures groupSize != 0
    {
      match parsed {
        case None => groupSize := 1;
        case Some(v) => groupSize := if v == 0 then 1 else v;
      }
    }

    /** `handleGenerateGroups`. `rs` are the `Math.random()` values of the shuffle; `naming`
        is what the naming service returned, `None` when the call threw. */
    method GenerateGroups(rs: seq<real>, naming: Option<seq<string>>)
      requires |rs| == |participants| && RandomValues(rs)
      modifies this`groups
      ensures groupSize < 1 ==> groups == old(groups)
      ensures groupSize >= 1 ==> groups == Generated(participants, rs, groupSize, naming)
    {
      var k := groupSize;
      if k < 1 {
        return;
      }
      var shuffled := ShuffleArray(participants, rs);
      var result := MakeGroups(shuffled, k);
      assert forall idx :: 0 <= idx < |result| ==> result[idx].name == DefaultName(idx) by {
        ChunksShape(shuffled, k, 0);
      }
      groups := NameGroups(result, naming);
    }

    /** `handleDownloadCSV`: the text built line by line in nested loops, or nothing without groups. */
    method DownloadCsv() returns (content: Option<string>)
      ensures content == CsvExport(groups)
      ensures content != None <==> |groups| > 0
    {
      var groups := this.groups;
      if |groups| == 0 {
        return None;
      }
      var csv := CsvHeader;
      var gi := 0;
      while gi < |groups|
        invariant 0 <= gi <= |groups|
        invariant csv == CsvHeader + Concat(CsvLines(groups[..gi]))
      {
        var done := Concat(CsvLines(groups[..gi]));
        var lines := Concat(GroupLines(groups[gi].name, groups[gi].members));
        csv := AppendGroupLines(csv, groups[gi]);
        ExportStep(groups, gi);
        AppendAssociative(CsvHeader, done, lines);
        gi := gi + 1;
      }
      assert groups[..gi] == groups;
      content := Some(csv);
    }
  }
}

/** The raffle of components/LuckyDraw.tsx: a pool of candidates, a winner list (most recent
    first), a spin of fixed-period ticks that ends in the final pick, a reset and the
    "allow repeat winners" toggle. */
module LuckyDraw {
  import opened Roster

  /** The tick period and the spin length, in milliseconds. */
  const Interval: nat := 80
  const MaxDuration: nat := 2000
  /** The number of ticks in one spin: the first tick whose elapsed time reaches `MaxDuration`. */
  const TicksPerSpin: nat := 25

  /** What the display shows before any draw and after a reset. */
  const Placeholder: string := "???"

  /** The answer of a press on the draw button: a spin started, the press came during a
      spin (ignored), or the pool was empty (the alert). */
  datatype StartOutcome = Started | AlreadySpinning | EmptyPool

  /** `allowDuplicates ? participants : candidates`. */
  function DrawSource(allowDuplicates: bool, participants: seq<Participant>, candidates: seq<Participant>): (source: seq<Participant>)
    requires IsSubsequence(candidates, participants)
    ensures IsSubsequence(source, participants)
    ensures allowDuplicates ==> source == participants
  {
    SubsequenceReflexive(participants);
    if allowDuplicates then participants else candidates
  }

  /** The name one tick shows: `source[Math.floor(r * source.length)]?.name || "???"`. */
  function TickName(source: seq<Participant>, r: real): (name: string)
    requires 0.0 <= r < 1.0
    ensures name != ""
    ensures name == Placeholder || exists p :: p in source && p.name == name
    ensures |source| == 0 ==> name == Placeholder
  {
    var idx := RandomIndex(r, |source|);
    if idx < |source| && source[idx].name != "" then source[idx].name else Placeholder
  }

  /** The final pick: `source[Math.floor(r * source.length)]`. */
  function WinnerOf(source: seq<Participant>, r: real): (w: Participant)
    requires 0.0 <= r < 1.0 && |source| > 0
    ensures w in source
  {
    source[RandomIndex(r, |source|)]
  }

  /** The component's state. `duration`, `spinSource` and `spinAllowDuplicates` belong to the
      running interval: its callback sees the pool and the mode as they were when the spin
      started, while the state setters it calls update the current ones. */
  class Raffle {
    const participants: seq<Participant>
    var candidates: seq<Participant>
    var winners: seq<Participant>
    var isSpinning: bool
    var currentName: string
    var allowDuplicates: bool
    var duration: nat
    var spinSource: seq<Participant>
    var spinAllowDuplicates: bool

    ghost predicate Valid()
      reads this
    {
      && |participants| > 0
      && IsSubsequence(candidates, participants)
      && (forall w :: w in winners ==> w in participants)
      && (isSpinning ==>
            && duration % Interval == 0 && duration < MaxDuration
            && |spinSource| > 0
            && IsSubsequence(spinSource, participants)
            && (spinAllowDuplicates ==> spinSource == participants)
            && (!spinAllowDuplicates ==> candidates == spinSource || candidates == participants))
    }

    /** `disabled={isSpinning || (!allowDuplicates && candidates.length === 0)}`. */
    predicate SpinButtonDisabled()
      reads this
    {
      isSpinning || (!allowDuplicates && |candidates| == 0)
    }

    /** The view is only reachable with a non-empty roster. */
    constructor (participants: seq<Participant>)
      requires |participants| > 0
      ensures Valid()
      ensures this.participants == participants && candidates == participants
      ensures winners == [] && !isSpinning && currentName == Placeholder && !allowDuplicates
    {
      this.participants := participants;
      candidates := participants;
      winners := [];
      isSpinning := false;
      currentName := Placeholder;
      allowDuplicates := false;
      duration := 0;
      spinSource := [];
      spinAllowDuplicates := false;
      SubsequenceReflexive(participants);
    }

    /** `startSpin`: ignored during a spin, refused on an empty pool without repeats, and
        otherwise starts the interval with the current draw source. */
    method StartSpin() returns (outcome: StartOutcome)
      requires Valid()
      modifies this
      ensures Valid()
      ensures outcome == Started <==> !old(SpinButtonDisabled())
      ensures old(isSpinning) ==> outcome == AlreadySpinning
      ensures !old(isSpinning) && old(!allowDuplicates && |candidates| == 0) ==> outcome == EmptyPool
      ensures outcome != Started ==> unchanged(this)
      ensures outcome == Started ==>
        && isSpinning && duration == 0
        && spinSource == DrawSource(allowDuplicates, participants, candidates)
        && spinAllowDuplicates == allowDuplicates
      ensures candidates == old(candidates) && winners == old(winners)
      ensures currentName == old(currentName) && allowDuplicates == old(allowDuplicates)
    {
      if isSpinning {
        return AlreadySpinning;
      }
      if !allowDuplicates && |candidates| == 0 {
        return EmptyPool;
      }
      isSpinning := true;
      duration := 0;
      spinSource := DrawSource(allowDuplicates, participants, candidates);
      spinAllowDuplicates := allowDuplicates;
      outcome := Started;
    }

    /** One callback of the interval: show a random name from the captured source, advance
        the elapsed time, and finish the spin once it reaches `MaxDuration`. `r` is this
        tick's `Math.random()` value, `rWinner` the one `finishSpin` would draw. */
    method Tick(r: real, rWinner: real)
      requires Valid() && isSpinning
      requires 0.0 <= r < 1.0 && 0.0 <= rWinner < 1.0
      modifies this
      ensures Valid()
      ensures old(duration) + Interval < MaxDuration ==>
        && isSpinning && duration == old(duration) + Interval
        && currentName == TickName(spinSource, r)
        && spinSource == old(spinSource) && spinAllowDuplicates == old(spinAllowDuplicates)
        && candidates == old(candidates) && winners == old(winners)
        && allowDuplicates == old(allowDuplicates)
      ensures old(duration) + Interval >= MaxDuration ==>
        var w := WinnerOf(old(spinSource), rWinner);
        && !isSpinning
        && winners == [w] + old(winners)
        && currentName == w.name
        && candidates == (if old(spinAllowDuplicates) then old(candidates) else RemoveById(old(candidates), w.id))
        && (!old(spinAllowDuplicates) ==> w in old(candidates) && w !in candidates)
        && (!old(spinAllowDuplicates) && IdsUnique(participants) ==> |candidates| == |old(candidates)| - 1)
        && allowDuplicates == old(allowDuplicates)
    {
      currentName := TickName(spinSource, r);
      var elapsed := duration + Interval;
      if elapsed >= MaxDuration {
        FinishSpin(rWinner);
      } else {
        duration := elapsed;
      }
    }

    /** `finishSpin`: the winner is drawn from the captured source, put at the head of the
        winner list and shown; without repeats it leaves the pool by id. */
    method FinishSpin(rWinner: real)
      requires Valid() && isSpinning
      requires 0.0 <= rWinner < 1.0
      modifies this
      ensures Valid()
      ensures
        var w := WinnerOf(old(spinSource), rWinner);
        && !isSpinning
        && winners == [w] + old(winners)
        && currentName == w.name
        && candidates == (if old(spinAllowDuplicates) then old(candidates) else RemoveById(old(candidates), w.id))
        && (!old(spinAllowDuplicates) ==> w in old(candidates) && w !in candidates)
        && (!old(spinAllowDuplicates) && IdsUnique(participants) ==> |candidates| == |old(candidates)| - 1)
        && allowDuplicates == old(allowDuplicates)
    {
      var w := WinnerOf(spinSource, rWinner);
      SubsequenceMembers(spinSource, participants);
      winners := [w] + winners;
      currentName := w.name;
      if !spinAllowDuplicates {
        if candidates == spinSource {
          SubsequenceReflexive(spinSource);
        }
        SubsequenceMembers(spinSource, candidates);
        ghost var before := candidates;
        candidates := RemoveById(candidates, w.id);
        SubsequenceTransitive(candidates, before, participants);
        if IdsUnique(participants) {
          SubsequenceKeepsIdsUnique(before, participants);
          ghost var k :| 0 <= k < |before| && before[k] == w;
          RemoveByIdAt(before, k);
        }
      }
      isSpinning := false;
    }

    /** The interval from start to finish: it ticks until the spin ends, which takes exactly
        `TicksPerSpin` ticks; `rs` supplies one random value per tick. */
    method RunInterval(rs: seq<real>, rWinner: real) returns (ticks: nat)
      requires Valid() && isSpinning && duration == 0
      requires |rs| >= TicksPerSpin && RandomValues(rs) && 0.0 <= rWinner < 1.0
      modifies this
      ensures Valid() && !isSpinning && ticks == TicksPerSpin
      ensures
        var w := WinnerOf(old(spinSource), rWinner);
        && winners == [w] + old(winners)
        && currentName == w.name
        && candidates == (if old(spinAllowDuplicates) then old(candidates) else RemoveById(old(candidates), w.id))
        && (!old(spinAllowDuplicates) ==> w in old(candidates) && w !in candidates)
        && (!old(spinAllowDuplicates) && IdsUnique(participants) ==> |candidates| == |old(candidates)| - 1)
      ensures allowDuplicates == old(allowDuplicates)
    {
      ticks := 0;
      while isSpinning
        invariant Valid()
        invariant allowDuplicates == old(allowDuplicates)
        invariant isSpinning ==> duration == ticks * Interval && ticks < TicksPerSpin
        invariant isSpinning ==> candidates == old(candidates) && winners == old(winners)
        invariant isSpinning ==> spinSource == old(spinSource) && spinAllowDuplicates == old(spinAllowDuplicates)
        invariant !isSpinning ==> ticks == TicksPerSpin
        invariant !isSpinning ==>
          var w := WinnerOf(old(spinSource), rWinner);
          && winners == [w] + old(winners)
          && currentName == w.name
          && candidates == (if old(spinAllowDuplicates) then old(candidates) else RemoveById(old(candidates), w.id))
          && (!old(spinAllowDuplicates) ==> w in old(candidates) && w !in candidates)
          && (!old(spinAllowDuplicates) && IdsUnique(participants) ==> |candidates| == |old(candidates)| - 1)
        decreases TicksPerSpin - ticks
      {
        Tick(rs[ticks], rWinner);
        ticks := ticks + 1;
      }
    }

    /** `reset`: the pool is the whole roster again, the winner list is emptied and the
        display shows the placeholder; a running interval is not stopped. */
    method Reset()
      requires Valid()
      modifies this
      ensures Valid()
      ensures candidates == participants && winners == [] && currentName == Placeholder
      ensures isSpinning == old(isSpinning) && allowDuplicates == old(allowDuplicates)
      ensures duration == old(duration) && spinSource == old(spinSource)
      ensures spinAllowDuplicates == old(spinAllowDuplicates)
    {
      candidates := participants;
      winners := [];
      currentName := Placeholder;
      SubsequenceReflexive(participants);
    }

    /** The checkbox handler: sets the mode and makes the pool the whole roster again; the
        winner list is kept. */
    method ToggleMode(checked: bool)
      requires Valid()
      modifies this
      ensures Valid()
      ensures allowDuplicates == checked && candidates == participants
      ensures winners == old(winners) && currentName == old(currentName) && isSpinning == old(isSpinning)
      ensures duration == old(duration) && spinSource == old(spinSource)
      ensures spinAllowDuplicates == old(spinAllowDuplicates)
    {
      allowDuplicates := checked;
      candidates := participants;
      SubsequenceReflexive(participants);
    }
  }

  /** A winner list stays free of repeated ids when the new head's id is not in it. */
  lemma IdsUniqueCons(w: Participant, ws: seq<Participant>)
    requires IdsUnique(ws) && forall x :: x in ws ==> x.id != w.id
    ensures IdsUnique([w] + ws)
  {
    var all := [w] + ws;
    forall i, j | 0 <= i < j < |all| ensures all[i].id != all[j].id {
      assert all[j] == ws[j - 1];
      if i > 0 {
        assert all[i] == ws[i - 1];
      }
    }
  }

  /** In a roster with unique ids, the id identifies the entry. */
  lemma SameIdSameEntry(ps: seq<Participant>, p: Participant, q: Participant)
    requires IdsUnique(ps) && p in ps && q in ps && p.id == q.id
    ensures p == q
  {
    var i :| 0 <= i < |ps| && ps[i] == p;
    var j :| 0 <= j < |ps| && ps[j] == q;
    assert i == j;
  }

  /** A whole raffle without repeats on a fresh view over a roster with unique ids: every
      press starts a spin, each spin runs to its end, and after one draw per participant
      everyone has won exactly once, the pool is empty and the next press is refused.
      `ticks[d]` and `picks[d]` are the `Math.random()` values of draw `d`. */
  method DrawEveryone(participants: seq<Participant>, ticks: seq<seq<real>>, picks: seq<real>)
    returns (raffle: Raffle, last: StartOutcome)
    requires |participants| > 0 && IdsUnique(participants)
    requires |ticks| == |participants| && |picks| == |participants|
    requires forall d :: 0 <= d < |ticks| ==> |ticks[d]| >= TicksPerSpin && RandomValues(ticks[d])
    requires RandomValues(picks)
    ensures raffle.participants == participants && !raffle.allowDuplicates
    ensures |raffle.winners| == |participants| && IdsUnique(raffle.winners)
    ensures forall p :: p in participants <==> p in raffle.winners
    ensures raffle.candidates == []
    ensures last == EmptyPool
  {
    raffle := new Raffle(participants);
    var d := 0;
    while d < |participants|
      invariant d <= |participants|
      invariant raffle.Valid() && raffle.participants == participants
      invariant !raffle.isSpinning && !raffle.allowDuplicates
      invariant |raffle.winners| == d && |raffle.candidates| == |participants| - d
      invariant IdsUnique(raffle.winners)
      invariant forall w, p :: w in raffle.winners && p in raffle.candidates ==> w.id != p.id
      invariant forall p :: p in participants ==> p in raffle.winners || p in raffle.candidates
    {
      var pool := raffle.candidates;
      var before := raffle.winners;
      var started := raffle.StartSpin();
      assert raffle.spinSource == pool && !raffle.spinAllowDuplicates;
      var n := raffle.RunInterval(ticks[d], picks[d]);
      var w := WinnerOf(pool, picks[d]);
      assert raffle.winners == [w] + before && raffle.candidates == RemoveById(pool, w.id);
      assert w in pool;
      assert IdsUnique(raffle.winners) by {
        IdsUniqueCons(w, before);
      }
      SubsequenceMembers(raffle.candidates, pool);
      SubsequenceMembers(pool, participants);
      forall p | p in participants
        ensures p in raffle.winners || p in raffle.candidates
      {
        if p in pool {
          if p.id == w.id {
            SameIdSameEntry(participants, p, w);
          } else {
            RemoveByIdKeeps(pool, w.id, p);
          }
        }
      }
      d := d + 1;
    }
    last := raffle.StartSpin();
  }
}

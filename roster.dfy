/** The entities of the roster (a participant, a group) and the list helpers that the
    raffle, the partitioner and the roster manager share. */
module Roster {

  datatype Option<T> = None | Some(value: T)

  /** A participant: `id` is its identity, `name` is display data and may repeat. */
  datatype Participant = Participant(id: string, name: string)

  /** A group made by the partitioner: a 0-based `id`, a display `name` and its members in order. */
  datatype Group = Group(id: int, name: string, members: seq<Participant>)

  /** The roster invariant: no two entries share an id. */
  predicate IdsUnique(ps: seq<Participant>) {
    forall i, j :: 0 <= i < j < |ps| ==> ps[i].id != ps[j].id
  }

  /** `a` is `b` with some entries deleted and the others kept in their order. */
  predicate IsSubsequence<T(==)>(a: seq<T>, b: seq<T>)
    decreases |b|
  {
    if a == [] then true
    else if b == [] then false
    else if a[0] == b[0] then IsSubsequence(a[1..], b[1..])
    else IsSubsequence(a, b[1..])
  }

  lemma {:induction false} SubsequenceReflexive<T>(a: seq<T>)
    ensures IsSubsequence(a, a)
    decreases |a|
  {
    if a != [] {
      SubsequenceReflexive(a[1..]);
    }
  }

  lemma {:induction false} SubsequenceMembers<T>(a: seq<T>, b: seq<T>)
    requires IsSubsequence(a, b)
    ensures |a| <= |b|
    ensures forall x :: x in a ==> x in b
    decreases |b|
  {
    if a != [] && b != [] {
      if a[0] == b[0] {
        SubsequenceMembers(a[1..], b[1..]);
        forall x | x in a ensures x in b {
          if x != a[0] {
            assert x in a[1..];
            assert x in b[1..];
          }
        }
      } else {
        SubsequenceMembers(a, b[1..]);
      }
    }
  }

  /** Dropping the first entry of a subsequence keeps it a subsequence. */
  lemma {:induction false} SubsequenceDropFirst<T>(a: seq<T>, b: seq<T>)
    requires a != [] && IsSubsequence(a, b)
    ensures IsSubsequence(a[1..], b)
    decreases |b|, 1
  {
    if b != [] {
      if a[0] == b[0] {
        SubsequenceSkipOne(a[1..], b);
      } else {
        SubsequenceDropFirst(a, b[1..]);
        SubsequenceSkipOne(a[1..], b);
      }
    }
  }

  /** A subsequence of the tail of `b` is a subsequence of `b`. */
  lemma {:induction false} SubsequenceSkipOne<T>(a: seq<T>, b: seq<T>)
    requires b != [] && IsSubsequence(a, b[1..])
    ensures IsSubsequence(a, b)
    decreases |b|, 0
  {
    if a != [] && a[0] == b[0] {
      SubsequenceDropFirst(a, b[1..]);
    }
  }

  lemma {:induction false} SubsequenceTransitive<T>(a: seq<T>, b: seq<T>, c: seq<T>)
    requires IsSubsequence(a, b) && IsSubsequence(b, c)
    ensures IsSubsequence(a, c)
    decreases |c|
  {
    if a != [] && b != [] && c != [] {
      if b[0] == c[0] {
        if a[0] == b[0] {
          SubsequenceTransitive(a[1..], b[1..], c[1..]);
        } else {
          SubsequenceTransitive(a, b[1..], c[1..]);
        }
      } else {
        SubsequenceTransitive(a, b, c[1..]);
        SubsequenceSkipOne(a, c);
      }
    }
  }

  /** Deleting entries cannot make two ids collide. */
  lemma {:induction false} SubsequenceKeepsIdsUnique(a: seq<Participant>, b: seq<Participant>)
    requires IsSubsequence(a, b) && IdsUnique(b)
    ensures IdsUnique(a)
    decreases |b|
  {
    if a != [] && b != [] {
      if a[0] == b[0] {
        SubsequenceKeepsIdsUnique(a[1..], b[1..]);
        SubsequenceMembers(a[1..], b[1..]);
        forall j | 0 < j < |a| ensures a[0].id != a[j].id {
          assert a[j] == a[1..][j - 1];
          assert a[j] in a[1..];
          assert a[j] in b[1..];
          var m :| 0 <= m < |b[1..]| && b[1..][m] == a[j];
          assert b[m + 1] == a[j];
        }
      } else {
        SubsequenceKeepsIdsUnique(a, b[1..]);
      }
    }
  }

  /** `list.filter(p => p.id !== id)`: every entry whose id differs, in order. */
  function RemoveById(ps: seq<Participant>, id: string): (r: seq<Participant>)
    ensures IsSubsequence(r, ps)
    ensures forall k :: 0 <= k < |r| ==> r[k].id != id
    decreases |ps|
  {
    if ps == [] then []
    else if ps[0].id == id then
      var rest := RemoveById(ps[1..], id);
      SubsequenceSkipOne(rest, ps);
      rest
    else
      [ps[0]] + RemoveById(ps[1..], id)
  }

  lemma IdsUniqueTail(ps: seq<Participant>)
    requires ps != [] && IdsUnique(ps)
    ensures IdsUnique(ps[1..])
    ensures forall p :: p in ps[1..] ==> p.id != ps[0].id
  {
    var tail := ps[1..];
    forall i, j | 0 <= i < j < |tail| ensures tail[i].id != tail[j].id {
      assert tail[i] == ps[i + 1] && tail[j] == ps[j + 1];
    }
    forall p | p in tail ensures p.id != ps[0].id {
      var m :| 0 <= m < |tail| && tail[m] == p;
      assert ps[m + 1] == p;
    }
  }

  /** Every entry whose id differs from `id` survives the removal. */
  lemma {:induction false} RemoveByIdKeeps(ps: seq<Participant>, id: string, p: Participant)
    requires p in ps && p.id != id
    ensures p in RemoveById(ps, id)
    decreases |ps|
  {
    if ps[0] != p {
      RemoveByIdKeeps(ps[1..], id, p);
    }
  }

  /** With unique ids, removing the id of entry `k` deletes exactly that entry. */
  lemma {:induction false} RemoveByIdAt(ps: seq<Participant>, k: nat)
    requires IdsUnique(ps) && k < |ps|
    ensures RemoveById(ps, ps[k].id) == ps[..k] + ps[k + 1..]
    ensures |RemoveById(ps, ps[k].id)| == |ps| - 1
    decreases k
  {
    var id := ps[k].id;
    var tail := ps[1..];
    if k == 0 {
      assert forall p :: p in tail ==> p.id != id by {
        IdsUniqueTail(ps);
      }
      RemoveByIdAbsent(tail, id);
      assert ps[..0] + ps[1..] == tail;
    } else {
      assert ps[0].id != id;
      assert tail[k - 1] == ps[k];
      assert IdsUnique(tail) by {
        IdsUniqueTail(ps);
      }
      RemoveByIdAt(tail, k - 1);
      RemoveByIdConsStep(ps, k, id);
    }
  }

  lemma RemoveByIdConsStep(ps: seq<Participant>, k: nat, id: string)
    requires 0 < k < |ps| && ps[0].id != id
    requires RemoveById(ps[1..], id) == ps[1..][..k - 1] + ps[1..][k..]
    ensures RemoveById(ps, id) == ps[..k] + ps[k + 1..]
  {
    var tail := ps[1..];
    assert RemoveById(ps, id) == [ps[0]] + RemoveById(tail, id);
    assert [ps[0]] + (tail[..k - 1] + tail[k..]) == ps[..k] + ps[k + 1..];
  }

  /** Removing an id that no entry carries changes nothing. */
  lemma {:induction false} RemoveByIdAbsent(ps: seq<Participant>, id: string)
    requires forall p :: p in ps ==> p.id != id
    ensures RemoveById(ps, id) == ps
    decreases |ps|
  {
    if ps != [] {
      RemoveByIdAbsent(ps[1..], id);
    }
  }

  /** `Math.floor(r * n)` for a value `r` of `Math.random()`: an index below `n`. */
  function RandomIndex(r: real, n: nat): (j: nat)
    requires 0.0 <= r < 1.0
    ensures n > 0 ==> j < n
    ensures n == 0 ==> j == 0
  {
    var x := n as real;
    assert 0.0 <= r * x;
    assert (1.0 - r) * x >= 0.0;
    assert x > 0.0 ==> (1.0 - r) * x > 0.0;
    (r * n as real).Floor
  }

  /** Every value in `rs` is one that `Math.random()` can return. */
  predicate RandomValues(rs: seq<real>) {
    forall k :: 0 <= k < |rs| ==> 0.0 <= rs[k] < 1.0
  }

  /** Concatenation regroups freely; stated once so that long concatenations are regrouped
      only where a proof asks for it. */
  lemma AppendAssociative<T>(a: seq<T>, b: seq<T>, c: seq<T>)
    ensures a + b + c == a + (b + c)
  {
  }
}

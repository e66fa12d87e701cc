/** The two list updates the page applies after a successful single-row request: dropping
    a deleted row and substituting the row the server returned for an edited one. */
module ListOps {
  import opened Wrappers
  import opened Workouts

  /** `prev.filter(workout => workout.id !== id)`. */
  function RemoveId(ws: seq<Workout>, id: int): (r: seq<Workout>)
    ensures !HasId(r, id)
    ensures forall w :: multiset(r)[w] == if w.id == id then 0 else multiset(ws)[w]
    ensures !HasId(ws, id) ==> r == ws
  {
    if ws == [] then []
    else
      var rest := RemoveId(ws[1..], id);
      assert ws == [ws[0]] + ws[1..];
      HasIdCons(ws[0], ws[1..], id);
      if ws[0].id == id then rest
      else
        HasIdCons(ws[0], rest, id);
        assert multiset([ws[0]] + rest) == multiset{ws[0]} + multiset(rest);
        [ws[0]] + rest
  }

  /** Deleting from a concatenation deletes from each part separately, so the surviving
      rows keep their relative order. */
  lemma {:induction false} RemoveIdDistributes(a: seq<Workout>, b: seq<Workout>, id: int)
    ensures RemoveId(a + b, id) == RemoveId(a, id) + RemoveId(b, id)
  {
    if a == [] {
      assert a + b == b;
    } else {
      assert (a + b)[0] == a[0];
      assert (a + b)[1..] == a[1..] + b;
      RemoveIdDistributes(a[1..], b, id);
    }
  }

  /** A lower bound on every key survives a delete. */
  lemma {:induction false} RemoveIdKeepsLowerBound(ws: seq<Workout>, id: int, lo: int)
    requires forall i :: 0 <= i < |ws| ==> lo <= SortKey(ws[i])
    ensures forall j :: 0 <= j < |RemoveId(ws, id)| ==> lo <= SortKey(RemoveId(ws, id)[j])
  {
    if ws != [] {
      assert forall i :: 0 <= i < |ws[1..]| ==> ws[1..][i] == ws[i + 1];
      RemoveIdKeepsLowerBound(ws[1..], id, lo);
    }
  }

  /** Deleting keeps a sorted list sorted. */
  lemma {:induction false} RemoveIdKeepsSorted(ws: seq<Workout>, id: int)
    requires SortedByKey(ws)
    ensures SortedByKey(RemoveId(ws, id))
  {
    if ws != [] {
      TailProperties(ws);
      var rest := RemoveId(ws[1..], id);
      RemoveIdKeepsSorted(ws[1..], id);
      if ws[0].id != id {
        assert forall i :: 0 <= i < |ws[1..]| ==> SortKey(ws[0]) <= SortKey(ws[1..][i]);
        RemoveIdKeepsLowerBound(ws[1..], id, SortKey(ws[0]));
        ConsSorted(ws[0], rest);
        assert RemoveId(ws, id) == [ws[0]] + rest;
      } else {
        assert RemoveId(ws, id) == rest;
      }
    }
  }

  /** An identifier absent before a delete is absent after it. */
  lemma RemoveIdAddsNoId(ws: seq<Workout>, id: int, other: int)
    requires !HasId(ws, other)
    ensures !HasId(RemoveId(ws, id), other)
  {
  }

  /** Deleting keeps identifiers unique. */
  lemma {:induction false} RemoveIdKeepsUnique(ws: seq<Workout>, id: int)
    requires UniqueIds(ws)
    ensures UniqueIds(RemoveId(ws, id))
  {
    if ws != [] {
      TailProperties(ws);
      var rest := RemoveId(ws[1..], id);
      RemoveIdKeepsUnique(ws[1..], id);
      if ws[0].id != id {
        RemoveIdAddsNoId(ws[1..], id, ws[0].id);
        ConsUnique(ws[0], rest);
        assert RemoveId(ws, id) == [ws[0]] + rest;
      } else {
        assert RemoveId(ws, id) == rest;
      }
    }
  }

  /** `prev.map(workout => workout.id === editingWorkoutId ? updatedWorkout : workout)`,
      where a `null` editing id matches no row. */
  function ReplaceId(ws: seq<Workout>, id: Option<int>, updated: Workout): (r: seq<Workout>)
    ensures |r| == |ws|
    ensures forall i :: 0 <= i < |ws| && id == Some(ws[i].id) ==> r[i] == updated
    ensures forall i :: 0 <= i < |ws| && id != Some(ws[i].id) ==> r[i] == ws[i]
  {
    seq(|ws|, i requires 0 <= i < |ws| => if id == Some(ws[i].id) then updated else ws[i])
  }

  /** With unique identifiers, saving touches exactly the one row that has the editing id;
      with no editing id, or one not in the list, nothing changes. */
  lemma ReplaceIdSingleRow(ws: seq<Workout>, id: Option<int>, updated: Workout)
    requires UniqueIds(ws)
    ensures id.None? || !HasId(ws, id.value) ==> ReplaceId(ws, id, updated) == ws
    ensures id.Some? && HasId(ws, id.value) ==>
      exists k :: 0 <= k < |ws| && ws[k].id == id.value && ReplaceId(ws, id, updated) == ws[k := updated]
  {
    if id.Some? && HasId(ws, id.value) {
      var k :| 0 <= k < |ws| && ws[k].id == id.value;
      assert ReplaceId(ws, id, updated) == ws[k := updated];
    }
  }

  /** A save keeps identifiers unique when the server returns the row under the same id. */
  lemma ReplaceIdKeepsUnique(ws: seq<Workout>, id: Option<int>, updated: Workout)
    requires UniqueIds(ws)
    requires id.Some? ==> updated.id == id.value
    ensures UniqueIds(ReplaceId(ws, id, updated))
  {
  }
}

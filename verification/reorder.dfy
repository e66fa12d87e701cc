/** Moving a row one place up or down: locating the row, choosing the neighbour, the two
    sortOrder updates sent to the server, and the local list update once both requests
    have settled. */
module Reorder {
  import opened Wrappers
  import opened Workouts
  import Ordering

  datatype Direction = Up | Down

  /** The position of the first row with identifier `id` — what
      `workouts.indexOf(workouts.find(w => w.id === id))` yields — or `None` when no row has it. */
  function FindIndex(ws: seq<Workout>, id: int): (r: Option<nat>)
    ensures r.None? <==> !HasId(ws, id)
    ensures r.Some? ==> r.value < |ws| && ws[r.value].id == id
    ensures r.Some? ==> forall i :: 0 <= i < r.value ==> ws[i].id != id
  {
    if ws == [] then None
    else if ws[0].id == id then Some(0)
    else
      assert forall i :: 1 <= i < |ws| ==> ws[i] == ws[1..][i - 1];
      match FindIndex(ws[1..], id)
      case None => None
      case Some(k) => Some(k + 1)
  }

  /** The body `{ sortOrder: v }` of one PUT to `/api/workouts/{id}`. The rows come from
      the server's JSON, so a row without a sortOrder holds `null`, which `JSON.stringify`
      keeps: `None` here is that `null`, sent like any other value. */
  datatype SortOrderPut = SortOrderPut(id: int, sortOrder: Option<int>)

  /** What a move request turns into: nothing at all, or an exchange of positions `current`
      and `neighbour` announced to the server by two PUTs. */
  datatype ReorderPlan =
    | NoMove
    | Exchange(current: nat, neighbour: nat, movedPut: SortOrderPut, neighbourPut: SortOrderPut)

  function NeighbourIndex(current: nat, dir: Direction): int {
    match dir
    case Up => current - 1
    case Down => current + 1
  }

  /** The decision part of the move handler, before any request is sent: the first row
      with the id trades places with the row just above or below it, if there is one, and
      each of the two is sent the other's sortOrder. */
  function PlanReorder(ws: seq<Workout>, id: int, dir: Direction): (p: ReorderPlan)
    ensures p.NoMove? <==>
      || !HasId(ws, id)
      || (dir == Up && FindIndex(ws, id) == Some(0))
      || (dir == Down && FindIndex(ws, id) == Some(|ws| - 1))
    ensures p.Exchange? ==>
      && p.current < |ws| && p.neighbour < |ws|
      && FindIndex(ws, id) == Some(p.current)
      && (dir == Up ==> p.neighbour + 1 == p.current)
      && (dir == Down ==> p.neighbour == p.current + 1)
      && p.movedPut == SortOrderPut(id, ws[p.neighbour].sortOrder)
      && p.neighbourPut == SortOrderPut(ws[p.neighbour].id, ws[p.current].sortOrder)
  {
    match FindIndex(ws, id)
    case None => NoMove
    case Some(current) =>
      var n := NeighbourIndex(current, dir);
      if n < 0 || n >= |ws| then NoMove
      else Exchange(current, n,
                    SortOrderPut(id, ws[n].sortOrder),
                    SortOrderPut(ws[n].id, ws[current].sortOrder))
  }

  /** A move does nothing when the row is missing, when it is already first and moves up,
      or (identifiers being unique) when it is already last and moves down. */
  lemma PlanNoMoveCases(ws: seq<Workout>, id: int, dir: Direction)
    ensures !HasId(ws, id) ==> PlanReorder(ws, id, dir).NoMove?
    ensures |ws| > 0 && ws[0].id == id && dir == Up ==> PlanReorder(ws, id, dir).NoMove?
    ensures UniqueIds(ws) && |ws| > 0 && ws[|ws| - 1].id == id && dir == Down ==>
              PlanReorder(ws, id, dir).NoMove?
  {
    if UniqueIds(ws) && |ws| > 0 && ws[|ws| - 1].id == id && dir == Down {
      var k := FindIndex(ws, id).value;
      assert k == |ws| - 1;
    }
  }

  /** In every other case the row and its neighbour are exchanged, and the two PUTs hand
      each row the other's sortOrder. */
  lemma PlanExchangeCases(ws: seq<Workout>, id: int, dir: Direction, k: nat)
    requires UniqueIds(ws)
    requires k < |ws| && ws[k].id == id
    requires dir == Up ==> k > 0
    requires dir == Down ==> k < |ws| - 1
    ensures var p := PlanReorder(ws, id, dir);
      && p.Exchange?
      && p.current == k
      && p.neighbour == (if dir == Up then k - 1 else k + 1)
      && p.movedPut == SortOrderPut(id, ws[p.neighbour].sortOrder)
      && p.neighbourPut == SortOrderPut(ws[p.neighbour].id, ws[k].sortOrder)
  {
    var f := FindIndex(ws, id);
    assert f.Some?;
    assert f.value == k;
  }

  /** Positions `i` and `j` exchanged, every other position as it was. */
  function SwapAt<T>(s: seq<T>, i: nat, j: nat): (r: seq<T>)
    requires i < |s| && j < |s|
    ensures |r| == |s| && r[i] == s[j] && r[j] == s[i]
    ensures forall k :: 0 <= k < |s| && k != i && k != j ==> r[k] == s[k]
    ensures multiset(r) == multiset(s)
  {
    s[i := s[j]][j := s[i]]
  }

  /** True iff both requests settled without a network error, so `Promise.all` resolved.
      A response with an error status still counts as settled. */
  predicate BothSettled(first: FetchStatus, second: FetchStatus) {
    first.Responded? && second.Responded?
  }

  /** The move handler as the page writes it: once both PUTs settle, the two rows trade
      places while each keeps its own `sortOrder` field. */
  function HandleSortOrderChange(ws: seq<Workout>, id: int, dir: Direction,
                                 first: FetchStatus, second: FetchStatus): (r: seq<Workout>)
    ensures |r| == |ws|
    ensures multiset(r) == multiset(ws)
    ensures PlanReorder(ws, id, dir).NoMove? || !BothSettled(first, second) ==> r == ws
    ensures var p := PlanReorder(ws, id, dir);
      p.Exchange? && BothSettled(first, second) ==>
        && r[p.current] == ws[p.neighbour]
        && r[p.neighbour] == ws[p.current]
        && forall k :: 0 <= k < |ws| && k != p.current && k != p.neighbour ==> r[k] == ws[k]
  {
    match PlanReorder(ws, id, dir)
    case NoMove => ws
    case Exchange(current, neighbour, _, _) =>
      if BothSettled(first, second) then SwapAt(ws, current, neighbour) else ws
  }

  /** The exchange happens even when the server answered one or both PUTs with an error
      status: only a network failure stops it. */
  lemma SwapDespiteErrorStatus(ws: seq<Workout>, id: int, dir: Direction)
    requires PlanReorder(ws, id, dir).Exchange?
    requires ws[PlanReorder(ws, id, dir).current] != ws[PlanReorder(ws, id, dir).neighbour]
    ensures HandleSortOrderChange(ws, id, dir, Responded(false), Responded(false)) != ws
  {
    var p := PlanReorder(ws, id, dir);
    var r := HandleSortOrderChange(ws, id, dir, Responded(false), Responded(false));
    assert r[p.current] == ws[p.neighbour];
  }

  /** The move handler with the local rows also trading their sortOrder values, so that
      each position keeps the value the server now holds for the row placed there. */
  function HandleSortOrderChangeCorrected(ws: seq<Workout>, id: int, dir: Direction,
                                          first: FetchStatus, second: FetchStatus): (r: seq<Workout>)
    ensures |r| == |ws|
    ensures PlanReorder(ws, id, dir).NoMove? || !BothSettled(first, second) ==> r == ws
    ensures forall k :: 0 <= k < |ws| ==> r[k].sortOrder == ws[k].sortOrder
    ensures var p := PlanReorder(ws, id, dir);
      p.Exchange? && BothSettled(first, second) ==>
        && r[p.current] == ws[p.neighbour].(sortOrder := ws[p.current].sortOrder)
        && r[p.neighbour] == ws[p.current].(sortOrder := ws[p.neighbour].sortOrder)
        && forall k :: 0 <= k < |ws| && k != p.current && k != p.neighbour ==> r[k] == ws[k]
  {
    match PlanReorder(ws, id, dir)
    case NoMove => ws
    case Exchange(current, neighbour, _, _) =>
      if BothSettled(first, second) then
        ws[current := ws[neighbour].(sortOrder := ws[current].sortOrder)]
          [neighbour := ws[current].(sortOrder := ws[neighbour].sortOrder)]
      else ws
  }

  /** Since every position keeps its sort key, the corrected move keeps a sorted list sorted. */
  lemma CorrectedMoveKeepsSorted(ws: seq<Workout>, id: int, dir: Direction,
                                 first: FetchStatus, second: FetchStatus)
    requires SortedByKey(ws)
    ensures SortedByKey(HandleSortOrderChangeCorrected(ws, id, dir, first, second))
  {
    var r := HandleSortOrderChangeCorrected(ws, id, dir, first, second);
    assert forall k :: 0 <= k < |ws| ==> SortKey(r[k]) == SortKey(ws[k]);
  }

  /** The move as written breaks key order: in a sorted list, exchanging two rows whose
      keys differ leaves the larger key in front of the smaller one. */
  lemma AsWrittenMoveBreaksOrder(ws: seq<Workout>, id: int, dir: Direction,
                                 first: FetchStatus, second: FetchStatus)
    requires SortedByKey(ws)
    requires BothSettled(first, second)
    requires PlanReorder(ws, id, dir).Exchange?
    requires SortKey(ws[PlanReorder(ws, id, dir).current]) != SortKey(ws[PlanReorder(ws, id, dir).neighbour])
    ensures !SortedByKey(HandleSortOrderChange(ws, id, dir, first, second))
  {
    var p := PlanReorder(ws, id, dir);
    var r := HandleSortOrderChange(ws, id, dir, first, second);
    var lo := if p.current < p.neighbour then p.current else p.neighbour;
    var hi := if p.current < p.neighbour then p.neighbour else p.current;
    assert SortKey(ws[lo]) < SortKey(ws[hi]);
    assert r[lo] == ws[hi] && r[hi] == ws[lo];
  }

  /** Two rows A (sortOrder 0) and B (sortOrder 1): once moving B up has settled, the page
      as written shows B before A, out of key order, while the corrected page shows B
      with 0 and A with 1, in key order. */
  lemma TwoRowMoveUpOrder()
    ensures var ws := [Workout(1, "A", "L", "https://a", "S", "E", Some(0)),
                       Workout(2, "B", "L", "https://b", "S", "E", Some(1))];
            && SortedByKey(ws)
            && !SortedByKey(HandleSortOrderChange(ws, 2, Up, Responded(true), Responded(true)))
            && SortedByKey(HandleSortOrderChangeCorrected(ws, 2, Up, Responded(true), Responded(true)))
  {
    var ws := [Workout(1, "A", "L", "https://a", "S", "E", Some(0)),
               Workout(2, "B", "L", "https://b", "S", "E", Some(1))];
    assert FindIndex(ws, 2) == Some(1);
    AsWrittenMoveBreaksOrder(ws, 2, Up, Responded(true), Responded(true));
    CorrectedMoveKeepsSorted(ws, 2, Up, Responded(true), Responded(true));
  }

  /** The corrected move keeps identifiers unique. */
  lemma CorrectedMoveKeepsUnique(ws: seq<Workout>, id: int, dir: Direction,
                                 first: FetchStatus, second: FetchStatus)
    requires UniqueIds(ws)
    ensures UniqueIds(HandleSortOrderChangeCorrected(ws, id, dir, first, second))
  {
    var r := HandleSortOrderChangeCorrected(ws, id, dir, first, second);
    var p := PlanReorder(ws, id, dir);
    if p.Exchange? && BothSettled(first, second) {
      var sw := SwapAt(Ids(ws), p.current, p.neighbour);
      assert forall k :: 0 <= k < |ws| ==> r[k].id == sw[k];
      forall i, j | 0 <= i < j < |r| ensures r[i].id != r[j].id {
        var i' := if i == p.current then p.neighbour else if i == p.neighbour then p.current else i;
        var j' := if j == p.current then p.neighbour else if j == p.neighbour then p.current else j;
        assert r[i].id == ws[i'].id && r[j].id == ws[j'].id;
      }
    }
  }

  /** The server's view of sortOrder: identifier to stored value, `None` for a null column. */
  type SortOrderStore = map<int, Option<int>>

  /** A PUT whose body carries only a sortOrder: the item route hands the body's fields to
      a keyed update, so that row's stored value becomes the one sent, `null` included;
      the other rows keep theirs; an identifier the table lacks makes the update fail and
      nothing changes. */
  function ApplyPut(store: SortOrderStore, put: SortOrderPut): (r: SortOrderStore)
    ensures r.Keys == store.Keys
    ensures forall i :: i in store && i != put.id ==> r[i] == store[i]
    ensures put.id in store ==> r[put.id] == put.sortOrder
    ensures put.id !in store ==> r == store
  {
    if put.id in store then store[put.id := put.sortOrder] else store
  }

  /** Every local row carries exactly the sortOrder the server stores for it. */
  ghost predicate AgreesWith(ws: seq<Workout>, store: SortOrderStore) {
    forall i :: 0 <= i < |ws| ==> ws[i].id in store && ws[i].sortOrder == store[ws[i].id]
  }

  /** When the item route rejects both PUTs, the store keeps its values, and the move as
      written, which swaps rows that each keep their own sortOrder, still agrees with it. */
  lemma RejectedPutsKeepAgreement(ws: seq<Workout>, store: SortOrderStore, id: int, dir: Direction)
    requires AgreesWith(ws, store)
    ensures AgreesWith(HandleSortOrderChange(ws, id, dir, Responded(false), Responded(false)), store)
  {
    var r := HandleSortOrderChange(ws, id, dir, Responded(false), Responded(false));
    var p := PlanReorder(ws, id, dir);
    if p.Exchange? {
      forall k | 0 <= k < |r| ensures r[k].id in store && r[k].sortOrder == store[r[k].id] {
        var k' := if k == p.current then p.neighbour else if k == p.neighbour then p.current else k;
        assert r[k] == ws[k'];
      }
    }
  }

  /** The store after both PUTs of a plan were applied. */
  function ApplyPlan(store: SortOrderStore, p: ReorderPlan): SortOrderStore {
    match p
    case NoMove => store
    case Exchange(_, _, movedPut, neighbourPut) => ApplyPut(ApplyPut(store, movedPut), neighbourPut)
  }

  /** When both PUTs succeed, the corrected move leaves the page agreeing with the server. */
  lemma CorrectedMoveKeepsAgreement(ws: seq<Workout>, store: SortOrderStore, id: int, dir: Direction)
    requires UniqueIds(ws)
    requires AgreesWith(ws, store)
    ensures AgreesWith(HandleSortOrderChangeCorrected(ws, id, dir, Responded(true), Responded(true)),
                       ApplyPlan(store, PlanReorder(ws, id, dir)))
  {
    var p := PlanReorder(ws, id, dir);
    var r := HandleSortOrderChangeCorrected(ws, id, dir, Responded(true), Responded(true));
    var s' := ApplyPlan(store, p);
    if p.Exchange? {
      var c, n := p.current, p.neighbour;
      assert ws[c].id == id;
      assert c != n;
      assert ws[c].id != ws[n].id;
      forall k | 0 <= k < |r| ensures r[k].id in s' && r[k].sortOrder == s'[r[k].id] {
        if k == c {
          assert r[k].id == ws[n].id;
        } else if k == n {
          assert r[k].id == ws[c].id;
        } else {
          assert r[k] == ws[k];
          assert ws[k].id != ws[c].id && ws[k].id != ws[n].id;
        }
      }
    }
  }

  /** With the page written as it is, a completed exchange of two rows with different
      sortOrder values leaves the page disagreeing with the server. */
  lemma AsWrittenMoveBreaksAgreement(ws: seq<Workout>, store: SortOrderStore, id: int, dir: Direction)
    requires UniqueIds(ws)
    requires AgreesWith(ws, store)
    requires PlanReorder(ws, id, dir).Exchange?
    requires ws[PlanReorder(ws, id, dir).current].sortOrder != ws[PlanReorder(ws, id, dir).neighbour].sortOrder
    ensures !AgreesWith(HandleSortOrderChange(ws, id, dir, Responded(true), Responded(true)),
                        ApplyPlan(store, PlanReorder(ws, id, dir)))
  {
    var p := PlanReorder(ws, id, dir);
    var r := HandleSortOrderChange(ws, id, dir, Responded(true), Responded(true));
    var s' := ApplyPlan(store, p);
    var c, n := p.current, p.neighbour;
    assert ws[c].id != ws[n].id;
    assert r[c] == ws[n];
    assert s'[ws[n].id] == store[ws[c].id];
    assert r[c].sortOrder != s'[r[c].id];
  }

  /** Neither version of a move changes the sortOrder proposed for the next new row. */
  lemma MoveKeepsNextSortOrder(ws: seq<Workout>, id: int, dir: Direction,
                               first: FetchStatus, second: FetchStatus)
    ensures Ordering.NextSortOrder(HandleSortOrderChange(ws, id, dir, first, second))
            == Ordering.NextSortOrder(ws)
    ensures Ordering.NextSortOrder(HandleSortOrderChangeCorrected(ws, id, dir, first, second))
            == Ordering.NextSortOrder(ws)
  {
    Ordering.NextSortOrderIgnoresOrder(HandleSortOrderChange(ws, id, dir, first, second), ws);
    var r := HandleSortOrderChangeCorrected(ws, id, dir, first, second);
    assert forall k :: 0 <= k < |ws| ==> SortKey(r[k]) == SortKey(ws[k]);
    Ordering.NextSortOrderFollowsKeys(r, ws);
  }

  /** Two rows A (sortOrder 0) and B (sortOrder 1): moving B up sends A the value 1 and B
      the value 0, and once both are stored the server holds them in the new order. */
  lemma TwoRowMoveUp()
    ensures var ws := [Workout(1, "A", "L", "https://a", "S", "E", Some(0)),
                       Workout(2, "B", "L", "https://b", "S", "E", Some(1))];
            var p := PlanReorder(ws, 2, Up);
            && p == Exchange(1, 0, SortOrderPut(2, Some(0)), SortOrderPut(1, Some(1)))
            && ApplyPlan(map[1 := Some(0), 2 := Some(1)], p) == map[1 := Some(1), 2 := Some(0)]
            && HandleSortOrderChange(ws, 2, Up, Responded(true), Responded(true)) == [ws[1], ws[0]]
  {
    var ws := [Workout(1, "A", "L", "https://a", "S", "E", Some(0)),
               Workout(2, "B", "L", "https://b", "S", "E", Some(1))];
    assert FindIndex(ws, 2) == Some(1);
  }

  /** Three rows A, B, C with identifiers 1, 2, 3 and sortOrder 0, 1, 2, as the server stores them. */
  function SampleRows(): seq<Workout> {
    [Workout(1, "A", "L", "https://a", "S", "E", Some(0)),
     Workout(2, "B", "L", "https://b", "S", "E", Some(1)),
     Workout(3, "C", "L", "https://c", "S", "E", Some(2))]
  }

  const SampleStore: SortOrderStore := map[1 := Some(0), 2 := Some(1), 3 := Some(2)]

  /** A, C, B, each row still carrying its original sortOrder. */
  function SampleAsWrittenAfterOneMove(): seq<Workout> {
    [SampleRows()[0], SampleRows()[2], SampleRows()[1]]
  }

  /** A, C, B, with C carrying 1 and B carrying 2. */
  function SampleCorrectedAfterOneMove(): seq<Workout> {
    [SampleRows()[0], SampleRows()[2].(sortOrder := Some(1)), SampleRows()[1].(sortOrder := Some(2))]
  }

  /** The store after the first move's two PUTs: B holds 2 and C holds 1. */
  lemma SampleStoreAfterFirstMove()
    ensures ApplyPlan(SampleStore, Exchange(2, 1, SortOrderPut(3, Some(1)), SortOrderPut(2, Some(2))))
            == map[1 := Some(0), 2 := Some(2), 3 := Some(1)]
  {
    var half := ApplyPut(SampleStore, SortOrderPut(3, Some(1)));
    assert half == map[1 := Some(0), 2 := Some(1), 3 := Some(1)];
  }

  /** The store after the second move's two PUTs, when A is sent `a`: C holds 0 and A holds `a`. */
  lemma SampleStoreAfterSecondMove(a: int)
    ensures ApplyPlan(map[1 := Some(0), 2 := Some(2), 3 := Some(1)],
                      Exchange(1, 0, SortOrderPut(3, Some(0)), SortOrderPut(1, Some(a))))
            == map[1 := Some(a), 2 := Some(2), 3 := Some(0)]
  {
    var half := ApplyPut(map[1 := Some(0), 2 := Some(2), 3 := Some(1)], SortOrderPut(3, Some(0)));
    assert half == map[1 := Some(0), 2 := Some(2), 3 := Some(0)];
  }

  /** The first move of C up: C is sent 1 and B is sent 2. */
  lemma SampleFirstPlan()
    ensures PlanReorder(SampleRows(), 3, Up) == Exchange(2, 1, SortOrderPut(3, Some(1)), SortOrderPut(2, Some(2)))
  {
    assert FindIndex(SampleRows(), 3) == Some(2);
  }

  /** After the first move as written the page shows A, C, B with their old sortOrder fields. */
  lemma SampleFirstMoveAsWritten()
    ensures HandleSortOrderChange(SampleRows(), 3, Up, Responded(true), Responded(true))
            == SampleAsWrittenAfterOneMove()
  {
    SampleFirstPlan();
  }

  /** The second move of C up, from A, C, B as written: C is sent A's 0 and A is sent C's stale 2. */
  lemma SampleSecondPlanAsWritten()
    ensures PlanReorder(SampleAsWrittenAfterOneMove(), 3, Up)
            == Exchange(1, 0, SortOrderPut(3, Some(0)), SortOrderPut(1, Some(2)))
  {
    var ws1 := SampleAsWrittenAfterOneMove();
    assert FindIndex(ws1, 3) == Some(1);
  }

  /** Moving C up twice with the page as written: the second move sends C's stale value 2
      to A, so A and B both end up stored with sortOrder 2. */
  lemma StaleSortOrderCounterexample()
    ensures var ws1 := HandleSortOrderChange(SampleRows(), 3, Up, Responded(true), Responded(true));
            var store1 := ApplyPlan(SampleStore, PlanReorder(SampleRows(), 3, Up));
            var store2 := ApplyPlan(store1, PlanReorder(ws1, 3, Up));
            store2[1] == store2[2] == Some(2) && store2[3] == Some(0)
  {
    SampleFirstPlan();
    SampleFirstMoveAsWritten();
    SampleSecondPlanAsWritten();
    SampleStoreAfterFirstMove();
    SampleStoreAfterSecondMove(2);
  }

  /** The same two moves with the corrected handler leave three distinct values, in the
      order the page shows: C, A, B. */
  lemma CorrectedSampleKeepsDistinct()
    ensures var ws1 := HandleSortOrderChangeCorrected(SampleRows(), 3, Up, Responded(true), Responded(true));
            var store1 := ApplyPlan(SampleStore, PlanReorder(SampleRows(), 3, Up));
            var store2 := ApplyPlan(store1, PlanReorder(ws1, 3, Up));
            store2[3] == Some(0) && store2[1] == Some(1) && store2[2] == Some(2)
  {
    SampleFirstPlan();
    SampleFirstMoveCorrected();
    SampleSecondPlanCorrected();
    SampleStoreAfterFirstMove();
    SampleStoreAfterSecondMove(1);
  }

  /** After the first corrected move the page shows A, C, B with C holding 1 and B holding 2. */
  lemma SampleFirstMoveCorrected()
    ensures HandleSortOrderChangeCorrected(SampleRows(), 3, Up, Responded(true), Responded(true))
            == SampleCorrectedAfterOneMove()
  {
    SampleFirstPlan();
  }

  /** The second corrected move of C up: C is sent A's 0 and A is sent C's current 1. */
  lemma SampleSecondPlanCorrected()
    ensures PlanReorder(SampleCorrectedAfterOneMove(), 3, Up)
            == Exchange(1, 0, SortOrderPut(3, Some(0)), SortOrderPut(1, Some(1)))
  {
    var ws1 := SampleCorrectedAfterOneMove();
    assert FindIndex(ws1, 3) == Some(1);
  }
}

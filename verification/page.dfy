/** The admin page's state and the transition each handler applies to it, with every
    network call reduced to the outcome that decides whether the state changes. */
module Page {
  import opened Wrappers
  import opened Workouts
  import Ordering
  import ListOps
  import Reorder
  import Validation

  /** The page's React state: the list, the loading flag, the row being edited with its
      draft and error flags, and the creation form with its error flags. */
  datatype PageState = PageState(
    workouts: seq<Workout>,
    loading: bool,
    editingId: Option<int>,
    draft: Form,
    draftErrors: ErrorFlags,
    newWorkout: Form,
    errors: ErrorFlags)

  /** The state before the first fetch completes. */
  const Initial: PageState :=
    PageState([], true, None, map[], map[], InitialNewWorkout, map[])

  /** The fetch on mount: on success the list is the response sorted by `sortOrder ?? 0`;
      success or failure, loading ends. */
  function Loaded(s: PageState, outcome: Response<seq<Workout>>): (r: PageState)
    ensures !r.loading
    ensures outcome.Ok? ==> SortedByKey(r.workouts) && multiset(r.workouts) == multiset(outcome.body)
    ensures outcome.Failed? ==> r == s.(loading := false)
    ensures r.(workouts := s.workouts, loading := s.loading) == s
  {
    match outcome
    case Ok(data) => s.(workouts := Ordering.SortByKey(data), loading := false)
    case Failed => s.(loading := false)
  }

  /** Typing into the creation form. */
  function NewWorkoutChange(s: PageState, field: string, value: string): (r: PageState)
    ensures r.newWorkout.Keys == s.newWorkout.Keys + {field} && r.newWorkout[field] == JStr(value)
    ensures forall key :: key in s.newWorkout && key != field ==> r.newWorkout[key] == s.newWorkout[key]
    ensures !Validation.Flagged(r.errors, field)
    ensures forall key :: key != field ==> Validation.Flagged(r.errors, key) == Validation.Flagged(s.errors, key)
    ensures r.(newWorkout := s.newWorkout, errors := s.errors) == s
  {
    var (f, e) := Validation.Change(s.newWorkout, s.errors, field, value);
    s.(newWorkout := f, errors := e)
  }

  /** Typing into the row being edited. */
  function EditChange(s: PageState, field: string, value: string): (r: PageState)
    ensures r.draft.Keys == s.draft.Keys + {field} && r.draft[field] == JStr(value)
    ensures forall key :: key in s.draft && key != field ==> r.draft[key] == s.draft[key]
    ensures !Validation.Flagged(r.draftErrors, field)
    ensures forall key :: key != field ==> Validation.Flagged(r.draftErrors, key) == Validation.Flagged(s.draftErrors, key)
    ensures r.(draft := s.draft, draftErrors := s.draftErrors) == s
  {
    var (f, e) := Validation.Change(s.draft, s.draftErrors, field, value);
    s.(draft := f, draftErrors := e)
  }

  /** Which error setter a blur event was given. */
  datatype FormKind = CreateForm | EditForm

  /** Leaving a field: its flag in the chosen form becomes `!isFieldValid(field, value)`;
      every other flag of that form, and everything else, stays as it was. */
  function FieldBlur(s: PageState, kind: FormKind, field: string, value: string,
                     parses: string -> bool): (r: PageState)
    ensures kind == CreateForm ==>
      && (Validation.Flagged(r.errors, field) <==> !Validation.IsFieldValid(field, value, parses))
      && (forall key :: key != field ==> Validation.Flagged(r.errors, key) == Validation.Flagged(s.errors, key))
      && r.(errors := s.errors) == s
    ensures kind == EditForm ==>
      && (Validation.Flagged(r.draftErrors, field) <==> !Validation.IsFieldValid(field, value, parses))
      && (forall key :: key != field ==> Validation.Flagged(r.draftErrors, key) == Validation.Flagged(s.draftErrors, key))
      && r.(draftErrors := s.draftErrors) == s
  {
    match kind
    case CreateForm => s.(errors := Validation.Blur(s.errors, field, value, parses))
    case EditForm => s.(draftErrors := Validation.Blur(s.draftErrors, field, value, parses))
  }

  /** Starting to edit a row: its identifier is recorded, the draft is a copy of every
      property the row has, and the draft's flags are cleared. */
  function EditClick(s: PageState, w: Workout): (r: PageState)
    ensures r.editingId == Some(w.id) && r.draftErrors == map[]
    ensures r.draft.Keys == {"id", "sortOrder"} + TextFields
    ensures r.draft["id"] == JNum(w.id)
    ensures r.draft["name"] == JStr(w.name) && r.draft["location"] == JStr(w.location)
    ensures r.draft["mapsUrl"] == JStr(w.mapsUrl) && r.draft["schedule"] == JStr(w.schedule)
    ensures r.draft["eventType"] == JStr(w.eventType)
    ensures w.sortOrder.Some? ==> r.draft["sortOrder"] == JNum(w.sortOrder.value)
    ensures w.sortOrder.None? ==> r.draft["sortOrder"] == JNull
    ensures r.(editingId := s.editingId, draft := s.draft, draftErrors := s.draftErrors) == s
  {
    s.(editingId := Some(w.id), draft := FormOf(w), draftErrors := map[])
  }

  /** Abandoning an edit: no row is being edited and the draft and its flags are empty. */
  function CancelEdit(s: PageState): (r: PageState)
    ensures r.editingId.None? && r.draft == map[] && r.draftErrors == map[]
    ensures r.(editingId := s.editingId, draft := s.draft, draftErrors := s.draftErrors) == s
  {
    s.(editingId := None, draft := map[], draftErrors := map[])
  }

  /** Deleting a row: on success every row with that identifier is gone and the rest are
      kept; on failure nothing changes. */
  function Delete(s: PageState, id: int, outcome: Response<()>): (r: PageState)
    ensures outcome.Failed? ==> r == s
    ensures outcome.Ok? ==> !HasId(r.workouts, id)
    ensures outcome.Ok? ==> forall w :: multiset(r.workouts)[w] == if w.id == id then 0 else multiset(s.workouts)[w]
    ensures r.(workouts := s.workouts) == s
  {
    match outcome
    case Ok(_) => s.(workouts := ListOps.RemoveId(s.workouts, id))
    case Failed => s
  }

  /** Saving the edited row: on success the rows with the editing identifier become the
      row the server returned, the edit ends and the draft empties, while the draft's error
      flags are left as they were; on failure nothing changes. */
  function SaveEdit(s: PageState, outcome: Response<Workout>): (r: PageState)
    ensures outcome.Failed? ==> r == s
    ensures outcome.Ok? ==>
      && |r.workouts| == |s.workouts|
      && (forall i :: 0 <= i < |s.workouts| && s.editingId == Some(s.workouts[i].id) ==> r.workouts[i] == outcome.body)
      && (forall i :: 0 <= i < |s.workouts| && s.editingId != Some(s.workouts[i].id) ==> r.workouts[i] == s.workouts[i])
      && r.editingId.None? && r.draft == map[]
    ensures r.(workouts := s.workouts, editingId := s.editingId, draft := s.draft) == s
  {
    match outcome
    case Ok(updated) =>
      s.(workouts := ListOps.ReplaceId(s.workouts, s.editingId, updated), editingId := None, draft := map[])
    case Failed => s
  }

  /** The body of the POST that creates a row: the creation form with the proposed
      sortOrder, larger than every key in the list. */
  function CreateBody(s: PageState): (body: Form)
    ensures "sortOrder" in body && body["sortOrder"].JNum?
    ensures forall i :: 0 <= i < |s.workouts| ==> SortKey(s.workouts[i]) < body["sortOrder"].num
    ensures |s.workouts| == 0 ==> body["sortOrder"] == JNum(0)
    ensures forall key :: key in s.newWorkout && key != "sortOrder" ==> key in body && body[key] == s.newWorkout[key]
    ensures body.Keys == s.newWorkout.Keys + {"sortOrder"}
  {
    s.newWorkout["sortOrder" := JNum(Ordering.NextSortOrder(s.workouts))]
  }

  /** Creating a row: on success the row the server returned is appended and the creation
      form is reset to five empty fields; on failure nothing changes. */
  function Create(s: PageState, outcome: Response<Workout>): (r: PageState)
    ensures outcome.Failed? ==> r == s
    ensures outcome.Ok? ==>
      && |r.workouts| == |s.workouts| + 1
      && r.workouts[..|s.workouts|] == s.workouts
      && r.workouts[|s.workouts|] == outcome.body
      && r.newWorkout == ResetNewWorkout
    ensures r.(workouts := s.workouts, newWorkout := s.newWorkout) == s
  {
    match outcome
    case Ok(created) => s.(workouts := s.workouts + [created], newWorkout := ResetNewWorkout)
    case Failed => s
  }

  /** Moving a row, with the local sortOrder values exchanged along with the positions:
      the same rows remain, each position keeps its sortOrder, and only the list changes. */
  function Move(s: PageState, id: int, dir: Reorder.Direction,
                first: FetchStatus, second: FetchStatus): (r: PageState)
    ensures multiset(Ids(r.workouts)) == multiset(Ids(s.workouts))
    ensures |r.workouts| == |s.workouts|
    ensures forall k :: 0 <= k < |s.workouts| ==> r.workouts[k].sortOrder == s.workouts[k].sortOrder
    ensures r.(workouts := s.workouts) == s
  {
    var ws := Reorder.HandleSortOrderChangeCorrected(s.workouts, id, dir, first, second);
    MoveIdsPermuted(s.workouts, id, dir, first, second);
    s.(workouts := ws)
  }

  /** The corrected move exchanges identifiers between two positions and nothing more. */
  lemma MoveIdsPermuted(ws: seq<Workout>, id: int, dir: Reorder.Direction,
                        first: FetchStatus, second: FetchStatus)
    ensures var r := Reorder.HandleSortOrderChangeCorrected(ws, id, dir, first, second);
            multiset(Ids(r)) == multiset(Ids(ws))
  {
    var r := Reorder.HandleSortOrderChangeCorrected(ws, id, dir, first, second);
    var p := Reorder.PlanReorder(ws, id, dir);
    if p.Exchange? && Reorder.BothSettled(first, second) {
      assert Ids(r) == Reorder.SwapAt(Ids(ws), p.current, p.neighbour);
    } else {
      assert r == ws;
    }
  }

  /** Create enabled: the corrected gate applied to the creation form. */
  predicate CanCreate(s: PageState, parses: string -> bool) {
    Validation.IsValidFormCorrected(s.newWorkout, s.errors, parses)
  }

  /** Save enabled: the corrected gate applied to the draft. */
  predicate CanSave(s: PageState, parses: string -> bool) {
    Validation.IsValidFormCorrected(s.draft, s.draftErrors, parses)
  }

  /** The page starts with Create disabled: the creation form's fields are empty. */
  lemma InitialCannotCreate(parses: string -> bool)
    ensures !CanCreate(Initial, parses)
  {
    assert "name" in Initial.newWorkout && Initial.newWorkout["name"] == JStr("");
  }

  /** Clicking Edit on a row whose five text fields are valid enables Save under the
      corrected gate, while the gate as written stays closed on the same draft. */
  lemma EditClickGate(s: PageState, w: Workout, parses: string -> bool)
    requires w.name != "" && w.location != "" && w.schedule != "" && w.eventType != ""
    requires Validation.IsFieldValid("mapsUrl", w.mapsUrl, parses)
    ensures CanSave(EditClick(s, w), parses)
    ensures !Validation.IsValidForm(EditClick(s, w).draft, EditClick(s, w).draftErrors, parses)
  {
    Validation.CorrectedGateAcceptsValidRow(w, parses);
    Validation.EditDraftAlwaysRejected(w, map[], parses);
  }

  /** Everything that can happen to the page. */
  datatype Event =
    | FetchDone(list: Response<seq<Workout>>)
    | NewWorkoutTyped(field: string, value: string)
    | EditTyped(field: string, value: string)
    | Blurred(kind: FormKind, field: string, value: string)
    | EditClicked(row: Workout)
    | EditCancelled
    | DeleteDone(id: int, deleted: Response<()>)
    | SaveDone(saved: Response<Workout>)
    | CreateDone(created: Response<Workout>)
    | MoveDone(id: int, dir: Reorder.Direction, first: FetchStatus, second: FetchStatus)

  /** The page after one event. Only a completed fetch touches the loading flag; typing,
      blurring, Edit and Cancel leave the list alone; fetch, delete and move leave both
      forms alone. */
  function Step(s: PageState, e: Event, parses: string -> bool): (r: PageState)
    ensures e.FetchDone? ==> !r.loading
    ensures !e.FetchDone? ==> r.loading == s.loading
    ensures e.NewWorkoutTyped? || e.EditTyped? || e.Blurred? || e.EditClicked? || e.EditCancelled? ==>
              r.workouts == s.workouts
    ensures e.FetchDone? || e.DeleteDone? || e.MoveDone? ==>
              r.(workouts := s.workouts, loading := s.loading) == s
    ensures e.MoveDone? ==> multiset(Ids(r.workouts)) == multiset(Ids(s.workouts))
  {
    match e
    case FetchDone(list) => Loaded(s, list)
    case NewWorkoutTyped(field, value) => NewWorkoutChange(s, field, value)
    case EditTyped(field, value) => EditChange(s, field, value)
    case Blurred(kind, field, value) => FieldBlur(s, kind, field, value, parses)
    case EditClicked(row) => EditClick(s, row)
    case EditCancelled => CancelEdit(s)
    case DeleteDone(id, deleted) => Delete(s, id, deleted)
    case SaveDone(saved) => SaveEdit(s, saved)
    case CreateDone(created) => Create(s, created)
    case MoveDone(id, dir, first, second) => Move(s, id, dir, first, second)
  }

  /** What the server is trusted to return: a fetched list with unique identifiers, a
      created row under a fresh identifier, a saved row under the identifier being edited. */
  ghost predicate ServerConsistent(s: PageState, e: Event) {
    match e
    case FetchDone(list) => list.Ok? ==> UniqueIds(list.body)
    case CreateDone(created) => created.Ok? ==> !HasId(s.workouts, created.body.id)
    case SaveDone(saved) => saved.Ok? && s.editingId.Some? ==> saved.body.id == s.editingId.value
    case _ => true
  }

  /** In a list with unique identifiers every row occurs once. */
  lemma UniqueRowOccursOnce(a: seq<Workout>, p: nat)
    requires UniqueIds(a) && p < |a|
    ensures multiset(a)[a[p]] == 1
  {
    assert a == a[..p] + [a[p]] + a[p + 1..];
    assert a[p] !in a[..p];
    assert a[p] !in a[p + 1..];
  }

  /** A row found at two positions occurs at least twice. */
  lemma RepeatedRowCountsTwice(b: seq<Workout>, i: nat, j: nat)
    requires i < j < |b| && b[i] == b[j]
    ensures multiset(b)[b[i]] >= 2
  {
    assert b == b[..i] + [b[i]] + b[i + 1..j] + [b[j]] + b[j + 1..];
  }

  /** Reordering the rows of a list with unique identifiers keeps them unique. */
  lemma PermutationKeepsUnique(a: seq<Workout>, b: seq<Workout>)
    requires UniqueIds(a)
    requires multiset(a) == multiset(b)
    ensures UniqueIds(b)
  {
    forall i, j | 0 <= i < j < |b| ensures b[i].id != b[j].id {
      if b[i].id == b[j].id {
        assert b[i] in multiset(a) && b[j] in multiset(a);
        var p :| 0 <= p < |a| && a[p] == b[i];
        var q :| 0 <= q < |a| && a[q] == b[j];
        assert p == q;
        RepeatedRowCountsTwice(b, i, j);
        UniqueRowOccursOnce(a, p);
      }
    }
  }

  /** Appending a row under a fresh identifier keeps identifiers unique. */
  lemma AppendKeepsUnique(ws: seq<Workout>, w: Workout)
    requires UniqueIds(ws)
    requires !HasId(ws, w.id)
    ensures UniqueIds(ws + [w])
  {
    var r := ws + [w];
    forall i, j | 0 <= i < j < |r| ensures r[i].id != r[j].id {
      assert r[i] == ws[i];
      if j < |ws| {
        assert r[j] == ws[j];
      }
    }
  }

  /** Appending a row whose key is at least every key keeps a sorted list sorted. */
  lemma AppendKeepsSorted(ws: seq<Workout>, w: Workout)
    requires SortedByKey(ws)
    requires forall i :: 0 <= i < |ws| ==> SortKey(ws[i]) <= SortKey(w)
    ensures SortedByKey(ws + [w])
  {
    var r := ws + [w];
    assert forall i :: 0 <= i < |ws| ==> r[i] == ws[i];
  }

  /** Identifiers stay unique through every event, given a consistent server. */
  lemma StepKeepsUniqueIds(s: PageState, e: Event, parses: string -> bool)
    requires UniqueIds(s.workouts)
    requires ServerConsistent(s, e)
    ensures UniqueIds(Step(s, e, parses).workouts)
  {
    match e
    case FetchDone(list) =>
      if list.Ok? {
        PermutationKeepsUnique(list.body, Ordering.SortByKey(list.body));
      }
    case DeleteDone(id, deleted) =>
      ListOps.RemoveIdKeepsUnique(s.workouts, id);
    case SaveDone(saved) =>
      if saved.Ok? {
        ListOps.ReplaceIdKeepsUnique(s.workouts, s.editingId, saved.body);
      }
    case CreateDone(created) =>
      if created.Ok? {
        AppendKeepsUnique(s.workouts, created.body);
      }
    case MoveDone(id, dir, first, second) =>
      Reorder.CorrectedMoveKeepsUnique(s.workouts, id, dir, first, second);
    case _ =>
  }

  /** The rows stay in sort-key order through every event except a successful save, which
      brings in whatever row the server returned; a created row keeps the order when its
      key is at least every key already listed. A move keeps the order because `Step` uses
      the corrected move; the move as written does not (`Reorder.AsWrittenMoveBreaksOrder`). */
  lemma StepKeepsSorted(s: PageState, e: Event, parses: string -> bool)
    requires SortedByKey(s.workouts)
    requires e.SaveDone? ==> e.saved.Failed?
    requires e.CreateDone? && e.created.Ok? ==>
               forall i :: 0 <= i < |s.workouts| ==> SortKey(s.workouts[i]) <= SortKey(e.created.body)
    ensures SortedByKey(Step(s, e, parses).workouts)
  {
    match e
    case DeleteDone(id, deleted) =>
      ListOps.RemoveIdKeepsSorted(s.workouts, id);
    case CreateDone(created) =>
      if created.Ok? {
        AppendKeepsSorted(s.workouts, created.body);
      }
    case MoveDone(id, dir, first, second) =>
      Reorder.CorrectedMoveKeepsSorted(s.workouts, id, dir, first, second);
    case _ =>
  }

  /** Clicking Edit and then Cancel returns an idle edit state to exactly where it was. */
  lemma EditThenCancelIsIdle(s: PageState, w: Workout)
    requires s.editingId.None? && s.draft == map[] && s.draftErrors == map[]
    ensures CancelEdit(EditClick(s, w)) == s
  {
  }
}

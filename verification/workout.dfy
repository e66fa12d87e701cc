/** The one entity of the admin page, the workout row, and the loosely typed objects
    (drafts and error flags) the page keeps beside the list. */
module Workouts {
  import opened Wrappers

  /** A workout as the page holds it. The server assigns `id`; `sortOrder` is optional in
      the page's own type, which is why every use of it goes through `SortKey`. */
  datatype Workout = Workout(
    id: int,
    name: string,
    location: string,
    mapsUrl: string,
    schedule: string,
    eventType: string,
    sortOrder: Option<int>)

  /** The key the page orders and numbers rows by: `sortOrder ?? 0`. */
  function SortKey(w: Workout): int {
    w.sortOrder.GetOr(0)
  }

  /** True iff some row of `ws` carries identifier `id`. */
  predicate HasId(ws: seq<Workout>, id: int) {
    exists i :: 0 <= i < |ws| && ws[i].id == id
  }

  /** The identifiers of a list, in order. */
  function Ids(ws: seq<Workout>): seq<int> {
    seq(|ws|, i requires 0 <= i < |ws| => ws[i].id)
  }

  /** Identifiers are unique within the list (the server assigns them). */
  ghost predicate UniqueIds(ws: seq<Workout>) {
    forall i, j :: 0 <= i < j < |ws| ==> ws[i].id != ws[j].id
  }

  /** Rows appear in non-decreasing order of their sort key. */
  ghost predicate SortedByKey(ws: seq<Workout>) {
    forall i, j :: 0 <= i < j < |ws| ==> SortKey(ws[i]) <= SortKey(ws[j])
  }

  /** The identifiers of a list with a row in front: that row's and the rest's. */
  lemma HasIdCons(x: Workout, t: seq<Workout>, id: int)
    ensures HasId([x] + t, id) <==> x.id == id || HasId(t, id)
  {
    var r := [x] + t;
    assert r[0] == x;
    if HasId(t, id) {
      var k :| 0 <= k < |t| && t[k].id == id;
      assert r[k + 1] == t[k];
    }
    if HasId(r, id) && x.id != id {
      var k :| 0 <= k < |r| && r[k].id == id;
      assert t[k - 1] == r[k];
    }
  }

  /** A row placed in front of a sorted list whose first key is not smaller keeps it sorted. */
  lemma ConsSorted(x: Workout, t: seq<Workout>)
    requires SortedByKey(t)
    requires |t| > 0 ==> SortKey(x) <= SortKey(t[0])
    ensures SortedByKey([x] + t)
  {
    var r := [x] + t;
    forall i, j | 0 <= i < j < |r| ensures SortKey(r[i]) <= SortKey(r[j]) {
      assert r[j] == t[j - 1];
      if i > 0 {
        assert r[i] == t[i - 1];
      } else {
        assert SortKey(t[0]) <= SortKey(t[j - 1]);
      }
    }
  }

  /** A row placed in front of a list that lacks its identifier keeps identifiers unique. */
  lemma ConsUnique(x: Workout, t: seq<Workout>)
    requires UniqueIds(t)
    requires !HasId(t, x.id)
    ensures UniqueIds([x] + t)
  {
    var r := [x] + t;
    forall i, j | 0 <= i < j < |r| ensures r[i].id != r[j].id {
      assert r[j] == t[j - 1];
      if i > 0 {
        assert r[i] == t[i - 1];
      }
    }
  }

  /** Dropping the first row keeps a list sorted and its identifiers unique. */
  lemma TailProperties(ws: seq<Workout>)
    requires |ws| > 0
    ensures SortedByKey(ws) ==> SortedByKey(ws[1..])
    ensures UniqueIds(ws) ==> UniqueIds(ws[1..])
    ensures UniqueIds(ws) ==> !HasId(ws[1..], ws[0].id)
  {
    assert forall i :: 0 <= i < |ws[1..]| ==> ws[1..][i] == ws[i + 1];
  }

  /** The property values a draft object can hold: the five text fields are strings, `id`
      is a number, and `sortOrder` is a number or, for a row the server stored without
      one, `null`. */
  datatype Json = JStr(str: string) | JNum(num: int) | JNull

  /** A JavaScript object used as a form draft: property name to value. */
  type Form = map<string, Json>

  /** A `Record<string, boolean>` of per-field error flags. */
  type ErrorFlags = map<string, bool>

  /** The five editable text fields, as property names. */
  const TextFields: set<string> := {"name", "location", "mapsUrl", "schedule", "eventType"}

  /** The draft form the page starts with: five empty text fields and `sortOrder: 0`. */
  const InitialNewWorkout: Form :=
    map["name" := JStr(""), "location" := JStr(""), "mapsUrl" := JStr(""),
        "schedule" := JStr(""), "eventType" := JStr(""), "sortOrder" := JNum(0)]

  /** The draft form after a successful create: five empty text fields, no `sortOrder`. */
  const ResetNewWorkout: Form :=
    map["name" := JStr(""), "location" := JStr(""), "mapsUrl" := JStr(""),
        "schedule" := JStr(""), "eventType" := JStr("")]

  /** The object `w` seen as a form: every property it has, `id` included. A row fetched
      from the server always has a `sortOrder` property, `null` when no value is stored. */
  function FormOf(w: Workout): Form {
    map["id" := JNum(w.id), "name" := JStr(w.name), "location" := JStr(w.location),
        "mapsUrl" := JStr(w.mapsUrl), "schedule" := JStr(w.schedule),
        "eventType" := JStr(w.eventType),
        "sortOrder" := match w.sortOrder case Some(k) => JNum(k) case None => JNull]
  }
}

/** Field validation and the gate that enables the Create and Save buttons. URL parsing
    (`new URL(url)` not throwing) is a parameter `parses`; only the prefix test is concrete. */
module Validation {
  import opened Workouts

  const HttpsPrefix: string := "https"

  /** `new URL(url) && url.startsWith('https')`, with a throwing constructor read as false:
      the URL must parse and its first five characters must be "https". */
  function IsValidUrl(url: string, parses: string -> bool): (b: bool)
    ensures b <==> parses(url) && |url| >= 5 && url[..5] == "https"
  {
    assert HttpsPrefix <= url <==> |url| >= 5 && url[..5] == HttpsPrefix;
    parses(url) && HttpsPrefix <= url
  }

  /** A field is valid when its value is non-empty and, for `mapsUrl`, a valid https URL. */
  function IsFieldValid(field: string, value: string, parses: string -> bool): (b: bool)
    ensures value == "" ==> !b
    ensures value != "" && field != "mapsUrl" ==> b
    ensures field == "mapsUrl" ==> (b <==> parses(value) && |value| >= 5 && value[..5] == "https")
  {
    if value == "" then false
    else if field == "mapsUrl" then IsValidUrl(value, parses)
    else true
  }

  /** `!errorState[key]`: a missing flag reads as `undefined`, which is falsy. */
  predicate Flagged(errors: ErrorFlags, key: string) {
    key in errors && errors[key]
  }

  /** The gate's test of one property other than `sortOrder`. */
  predicate KeyPasses(key: string, value: Json, errors: ErrorFlags, parses: string -> bool) {
    value.JStr? && IsFieldValid(key, value.str, parses) && !Flagged(errors, key)
  }

  /** `isValidForm`: every property passes, except `sortOrder`, which is not examined. The
      gate opens exactly when every other property is a valid string whose error flag is
      down, and closes as soon as one of them is not a string, is invalid or is flagged;
      in particular an open gate has no empty string outside `sortOrder`. */
  function IsValidForm(form: Form, errors: ErrorFlags, parses: string -> bool): (b: bool)
    ensures b <==> forall key :: key in form && key != "sortOrder" ==>
                     form[key].JStr? && IsFieldValid(key, form[key].str, parses) && !Flagged(errors, key)
    ensures b ==> forall key :: key in form && key != "sortOrder" ==> form[key].JStr? && form[key].str != ""
  {
    forall key :: key in form ==> key == "sortOrder" || KeyPasses(key, form[key], errors, parses)
  }

  /** Sample URLs: an https address that parses is accepted; the http address and the
      empty string are rejected whatever the parser says. */
  lemma MapsUrlExamples(parses: string -> bool)
    requires parses("https://example.com/x")
    ensures IsFieldValid("mapsUrl", "https://example.com/x", parses)
    ensures !IsFieldValid("mapsUrl", "http://example.com/x", parses)
    ensures !IsFieldValid("mapsUrl", "", parses)
  {
    assert "https://example.com/x"[..5] == "https";
    assert "http://example.com/x"[4] == ':';
  }

  /** The gate never looks at `sortOrder`: its presence and value make no difference. */
  lemma SortOrderExempt(form: Form, errors: ErrorFlags, parses: string -> bool, v: Json)
    ensures IsValidForm(form["sortOrder" := v], errors, parses) == IsValidForm(form - {"sortOrder"}, errors, parses)
  {
    var with := form["sortOrder" := v];
    var without := form - {"sortOrder"};
    if IsValidForm(without, errors, parses) {
      forall key | key in with ensures key == "sortOrder" || KeyPasses(key, with[key], errors, parses) {
        if key != "sortOrder" {
          assert key in without && with[key] == without[key];
        }
      }
    }
    if IsValidForm(with, errors, parses) {
      forall key | key in without ensures key == "sortOrder" || KeyPasses(key, without[key], errors, parses) {
        assert key in with && with[key] == without[key];
      }
    }
  }

  /** Raising more error flags can only close the gate, never open it. */
  lemma MoreFlagsOnlyClose(form: Form, errors: ErrorFlags, more: ErrorFlags, parses: string -> bool)
    requires forall key :: Flagged(errors, key) ==> Flagged(more, key)
    requires IsValidForm(form, more, parses)
    ensures IsValidForm(form, errors, parses)
  {
    forall key | key in form && key != "sortOrder" ensures KeyPasses(key, form[key], errors, parses) {
      assert KeyPasses(key, form[key], more, parses);
    }
  }

  /** `{ ...prev, [field]: value }` on a draft, and `{ ...prev, [field]: false }` on its flags:
      the field now holds the typed text, its flag is cleared, and nothing else changes. */
  function Change(form: Form, errors: ErrorFlags, field: string, value: string): (r: (Form, ErrorFlags))
    ensures r.0.Keys == form.Keys + {field} && r.0[field] == JStr(value)
    ensures forall key :: key in form && key != field ==> r.0[key] == form[key]
    ensures !Flagged(r.1, field)
    ensures forall key :: key != field ==> Flagged(r.1, key) == Flagged(errors, key)
  {
    (form[field := JStr(value)], errors[field := false])
  }

  /** `{ ...prev, [field]: !isFieldValid(field, value) }`: the field's flag is raised exactly
      when the value is invalid, and no other flag changes. */
  function Blur(errors: ErrorFlags, field: string, value: string, parses: string -> bool): (r: ErrorFlags)
    ensures Flagged(r, field) <==> !IsFieldValid(field, value, parses)
    ensures forall key :: key != field ==> Flagged(r, key) == Flagged(errors, key)
  {
    errors[field := !IsFieldValid(field, value, parses)]
  }

  /** After typing a value and leaving the field, the gate judges that field by its
      validity alone: it passes iff the value is valid. */
  lemma ChangeThenBlurDecidesField(form: Form, errors: ErrorFlags, field: string, value: string,
                                   parses: string -> bool)
    ensures var (f, e) := Change(form, errors, field, value);
            KeyPasses(field, f[field], Blur(e, field, value, parses), parses) <==> IsFieldValid(field, value, parses)
  {
  }

  /** The empty creation form the page starts with keeps Create disabled. */
  lemma InitialCreateFormRejected(errors: ErrorFlags, parses: string -> bool)
    ensures !IsValidForm(InitialNewWorkout, errors, parses)
  {
    assert "name" in InitialNewWorkout && InitialNewWorkout["name"] == JStr("");
  }

  /** The draft an edit starts from is the whole row, numeric `id` included, and the gate
      sees `id` as a non-string property: Save can never be enabled for it. */
  lemma EditDraftAlwaysRejected(w: Workout, errors: ErrorFlags, parses: string -> bool)
    ensures !IsValidForm(FormOf(w), errors, parses)
  {
    var f := FormOf(w);
    assert "id" in f && f["id"] == JNum(w.id);
  }

  /** The gate with `id`, which the user never edits, exempt as well as `sortOrder`. */
  predicate IsValidFormCorrected(form: Form, errors: ErrorFlags, parses: string -> bool) {
    forall key :: key in form ==> key == "sortOrder" || key == "id" || KeyPasses(key, form[key], errors, parses)
  }

  /** The corrected gate opens for a freshly started edit of a row whose five text fields
      are valid, and agrees with `isValidForm` on every form without an `id`. */
  lemma CorrectedGateAcceptsValidRow(w: Workout, parses: string -> bool)
    requires w.name != "" && w.location != "" && w.schedule != "" && w.eventType != ""
    requires IsFieldValid("mapsUrl", w.mapsUrl, parses)
    ensures IsValidFormCorrected(FormOf(w), map[], parses)
    ensures forall form: Form, errors: ErrorFlags :: "id" !in form ==>
              (IsValidFormCorrected(form, errors, parses) <==> IsValidForm(form, errors, parses))
  {
    var f := FormOf(w);
    forall key | key in f ensures key == "sortOrder" || key == "id" || KeyPasses(key, f[key], map[], parses) {
    }
  }
}

/** List editing in the patient form (src/components/patients/PatientForm.tsx)
    and the meal form (src/components/meals/MealForm.tsx): a text input whose
    trimmed, non-blank value is appended to a list, and removal by position.
    `trim` is modelled over ASCII whitespace. */
module Forms {
  import opened Wrappers
  import opened Seqs
  import opened Types

  // ---------------------------------------------------------------------
  // Trimming.
  // ---------------------------------------------------------------------

  /** Space, tab, line feed, vertical tab, form feed, carriage return. */
  predicate IsSpace(c: char) {
    c == ' ' || c == '\t' || c == '\n' || c == '\U{B}' || c == '\U{C}' || c == '\r'
  }

  predicate AllSpace(s: string) {
    forall k :: 0 <= k < |s| ==> IsSpace(s[k])
  }

  /** Drops the leading whitespace. */
  function TrimStart(s: string): (r: string)
    ensures |r| <= |s| && r == s[|s| - |r|..]
    ensures AllSpace(s[..|s| - |r|])
    ensures |r| > 0 ==> !IsSpace(r[0])
    decreases |s|
  {
    if |s| > 0 && IsSpace(s[0]) then
      var r := TrimStart(s[1..]);
      assert s[..|s| - |r|] == [s[0]] + s[1..][..|s[1..]| - |r|];
      r
    else s
  }

  /** Drops the trailing whitespace. */
  function TrimEnd(s: string): (r: string)
    ensures |r| <= |s| && r == s[..|r|]
    ensures AllSpace(s[|r|..])
    ensures |r| > 0 ==> !IsSpace(r[|r| - 1])
    decreases |s|
  {
    if |s| > 0 && IsSpace(s[|s| - 1]) then
      var r := TrimEnd(s[..|s| - 1]);
      assert s[|r|..] == s[..|s| - 1][|r|..] + [s[|s| - 1]];
      r
    else s
  }

  /** `s.trim()`: the text between the leading and the trailing whitespace. */
  function Trim(s: string): (r: string)
    ensures |r| > 0 ==> !IsSpace(r[0]) && !IsSpace(r[|r| - 1])
  {
    TrimEnd(TrimStart(s))
  }

  /** `Trim` cuts `s` into whitespace, the result from position `i` on, and
      whitespace. */
  lemma TrimSplits(s: string) returns (i: nat)
    ensures i + |Trim(s)| <= |s| && s[i..i + |Trim(s)|] == Trim(s)
    ensures AllSpace(s[..i]) && AllSpace(s[i + |Trim(s)|..])
  {
    var t := TrimStart(s);
    var r := TrimEnd(t);
    i := |s| - |t|;
    assert s[i..] == t;
    assert s[i..i + |r|] == t[..|r|];
    assert s[i + |r|..] == t[|r|..];
  }

  /** A trimmed value is blank exactly when the input is all whitespace. */
  lemma TrimBlank(s: string)
    ensures Trim(s) == "" <==> AllSpace(s)
  {
    var t := TrimStart(s);
    if Trim(s) == "" {
      assert s == s[..|s| - |t|] + t;
      assert AllSpace(t) by {
        assert t[0..] == t;
      }
    } else {
      var i := TrimSplits(s);
      assert s[i] == Trim(s)[0];
    }
  }

  // ---------------------------------------------------------------------
  // A list with its text input.
  // ---------------------------------------------------------------------

  /** One list of the form and the text input that feeds it. */
  datatype ListInput = ListInput(entries: seq<string>, input: string)

  /** The add button: a blank input changes nothing; otherwise the trimmed
      input is appended and the input cleared. */
  function AddEntry(l: ListInput): (r: ListInput)
    ensures AllSpace(l.input) ==> r == l
    ensures !AllSpace(l.input) ==>
              |r.entries| == |l.entries| + 1 && r.entries[..|l.entries|] == l.entries
              && r.entries[|l.entries|] == Trim(l.input)
              && r.entries[|l.entries|] != "" && r.input == ""
  {
    TrimBlank(l.input);
    if Trim(l.input) != "" then ListInput(l.entries + [Trim(l.input)], "") else l
  }

  /** The remove button of entry `i`. */
  function RemoveEntry(l: ListInput, i: int): (r: ListInput)
    ensures 0 <= i < |l.entries| ==> |r.entries| == |l.entries| - 1
    ensures 0 <= i < |l.entries| ==> r.entries == l.entries[..i] + l.entries[i + 1..]
    ensures !(0 <= i < |l.entries|) ==> r == l
    ensures r.input == l.input
  {
    l.(entries := RemoveAt(l.entries, i))
  }

  /** Removing the entry just added restores the list. */
  lemma RemoveUndoesAdd(l: ListInput)
    requires !AllSpace(l.input)
    ensures RemoveEntry(AddEntry(l), |l.entries|).entries == l.entries
  {
    var r := AddEntry(l).entries;
    assert r[..|l.entries|] + r[|l.entries| + 1..] == l.entries;
  }

  // ---------------------------------------------------------------------
  // The patient form.
  // ---------------------------------------------------------------------

  /** The blank patient of a new form: empty lists and the default
      requirements of 2000 kcal, 75 g protein, 250 g carbs and 65 g fat. */
  const DefaultPatient := Patient("", "", "", [], [], Macros(2000, 75, 250, 65))

  /** The form's data and the restriction and allergy inputs. */
  datatype PatientFormState = PatientFormState(
    formData: Patient,
    restrictionInput: string,
    allergyInput: string)

  /** A form opened on an existing patient edits it; otherwise the blank
      patient with a fresh id. */
  function OpenPatientForm(patient: Option<Patient>, freshId: Id): (f: PatientFormState)
    ensures patient.Some? ==> f.formData == patient.value
    ensures patient.None? ==>
              f.formData.id == freshId && f.formData.name == "" && f.formData.room == ""
              && f.formData.dietaryRestrictions == [] && f.formData.allergies == []
              && f.formData.nutritionalRequirements == Macros(2000, 75, 250, 65)
    ensures f.restrictionInput == "" && f.allergyInput == ""
  {
    var data := match patient
                case Some(p) => p
                case None => DefaultPatient.(id := freshId);
    PatientFormState(data, "", "")
  }

  function Restrictions(f: PatientFormState): ListInput {
    ListInput(f.formData.dietaryRestrictions, f.restrictionInput)
  }

  function Allergies(f: PatientFormState): ListInput {
    ListInput(f.formData.allergies, f.allergyInput)
  }

  function WithRestrictions(f: PatientFormState, l: ListInput): PatientFormState {
    f.(formData := f.formData.(dietaryRestrictions := l.entries), restrictionInput := l.input)
  }

  function WithAllergies(f: PatientFormState, l: ListInput): PatientFormState {
    f.(formData := f.formData.(allergies := l.entries), allergyInput := l.input)
  }

  /** Only the restrictions and their input change. */
  ghost predicate SameExceptRestrictions(f: PatientFormState, g: PatientFormState) {
    g.formData.(dietaryRestrictions := f.formData.dietaryRestrictions) == f.formData
    && g.allergyInput == f.allergyInput
  }

  /** Only the allergies and their input change. */
  ghost predicate SameExceptAllergies(f: PatientFormState, g: PatientFormState) {
    g.formData.(allergies := f.formData.allergies) == f.formData
    && g.restrictionInput == f.restrictionInput
  }

  function AddDietaryRestriction(f: PatientFormState): (g: PatientFormState)
    ensures Restrictions(g) == AddEntry(Restrictions(f))
    ensures SameExceptRestrictions(f, g)
  {
    WithRestrictions(f, AddEntry(Restrictions(f)))
  }

  function RemoveDietaryRestriction(f: PatientFormState, i: int): (g: PatientFormState)
    ensures Restrictions(g) == RemoveEntry(Restrictions(f), i)
    ensures SameExceptRestrictions(f, g)
  {
    WithRestrictions(f, RemoveEntry(Restrictions(f), i))
  }

  function AddAllergy(f: PatientFormState): (g: PatientFormState)
    ensures Allergies(g) == AddEntry(Allergies(f))
    ensures SameExceptAllergies(f, g)
  {
    WithAllergies(f, AddEntry(Allergies(f)))
  }

  function RemoveAllergy(f: PatientFormState, i: int): (g: PatientFormState)
    ensures Allergies(g) == RemoveEntry(Allergies(f), i)
    ensures SameExceptAllergies(f, g)
  {
    WithAllergies(f, RemoveEntry(Allergies(f), i))
  }

  /** Adding a restriction and then removing it restores the form, apart
      from the cleared input. */
  lemma RestrictionAddRemove(f: PatientFormState)
    requires !AllSpace(f.restrictionInput)
    ensures var g := RemoveDietaryRestriction(AddDietaryRestriction(f),
                                              |f.formData.dietaryRestrictions|);
            g.formData == f.formData && g.restrictionInput == ""
  {
    RemoveUndoesAdd(Restrictions(f));
  }

  // ---------------------------------------------------------------------
  // The meal form.
  // ---------------------------------------------------------------------

  /** The blank meal of a new form: a breakfast with zero macros and empty
      lists. */
  const DefaultMeal := Meal("", "", Breakfast, 0, 0, 0, 0, [], [])

  datatype MealFormState = MealFormState(formData: Meal, ingredientInput: string, tagInput: string)

  function OpenMealForm(meal: Option<Meal>, freshId: Id): (f: MealFormState)
    ensures meal.Some? ==> f.formData == meal.value
    ensures meal.None? ==>
              f.formData.id == freshId && f.formData.name == "" && f.formData.mealType == Breakfast
              && f.formData.MacrosOf() == ZeroMacros
              && f.formData.ingredients == [] && f.formData.dietaryTags == []
    ensures f.ingredientInput == "" && f.tagInput == ""
  {
    var data := match meal
                case Some(m) => m
                case None => DefaultMeal.(id := freshId);
    MealFormState(data, "", "")
  }

  function Ingredients(f: MealFormState): ListInput {
    ListInput(f.formData.ingredients, f.ingredientInput)
  }

  function Tags(f: MealFormState): ListInput {
    ListInput(f.formData.dietaryTags, f.tagInput)
  }

  function WithIngredients(f: MealFormState, l: ListInput): MealFormState {
    f.(formData := f.formData.(ingredients := l.entries), ingredientInput := l.input)
  }

  function WithTags(f: MealFormState, l: ListInput): MealFormState {
    f.(formData := f.formData.(dietaryTags := l.entries), tagInput := l.input)
  }

  ghost predicate SameExceptIngredients(f: MealFormState, g: MealFormState) {
    g.formData.(ingredients := f.formData.ingredients) == f.formData && g.tagInput == f.tagInput
  }

  ghost predicate SameExceptTags(f: MealFormState, g: MealFormState) {
    g.formData.(dietaryTags := f.formData.dietaryTags) == f.formData
    && g.ingredientInput == f.ingredientInput
  }

  function AddIngredient(f: MealFormState): (g: MealFormState)
    ensures Ingredients(g) == AddEntry(Ingredients(f))
    ensures SameExceptIngredients(f, g)
  {
    WithIngredients(f, AddEntry(Ingredients(f)))
  }

  function RemoveIngredient(f: MealFormState, i: int): (g: MealFormState)
    ensures Ingredients(g) == RemoveEntry(Ingredients(f), i)
    ensures SameExceptIngredients(f, g)
  {
    WithIngredients(f, RemoveEntry(Ingredients(f), i))
  }

  function AddDietaryTag(f: MealFormState): (g: MealFormState)
    ensures Tags(g) == AddEntry(Tags(f))
    ensures SameExceptTags(f, g)
  {
    WithTags(f, AddEntry(Tags(f)))
  }

  function RemoveDietaryTag(f: MealFormState, i: int): (g: MealFormState)
    ensures Tags(g) == RemoveEntry(Tags(f), i)
    ensures SameExceptTags(f, g)
  {
    WithTags(f, RemoveEntry(Tags(f), i))
  }

  /** Editing the ingredient or dietary-tag lists never changes the meal's
      type or macros. */
  lemma IngredientEditsKeepMacros(f: MealFormState, i: int)
    ensures AddIngredient(f).formData.mealType == f.formData.mealType
    ensures AddIngredient(f).formData.MacrosOf() == f.formData.MacrosOf()
    ensures RemoveIngredient(f, i).formData.mealType == f.formData.mealType
    ensures RemoveIngredient(f, i).formData.MacrosOf() == f.formData.MacrosOf()
    ensures AddDietaryTag(f).formData.mealType == f.formData.mealType
    ensures AddDietaryTag(f).formData.MacrosOf() == f.formData.MacrosOf()
    ensures RemoveDietaryTag(f, i).formData.mealType == f.formData.mealType
    ensures RemoveDietaryTag(f, i).formData.MacrosOf() == f.formData.MacrosOf()
  {
  }
}

/** The "add a dish" form of app/addDish.tsx: the editable lists of
    ingredients and instructions, the form check with its first-failure
    message, and the request body built from a valid form.  Image picking
    and the upload request are not modelled. */
module AddDish {
  import opened Wrappers
  import opened Text
  import Dish

  // ---------------------------------------------------------------------------
  // Editable lists

  /** A list of text boxes; the form always shows at least one. */
  type Boxes = seq<string>

  const InitialBoxes: Boxes := [""]

  /** The add button: one more empty box at the end. */
  function AddBox(list: Boxes): (r: Boxes)
    ensures |r| == |list| + 1 && r[..|list|] == list && r[|list|] == ""
  {
    list + [""]
  }

  /** The remove button: `filter((_, i) => i !== index)`, skipped when only
      one box is left. */
  function RemoveBox(list: Boxes, index: nat): (r: Boxes)
    ensures |list| <= 1 ==> r == list
    ensures |list| > 1 && index < |list| ==> r == list[..index] + list[index + 1..]
    ensures |list| > 1 && index >= |list| ==> r == list
  {
    if |list| > 1 then
      var r := Without(list, index);
      WithoutIsDelete(list, index);
      r
    else list
  }

  /** The boxes whose position is not `index`, in order. */
  function Without(list: Boxes, index: nat): Boxes {
    if list == [] then []
    else (if index == 0 then [] else [list[0]]) + Without(list[1..], if index == 0 then |list| else index - 1)
  }

  /** Filtering out one position is deleting it; a position past the end
      deletes nothing. */
  lemma WithoutIsDelete(list: Boxes, index: nat)
    ensures index < |list| ==> Without(list, index) == list[..index] + list[index + 1..]
    ensures index >= |list| ==> Without(list, index) == list
  {
    if index < |list| {
      WithoutInRange(list, index);
    } else {
      WithoutPastEnd(list, index);
    }
  }

  lemma {:induction false} WithoutPastEnd(list: Boxes, index: nat)
    requires index >= |list|
    ensures Without(list, index) == list
  {
    if list != [] {
      WithoutPastEnd(list[1..], index - 1);
      assert [list[0]] + list[1..] == list;
    }
  }

  lemma {:induction false} WithoutInRange(list: Boxes, index: nat)
    requires index < |list|
    ensures Without(list, index) == list[..index] + list[index + 1..]
  {
    var tail := list[1..];
    if index == 0 {
      WithoutPastEnd(tail, |list|);
      assert list[..0] + list[1..] == tail;
    } else {
      WithoutInRange(tail, index - 1);
      assert list[..index] == [list[0]] + tail[..index - 1];
      assert list[index + 1..] == tail[index..];
    }
  }

  /** Typing into box `index`. */
  function UpdateBox(list: Boxes, index: nat, value: string): (r: Boxes)
    requires index < |list|
    ensures |r| == |list| && r[index] == value
    ensures forall i :: 0 <= i < |list| && i != index ==> r[i] == list[i]
  {
    list[index := value]
  }

  /** No sequence of edits empties a list that starts with at least one box. */
  lemma EditsKeepOneBox(list: Boxes, index: nat, value: string)
    requires |list| >= 1
    ensures |AddBox(list)| >= 1 && |RemoveBox(list, index)| >= 1
    ensures index < |list| ==> |UpdateBox(list, index, value)| >= 1
  {
  }

  /** The entries that hold more than whitespace, untrimmed and in order. */
  function NonBlank(list: Boxes): (r: Boxes)
    ensures |r| <= |list|
    ensures forall i :: 0 <= i < |r| ==> !IsBlank(r[i])
  {
    if list == [] then []
    else (if IsBlank(list[0]) then [] else [list[0]]) + NonBlank(list[1..])
  }

  /** Filtering is entry by entry, so the kept entries keep their order. */
  lemma {:induction false} NonBlankAppend(a: Boxes, b: Boxes)
    ensures NonBlank(a + b) == NonBlank(a) + NonBlank(b)
  {
    if a == [] {
      assert a + b == b;
    } else {
      assert (a + b)[1..] == a[1..] + b;
      NonBlankAppend(a[1..], b);
    }
  }

  /** An entry is kept exactly when it occurs in the list and is not blank. */
  lemma {:induction false} NonBlankMembership(list: Boxes, x: string)
    ensures x in NonBlank(list) <==> x in list && !IsBlank(x)
  {
    if list != [] {
      NonBlankMembership(list[1..], x);
      assert list == [list[0]] + list[1..];
    }
  }

  // ---------------------------------------------------------------------------
  // The form

  datatype Form = Form(
    name: string,
    cookingTime: string,
    ingredients: Boxes,
    instructions: Boxes,
    image: Option<string>,
    imageBase64: Option<string>,
    imageMime: Option<string>,
    description: string,
    difficulty: string)       // the Vietnamese label picked

  /** The empty form; the difficulty starts at "Dễ". */
  const InitialForm: Form := Form("", "", InitialBoxes, InitialBoxes, None, None, None, "", Dish.DisplayEasy)

  /** The cooking time in minutes when the text is a decimal number. */
  function Minutes(text: string): (m: Option<nat>)
    ensures m.Some? <==> text != "" && AllDigits(text)
  {
    if text != "" && AllDigits(text) then Some(DigitsValue(text)) else None
  }

  predicate Present(s: Option<string>) {
    s.Some? && s.value != ""
  }

  datatype FormError = MissingName | BadCookingTime | NoIngredients | NoInstructions | MissingImage

  predicate CookingTimeOk(f: Form) {
    Minutes(f.cookingTime).Some? && Minutes(f.cookingTime).value > 0
  }

  /** `validateForm`: the first failing check, or `None` for a valid form. */
  function Validate(f: Form): (e: Option<FormError>)
    ensures e == Some(MissingName) <==> IsBlank(f.name)
    ensures e == Some(BadCookingTime) <==> !IsBlank(f.name) && !CookingTimeOk(f)
    ensures e == Some(NoIngredients) <==> !IsBlank(f.name) && CookingTimeOk(f) && NonBlank(f.ingredients) == []
    ensures e == Some(NoInstructions) <==>
              !IsBlank(f.name) && CookingTimeOk(f) && NonBlank(f.ingredients) != [] && NonBlank(f.instructions) == []
    ensures e == None <==>
              !IsBlank(f.name) && CookingTimeOk(f) && NonBlank(f.ingredients) != [] && NonBlank(f.instructions) != []
              && Present(f.image) && Present(f.imageBase64)
  {
    TrimEmptyIffBlank(f.name);
    if Trim(f.name) == "" then Some(MissingName)
    else if !CookingTimeOk(f) then Some(BadCookingTime)
    else if NonBlank(f.ingredients) == [] then Some(NoIngredients)
    else if NonBlank(f.instructions) == [] then Some(NoInstructions)
    else if !Present(f.image) || !Present(f.imageBase64) then Some(MissingImage)
    else None
  }

  /** A list passes the "at least one entry" checks exactly when some box
      has more than whitespace in it. */
  lemma SomeEntryCheck(list: Boxes)
    ensures NonBlank(list) != [] <==> exists i :: 0 <= i < |list| && !IsBlank(list[i])
  {
    if exists i :: 0 <= i < |list| && !IsBlank(list[i]) {
      var i :| 0 <= i < |list| && !IsBlank(list[i]);
      NonBlankMembership(list, list[i]);
    }
    if NonBlank(list) != [] {
      var x := NonBlank(list)[0];
      NonBlankMembership(list, x);
      var i :| 0 <= i < |list| && list[i] == x;
    }
  }

  const RecipeNamePrefix: string := "C\U{00E1}ch l\U{00E0}m "                        // "Cách làm "
  const DescriptionPrefix: string := "H\U{01B0}\U{1EDB}ng d\U{1EAB}n l\U{00E0}m "     // "Hướng dẫn làm "

  /** The request body of `createDish`. */
  datatype Payload = Payload(
    name: string,
    ingredients: seq<string>,
    cookingTime: nat,
    imageBase64: Option<string>,
    imageMime: Option<string>,
    recipeName: string,
    recipeDescription: string,
    recipeIngredients: seq<string>,
    difficulty: Dish.Level,
    instructions: seq<string>)

  /** `createDish`: a valid form becomes a request body; an invalid one
      reports its first failing check and sends nothing. */
  function CreateDish(f: Form): (r: Result<Payload, FormError>)
    ensures r.Failure? <==> Validate(f).Some?
    ensures r.Failure? ==> r.error == Validate(f).value
    ensures r.Success? ==> var p := r.value;
              p.name == Trim(f.name) && p.name != "" &&
              p.ingredients == NonBlank(f.ingredients) && p.ingredients != [] &&
              p.recipeIngredients == p.ingredients &&
              p.instructions == NonBlank(f.instructions) && p.instructions != [] &&
              p.cookingTime > 0 && Some(p.cookingTime) == Minutes(f.cookingTime) &&
              p.recipeName == RecipeNamePrefix + p.name &&
              p.recipeDescription == (if Trim(f.description) != "" then Trim(f.description)
                                      else DescriptionPrefix + p.name) &&
              p.difficulty == Dish.DifficultyToEnglish(f.difficulty) &&
              p.imageBase64 == f.imageBase64 && p.imageMime == f.imageMime
  {
    match Validate(f)
    case Some(e) => Failure(e)
    case None =>
      TrimEmptyIffBlank(f.name);
      var name := Trim(f.name);
      var ingredients := NonBlank(f.ingredients);
      var description := Trim(f.description);
      Success(Payload(
        name, ingredients, Minutes(f.cookingTime).value, f.imageBase64, f.imageMime,
        RecipeNamePrefix + name,
        if description != "" then description else DescriptionPrefix + name,
        ingredients, Dish.DifficultyToEnglish(f.difficulty), NonBlank(f.instructions)))
  }

  /** The difficulty chosen in the form reaches the server in English: each
      displayed label maps back to its own level. */
  lemma PayloadDifficultyFollowsLabel(f: Form, l: Dish.Level)
    requires f.difficulty == Dish.DifficultyDisplay(Some(l)) && CreateDish(f).Success?
    ensures CreateDish(f).value.difficulty == l
  {
    Dish.DisplayRoundTrip(l);
  }

  /** Pressing "create": an invalid form stays as it is and nothing is sent;
      a valid one is sent, and when the server answers OK the form is reset
      to its initial state. */
  function Submit(f: Form, serverOk: bool): (r: (Form, Option<Payload>))
    ensures Validate(f).Some? ==> r == (f, None)
    ensures Validate(f).None? ==> r.1 == Some(CreateDish(f).value)
    ensures Validate(f).None? && serverOk ==> r.0 == InitialForm
    ensures Validate(f).None? && !serverOk ==> r.0 == f
  {
    match CreateDish(f)
    case Failure(_) => (f, None)
    case Success(p) => (if serverOk then InitialForm else f, Some(p))
  }

  /** The reset form cannot be sent again until a name is typed. */
  lemma ResetFormIsRejected(f: Form)
    requires Validate(f).None?
    ensures Validate(Submit(f, true).0) == Some(MissingName)
    ensures Submit(Submit(f, true).0, true).1.None?
  {
    assert IsBlank(InitialForm.name);
  }
}

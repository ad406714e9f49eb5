/** The form state shared by the create and the edit view: three text
    fields, a map of error messages, the field-change handler and the
    required-field validator. Both views carry the same code for these
    (AddBook.js and EditBook.js), so they are defined once here. */
module BookForm {
  import opened Optional
  import opened JsText

  /** The `name` of an input element of the form. */
  datatype Field = Title | Author | Summary

  /** The `formData` state of a view. */
  datatype FormData = FormData(title: string, author: string, summary: string) {

    /** `formData[f]`. */
    function Get(f: Field): string {
      match f
      case Title => title
      case Author => author
      case Summary => summary
    }
  }

  /** The form a view starts with: every field empty. */
  const EmptyForm: FormData := FormData("", "", "")

  /** A key of the `errors` object: a field's name, or `form` for the
      whole-form error a failed mutation reports. */
  datatype ErrorKey = FieldError(field: Field) | FormError

  /** The `errors` state of a view. */
  type Errors = map<ErrorKey, string>

  /** A view's local state: the record `(formData, errors)`. */
  datatype FormState = FormState(formData: FormData, errors: Errors)

  /** The state a view starts with: an empty form and no errors. */
  const InitialState: FormState := FormState(EmptyForm, map[])

  /** How the awaited mutation ends: it resolves, or it throws (a transport
      or server error). */
  datatype MutationOutcome = Completed | Rejected

  /** `s || null`: the empty string is falsy and becomes null; every other
      string, white space only or not, is sent as it is. */
  function OrNull(s: string): (r: Option<string>)
    ensures r.None? <==> s == ""
    ensures r.Some? ==> r.value == s
  {
    if s == "" then None else Some(s)
  }

  const TitleRequired: string := "Title is required"
  const AuthorRequired: string := "Author is required"

  /** `errors[k]` is truthy: present and not the empty string. */
  predicate HasError(errors: Errors, k: ErrorKey) {
    k in errors && errors[k] != ""
  }

  /** `formData` with field `f` set to `v` (the spread `{...formData, [f]: v}`). */
  function SetField(fd: FormData, f: Field, v: string): (r: FormData)
    ensures r.Get(f) == v
    ensures forall g :: g != f ==> r.Get(g) == fd.Get(g)
  {
    match f
    case Title => fd.(title := v)
    case Author => fd.(author := v)
    case Summary => fd.(summary := v)
  }

  /** `handleChange`: the named field takes the typed value, and that
      field's error, when truthy, is replaced by ''. */
  function HandleChange(st: FormState, name: Field, value: string): (r: FormState)
    ensures r.formData.Get(name) == value
    ensures forall f :: f != name ==> r.formData.Get(f) == st.formData.Get(f)
    ensures r.errors.Keys == st.errors.Keys
    ensures forall k :: k in st.errors && k != FieldError(name) ==> r.errors[k] == st.errors[k]
    ensures FieldError(name) in st.errors ==> r.errors[FieldError(name)] == ""
    ensures !HasError(r.errors, FieldError(name))
    ensures !HasError(st.errors, FieldError(name)) ==> r.errors == st.errors
  {
    var errors := if HasError(st.errors, FieldError(name))
                  then st.errors[FieldError(name) := ""]
                  else st.errors;
    FormState(SetField(st.formData, name, value), errors)
  }

  /** What `validate` computes: whether the form may be submitted, and the
      fresh error map it installs. */
  datatype Validation = Validation(ok: bool, errors: Errors)

  /** `validate`: a blank title or author gets its required-field message;
      the form is valid when no message was produced. */
  function Validate(fd: FormData): (v: Validation)
    ensures FieldError(Title) in v.errors <==> Blank(fd.title)
    ensures FieldError(Author) in v.errors <==> Blank(fd.author)
    ensures FieldError(Title) in v.errors ==> v.errors[FieldError(Title)] == TitleRequired
    ensures FieldError(Author) in v.errors ==> v.errors[FieldError(Author)] == AuthorRequired
    ensures v.errors.Keys <= {FieldError(Title), FieldError(Author)}
    ensures v.ok <==> v.errors == map[]
  {
    var withTitle: Errors := if Blank(fd.title) then map[FieldError(Title) := TitleRequired] else map[];
    var errors := if Blank(fd.author) then withTitle[FieldError(Author) := AuthorRequired] else withTitle;
    Validation(|errors| == 0, errors)
  }

  /** The form validates exactly when neither the title nor the author
      consists of white space only (the empty string included). */
  lemma ValidIffFilledIn(fd: FormData)
    ensures Validate(fd).ok <==> !AllWhitespace(fd.title) && !AllWhitespace(fd.author)
  {
    BlankIffAllWhitespace(fd.title);
    BlankIffAllWhitespace(fd.author);
    var v := Validate(fd);
    if !v.ok {
      assert FieldError(Title) in v.errors || FieldError(Author) in v.errors;
    }
  }

  /** The state after `validate`: the error map is replaced as a whole, so
      no whole-form error and no cleared field error survives it. */
  function Validated(st: FormState): (r: FormState)
    ensures r.formData == st.formData
    ensures r.errors == Validate(st.formData).errors
    ensures FormError !in r.errors && FieldError(Summary) !in r.errors
    ensures forall k :: k in r.errors ==> HasError(r.errors, k)
  {
    var errors := Validate(st.formData).errors;
    assert TitleRequired != "" && AuthorRequired != "";
    FormState(st.formData, errors)
  }

  /** Typing into a field never brings back an error for it, and the
      other field's validation error, if any, is still shown. */
  lemma ChangeAfterValidate(st: FormState, name: Field, value: string)
    ensures var r := HandleChange(Validated(st), name, value);
      && !HasError(r.errors, FieldError(name))
      && forall f :: f != name ==> (HasError(r.errors, FieldError(f)) <==> HasError(Validated(st).errors, FieldError(f)))
  {
  }

  /** The empty form a view starts from does not validate. */
  lemma EmptyFormInvalid()
    ensures Validate(EmptyForm) == Validation(false, map[FieldError(Title) := TitleRequired, FieldError(Author) := AuthorRequired])
  {
  }

  /** Submitting title "Dune" with an empty author reports only the
      missing author. */
  lemma MissingAuthorScenario()
    ensures Validate(FormData("Dune", "", "")) == Validation(false, map[FieldError(Author) := AuthorRequired])
  {
    assert !AllWhitespace("Dune") by {
      assert !IsWhitespace("Dune"[0]);
    }
  }
}

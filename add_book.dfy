/** The create view (AddBook.js): how a submission turns the form into
    the variables of the `createBook` mutation, and what the view's state
    is afterwards. */
module AddBook {
  import opened Optional
  import opened JsText
  import opened BookForm

  /** The variables of the `CreateBook` mutation. */
  datatype CreateVars = CreateVars(title: string, author: string, summary: Option<string>)

  const CreateFailed: string := "Failed to create book. Please try again."

  /** The `variables` object built by `handleSubmit`: title and author as
      typed (untrimmed), and the summary or null. */
  function CreateVariables(fd: FormData): (v: CreateVars)
    ensures v.title == fd.title && v.author == fd.author
    ensures v.summary.None? <==> fd.summary == ""
    ensures v.summary.Some? ==> v.summary.value == fd.summary
  {
    CreateVars(fd.title, fd.author, OrNull(fd.summary))
  }

  /** `handleSubmit` on state `st`. `sent` is the `createBook` call made, if
      any; `outcome` says how that call ends. A form that does not validate
      makes no call and shows the fresh validation errors. A rejected call
      adds the whole-form error to the error map the handler closed over,
      which is the map from before `validate` ran. */
  method HandleSubmit(st: FormState, outcome: MutationOutcome) returns (next: FormState, sent: Option<CreateVars>)
    ensures sent.Some? <==> !Blank(st.formData.title) && !Blank(st.formData.author)
    ensures sent.Some? ==> sent.value == CreateVariables(st.formData)
    ensures next.formData == st.formData
    ensures sent.None? ==> next.errors == Validate(st.formData).errors && next.errors != map[]
    ensures sent.Some? && outcome == Rejected ==> next.errors == st.errors[FormError := CreateFailed]
    ensures sent.Some? && outcome == Completed ==> next.errors == map[]
  {
    next := Validated(st);
    if !Validate(st.formData).ok {
      sent := None;
      return;
    }
    sent := Some(CreateVariables(st.formData));
    if outcome == Rejected {
      next := FormState(st.formData, st.errors[FormError := CreateFailed]);
    }
  }
}

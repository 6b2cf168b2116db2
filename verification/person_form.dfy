/**
 The add/edit dialog (`EquipmentDialog.tsx`): the form state it starts from,
 how it is filled from the person being edited, and when its submit button
 is enabled.
 */
module PersonForm {
  import opened Nullable
  import opened People

  /**
   The dialog's `formData`. Every field is a plain string; type and status
   are picked from fixed menus, the rest is typed in.
   */
  datatype FormData = FormData(
    name: string,
    kind: string,
    status: string,
    notes: string,
    location: string,
    connections: string)

  /** The fields of a fresh "Add New Person" dialog. */
  const EmptyForm: FormData := FormData("", Colleague, Friend, "", "", NoConnections)

  /**
   The effect that runs when the dialog opens: copy the person being edited,
   with JavaScript's `||` turning a missing or empty location into `''` and
   a missing or empty connections text into `'[]'`; without a person, reset
   to the empty form.
   */
  function Prefill(person: Option<Person>): (f: FormData)
    ensures person.None? ==> f == EmptyForm
    ensures person.Some? ==>
              && f.name == person.value.name && f.kind == person.value.kind
              && f.status == person.value.status && f.notes == person.value.notes
    ensures person.Some? && Truthy(person.value.location) ==> f.location == person.value.location.value
    ensures person.Some? && !Truthy(person.value.location) ==> f.location == ""
    ensures person.Some? && Truthy(person.value.connections) ==> f.connections == person.value.connections.value
    ensures person.Some? && !Truthy(person.value.connections) ==> f.connections == NoConnections
    ensures f.connections != ""
  {
    match person
    case None => EmptyForm
    case Some(p) =>
      FormData(p.name, p.kind, p.status, p.notes,
               OrIfFalsy(p.location, ""), OrIfFalsy(p.connections, NoConnections))
  }

  /** The submit button is enabled exactly when both name and notes are non-empty. */
  predicate CanSubmit(f: FormData)
  {
    f.name != "" && f.notes != ""
  }

  /**
   Clicking submit: when the button is enabled the form data goes to
   `onSave` as it is; a disabled button delivers nothing.
   */
  function Submit(f: FormData): (r: Option<FormData>)
    ensures r.Some? <==> f.name != "" && f.notes != ""
    ensures r.Some? ==> r.value == f
  {
    if CanSubmit(f) then Some(f) else None
  }

  /** A fresh dialog cannot be submitted before a name and notes are typed. */
  lemma EmptyFormCannotSubmit()
    ensures Submit(Prefill(None)) == None
  {
  }

  /** Editing a person can be submitted straight away exactly when the person has a name and notes. */
  lemma PrefilledFormSubmits(p: Person)
    ensures Submit(Prefill(Some(p))).Some? <==> p.name != "" && p.notes != ""
  {
  }
}

/** The Author record type and its two field validators. The uniqueness lookup
    the name validator performs against the store is the parameter `existing`:
    the names of the authors the store holds when the validator runs. */
module Authors {
  import opened Validation
  import opened Text

  const NameMissing := "Author name must be present."
  const NameTaken := "Author name must be unique."
  const PhoneInvalid := "Phone number must be exactly 10 digits."
  const PhoneLength := 10

  /** validate_name: a blank name is refused first; otherwise a name some stored
      author already has (exact, case-sensitive) is refused; otherwise the name
      is accepted unchanged. */
  function ValidateName(name: string, existing: set<string>): (r: Result<string>)
    ensures r == Err(NameMissing) <==> IsBlank(name)
    ensures r == Err(NameTaken) <==> !IsBlank(name) && name in existing
    ensures r.Ok? <==> !IsBlank(name) && name !in existing
    ensures r.Ok? ==> r.value == name
  {
    StripEmptyIffBlank(name);
    if name == [] || Strip(name) == [] then Err(NameMissing)
    else if name in existing then Err(NameTaken)
    else Ok(name)
  }

  /** validate_phone: accepted unchanged exactly when it is ten decimal digits. */
  function ValidatePhone(phone: string): (r: Result<string>)
    ensures r.Ok? <==> |phone| == PhoneLength && forall i :: 0 <= i < |phone| ==> IsAsciiDigit(phone[i])
    ensures r.Ok? ==> r.value == phone
    ensures r.Err? ==> r.msg == PhoneInvalid
  {
    if !IsDigits(phone) || |phone| != PhoneLength then Err(PhoneInvalid) else Ok(phone)
  }

  /** The validated fields of an Author; None is a field never assigned. */
  datatype Author = Author(name: Option<string>, phoneNumber: Option<string>)

  /** Assigning `author.name = name`: the validator runs first, and when it raises
      the assignment does not happen (the caller keeps `author` as it was). */
  function SetName(author: Author, name: string, existing: set<string>): (r: Result<Author>)
    ensures r.Ok? <==> ValidateName(name, existing).Ok?
    ensures r.Ok? ==> r.value == author.(name := Some(name))
    ensures r.Err? ==> r.msg == ValidateName(name, existing).msg
  {
    var v :- ValidateName(name, existing);
    Ok(author.(name := Some(v)))
  }

  /** Assigning `author.phone_number = phone`. */
  function SetPhone(author: Author, phone: string): (r: Result<Author>)
    ensures r.Ok? <==> ValidatePhone(phone).Ok?
    ensures r.Ok? ==> r.value == author.(phoneNumber := Some(phone))
    ensures r.Err? ==> r.msg == PhoneInvalid
  {
    var v :- ValidatePhone(phone);
    Ok(author.(phoneNumber := Some(v)))
  }

  /** `Author(name=..., phone_number=...)`: each keyword given is assigned, name
      first, through its validator; the first validator that raises aborts the
      construction with its message. */
  function NewAuthor(name: Option<string>, phone: Option<string>, existing: set<string>): (r: Result<Author>)
    ensures r.Ok? <==> ((name.Some? ==> ValidateName(name.value, existing).Ok?)
                     && (phone.Some? ==> ValidatePhone(phone.value).Ok?))
    ensures r.Ok? ==> r.value == Author(name, phone)
    ensures name.Some? && ValidateName(name.value, existing).Err? ==> r == Err(ValidateName(name.value, existing).msg)
    ensures (name.Some? ==> ValidateName(name.value, existing).Ok?) && phone.Some? && ValidatePhone(phone.value).Err?
      ==> r == Err(PhoneInvalid)
  {
    var a0 := Author(None, None);
    var a1 :- if name.Some? then SetName(a0, name.value, existing) else Ok(a0);
    if phone.Some? then SetPhone(a1, phone.value) else Ok(a1)
  }

  /** The names held by stored authors: what `Author.query.filter_by(name=...)` can find. */
  function Names(store: seq<Author>): (names: set<string>)
    ensures forall n :: n in names <==> exists i :: 0 <= i < |store| && store[i].name == Some(n)
  {
    if store == [] then {}
    else
      var rest := Names(store[..|store| - 1]);
      assert forall i :: 0 <= i < |store| - 1 ==> store[..|store| - 1][i] == store[i];
      var last := store[|store| - 1];
      if last.name.Some? then rest + {last.name.value} else rest
  }

  /** No two stored authors share a name. */
  predicate DistinctNames(store: seq<Author>) {
    forall i, j :: 0 <= i < j < |store| && store[i].name.Some? ==> store[i].name != store[j].name
  }

  /** Storing an author only after its name passed validation against the
      current store keeps stored names distinct. */
  lemma ValidatedInsertKeepsNamesDistinct(store: seq<Author>, name: Option<string>, phone: Option<string>)
    requires DistinctNames(store)
    requires NewAuthor(name, phone, Names(store)).Ok?
    ensures DistinctNames(store + [NewAuthor(name, phone, Names(store)).value])
  {
    var a := NewAuthor(name, phone, Names(store)).value;
    var s' := store + [a];
    forall i, j | 0 <= i < j < |s'| && s'[i].name.Some?
      ensures s'[i].name != s'[j].name
    {
      if j == |store| {
        assert store[i].name.value in Names(store);
      }
    }
  }

  /** Renaming a stored author through the validator, with the lookup seeing
      the current store, keeps stored names distinct. */
  lemma ValidatedRenameKeepsNamesDistinct(store: seq<Author>, i: nat, m: string)
    requires i < |store| && DistinctNames(store)
    requires SetName(store[i], m, Names(store)).Ok?
    ensures DistinctNames(store[i := SetName(store[i], m, Names(store)).value])
  {
    var s' := store[i := SetName(store[i], m, Names(store)).value];
    assert s'[i].name == Some(m) && m !in Names(store);
    forall j, k | 0 <= j < k < |s'| && s'[j].name.Some?
      ensures s'[j].name != s'[k].name
    {
      if j == i {
        assert s'[k] == store[k];
        if store[k].name.Some? { assert store[k].name.value in Names(store); }
      } else if k == i {
        assert store[j].name.value in Names(store);
      }
    }
  }

  /** Once an author with name `n` is stored, creating another author named `n`
      fails with the uniqueness message, whatever its phone number. */
  lemma SecondAuthorWithSameNameFails(store: seq<Author>, n: string, phone: Option<string>, phone': Option<string>)
    requires NewAuthor(Some(n), phone, Names(store)).Ok?
    ensures NewAuthor(Some(n), phone', Names(store + [NewAuthor(Some(n), phone, Names(store)).value])) == Err(NameTaken)
  {
    var s' := store + [NewAuthor(Some(n), phone, Names(store)).value];
    assert s'[|store|].name == Some(n);
  }

  /** Re-assigning a stored author its own name fails too: the lookup finds that
      very author. */
  lemma ReassigningOwnNameFails(store: seq<Author>, i: nat)
    requires i < |store| && store[i].name.Some? && !IsBlank(store[i].name.value)
    ensures SetName(store[i], store[i].name.value, Names(store)) == Err(NameTaken)
  {
  }

  /** An accepted name stays accepted when re-validated, unless the store has
      meanwhile gained an author with that name. */
  lemma RevalidateName(name: string, existing: set<string>, later: set<string>)
    requires ValidateName(name, existing).Ok?
    ensures ValidateName(ValidateName(name, existing).value, later)
      == (if name in later then Err(NameTaken) else Ok(name))
  {
  }

  /** An accepted phone number is accepted again, unchanged. */
  lemma RevalidatePhone(phone: string)
    requires ValidatePhone(phone).Ok?
    ensures ValidatePhone(ValidatePhone(phone).value) == Ok(phone)
  {
  }
}

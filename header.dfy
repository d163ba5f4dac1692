/** The letter in the header's avatar button: taken from the signed-in
    user's display name, else from the e-mail address, else "U". */
module Header {
  import opened Records
  import opened Text

  /** The two profile fields the header reads; either may be absent. */
  datatype User = User(displayName: Option<string>, email: Option<string>)

  /** A field that JavaScript treats as true: present and not empty. */
  predicate Filled(field: Option<string>) {
    field.Some? && field.value != ""
  }

  const DefaultInitial: string := "U"

  /** `getInitials`, for a signed-in user or none: never empty and never
      starting with a small letter. */
  function Initials(user: Option<User>): (r: string)
    ensures 1 <= |r| <= 2 && !IsLowerLetter(r[0])
    ensures user.Some? && Filled(user.value.displayName) ==> r == UpperOf(user.value.displayName.value[0])
    ensures user.Some? && !Filled(user.value.displayName) && Filled(user.value.email) ==>
              r == UpperOf(user.value.email.value[0])
    ensures user.None? || (!Filled(user.value.displayName) && !Filled(user.value.email)) ==> r == DefaultInitial
  {
    if user.Some? && Filled(user.value.displayName) then UpperOf(user.value.displayName.value[0])
    else if user.Some? && Filled(user.value.email) then UpperOf(user.value.email.value[0])
    else DefaultInitial
  }

  /** A display name decides alone: the e-mail address then plays no part. */
  lemma DisplayNameFirst(name: string, email1: Option<string>, email2: Option<string>)
    requires name != ""
    ensures Initials(Some(User(Some(name), email1))) == Initials(Some(User(Some(name), email2)))
  {
  }

  /** An empty display name counts as none. */
  lemma EmptyNameIsAbsent(email: Option<string>)
    ensures Initials(Some(User(Some(""), email))) == Initials(Some(User(None, email)))
  {
  }
}

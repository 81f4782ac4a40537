/** The authentication session's notes: string values under string keys,
    living as long as one login attempt. */
module AuthSessions {
  import opened Wrappers

  type Notes = map<string, string>

  /** `getAuthNote(name)`: null when the note is not set. */
  function GetNote(notes: Notes, name: string): (r: Option<string>)
    ensures r.Some? <==> name in notes
    ensures r.Some? ==> r.value == notes[name]
  {
    if name in notes then Some(notes[name]) else None
  }

  /** `setAuthNote(name, value)`; a null value clears the note. */
  function SetNote(notes: Notes, name: string, value: Option<string>): (r: Notes)
    ensures GetNote(r, name) == value
    ensures forall k :: k != name ==> GetNote(r, k) == GetNote(notes, k)
  {
    match value
    case Some(v) => notes[name := v]
    case None => notes - {name}
  }

  /** `removeAuthNote(name)` */
  function RemoveNote(notes: Notes, name: string): (r: Notes)
    ensures GetNote(r, name).None?
    ensures forall k :: k != name ==> GetNote(r, k) == GetNote(notes, k)
  {
    notes - {name}
  }
}

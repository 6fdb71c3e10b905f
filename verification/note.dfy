/** Note: a subtitle-like annotation shown over the waveform. Two notes are equal when
    they have the same runtime type and the same Id, whatever their interval, text or
    focus. */
module Notes {
  import opened Common
  import opened Intervals

  /** `handle` stands for the object's identity (what ReferenceEquals compares) and
      `runtimeType` for `GetType()`; a null Id is `None`. */
  datatype Note = Note(handle: nat, runtimeType: string, id: Option<string>,
                       interval: Span, text: string, isFocused: bool)

  /** Equals(object): null is never equal, the same object always is, an object of
      another runtime type never is, otherwise the Ids are compared as strings (two null
      Ids are equal, a null and a non-null one are not). */
  predicate NoteEquals(self: Note, obj: Option<Note>)
  {
    match obj
    case None => false
    case Some(other) =>
      if other.handle == self.handle then true
      else if other.runtimeType != self.runtimeType then false
      else other.id == self.id
  }

  /** GetHashCode: the Id's string hash, or 0 for a null Id. The string hash itself is
      the parameter `stringHash`. */
  function NoteHashCode(n: Note, stringHash: string -> int): (h: int)
    ensures n.id == None ==> h == 0
  {
    match n.id
    case None => 0
    case Some(s) => stringHash(s)
  }

  /** Two distinct objects are equal exactly when runtime type and Id agree; no object
      equals null. */
  lemma NoteEqualsMeaning(a: Note, b: Note)
    ensures !NoteEquals(a, None)
    ensures NoteEquals(a, Some(a))
    ensures a.handle != b.handle ==>
              (NoteEquals(a, Some(b)) <==> a.runtimeType == b.runtimeType && a.id == b.id)
  {
  }

  /** Equality is symmetric, provided one object always has one runtime type. */
  lemma NoteEqualsSymmetric(a: Note, b: Note)
    requires a.handle == b.handle ==> a.runtimeType == b.runtimeType && a.id == b.id
    ensures NoteEquals(a, Some(b)) <==> NoteEquals(b, Some(a))
  {
  }

  /** Equality ignores the interval, the text and the focus flag. */
  lemma NoteEqualsIgnoresContent(a: Note, b: Note, interval: Span, text: string, focused: bool)
    ensures NoteEquals(a, Some(b)) <==>
            NoteEquals(a, Some(b.(interval := interval, text := text, isFocused := focused)))
  {
  }

  /** Equal notes have equal hash codes, provided one object always has one Id. */
  lemma EqualNotesHashAlike(a: Note, b: Note, stringHash: string -> int)
    requires a.handle == b.handle ==> a.id == b.id
    requires NoteEquals(a, Some(b))
    ensures NoteHashCode(a, stringHash) == NoteHashCode(b, stringHash)
  {
  }
}

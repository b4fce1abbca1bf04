/**
 * The persisted session pointer (backend/src/persistence/sessionStore.ts): one
 * small record kept in a file. The file is a single slot here; reading a missing
 * or unreadable file gives no pointer.
 */
module Store {

  import opened Wrappers

  /** `PersistedSession`. */
  datatype Pointer = Pointer(sessionId: int, startedAt: int, finalized: bool)

  class PointerSlot {
    var pointer: Option<Pointer>

    constructor (initial: Option<Pointer>)
      ensures pointer == initial
    {
      pointer := initial;
    }

    /** `saveSession`: overwrites the slot. */
    method Save(p: Pointer)
      modifies this
      ensures pointer == Some(p)
    {
      pointer := Some(p);
    }

    /** The store's `clearSession`: deletes the file, if any. */
    method Clear()
      modifies this
      ensures pointer == None
    {
      pointer := None;
    }
  }
}

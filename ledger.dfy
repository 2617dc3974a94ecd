/**
 * The revert ledger of cleanup.py: the `revert_info.json` store that maps an
 * absolute directory to the `{name, type}` records of its last cleanup.
 */
module LedgerStore {
  import opened Optional

  /** One moved file: its name and the category subdirectory it went into. */
  datatype Record = Record(name: string, fileType: string)

  /** Absolute directory to the records of its most recent cleanup. */
  type Ledger = map<string, seq<Record>>

  /** The ledger file: not there yet, there but not a readable ledger, or a saved ledger. */
  datatype Store = Absent | Unreadable | Saved(ledger: Ledger)

  /** `read_revert_info()`: the saved ledger, or `None` where the read raises. */
  function Load(store: Store): (r: Option<Ledger>)
    ensures r.Some? <==> store.Saved?
    ensures r.Some? ==> r.value == store.ledger
  {
    match store
    case Saved(ledger) => Some(ledger)
    case _ => None
  }
}

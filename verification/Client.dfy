// The Netbox API client: a store reached through calls that may raise, before or
// after the server has applied them.
module Client {
  import opened Inventory

  // Which of the coming API calls raises, and whether the server applied it first.
  datatype Fault = NoFault | FailsAfter(calls: nat, applied: bool)

  class NetboxClient {
    var store: Store
    var fault: Fault

    constructor (store: Store, fault: Fault)
      ensures this.store == store && this.fault == fault
    {
      this.store := store;
      this.fault := fault;
    }

    // A GET: the store is read through the record it returns.
    method Query() returns (ok: bool)
      modifies this
      ensures store == old(store)
      ensures old(fault).NoFault? ==> ok && fault.NoFault?
    {
      ok := true;
      match fault {
        case NoFault =>
        case FailsAfter(n, applied) =>
          if n == 0 { ok := false; } else { fault := FailsAfter(n - 1, applied); }
      }
    }

    // A POST or PATCH that takes the store to next.
    method Commit(next: Store) returns (ok: bool)
      modifies this
      ensures ok ==> store == next
      ensures !ok ==> store == old(store) || store == next
      ensures old(fault).NoFault? ==> ok && fault.NoFault?
    {
      ok := true;
      match fault {
        case NoFault =>
          store := next;
        case FailsAfter(n, applied) =>
          if n == 0 {
            ok := false;
            if applied { store := next; }
          } else {
            store := next;
            fault := FailsAfter(n - 1, applied);
          }
      }
    }
  }
}

/** Transaction ids of QMI requests (QMIThread.c, QmiWwanCM.c): two counters that skip zero. */
module QmiIds {
  import opened Arith

  datatype Kind = Ctl | Mux

  /** The largest id: one byte for the control service, two for the others. */
  function Limit(kind: Kind): (n: nat)
    ensures n > 0
  {
    match kind
    case Ctl => 0xff
    case Mux => 0xffff
  }

  /** The static counter after one more call. */
  function Next(kind: Kind, id: nat): nat {
    if id + 1 > Limit(kind) then 1 else id + 1
  }

  /** The counter after n calls. */
  function Id(kind: Kind, n: nat): nat {
    if n == 0 then 0 else Next(kind, Id(kind, n - 1))
  }

  /** Ids run through 1 to the limit, over and over; zero is never used. */
  lemma {:induction false} IdCycles(kind: Kind, n: nat)
    requires n > 0
    ensures Id(kind, n) == (n - 1) % Limit(kind) + 1
  {
    var m := Limit(kind);
    var q, r := DivParts(n - 1, m);
    hide Limit;
    if n > 1 {
      IdCycles(kind, n - 1);
      if r == 0 {
        DivUnique(n - 2, m, q - 1, m - 1);
      } else {
        DivUnique(n - 2, m, q, r - 1);
      }
    } else {
      DivUnique(0, m, 0, 0);
    }
  }

  /** So one kind counts to 255 and the other to 65535. */
  lemma IdNumbers(n: nat)
    requires n > 0
    ensures Id(Ctl, n) == (n - 1) % 255 + 1 && Id(Mux, n) == (n - 1) % 65535 + 1
  {
    IdCycles(Ctl, n);
    IdCycles(Mux, n);
    hide Id;
  }

  /** Two requests of a kind share an id exactly when whole cycles lie between them. */
  lemma SameId(kind: Kind, m: nat, n: nat)
    requires 0 < m <= n
    ensures Id(kind, m) == Id(kind, n) <==> (n - m) % Limit(kind) == 0
  {
    var limit := Limit(kind);
    IdCycles(kind, m);
    IdCycles(kind, n);
    var p, r := DivParts(m - 1, limit);
    var q, s := DivParts(n - 1, limit);
    hide Limit, Id;
    if r <= s {
      DivUnique(n - m, limit, q - p, s - r);
    } else {
      DivUnique(n - m, limit, q - p - 1, s - r + limit);
    }
  }

  class Counter {
    const kind: Kind
    var id: nat
    ghost var calls: nat

    ghost predicate Valid()
      reads this
    {
      id == Id(kind, calls)
    }

    constructor (kind: Kind)
      ensures Valid() && this.kind == kind && calls == 0
    {
      this.kind, id, calls := kind, 0, 0;
    }

    /** `GetQMUXTransactionId` and `GetQCTLTransactionId`. */
    method Draw() returns (next: nat)
      requires Valid()
      modifies this
      ensures Valid() && calls == old(calls) + 1 && next == Id(kind, calls)
    {
      id := id + 1;
      if id > Limit(kind) {
        id := 1;
      }
      calls := calls + 1;
      next := id;
    }
  }
}

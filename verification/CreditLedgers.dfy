// The compute-credit ledger (src/cadgenesis/collaboration/compute_credits.py):
// balances, and an append-only log of what changed them.
module CreditLedgers {
  import opened Results
  import opened Seqs

  datatype Entity = Entity(id: string)
  type CreditType = string

  // The credits of one entity; a type that was never set counts as zero.
  type Credits = map<CreditType, real>

  datatype Record = Record(entity: Entity, creditType: CreditType, amount: real)

  datatype Grant = Grant(entity: Entity, creditType: CreditType, amount: real, expiresAt: Option<real>)

  function Held(c: Credits, t: CreditType): real {
    if t in c then c[t] else 0.0
  }

  // ------------------------------------------------------------------
  // Sums over the log

  function Logged(log: seq<Record>, e: Entity, t: CreditType): real {
    if log == [] then 0.0
    else
      var r := log[|log| - 1];
      Logged(log[..|log| - 1], e, t) + if r.entity == e && r.creditType == t then r.amount else 0.0
  }

  // Records with a negative amount add credits, those with a positive one consume
  // them.
  function Issued(log: seq<Record>, t: CreditType): real {
    if log == [] then 0.0
    else
      var r := log[|log| - 1];
      Issued(log[..|log| - 1], t) + if r.creditType == t && r.amount < 0.0 then -r.amount else 0.0
  }

  function Consumed(log: seq<Record>, t: CreditType): real {
    if log == [] then 0.0
    else
      var r := log[|log| - 1];
      Consumed(log[..|log| - 1], t) + if r.creditType == t && r.amount > 0.0 then r.amount else 0.0
  }

  lemma {:induction false} RecordAdded(log: seq<Record>, r: Record, e: Entity, t: CreditType)
    ensures Logged(log + [r], e, t) == Logged(log, e, t) + if r.entity == e && r.creditType == t then r.amount else 0.0
    ensures Issued(log + [r], t) == Issued(log, t) + if r.creditType == t && r.amount < 0.0 then -r.amount else 0.0
    ensures Consumed(log + [r], t) == Consumed(log, t) + if r.creditType == t && r.amount > 0.0 then r.amount else 0.0
  {
    assert (log + [r])[..|log|] == log;
  }

  // ------------------------------------------------------------------
  // Balances against the log

  type Books = map<Entity, Credits>

  ghost predicate Balanced(books: Books, log: seq<Record>, e: Entity, t: CreditType)
  {
    (if e in books then Held(books[e], t) else 0.0) == -Logged(log, e, t)
  }

  // Every balance is minus the sum of its amounts in the log, which names no other
  // entities.
  ghost predicate Kept(books: Books, names: seq<Entity>, log: seq<Record>) {
    && NoDup(names) && Elems(names) == books.Keys
    && (forall e, t {:trigger Balanced(books, log, e, t)} :: Balanced(books, log, e, t))
    && (forall i {:trigger log[i]} :: 0 <= i < |log| ==> log[i].entity in books)
  }

  ghost predicate NonNegative(books: Books) {
    forall e, t {:trigger Held(books[e], t)} :: e in books ==> Held(books[e], t) >= 0.0
  }

  // The sum of the balances of the named entities.
  function TotalHeld(books: Books, names: seq<Entity>, t: CreditType): real {
    if names == [] then 0.0
    else
      var e := names[|names| - 1];
      TotalHeld(books, names[..|names| - 1], t) + if e in books then Held(books[e], t) else 0.0
  }

  function TotalLogged(log: seq<Record>, names: seq<Entity>, t: CreditType): real {
    if names == [] then 0.0
    else TotalLogged(log, names[..|names| - 1], t) + Logged(log, names[|names| - 1], t)
  }

  lemma {:induction false} TotalsAgree(books: Books, log: seq<Record>, names: seq<Entity>, t: CreditType)
    requires forall e, t {:trigger Balanced(books, log, e, t)} :: Balanced(books, log, e, t)
    ensures TotalHeld(books, names, t) == -TotalLogged(log, names, t)
  {
    if names != [] {
      TotalsAgree(books, log, names[..|names| - 1], t);
      assert Balanced(books, log, names[|names| - 1], t);
    }
  }

  lemma {:induction false} TotalLoggedStep(log: seq<Record>, r: Record, names: seq<Entity>, t: CreditType)
    requires NoDup(names)
    ensures TotalLogged(log + [r], names, t) == TotalLogged(log, names, t)
         + if r.entity in names && r.creditType == t then r.amount else 0.0
  {
    if names != [] {
      var n := |names| - 1;
      NoDupCut(names, 0, n);
      assert names[0..n] == names[..n] && names == names[..n] + [names[n]];
      TotalLoggedStep(log, r, names[..n], t);
      RecordAdded(log, r, names[n], t);
      assert r.entity in names <==> r.entity in names[..n] || r.entity == names[n];
    }
  }

  lemma {:induction false} NothingLogged(names: seq<Entity>, t: CreditType)
    ensures TotalLogged([], names, t) == 0.0
  {
    if names != [] {
      NothingLogged(names[..|names| - 1], t);
    }
  }

  lemma {:induction false} LoggedIsConsumedMinusIssued(log: seq<Record>, names: seq<Entity>, t: CreditType)
    requires NoDup(names) && forall i {:trigger log[i]} :: 0 <= i < |log| ==> log[i].entity in names
    ensures TotalLogged(log, names, t) == Consumed(log, t) - Issued(log, t)
  {
    if log == [] {
      NothingLogged(names, t);
    } else {
      var n := |log| - 1;
      assert log == log[..n] + [log[n]];
      LoggedIsConsumedMinusIssued(log[..n], names, t);
      TotalLoggedStep(log[..n], log[n], names, t);
      RecordAdded(log[..n], log[n], log[n].entity, t);
    }
  }

  // All balances together are what was issued minus what was consumed.
  lemma {:induction false} Conservation(books: Books, names: seq<Entity>, log: seq<Record>, t: CreditType)
    requires Kept(books, names, log)
    ensures TotalHeld(books, names, t) == Issued(log, t) - Consumed(log, t)
  {
    TotalsAgree(books, log, names, t);
    forall i | 0 <= i < |log|
      ensures log[i].entity in names
    {
      assert log[i].entity in Elems(names);
    }
    LoggedIsConsumedMinusIssued(log, names, t);
  }

  // The books after the change that a record stands for.
  function Changed(books: Books, r: Record): Books
    requires r.entity in books
  {
    books[r.entity := books[r.entity][r.creditType := Held(books[r.entity], r.creditType) - r.amount]]
  }

  // One change and its record keep the books.
  lemma {:induction false} Recorded(books: Books, names: seq<Entity>, log: seq<Record>, r: Record)
    requires Kept(books, names, log) && r.entity in books
    ensures Kept(Changed(books, r), names, log + [r])
  {
    var changed := Changed(books, r);
    assert changed.Keys == books.Keys;
    forall e, t
      ensures Balanced(changed, log + [r], e, t)
    {
      RecordAdded(log, r, e, t);
      assert Balanced(books, log, e, t);
    }
  }

  lemma {:induction false} Opened(books: Books, names: seq<Entity>, log: seq<Record>, e: Entity)
    requires Kept(books, names, log) && e !in books
    ensures Kept(books[e := map[]], names + [e], log)
  {
    NoDupSnoc(names, e);
    ElemsSnoc(names, e);
    assert e !in Elems(names);
    var more := books[e := map[]];
    forall e', t
      ensures Balanced(more, log, e', t)
    {
      assert Balanced(books, log, e', t);
    }
  }

  // ------------------------------------------------------------------

  class CreditBalance {
    const entityId: Entity
    var credits: Credits

    constructor (entityId: Entity)
      ensures this.entityId == entityId && credits == map[]
    {
      this.entityId, credits := entityId, map[];
    }

    method Add(t: CreditType, amount: real)
      modifies this
      ensures credits == old(credits)[t := Held(old(credits), t) + amount]
    {
      credits := credits[t := Held(credits, t) + amount];
    }

    method Deduct(t: CreditType, amount: real) returns (ok: bool)
      modifies this
      ensures ok <==> Held(old(credits), t) >= amount
      ensures credits == if ok then old(credits)[t := Held(old(credits), t) - amount] else old(credits)
    {
      var current := Held(credits, t);
      if current < amount {
        return false;
      }
      credits := credits[t := current - amount];
      return true;
    }
  }

  // The books with an empty balance for an entity that had none.
  function Open(books: Books, e: Entity): (b: Books)
    ensures e in b
  {
    if e in books then books else books[e := map[]]
  }

  // What callers can do to the ledger.
  datatype Op = AddOp(e: Entity, t: CreditType, amount: real) | DeductOp(e: Entity, t: CreditType, amount: real)

  function After(books: Books, op: Op): Books {
    var b := Open(books, op.e);
    if op.AddOp? then b[op.e := b[op.e][op.t := Held(b[op.e], op.t) + op.amount]]
    else if Held(b[op.e], op.t) >= op.amount then b[op.e := b[op.e][op.t := Held(b[op.e], op.t) - op.amount]]
    else b
  }

  // A deduction succeeds when there is enough.  Then it is taken and logged; refused,
  // it changes no balance and no record.
  ghost predicate Deducted(books: Books, log: seq<Record>, op: Op, ok: bool, after: Books, log': seq<Record>) {
    && (ok <==> Held(Open(books, op.e)[op.e], op.t) >= op.amount)
    && after == After(books, op)
    && (!ok ==> after == Open(books, op.e))
    && log' == if ok then log + [Record(op.e, op.t, op.amount)] else log
  }

  // What the units cost at the rate of their type, which is one when there is none.
  function Cost(rates: map<CreditType, real>, t: CreditType, units: real): real {
    units * if t in rates then rates[t] else 1.0
  }

  class ComputeCreditLedger {
    const rates: map<CreditType, real>
    var balances: map<Entity, CreditBalance>
    var names: seq<Entity>
    var usage: seq<Record>
    var grants: seq<Grant>

    ghost function CurrentBooks(): Books
      reads this`balances, balances.Values
    {
      map e | e in balances :: balances[e].credits
    }

    ghost predicate Valid()
      reads this, balances.Values
    {
      && Kept(CurrentBooks(), names, usage)
      && (forall e {:trigger balances[e]} :: e in balances ==> balances[e].entityId == e)
    }

    constructor (rates: map<CreditType, real>)
      ensures Valid() && this.rates == rates && balances == map[] && usage == [] && grants == []
    {
      this.rates := rates;
      balances, names, usage, grants := map[], [], [], [];
    }

    method GetBalance(e: Entity) returns (b: CreditBalance)
      requires Valid()
      modifies this`balances, this`names
      ensures Valid() && e in balances && b == balances[e]
      ensures CurrentBooks() == Open(old(CurrentBooks()), e)
      ensures balances == if e in old(balances) then old(balances) else old(balances)[e := b]
      ensures e in old(balances) || fresh(b)
    {
      if e !in balances {
        Opened(CurrentBooks(), names, usage, e);
        ghost var before := CurrentBooks();
        b := new CreditBalance(e);
        balances := balances[e := b];
        names := names + [e];
        assert CurrentBooks() == before[e := map[]];
      }
      return balances[e];
    }

    // Adding credits logs their negated amount.
    method AddCredits(e: Entity, t: CreditType, amount: real) returns (b: CreditBalance)
      requires Valid()
      modifies this`balances, this`names, this`usage, balances.Values
      ensures Valid() && e in balances && b == balances[e]
      ensures balances == if e in old(balances) then old(balances) else old(balances)[e := b]
      ensures e in old(balances) || fresh(b)
      ensures CurrentBooks() == After(old(CurrentBooks()), AddOp(e, t, amount))
      ensures usage == old(usage) + [Record(e, t, -amount)]
    {
      b := GetBalance(e);
      AddHeld(e, t, amount);
    }

    // The addition to an account that exists.
    method AddHeld(e: Entity, t: CreditType, amount: real)
      requires Valid() && e in balances
      modifies this`usage, balances[e]
      ensures Valid() && CurrentBooks() == After(old(CurrentBooks()), AddOp(e, t, amount))
      ensures usage == old(usage) + [Record(e, t, -amount)]
    {
      ghost var books := CurrentBooks();
      balances[e].Add(t, amount);
      assert CurrentBooks() == Changed(books, Record(e, t, -amount));
      Append(Record(e, t, -amount), books);
    }

    // The record of a change that was just made.
    method Append(r: Record, ghost books: Books)
      requires Kept(books, names, usage) && r.entity in books && CurrentBooks() == Changed(books, r)
      requires forall e {:trigger balances[e]} :: e in balances ==> balances[e].entityId == e
      modifies this`usage
      ensures Valid() && usage == old(usage) + [r]
    {
      Recorded(books, names, usage, r);
      usage := usage + [r];
    }

    method DeductCredits(e: Entity, t: CreditType, amount: real) returns (ok: bool, b: CreditBalance)
      requires Valid()
      modifies this`balances, this`names, this`usage, balances.Values
      ensures Valid() && e in balances && b == balances[e]
      ensures balances == if e in old(balances) then old(balances) else old(balances)[e := b]
      ensures e in old(balances) || fresh(b)
      ensures Deducted(old(CurrentBooks()), old(usage), DeductOp(e, t, amount), ok, CurrentBooks(), usage)
    {
      b := GetBalance(e);
      ok := DeductHeld(e, t, amount);
    }

    // The deduction from an account that exists.
    method DeductHeld(e: Entity, t: CreditType, amount: real) returns (ok: bool)
      requires Valid() && e in balances
      modifies this`usage, balances[e]
      ensures Valid() && Deducted(old(CurrentBooks()), old(usage), DeductOp(e, t, amount), ok, CurrentBooks(), usage)
    {
      ghost var books := CurrentBooks();
      ok := balances[e].Deduct(t, amount);
      if ok {
        assert CurrentBooks() == Changed(books, Record(e, t, amount));
        Append(Record(e, t, amount), books);
      } else {
        assert CurrentBooks() == books;
      }
    }

    // The grant is kept and applied at once.
    method CreateGrant(e: Entity, t: CreditType, amount: real, expiresAt: Option<real>) returns (g: Grant)
      requires Valid()
      modifies this, balances.Values
      ensures Valid() && g == Grant(e, t, amount, expiresAt) && grants == old(grants) + [g]
      ensures e in balances && balances == if e in old(balances) then old(balances) else old(balances)[e := balances[e]]
      ensures e in old(balances) || fresh(balances[e])
      ensures CurrentBooks() == After(old(CurrentBooks()), AddOp(e, t, amount))
      ensures usage == old(usage) + [Record(e, t, -amount)]
    {
      g := Grant(e, t, amount, expiresAt);
      grants := grants + [g];
      var b := AddCredits(e, t, amount);
    }

    // Units times the rate of their type, one when there is none, are deducted.
    method RecordUsage(e: Entity, t: CreditType, units: real) returns (ok: bool, b: CreditBalance)
      requires Valid()
      modifies this`balances, this`names, this`usage, balances.Values
      ensures Valid() && e in balances && b == balances[e]
      ensures balances == if e in old(balances) then old(balances) else old(balances)[e := b]
      ensures e in old(balances) || fresh(b)
      ensures t in rates ==>
        Deducted(old(CurrentBooks()), old(usage), DeductOp(e, t, units * rates[t]), ok, CurrentBooks(), usage)
      ensures t !in rates ==>
        Deducted(old(CurrentBooks()), old(usage), DeductOp(e, t, units), ok, CurrentBooks(), usage)
    {
      assert t in rates ==> Cost(rates, t, units) == units * rates[t];
      assert t !in rates ==> Cost(rates, t, units) == units;
      ok, b := DeductCredits(e, t, Cost(rates, t, units));
    }

    // A run of additions and deductions.
    method Perform(ops: seq<Op>)
      requires Valid()
      modifies this`balances, this`names, this`usage, balances.Values
      ensures Valid() && fresh(balances.Values - old(balances.Values))
      ensures CurrentBooks() == AfterAll(old(CurrentBooks()), ops)
    {
      ghost var before := CurrentBooks();
      for n := 0 to |ops|
        invariant Valid() && fresh(balances.Values - old(balances.Values))
        invariant CurrentBooks() == AfterAll(before, ops[..n])
      {
        OneMoreOp(before, ops, n);
        Step(ops[n]);
      }
      assert ops[..|ops|] == ops;
    }

    method Step(op: Op)
      requires Valid()
      modifies this`balances, this`names, this`usage, balances.Values
      ensures Valid() && fresh(balances.Values - old(balances.Values))
      ensures CurrentBooks() == After(old(CurrentBooks()), op)
    {
      match op {
        case AddOp(e, t, amount) =>
          var b := AddCredits(e, t, amount);
        case DeductOp(e, t, amount) =>
          var ok, b := DeductCredits(e, t, amount);
      }
    }

    // get_total_credits_issued
    method TotalIssued() returns (totals: map<CreditType, real>)
      ensures forall t {:trigger Held(totals, t)} :: Held(totals, t) == Issued(usage, t)
      ensures rates.Keys <= totals.Keys
    {
      totals := map t | t in rates :: 0.0;
      for n := 0 to |usage|
        invariant forall t {:trigger Held(totals, t)} :: Held(totals, t) == Issued(usage[..n], t)
        invariant rates.Keys <= totals.Keys
      {
        assert usage[..n + 1][..n] == usage[..n];
        var r := usage[n];
        ghost var before := totals;
        if r.amount < 0.0 {
          totals := totals[r.creditType := Held(totals, r.creditType) + -r.amount];
        }
        forall t
          ensures Held(totals, t) == Issued(usage[..n + 1], t)
        {
          assert Held(before, t) == Issued(usage[..n], t);
        }
      }
      assert usage[..|usage|] == usage;
    }

    // get_total_credits_consumed
    method TotalConsumed() returns (totals: map<CreditType, real>)
      ensures forall t {:trigger Held(totals, t)} :: Held(totals, t) == Consumed(usage, t)
      ensures rates.Keys <= totals.Keys
    {
      totals := map t | t in rates :: 0.0;
      for n := 0 to |usage|
        invariant forall t {:trigger Held(totals, t)} :: Held(totals, t) == Consumed(usage[..n], t)
        invariant rates.Keys <= totals.Keys
      {
        assert usage[..n + 1][..n] == usage[..n];
        var r := usage[n];
        ghost var before := totals;
        if r.amount > 0.0 {
          totals := totals[r.creditType := Held(totals, r.creditType) + r.amount];
        }
        forall t
          ensures Held(totals, t) == Consumed(usage[..n + 1], t)
        {
          assert Held(before, t) == Consumed(usage[..n], t);
        }
      }
      assert usage[..|usage|] == usage;
    }
  }

  // ------------------------------------------------------------------
  // Runs

  function AfterAll(books: Books, ops: seq<Op>): Books {
    if ops == [] then books else After(AfterAll(books, ops[..|ops| - 1]), ops[|ops| - 1])
  }

  lemma {:induction false} OneMoreOp(books: Books, ops: seq<Op>, n: nat)
    requires n < |ops|
    ensures AfterAll(books, ops[..n + 1]) == After(AfterAll(books, ops[..n]), ops[n])
  {
    assert ops[..n + 1][..n] == ops[..n];
  }

  // An operation keeps balances from going below zero unless it adds a negative
  // amount larger than what is there.
  lemma {:induction false} StaysNonNegative(books: Books, op: Op)
    requires NonNegative(books)
    ensures NonNegative(After(books, op)) <==> (op.AddOp? ==> Held(Open(books, op.e)[op.e], op.t) + op.amount >= 0.0)
  {
    var b, after := Open(books, op.e), After(books, op);
    assert Held(after[op.e], op.t) >= 0.0 || Held(after[op.e], op.t) < 0.0;
    forall e, t | e in after && (e != op.e || t != op.t)
      ensures Held(after[e], t) >= 0.0
    {
      assert e in books ==> Held(books[e], t) >= 0.0;
    }
    assert op.e in books ==> Held(books[op.e], op.t) >= 0.0;
  }

  // In any run that adds no negative amounts no balance goes below zero.
  lemma {:induction false} RunStaysNonNegative(ops: seq<Op>)
    requires forall i {:trigger ops[i]} :: 0 <= i < |ops| && ops[i].AddOp? ==> ops[i].amount >= 0.0
    ensures NonNegative(AfterAll(map[], ops))
  {
    if ops != [] {
      var n := |ops| - 1;
      RunStaysNonNegative(ops[..n]);
      var books := AfterAll(map[], ops[..n]);
      StaysNonNegative(books, ops[n]);
      var e := ops[n].e;
      assert e in books ==> Held(books[e], ops[n].t) >= 0.0;
    }
  }

  // The smallest failure: a negative amount added to a new account.
  lemma {:induction false} NegativeAdditionOverdraws(e: Entity, t: CreditType)
    ensures var books := AfterAll(map[], [AddOp(e, t, -1.0)]);
      Held(books[e], t) == -1.0 && !NonNegative(books)
  {
    var ops := [AddOp(e, t, -1.0)];
    assert ops[..0] == [];
    var none: Books := map[];
    OneMoreOp(none, ops, 0);
    assert ops[..1] == ops && AfterAll(none, ops[..0]) == none;
    var books := AfterAll(none, ops);
    assert Held(books[e], t) == 0.0 + -1.0;
  }
}

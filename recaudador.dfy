/** The payment-collection job of `app/api/cron/recaudador/route.ts`
    ("recaudador" is the collector): a bearer-secret gate, then one pass
    over the pending payments that marks each valid one completed.

    The environment's `CRON_SECRET`, the request's `authorization` header
    and the clock's timestamp are parameters. `getAllPayments` is not part
    of this model: its answer for `{ status: 'pending' }` is the `listing`
    parameter, every pending row once, in whatever order it comes. */
module Recaudador {
  import opened Wrappers
  import opened Text
  import opened Http
  import opened PaymentsDb

  const RefusedMessage: string := "Unauthorized - Invalid or missing CRON_SECRET"
  const NothingPendingMessage: string := "No hay pagos pendientes"
  const FinishedMessage: string := "Agente recaudador ejecutado exitosamente"
  const BearerPrefix: string := "Bearer "

  // ---------------------------------------------------------------------
  // The secret check

  /** `validateCronSecret`: an unset or empty secret refuses everything;
      otherwise the header, less its first "Bearer " and trimmed, must be
      the secret itself. A missing header gives `undefined`, never equal. */
  function ValidateCronSecret(authHeader: Option<string>, secret: Option<string>): (ok: bool)
    ensures !Truthy(secret) ==> !ok
    ensures authHeader.None? ==> !ok
    ensures ok ==> Clean(secret.value)
  {
    Truthy(secret) && match authHeader
      case None => false
      case Some(h) => Trim(ReplaceFirst(h, BearerPrefix, "")) == secret.value
  }

  /** The header a cron scheduler sends, "Bearer <secret>", is accepted. */
  lemma BearerHeaderAccepted(secret: string)
    requires secret != [] && Clean(secret)
    ensures ValidateCronSecret(Some(BearerPrefix + secret), Some(secret))
  {
    ReplaceFirstPrefix(BearerPrefix, secret);
  }

  /** So is the bare secret, as long as it does not itself contain "Bearer ". */
  lemma BareHeaderAccepted(secret: string)
    requires secret != [] && Clean(secret) && !Includes(secret, BearerPrefix)
    ensures ValidateCronSecret(Some(secret), Some(secret))
  {
    ReplaceFirstAbsent(secret, BearerPrefix, "");
  }

  /** With a secret set, a "Bearer " header passes exactly when its token,
      trimmed, is the secret: any other token is refused. */
  lemma BearerTokenChecked(token: string, secret: string)
    requires secret != ""
    ensures ValidateCronSecret(Some(BearerPrefix + token), Some(secret)) <==> Trim(token) == secret
  {
    ReplaceFirstPrefix(BearerPrefix, token);
  }

  /** In general: the header passes exactly when, less its first "Bearer "
      and trimmed, it is the secret, wherever that "Bearer " stands. */
  lemma FirstBearerChecked(a: string, b: string, secret: string)
    requires secret != ""
    requires forall j: nat :: j < |a| ==> !OccursAt(a + BearerPrefix + b, BearerPrefix, j)
    ensures ValidateCronSecret(Some(a + BearerPrefix + b), Some(secret)) <==> Trim(a + b) == secret
  {
    var h := a + BearerPrefix + b;
    assert OccursAt(h, BearerPrefix, |a|) by {
      assert h[|a|..|a| + |BearerPrefix|] == BearerPrefix;
    }
    ReplaceFirstAt(h, BearerPrefix, "", |a|);
    assert h[..|a|] + "" + h[|a| + |BearerPrefix|..] == a + b;
  }

  /** A header without "Bearer " passes exactly when, trimmed, it is the
      secret. */
  lemma BareTokenChecked(h: string, secret: string)
    requires secret != "" && !Includes(h, BearerPrefix)
    ensures ValidateCronSecret(Some(h), Some(secret)) <==> Trim(h) == secret
  {
    ReplaceFirstAbsent(h, BearerPrefix, "");
  }

  /** Whitespace around the header's token does not matter. */
  lemma PaddedHeaderAccepted(w1: string, secret: string, w2: string)
    requires secret != [] && Clean(secret) && AllWhitespace(w1) && AllWhitespace(w2)
    requires !Includes(w1 + secret + w2, BearerPrefix)
    ensures ValidateCronSecret(Some(w1 + secret + w2), Some(secret))
  {
    var h := w1 + secret + w2;
    ReplaceFirstAbsent(h, BearerPrefix, "");
    assert ReplaceFirst(h, BearerPrefix, "") == h;
    TrimPadded(w1, secret, w2);
    assert Trim(h) == secret;
  }

  // ---------------------------------------------------------------------
  // One payment

  /** What `processPayment` checks: a recorder id and a positive amount. */
  predicate Collectable(p: Payment)
  {
    p.recorderId != "" && p.amount > 0.0
  }

  datatype Processed = Success | Failure(error: string)

  /** The error `processPayment` reports for a payment it refuses. */
  function FailureMessage(id: int): (e: string)
    ensures |e| > 0
  {
    "Pago " + DecimalString(id) + ": Datos inválidos"
  }

  /** `processPayment`: success for a collectable payment, otherwise the
      failure that names it. */
  function ProcessPayment(p: Payment): (r: Processed)
    ensures r.Success? <==> Collectable(p)
    ensures r.Failure? ==> r.error == FailureMessage(p.id)
  {
    if p.recorderId == "" || p.amount <= 0.0 then Failure(FailureMessage(p.id)) else Success
  }

  /** Distinct payments fail with distinct messages: the message names the id. */
  lemma FailureMessageInjective(a: int, b: int)
    requires FailureMessage(a) == FailureMessage(b)
    ensures a == b
  {
    var m := FailureMessage(a);
    var tail := ": Datos inválidos";
    assert m[5..|m| - |tail|] == DecimalString(a);
    assert FailureMessage(b)[5..|m| - |tail|] == DecimalString(b);
    ParseIntDecimal(a);
    ParseIntDecimal(b);
  }

  // ---------------------------------------------------------------------
  // The whole pass, as a function of the table

  /** The pending payments the pass completes. */
  function CollectableIds(m: PaymentTable): (ids: set<int>)
    ensures forall id :: id in ids <==> id in PendingIds(m) && Collectable(m[id])
  {
    set id | id in m && m[id].status == Pending && Collectable(m[id])
  }

  /** The pending payments the pass leaves pending. */
  function FailedIds(m: PaymentTable): (ids: set<int>)
    ensures forall id :: id in ids <==> id in PendingIds(m) && !Collectable(m[id])
  {
    set id | id in m && m[id].status == Pending && !Collectable(m[id])
  }

  /** One row after the pass: a pending collectable payment is completed;
      nothing else about any row changes. */
  function Settle(p: Payment): (r: Payment)
    ensures r == p.(status := r.status)
    ensures r.status == Completed <==> p.status == Completed || (p.status == Pending && Collectable(p))
    ensures r.status != p.status ==> p.status == Pending
  {
    if p.status == Pending && Collectable(p) then p.(status := Completed) else p
  }

  /** The table after the pass. */
  function SettleAll(m: PaymentTable): (r: PaymentTable)
    ensures r.Keys == m.Keys
  {
    map id | id in m :: Settle(m[id])
  }

  /** Every pending payment is either completed or failed, never both, so
      the counters add up. */
  lemma PendingSplits(m: PaymentTable)
    ensures PendingIds(m) == CollectableIds(m) + FailedIds(m)
    ensures CollectableIds(m) * FailedIds(m) == {}
    ensures |PendingIds(m)| == |CollectableIds(m)| + |FailedIds(m)|
  {
    assert PendingIds(m) == CollectableIds(m) + FailedIds(m);
    assert CollectableIds(m) * FailedIds(m) == {};
  }

  /** The pass changes only the status, only of collectable pending rows,
      and only to completed; failed rows stay pending and every other row
      stays as it was. */
  lemma SettleAllChanges(m: PaymentTable, id: int)
    requires id in m
    ensures id in CollectableIds(m) ==> SettleAll(m)[id] == m[id].(status := Completed)
    ensures id !in CollectableIds(m) ==> SettleAll(m)[id] == m[id]
    ensures id in FailedIds(m) ==> SettleAll(m)[id].status == Pending
    ensures SettleAll(m)[id].id == m[id].id
  {
  }

  /** A second pass finds nothing left to complete, and exactly the
      failures of the first still pending: running the job again is
      harmless. */
  lemma SecondPassIdle(m: PaymentTable)
    ensures CollectableIds(SettleAll(m)) == {}
    ensures PendingIds(SettleAll(m)) == FailedIds(m)
    ensures SettleAll(SettleAll(m)) == SettleAll(m)
  {
    var s := SettleAll(m);
    forall id | id in s
      ensures s[id] == Settle(m[id])
    {
    }
    forall id | id in s
      ensures s[id].status == Pending ==> !Collectable(s[id])
    {
    }
    assert CollectableIds(s) == {};
    assert PendingIds(s) == FailedIds(m);
    forall id | id in s
      ensures SettleAll(s)[id] == s[id]
    {
      assert s[id] == Settle(m[id]);
    }
    assert SettleAll(s) == s;
  }

  /** The pass keeps the table keyed by id. */
  lemma SettleAllKeyed(m: PaymentTable)
    requires Keyed(m)
    ensures Keyed(SettleAll(m))
  {
  }

  // ---------------------------------------------------------------------
  // The loop, as a function of the listing

  /** The ids of a listing. */
  function Ids(ps: seq<Payment>): set<int>
  {
    set i | 0 <= i < |ps| :: ps[i].id
  }

  /** No id is listed twice. */
  predicate Distinct(ps: seq<Payment>)
  {
    forall i, j :: 0 <= i < j < |ps| ==> ps[i].id != ps[j].id
  }

  /** Every listed payment is a pending row of `m`, as stored. */
  predicate Listed(m: PaymentTable, ps: seq<Payment>)
  {
    forall i :: 0 <= i < |ps| ==> ps[i].id in PendingIds(m) && m[ps[i].id] == ps[i]
  }

  /** `getAllPayments({ status: 'pending' })`: each pending row of `m`
      exactly once. */
  predicate Lists(m: PaymentTable, ps: seq<Payment>)
  {
    Distinct(ps) && Listed(m, ps) && PendingIds(m) <= Ids(ps)
  }

  /** The table after the loop has run over `ps`: each collectable listed
      payment has had `updatePayment(id, { status: 'completed' })`. */
  function ApplyPass(m: PaymentTable, ps: seq<Payment>): (r: PaymentTable)
    ensures r.Keys == m.Keys
  {
    if |ps| == 0 then m
    else
      var before := ApplyPass(m, ps[..|ps| - 1]);
      var p := ps[|ps| - 1];
      if ProcessPayment(p).Success? && p.id in before then SetStatus(before, p.id, Completed) else before
  }

  /** `result.completed` after the loop has run over `ps`. */
  function CountOk(ps: seq<Payment>): (n: nat)
    ensures n <= |ps|
  {
    if |ps| == 0 then 0
    else CountOk(ps[..|ps| - 1]) + if ProcessPayment(ps[|ps| - 1]).Success? then 1 else 0
  }

  /** `result.errors` after the loop has run over `ps`: one message per
      failure, in listing order. */
  function Errors(ps: seq<Payment>): (es: seq<string>)
    ensures |es| == |ps| - CountOk(ps)
  {
    if |ps| == 0 then []
    else
      var before := Errors(ps[..|ps| - 1]);
      match ProcessPayment(ps[|ps| - 1])
      case Success => before
      case Failure(e) => before + [e]
  }

  /** One more step of the loop over a listing: what `ApplyPass`,
      `CountOk` and `Errors` add for the element at `k`. */
  lemma PassStep(m: PaymentTable, ps: seq<Payment>, k: nat)
    requires k < |ps|
    ensures var before := ApplyPass(m, ps[..k]);
            var p := ps[k];
            ApplyPass(m, ps[..k + 1]) ==
              if ProcessPayment(p).Success? && p.id in before then SetStatus(before, p.id, Completed) else before
    ensures CountOk(ps[..k + 1]) == CountOk(ps[..k]) + if ProcessPayment(ps[k]).Success? then 1 else 0
    ensures Errors(ps[..k + 1]) ==
              match ProcessPayment(ps[k])
              case Success => Errors(ps[..k])
              case Failure(e) => Errors(ps[..k]) + [e]
  {
    assert ps[..k + 1][..k] == ps[..k];
  }

  lemma IdsSnoc(ps: seq<Payment>)
    requires |ps| > 0
    ensures Ids(ps) == Ids(ps[..|ps| - 1]) + {ps[|ps| - 1].id}
  {
    var q := ps[..|ps| - 1];
    assert forall i :: 0 <= i < |q| ==> q[i] == ps[i];
  }

  /** What a prefix of a good listing still satisfies, and that its last
      element is new. */
  lemma PrefixListed(m: PaymentTable, ps: seq<Payment>)
    requires |ps| > 0 && Distinct(ps) && Listed(m, ps)
    ensures Distinct(ps[..|ps| - 1]) && Listed(m, ps[..|ps| - 1])
    ensures ps[|ps| - 1].id !in Ids(ps[..|ps| - 1])
    ensures Ids(ps) == Ids(ps[..|ps| - 1]) + {ps[|ps| - 1].id}
  {
    var q := ps[..|ps| - 1];
    assert forall i :: 0 <= i < |q| ==> q[i] == ps[i];
    IdsSnoc(ps);
  }

  /** After the loop over `ps` every listed row is settled and every other
      row untouched. */
  lemma {:induction false} PassRows(m: PaymentTable, ps: seq<Payment>)
    requires Distinct(ps) && Listed(m, ps)
    ensures forall id :: id in m ==> ApplyPass(m, ps)[id] == if id in Ids(ps) then Settle(m[id]) else m[id]
  {
    if |ps| > 0 {
      var q := ps[..|ps| - 1];
      var p := ps[|ps| - 1];
      PrefixListed(m, ps);
      PassRows(m, q);
      assert ApplyPass(m, q)[p.id] == m[p.id] == p;
    }
  }

  /** Adding `x` to `a` adds it to the meet with `s` exactly when `x` is in `s`. */
  lemma MeetSnoc(a: set<int>, x: int, s: set<int>)
    ensures x in s ==> (a + {x}) * s == a * s + {x}
    ensures x !in s ==> (a + {x}) * s == a * s
  {
  }

  /** The loop's counters over `ps` count the listed rows that succeed and
      fail. */
  lemma {:induction false} PassCounts(m: PaymentTable, ps: seq<Payment>)
    requires Distinct(ps) && Listed(m, ps)
    ensures |Ids(ps)| == |ps|
    ensures CountOk(ps) == |Ids(ps) * CollectableIds(m)|
    ensures |ps| - CountOk(ps) == |Ids(ps) * FailedIds(m)|
  {
    if |ps| > 0 {
      var q := ps[..|ps| - 1];
      var p := ps[|ps| - 1];
      PrefixListed(m, ps);
      PassCounts(m, q);
      assert p.id in PendingIds(m) && m[p.id] == p;
      MeetSnoc(Ids(q), p.id, CollectableIds(m));
      MeetSnoc(Ids(q), p.id, FailedIds(m));
      assert p.id !in Ids(q) * CollectableIds(m) && p.id !in Ids(q) * FailedIds(m);
    }
  }

  /** The message is one of the failures of the pending rows of `m`. */
  predicate ReportsFailure(m: PaymentTable, e: string)
  {
    exists id :: id in FailedIds(m) && e == FailureMessage(id)
  }

  /** Every error the loop over `ps` keeps reports a failed row, and every
      failed listed row is reported. */
  lemma {:induction false} PassErrors(m: PaymentTable, ps: seq<Payment>)
    requires Distinct(ps) && Listed(m, ps)
    ensures forall e :: e in Errors(ps) ==> ReportsFailure(m, e)
    ensures forall id :: id in Ids(ps) * FailedIds(m) ==> FailureMessage(id) in Errors(ps)
  {
    if |ps| > 0 {
      var q := ps[..|ps| - 1];
      var p := ps[|ps| - 1];
      PrefixListed(m, ps);
      PassErrors(m, q);
      if !Collectable(p) {
        assert p.id in FailedIds(m);
        assert Errors(ps) == Errors(q) + [FailureMessage(p.id)];
      }
    }
  }

  /** A complete listing lists exactly the pending rows. */
  lemma ListedIds(m: PaymentTable, ps: seq<Payment>)
    requires Lists(m, ps)
    ensures Ids(ps) == PendingIds(m)
  {
    forall id | id in Ids(ps)
      ensures id in PendingIds(m)
    {
      var i :| 0 <= i < |ps| && ps[i].id == id;
    }
  }

  /** Over a complete listing the loop leaves the settled table. */
  lemma PassTable(m: PaymentTable, ps: seq<Payment>)
    requires Lists(m, ps)
    ensures ApplyPass(m, ps) == SettleAll(m)
  {
    ListedIds(m, ps);
    PassRows(m, ps);
    forall id | id in m
      ensures ApplyPass(m, ps)[id] == SettleAll(m)[id]
    {
      if id !in Ids(ps) {
        assert id !in PendingIds(m);
      }
    }
  }

  /** Over a complete listing the counters count the pending, completed
      and failed rows. */
  lemma PassTotals(m: PaymentTable, ps: seq<Payment>)
    requires Lists(m, ps)
    ensures |ps| == |PendingIds(m)|
    ensures CountOk(ps) == |CollectableIds(m)|
    ensures |ps| - CountOk(ps) == |FailedIds(m)|
  {
    ListedIds(m, ps);
    PassCounts(m, ps);
    PendingSplits(m);
    assert Ids(ps) * CollectableIds(m) == CollectableIds(m);
    assert Ids(ps) * FailedIds(m) == FailedIds(m);
  }

  /** Over a complete listing the loop computes the pass: the table is
      settled, the counters count the pending, completed and failed rows,
      and the errors report exactly the failed rows. */
  lemma PassSettles(m: PaymentTable, ps: seq<Payment>)
    requires Lists(m, ps)
    ensures ApplyPass(m, ps) == SettleAll(m)
    ensures |ps| == |PendingIds(m)|
    ensures CountOk(ps) == |CollectableIds(m)|
    ensures |ps| - CountOk(ps) == |FailedIds(m)|
    ensures forall e :: e in Errors(ps) ==> ReportsFailure(m, e)
    ensures forall id :: id in FailedIds(m) ==> FailureMessage(id) in Errors(ps)
  {
    PassTable(m, ps);
    PassTotals(m, ps);
    ListedIds(m, ps);
    PassErrors(m, ps);
    assert Ids(ps) * FailedIds(m) == FailedIds(m);
  }

  // ---------------------------------------------------------------------
  // The job

  /** `RecaudadorResult`. */
  datatype Summary = Summary(processed: nat, completed: nat, failed: nat, errors: seq<string>, timestamp: string)

  /** The job's reply: refused with 401, or ran with a message and the
      counters. */
  datatype CronReply = Refused(status: int, error: string) | Ran(message: string, result: Summary)

  class PaymentStore {
    var rows: PaymentTable

    /** Every row is stored under its own id. The job looks rows up by the
        id of the listed payment, so each method keeps this for the next
        run (the fact about the pass itself is `SettleAllKeyed`). */
    predicate Valid()
      reads this
    {
      Keyed(rows)
    }

    constructor (initial: PaymentTable)
      requires Keyed(initial)
      ensures Valid() && rows == initial
    {
      rows := initial;
    }

    /** `updatePayment(id, { status })`. */
    method UpdateStatus(id: int, status: string)
      requires Valid() && id in rows
      modifies this
      ensures Valid()
      ensures rows == SetStatus(old(rows), id, status)
    {
      rows := SetStatus(rows, id, status);
    }

    /** `handleRecaudadorExecution`: 401 before anything is read when the
        secret check fails; otherwise one pass over `listing`. */
    method Run(authHeader: Option<string>, secret: Option<string>, listing: seq<Payment>, timestamp: string)
      returns (r: CronReply)
      requires Valid() && Lists(rows, listing)
      modifies this
      ensures Valid()
      ensures !ValidateCronSecret(authHeader, secret) ==>
                r == Refused(StatusUnauthorized, RefusedMessage) && rows == old(rows)
      ensures ValidateCronSecret(authHeader, secret) ==>
                && r.Ran? && rows == SettleAll(old(rows))
                && r.result.processed == |PendingIds(old(rows))|
                && r.result.completed == |CollectableIds(old(rows))|
                && r.result.failed == |FailedIds(old(rows))|
                && r.result.processed == r.result.completed + r.result.failed
                && |r.result.errors| == r.result.failed
                && (forall e :: e in r.result.errors ==> ReportsFailure(old(rows), e))
                && (forall id :: id in FailedIds(old(rows)) ==> FailureMessage(id) in r.result.errors)
                && r.result.timestamp == timestamp
                && (r.message == NothingPendingMessage <==> PendingIds(old(rows)) == {})
                && (r.message != NothingPendingMessage ==> r.message == FinishedMessage)
    {
      if !ValidateCronSecret(authHeader, secret) {
        return Refused(StatusUnauthorized, RefusedMessage);
      }
      PassSettles(rows, listing);
      PendingSplits(rows);
      if |listing| == 0 {
        return Ran(NothingPendingMessage, Summary(0, 0, 0, [], timestamp));
      }
      var result := Collect(listing, timestamp);
      r := Ran(FinishedMessage, result);
    }

    /** The `for` loop: each listed payment is processed once; a success
        marks it completed, a failure is counted and its error kept. */
    method Collect(listing: seq<Payment>, timestamp: string) returns (result: Summary)
      requires Valid() && Listed(rows, listing)
      modifies this
      ensures Valid() && rows == ApplyPass(old(rows), listing)
      ensures result == Summary(|listing|, CountOk(listing), |listing| - CountOk(listing), Errors(listing), timestamp)
    {
      var processed, completed, failed: nat := 0, 0, 0;
      var errors: seq<string> := [];
      ghost var start := rows;
      var k := 0;
      while k < |listing|
        invariant 0 <= k <= |listing|
        invariant Valid() && rows == ApplyPass(start, listing[..k])
        invariant processed == k && completed == CountOk(listing[..k]) && failed == k - completed
        invariant errors == Errors(listing[..k])
      {
        var p := listing[k];
        PassStep(start, listing, k);
        processed := processed + 1;
        match ProcessPayment(p) {
          case Success =>
            UpdateStatus(p.id, Completed);
            completed := completed + 1;
          case Failure(e) =>
            failed := failed + 1;
            errors := errors + [e];
        }
        k := k + 1;
      }
      assert listing[..k] == listing;
      result := Summary(processed, completed, failed, errors, timestamp);
    }
  }
}

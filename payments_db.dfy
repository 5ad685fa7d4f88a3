/** The payment table shared by the payment-administration handlers and the
    collection job. The storage helpers themselves are not part of this
    model: the table is a map from id to row, and each helper is given the
    meaning its callers rely on. */
module PaymentsDb {
  import opened Wrappers

  const Pending: string := "pending"
  const Completed: string := "completed"

  /** A recorded payment; `recorderId` is the external reference
      (`paymentRecorderId`). */
  datatype Payment = Payment(id: int, recorderId: string, amount: real, date: string,
                             description: string, status: string)

  type PaymentTable = map<int, Payment>

  /** Every row is stored under its own id. */
  predicate Keyed(m: PaymentTable)
  {
    forall id :: id in m ==> m[id].id == id
  }

  /** The ids `getAllPayments({ status: 'pending' })` returns rows for. */
  function PendingIds(m: PaymentTable): (ids: set<int>)
    ensures forall id :: id in ids <==> id in m && m[id].status == Pending
  {
    set id | id in m && m[id].status == Pending
  }

  /** The partial update `updatePayment` receives: a present field replaces
      the column. */
  datatype PaymentUpdate = PaymentUpdate(recorderId: Option<string>, amount: Option<real>, date: Option<string>,
                                         description: Option<string>, status: Option<string>)

  /** The row after a partial update: a present field replaces its column,
      an absent one leaves it; the id is kept. */
  function Patch(p: Payment, d: PaymentUpdate): (r: Payment)
    ensures r.id == p.id
    ensures r.recorderId == (if d.recorderId.Some? then d.recorderId.value else p.recorderId)
    ensures r.amount == (if d.amount.Some? then d.amount.value else p.amount)
    ensures r.date == (if d.date.Some? then d.date.value else p.date)
    ensures r.description == (if d.description.Some? then d.description.value else p.description)
    ensures r.status == (if d.status.Some? then d.status.value else p.status)
  {
    p.(recorderId := d.recorderId.GetOr(p.recorderId), amount := d.amount.GetOr(p.amount),
       date := d.date.GetOr(p.date), description := d.description.GetOr(p.description),
       status := d.status.GetOr(p.status))
  }

  /** `updatePayment(id, { status })`: only that row's status changes. */
  function SetStatus(m: PaymentTable, id: int, status: string): (r: PaymentTable)
    requires id in m
    ensures r.Keys == m.Keys
    ensures r[id].status == status
    ensures r[id] == m[id].(status := status)
    ensures forall k :: k in m && k != id ==> r[k] == m[k]
  {
    m[id := m[id].(status := status)]
  }
}

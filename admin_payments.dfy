/** The payment-administration handlers of `app/api/admin/payments/route.ts`.

    None of them consults the session: unlike the user and devotional
    handlers, no function here takes the gate's verdict as an argument. */
module AdminPayments {
  import opened Wrappers
  import opened Text
  import opened Http
  import opened PaymentsDb

  // ---------------------------------------------------------------------
  // GET

  datatype ListParams = ListParams(startDate: Option<string>, endDate: Option<string>, status: Option<string>,
                                   recorderId: Option<string>, summary: Option<string>)

  /** The filters handed to `getAllPayments`. */
  datatype PaymentFilters = PaymentFilters(startDate: Option<string>, endDate: Option<string>,
                                           status: Option<string>, recorderId: Option<string>)

  /** What GET answers with: the summary pair, or the filtered list. */
  datatype PaymentsView = SummaryView | ListView(filters: PaymentFilters)

  function List(p: ListParams): (r: Response<PaymentsView>)
    ensures r.Json? && r.status == StatusOk
    ensures r.value.SummaryView? <==> p.summary == Some("true")
    ensures r.value.ListView? ==>
              && (r.value.filters.startDate.Some? <==> Truthy(p.startDate))
              && (r.value.filters.endDate.Some? <==> Truthy(p.endDate))
              && (r.value.filters.status.Some? <==> Truthy(p.status))
              && (r.value.filters.recorderId.Some? <==> Truthy(p.recorderId))
    ensures r.value.ListView? ==>
              && (r.value.filters.startDate.Some? ==> r.value.filters.startDate == p.startDate)
              && (r.value.filters.endDate.Some? ==> r.value.filters.endDate == p.endDate)
              && (r.value.filters.status.Some? ==> r.value.filters.status == p.status)
              && (r.value.filters.recorderId.Some? ==> r.value.filters.recorderId == p.recorderId)
  {
    var filters := PaymentFilters(OrUndefined(p.startDate), OrUndefined(p.endDate),
                                  OrUndefined(p.status), OrUndefined(p.recorderId));
    if Is(p.summary, "true") then Json(StatusOk, SummaryView)
    else Json(StatusOk, ListView(filters))
  }

  // ---------------------------------------------------------------------
  // POST

  /** The JSON `amount` as the comparisons and `isNaN` see it: a number (or
      a numeric string), or something that is not a number. JSON carries
      no NaN, so a non-numeric value is a non-empty string or an object,
      which is truthy. */
  datatype AmountValue = Numeric(value: real) | NotNumeric

  predicate AmountTruthy(a: Option<AmountValue>)
  {
    a.Some? && (a.value.NotNumeric? || a.value.value != 0.0)
  }

  datatype CreateBody = CreateBody(recorderId: Option<string>, amount: Option<AmountValue>, date: Option<string>,
                                   description: Option<string>, status: Option<string>)

  /** The reason POST refuses a body, or `None`. */
  function CreateProblem(b: CreateBody): (m: Option<string>)
    ensures m.None? <==>
              && Truthy(b.recorderId) && Truthy(b.date) && Truthy(b.description)
              && b.amount.Some? && b.amount.value.Numeric? && b.amount.value.value > 0.0
  {
    if !Truthy(b.recorderId) || !AmountTruthy(b.amount) || !Truthy(b.date) || !Truthy(b.description) then
      Some("Missing required fields")
    else if b.amount.value.NotNumeric? || b.amount.value.value <= 0.0 then
      Some("Amount must be a positive number")
    else None
  }

  /** POST: `freshId` is the id the table assigns to the new row. */
  function Create(b: CreateBody, table: PaymentTable, freshId: int): (r: Outcome<Payment, PaymentTable>)
    requires freshId !in table
    ensures r.response.status == StatusBadRequest <==> CreateProblem(b).Some?
    ensures CreateProblem(b).None? ==> r.response.Json?
    ensures r.response.Fail? ==> r.state == table
    ensures r.response.Json? ==>
              && r.response.status == StatusCreated
              && var p := r.response.value;
                 && p.id == freshId && r.state == table[freshId := p]
                 && p.recorderId == b.recorderId.value && p.amount == b.amount.value.value && p.amount > 0.0
                 && p.date == b.date.value && p.description == b.description.value
                 && p.status == (if Truthy(b.status) then b.status.value else Pending)
  {
    match CreateProblem(b)
    case Some(m) => Outcome(Fail(StatusBadRequest, m), table)
    case None =>
      var p := Payment(freshId, b.recorderId.value, b.amount.value.value, b.date.value, b.description.value,
                       if Truthy(b.status) then b.status.value else Pending);
      Outcome(Json(StatusCreated, p), table[freshId := p])
  }

  /** A zero amount never gets past POST: it fails the first check already. */
  lemma ZeroAmountRefused(b: CreateBody)
    requires b.amount == Some(Numeric(0.0))
    ensures CreateProblem(b) == Some("Missing required fields")
  {
  }

  /** Created payments keep the table keyed by id. */
  lemma CreateKeepsKeyed(b: CreateBody, table: PaymentTable, freshId: int)
    requires Keyed(table) && freshId !in table
    ensures Keyed(Create(b, table, freshId).state)
  {
  }

  // ---------------------------------------------------------------------
  // PATCH

  /** The PATCH body; `id` is the JSON number sent, falsy when 0. */
  datatype UpdateBody = UpdateBody(id: Option<int>, recorderId: Option<string>, amount: Option<real>,
                                   date: Option<string>, description: Option<string>, status: Option<string>)

  /** `updateData`: exactly the fields the body carries. */
  function UpdateData(b: UpdateBody): (d: PaymentUpdate)
    ensures d.recorderId == b.recorderId && d.amount == b.amount && d.date == b.date
    ensures d.description == b.description && d.status == b.status
  {
    PaymentUpdate(b.recorderId, b.amount, b.date, b.description, b.status)
  }

  function Update(b: UpdateBody, table: PaymentTable): (r: Outcome<Payment, PaymentTable>)
    ensures r.response.status == StatusBadRequest <==> b.id.None? || b.id == Some(0)
    ensures r.response.status == StatusNotFound <==> b.id.Some? && b.id.value != 0 && b.id.value !in table
    ensures b.id.Some? && b.id.value != 0 && b.id.value in table ==> r.response.Json?
    ensures r.response.Fail? ==> r.state == table
    ensures r.response.Json? ==>
              && b.id.Some? && b.id.value in table && r.response.status == StatusOk
              && r.response.value == Patch(table[b.id.value], UpdateData(b))
              && r.state == table[b.id.value := r.response.value]
  {
    if b.id.None? || b.id.value == 0 then Outcome(Fail(StatusBadRequest, "Payment ID is required"), table)
    else if b.id.value !in table then Outcome(Fail(StatusNotFound, "Payment not found"), table)
    else
      var p := Patch(table[b.id.value], UpdateData(b));
      Outcome(Json(StatusOk, p), table[b.id.value := p])
  }

  /** A PATCH leaves the absent fields, the id and every other row alone. */
  lemma UpdateTouchesOnlyPresentFields(b: UpdateBody, table: PaymentTable, other: int)
    requires Update(b, table).response.Json?
    ensures var p := Update(b, table).response.value;
            var before := table[b.id.value];
            && (b.recorderId.None? ==> p.recorderId == before.recorderId)
            && (b.amount.None? ==> p.amount == before.amount)
            && (b.date.None? ==> p.date == before.date)
            && (b.description.None? ==> p.description == before.description)
            && (b.status.None? ==> p.status == before.status)
            && p.id == before.id
    ensures other != b.id.value ==>
              var t := Update(b, table).state;
              (other in t <==> other in table) && (other in table ==> t[other] == table[other])
  {
  }

  // ---------------------------------------------------------------------
  // DELETE

  /** DELETE: the id is parsed with `parseInt`; NaN deletes nothing. */
  function Remove(id: Option<string>, table: PaymentTable): (r: Outcome<bool, PaymentTable>)
    ensures r.response.status == StatusBadRequest <==> !Truthy(id)
    ensures r.response.status == StatusNotFound <==>
              Truthy(id) && (ParseInt(id.value).None? || ParseInt(id.value).value !in table)
    ensures Truthy(id) && ParseInt(id.value).Some? && ParseInt(id.value).value in table ==> r.response.Json?
    ensures r.response.Fail? ==> r.state == table
    ensures r.response.Json? ==>
              && Truthy(id) && ParseInt(id.value).Some?
              && var n := ParseInt(id.value).value;
                 && n in table && r.state == table - {n} && r.response.status == StatusOk
  {
    if !Truthy(id) then Outcome(Fail(StatusBadRequest, "Payment ID is required"), table)
    else match ParseInt(id.value)
    case None => Outcome(Fail(StatusNotFound, "Payment not found"), table)
    case Some(n) =>
      if n !in table then Outcome(Fail(StatusNotFound, "Payment not found"), table)
      else Outcome(Json(StatusOk, true), table - {n})
  }

  /** Deleting the id a row was listed under removes exactly that row. */
  lemma RemoveListedRow(n: int, table: PaymentTable)
    requires n in table
    ensures Remove(Some(DecimalString(n)), table).state == table - {n}
    ensures Remove(Some(DecimalString(n)), table).response == Json(StatusOk, true)
  {
    ParseIntDecimal(n);
  }
}

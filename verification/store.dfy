/** How a query's rows reach a handler. Both read endpoints iterate the
    cursor and append one output element per row inside a `try`; a failure
    (the `execute` itself, or the cursor mid-way) is logged, and whatever was
    appended before it is still returned. */
module Store {

  datatype Delivery = Complete | FailedAfter(count: nat)

  /** The rows the handler sees before the cursor stops. */
  function Delivered<T>(rows: seq<T>, delivery: Delivery): (seen: seq<T>)
    ensures seen <= rows
    ensures delivery.Complete? ==> seen == rows
    ensures delivery.FailedAfter? ==> |seen| == if delivery.count < |rows| then delivery.count else |rows|
  {
    match delivery
    case Complete => rows
    case FailedAfter(n) => if n < |rows| then rows[..n] else rows
  }
}

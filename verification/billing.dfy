/**
 * Bill computation: services.py `calculate_bill` (per started day) and utils.py
 * `calculate_bill_details` (per started hour). Timestamps are integer seconds;
 * the checkout time, read from the clock in the code, is a parameter here.
 */
module Billing {
  import opened Records

  const SecondsPerDay: int := 86400
  const SecondsPerHour: int := 3600

  /** `math.ceil(a / b)` for a positive divisor. */
  function CeilDiv(a: int, b: int): (q: int)
    requires b > 0
    ensures b * (q - 1) < a <= b * q
  {
    var f := (-a) / b;
    assert -a == b * f + (-a) % b;
    -f
  }

  /**
   * `max(1, ceil(elapsed / unit))`: the least number of whole units, at least
   * one, that covers the elapsed time. A partial unit bills as a full one.
   */
  function UnitsUsed(elapsed: int, unit: int): (n: int)
    requires unit > 0
    ensures n >= 1
    ensures elapsed <= n * unit
    ensures n == 1 || (n - 1) * unit < elapsed
  {
    var q := CeilDiv(elapsed, unit);
    if q < 1 then 1 else q
  }

  /** A later checkout never bills fewer units. */
  lemma UnitsUsedMonotone(e1: int, e2: int, unit: int)
    requires unit > 0
    requires e1 <= e2
    ensures UnitsUsed(e1, unit) <= UnitsUsed(e2, unit)
  {
    var n1 := UnitsUsed(e1, unit);
    var n2 := UnitsUsed(e2, unit);
    if n1 != 1 {
      var d := n1 - 1 - n2;
      assert d * unit == (n1 - 1) * unit - n2 * unit;
      NegativeFactor(d, unit);
    }
  }

  /** A negative product with a positive factor has a negative other factor. */
  lemma NegativeFactor(d: int, u: int)
    requires u > 0 && d * u < 0
    ensures d < 0
  {
  }

  /** `sum(s['qty'] * s['price'] for s in services)`. */
  function ServiceTotal(items: seq<ServiceItem>): int
  {
    if |items| == 0 then 0 else items[0].qty * items[0].price + ServiceTotal(items[1..])
  }

  lemma {:induction false} ServiceTotalAppend(a: seq<ServiceItem>, b: seq<ServiceItem>)
    ensures ServiceTotal(a + b) == ServiceTotal(a) + ServiceTotal(b)
    decreases |a|
  {
    if |a| == 0 {
      assert a + b == b;
    } else {
      assert (a + b)[1..] == a[1..] + b;
      ServiceTotalAppend(a[1..], b);
    }
  }

  /** What get_bill_raw_data hands to `calculate_bill`. */
  datatype BillRaw = BillRaw(
    maHd: int,
    maPd: int,
    checkIn: int,
    price: int,
    customer: string,
    services: seq<ServiceItem>)

  /**
   * services.py `calculate_bill` at checkout time `now`: whole started days
   * (at least one) times the daily price, plus the service lines.
   */
  function CalculateBill(raw: BillRaw, now: int): (b: BillDetail)
    ensures b.daysUsed >= 1
    ensures now - raw.checkIn <= b.daysUsed * SecondsPerDay
    ensures b.daysUsed == 1 || (b.daysUsed - 1) * SecondsPerDay < now - raw.checkIn
    ensures b.roomTotal == b.daysUsed * raw.price
    ensures b.grandTotal == b.roomTotal + b.serviceTotal
    ensures b.serviceTotal == ServiceTotal(raw.services)
    ensures b.maHd == raw.maHd && b.maPd == raw.maPd && b.customerName == raw.customer
    ensures b.checkIn == raw.checkIn && b.checkOut == now && b.roomPrice == raw.price
    ensures b.serviceItems == raw.services
  {
    var days := UnitsUsed(now - raw.checkIn, SecondsPerDay);
    var roomTotal := days * raw.price;
    var svcTotal := ServiceTotal(raw.services);
    BillDetail(raw.maHd, raw.maPd, raw.customer, raw.checkIn, now, days,
               raw.price, roomTotal, raw.services, svcTotal, roomTotal + svcTotal)
  }

  /** With a non-negative price, checking out later never lowers the room charge or the total. */
  lemma CalculateBillMonotone(raw: BillRaw, now1: int, now2: int)
    requires raw.price >= 0
    requires now1 <= now2
    ensures CalculateBill(raw, now1).daysUsed <= CalculateBill(raw, now2).daysUsed
    ensures CalculateBill(raw, now1).roomTotal <= CalculateBill(raw, now2).roomTotal
    ensures CalculateBill(raw, now1).grandTotal <= CalculateBill(raw, now2).grandTotal
  {
    var d1, d2 := CalculateBill(raw, now1).daysUsed, CalculateBill(raw, now2).daysUsed;
    UnitsUsedMonotone(now1 - raw.checkIn, now2 - raw.checkIn, SecondsPerDay);
    assert d1 * raw.price <= d2 * raw.price by {
      assert (d2 - d1) * raw.price >= 0;
    }
  }

  /**
   * A stay of 25 hours in a room at 150000 per day with two drinks at 15000
   * bills two days: 300000 for the room, 30000 for services, 330000 in all.
   */
  lemma TwentyFiveHourStay(checkIn: int)
    ensures var b := CalculateBill(BillRaw(1, 1, checkIn, 150000, "", [ServiceItem("Coca Cola", 2, 15000)]),
                                   checkIn + 25 * SecondsPerHour);
      b.daysUsed == 2 && b.roomTotal == 300000 && b.serviceTotal == 30000 && b.grandTotal == 330000
  {
    var items := [ServiceItem("Coca Cola", 2, 15000)];
    assert ServiceTotal(items) == 30000 by {
      assert items[1..] == [];
    }
    var n := UnitsUsed(25 * SecondsPerHour, SecondsPerDay);
    assert n == 2;
  }

  /** One line of the CLI bill: the usage line plus its subtotal. */
  datatype ServiceLine = ServiceLine(name: string, qty: int, price: int, subtotal: int)

  /** What the CLI's bill query hands to `calculate_bill_details`. */
  datatype HourlyBillRaw = HourlyBillRaw(
    customerName: string,
    checkInTime: int,
    pricePerHour: int,
    services: seq<ServiceItem>)

  /** The dictionary `calculate_bill_details` returns. */
  datatype HourlyBill = HourlyBill(
    customer: string,
    checkIn: int,
    checkOut: int,
    hours: int,
    roomPrice: int,
    roomTotal: int,
    services: seq<ServiceLine>,
    serviceTotal: int,
    grandTotal: int)

  /**
   * utils.py `calculate_bill_details` at checkout time `now`: started hours (at
   * least one) times the hourly price; one output line per input line, in
   * order, each with `subtotal == qty * price`; the service total agrees with
   * the day-based bill's sum of the same lines.
   */
  method CalculateBillDetails(raw: HourlyBillRaw, now: int) returns (b: HourlyBill)
    ensures b.hours >= 1
    ensures now - raw.checkInTime <= b.hours * SecondsPerHour
    ensures b.hours == 1 || (b.hours - 1) * SecondsPerHour < now - raw.checkInTime
    ensures b.roomTotal == b.hours * raw.pricePerHour
    ensures |b.services| == |raw.services|
    ensures forall i :: 0 <= i < |raw.services| ==>
      b.services[i] == ServiceLine(raw.services[i].name, raw.services[i].qty, raw.services[i].price,
                                   raw.services[i].qty * raw.services[i].price)
    ensures b.serviceTotal == ServiceTotal(raw.services)
    ensures b.grandTotal == b.roomTotal + b.serviceTotal
    ensures b.customer == raw.customerName && b.checkIn == raw.checkInTime && b.checkOut == now
    ensures b.roomPrice == raw.pricePerHour
  {
    var hoursUsed := CeilDiv(now - raw.checkInTime, SecondsPerHour);
    if hoursUsed < 1 {
      hoursUsed := 1;
    }
    var roomTotal := hoursUsed * raw.pricePerHour;
    var serviceTotal := 0;
    var details: seq<ServiceLine> := [];
    var i := 0;
    while i < |raw.services|
      invariant 0 <= i <= |raw.services|
      invariant |details| == i
      invariant forall j :: 0 <= j < i ==>
        details[j] == ServiceLine(raw.services[j].name, raw.services[j].qty, raw.services[j].price,
                                  raw.services[j].qty * raw.services[j].price)
      invariant serviceTotal == ServiceTotal(raw.services[..i])
    {
      var s := raw.services[i];
      var subtotal := s.qty * s.price;
      serviceTotal := serviceTotal + subtotal;
      details := details + [ServiceLine(s.name, s.qty, s.price, subtotal)];
      assert raw.services[..i + 1] == raw.services[..i] + [s];
      ServiceTotalAppend(raw.services[..i], [s]);
      assert ServiceTotal([s]) == subtotal by {
        assert [s][1..] == [];
      }
      i := i + 1;
    }
    assert raw.services[..i] == raw.services;
    b := HourlyBill(raw.customerName, raw.checkInTime, now, hoursUsed, raw.pricePerHour, roomTotal,
                    details, serviceTotal, roomTotal + serviceTotal);
  }
}

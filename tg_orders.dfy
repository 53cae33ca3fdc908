/** The order objects `orderCreate` and `orderCreate_PEG_MID` fill in, and
    the order-id counter of `TestWrapper`. */
module TgOrders {
  import opened Wrappers
  import opened PyNum

  datatype Action = Buy | Sell

  /** The fields of the broker library's `Order` the two factories set;
      `None` is a price left at the library's default, and a new order is
      transmitted unless told otherwise, as the library's `Order()` starts. */
  class Order {
    var action: Action
    var totalQuantity: int
    var orderType: string
    var auxPrice: Option<real>
    var lmtPrice: Option<real>
    var transmit: bool

    constructor ()
      ensures auxPrice == None && lmtPrice == None && transmit
    {
      action := Buy;
      totalQuantity := 0;
      orderType := "";
      auxPrice := None;
      lmtPrice := None;
      transmit := true;
    }
  }

  /** A positive quantity buys; zero and negative quantities sell. */
  function SideOf(quantity: real): (a: Action)
    ensures a == Buy <==> quantity > 0.0
  {
    if quantity > 0.0 then Buy else Sell
  }

  /** `int(q)` for a purchase, `abs(int(q))` for a sale. */
  function QuantityOf(quantity: real): (n: nat)
  {
    if quantity > 0.0 then Trunc(quantity) else -Trunc(quantity)
  }

  /** The quantity is the magnitude of the entered quantity with its
      fraction dropped, and with the side's sign it gives back `int(q)`. */
  lemma QuantityOfSpec(quantity: real)
    ensures var n := QuantityOf(quantity);
      && (if quantity >= 0.0 then quantity else -quantity) - 1.0 < n as real
      && n as real <= (if quantity >= 0.0 then quantity else -quantity)
      && (if SideOf(quantity) == Buy then n as int else -(n as int)) == Trunc(quantity)
  {
  }

  /** `orderCreate`: a market order on the side and for the quantity the
      entered quantity gives, transmitted at once. */
  method OrderCreate(quantity: real := 10.0) returns (order: Order)
    ensures fresh(order)
    ensures order.action == SideOf(quantity) && order.totalQuantity == QuantityOf(quantity)
    ensures order.orderType == "MKT" && order.transmit
    ensures order.auxPrice == None && order.lmtPrice == None
  {
    order := new Order();
    if quantity > 0.0 {
      order.action := Buy;
      order.totalQuantity := Trunc(quantity);
    } else {
      order.action := Sell;
      order.totalQuantity := Abs(Trunc(quantity));
    }
    order.orderType := "MKT";
    order.transmit := true;
  }

  /** `orderCreate_PEG_MID`: the same side and quantity rule, pegged to the
      midpoint with the given offset and limit price. */
  method OrderCreatePegMid(quantity: real, offset: real, limitPrice: real) returns (order: Order)
    ensures fresh(order)
    ensures order.action == SideOf(quantity) && order.totalQuantity == QuantityOf(quantity)
    ensures order.orderType == "PEG MID" && order.transmit
    ensures order.auxPrice == Some(offset) && order.lmtPrice == Some(limitPrice)
  {
    order := new Order();
    if quantity > 0.0 {
      order.action := Buy;
      order.totalQuantity := Trunc(quantity);
    } else {
      order.action := Sell;
      order.totalQuantity := Abs(Trunc(quantity));
    }
    order.orderType := "PEG MID";
    order.auxPrice := Some(offset);
    order.lmtPrice := Some(limitPrice);
    order.transmit := true;
  }

  function Abs(n: int): nat {
    if n >= 0 then n else -n
  }

  /** The part of `TestWrapper` that hands out order ids. */
  class OrderIds {
    var nextValidOrderId: int

    /** `nextValidId`: the broker tells the first id to use. */
    constructor (orderId: int)
      ensures nextValidOrderId == orderId
    {
      nextValidOrderId := orderId;
    }

    /** `nextOrderId`: the current id, after which the counter moves on by
        one, so successive calls give consecutive ids. */
    method NextOrderId() returns (oid: int)
      modifies this
      ensures oid == old(nextValidOrderId) && nextValidOrderId == oid + 1
    {
      oid := nextValidOrderId;
      nextValidOrderId := nextValidOrderId + 1;
    }
  }
}

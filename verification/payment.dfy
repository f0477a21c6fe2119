/** The payment routes (backend/routes/payment.js): building the order the
    payment provider is asked to create, and deciding whether a payment
    callback carries a genuine signature.

    The provider's order-creation call and the keyed digest (HMAC-SHA256,
    hex encoded) are parameters: the model states the decisions the route
    makes around them, not what they compute. */
module Payment {
  import opened Text
  import opened Decimal

  const Currency := "INR"
  const ReceiptPrefix := "receipt_"
  const OrderCreationFailed := "Order creation failed"

  /** The options passed to the provider's order-creation call. */
  datatype OrderOptions = OrderOptions(amount: int, currency: string, receipt: string)

  /** The order record the provider returns. */
  datatype Order = Order(id: string, amount: int, currency: string, receipt: string)

  /** How the provider's order-creation call ended. */
  datatype ProviderReply = Created(order: Order) | ProviderFailed

  /** The JSON bodies the routes send. */
  datatype Body = OrderBody(order: Order) | ErrorBody(error: string) | StatusBody(status: string)

  datatype Response = Response(status: int, body: Body)

  /** The receipt: the prefix followed by the decimal text of the
      millisecond timestamp `now`, in its canonical form (a zero digit
      starts it only when the timestamp is zero). */
  function Receipt(now: nat): (r: string)
    ensures |r| > |ReceiptPrefix| && r[..|ReceiptPrefix|] == ReceiptPrefix
    ensures AllDigits(r[|ReceiptPrefix|..])
    ensures ParseDecimal(r[|ReceiptPrefix|..]) == now
    ensures r[|ReceiptPrefix|] == '0' ==> r == ReceiptPrefix + "0"
  {
    var r := ReceiptPrefix + ToDecimal(now);
    assert r[|ReceiptPrefix|..] == ToDecimal(now);
    ParseToDecimal(now);
    r
  }

  /** Two receipts coincide exactly when they were made in the same
      millisecond: the timestamp is the only source of uniqueness. */
  lemma ReceiptsCollideIffSameTime(t1: nat, t2: nat)
    ensures Receipt(t1) == Receipt(t2) <==> t1 == t2
  {
    if Receipt(t1) == Receipt(t2) {
      assert Receipt(t1)[|ReceiptPrefix|..] == Receipt(t2)[|ReceiptPrefix|..];
    }
  }

  /** The options built by `/create-order`: the amount converted from
      rupees to paise (so it is a whole multiple of 100 that converts back
      to the input), the currency fixed to INR, and a receipt that starts
      with `receipt_` and encodes the timestamp. */
  function OrderOptionsFor(amountRupees: int, now: nat): (o: OrderOptions)
    ensures o.amount % 100 == 0 && o.amount / 100 == amountRupees
    ensures o.currency == "INR"
    ensures |o.receipt| > |ReceiptPrefix| && o.receipt[..|ReceiptPrefix|] == "receipt_"
    ensures AllDigits(o.receipt[|ReceiptPrefix|..])
    ensures ParseDecimal(o.receipt[|ReceiptPrefix|..]) == now
    ensures o.receipt[|ReceiptPrefix|] == '0' ==> o.receipt == "receipt_0"
  {
    OrderOptions(amountRupees * 100, Currency, Receipt(now))
  }

  /** `/create-order`: the provider is asked for exactly the options above;
      its order is sent back unmodified with status 200, and any failure
      becomes status 500 with a fixed body that reveals nothing further. */
  function CreateOrder(amountRupees: int, now: nat, provider: OrderOptions -> ProviderReply): (r: Response)
    ensures provider(OrderOptionsFor(amountRupees, now)).ProviderFailed? ==>
      r == Response(500, ErrorBody("Order creation failed"))
    ensures provider(OrderOptionsFor(amountRupees, now)).Created? ==>
      r == Response(200, OrderBody(provider(OrderOptionsFor(amountRupees, now)).order))
  {
    match provider(OrderOptionsFor(amountRupees, now))
    case Created(order) => Response(200, OrderBody(order))
    case ProviderFailed => Response(500, ErrorBody(OrderCreationFailed))
  }

  /** The fields `/verify` reads from the callback body. */
  datatype VerifyRequest = VerifyRequest(orderId: string, paymentId: string, signature: string)

  /** The message the provider signs: the order id, a `|`, the payment id. */
  function SignedMessage(orderId: string, paymentId: string): string {
    orderId + "|" + paymentId
  }

  /** Splits a message at its first `|`. */
  function SplitMessage(m: string): (r: (string, string))
    ensures '|' in m ==> m == SignedMessage(r.0, r.1) && '|' !in r.0
    ensures '|' !in m ==> r == (m, "")
  {
    if m == [] then ("", "")
    else if m[0] == '|' then ("", m[1..])
    else
      var (o, p) := SplitMessage(m[1..]);
      assert m == [m[0]] + m[1..];
      ([m[0]] + o, p)
  }

  /** The signed message determines the pair it was built from, provided
      the order id holds no `|`, as the provider's ids never do. */
  lemma {:induction false} SplitSignedMessage(orderId: string, paymentId: string)
    requires '|' !in orderId
    ensures SplitMessage(SignedMessage(orderId, paymentId)) == (orderId, paymentId)
  {
    var m := SignedMessage(orderId, paymentId);
    if orderId == [] {
      assert m == ['|'] + paymentId;
    } else {
      assert m[1..] == SignedMessage(orderId[1..], paymentId);
      assert orderId == [orderId[0]] + orderId[1..];
      assert m[0] == orderId[0] != '|';
      SplitSignedMessage(orderId[1..], paymentId);
    }
  }

  /** Without that proviso the message is ambiguous: two different pairs
      can share one message, and hence one signature. */
  lemma SignedMessageAmbiguous()
    ensures SignedMessage("a|b", "c") == SignedMessage("a", "b|c")
  {
  }

  const Success := Response(200, StatusBody("success"))
  const Failure := Response(400, StatusBody("failure"))

  /** `/verify`: success (status 200) exactly when the keyed digest of the
      signed message under the shared secret equals the supplied signature,
      and otherwise status 400 with the failure body. */
  function Verify(hmac: (string, string) -> string, secret: string, req: VerifyRequest): (r: Response)
    ensures r.status == 200 <==> hmac(secret, req.orderId + "|" + req.paymentId) == req.signature
    ensures r == Response(200, StatusBody("success")) || r == Response(400, StatusBody("failure"))
  {
    var expected := hmac(secret, SignedMessage(req.orderId, req.paymentId));
    if expected == req.signature then Success else Failure
  }

  /** A digest that never maps two messages to one value under `secret`. */
  ghost predicate CollisionFree(hmac: (string, string) -> string, secret: string) {
    forall m1, m2 :: hmac(secret, m1) == hmac(secret, m2) ==> m1 == m2
  }

  /** Tampering with the signature of an accepted callback makes it fail. */
  lemma TamperedSignatureFails(
    hmac: (string, string) -> string, secret: string, req: VerifyRequest, forged: string)
    requires Verify(hmac, secret, req).status == 200
    requires forged != req.signature
    ensures Verify(hmac, secret, req.(signature := forged)) == Response(400, StatusBody("failure"))
  {
  }

  /** Where the genuine ids hold no `|`, the signed message determines its
      pair among ALL pairs, including ones whose order id holds a `|`: the
      only `|` in the message sits right after the genuine order id. */
  lemma SignedMessageDeterminesPair(
    orderId: string, paymentId: string, otherOrderId: string, otherPaymentId: string)
    requires '|' !in orderId && '|' !in paymentId
    requires SignedMessage(otherOrderId, otherPaymentId) == SignedMessage(orderId, paymentId)
    ensures otherOrderId == orderId && otherPaymentId == paymentId
  {
    var m := SignedMessage(orderId, paymentId);
    var k := |otherOrderId|;
    assert m[k] == '|';
    forall i | 0 <= i < |m| && i != |orderId| ensures m[i] != '|' {
      if i < |orderId| {
        assert m[i] == orderId[i];
      } else {
        assert m[i] == paymentId[i - |orderId| - 1];
      }
    }
    assert otherOrderId == m[..k] == orderId;
    assert otherPaymentId == m[k + 1..] == paymentId;
  }

  /** Tampering with the order or payment id of an accepted callback makes
      it fail, for a collision-free digest, whatever the forged ids are, as
      long as the genuine ids are free of `|`. */
  lemma TamperedIdsFail(
    hmac: (string, string) -> string, secret: string, req: VerifyRequest,
    orderId: string, paymentId: string)
    requires CollisionFree(hmac, secret)
    requires '|' !in req.orderId && '|' !in req.paymentId
    requires Verify(hmac, secret, req).status == 200
    requires (orderId, paymentId) != (req.orderId, req.paymentId)
    ensures Verify(hmac, secret, VerifyRequest(orderId, paymentId, req.signature))
         == Response(400, StatusBody("failure"))
  {
    if SignedMessage(orderId, paymentId) == SignedMessage(req.orderId, req.paymentId) {
      SignedMessageDeterminesPair(req.orderId, req.paymentId, orderId, paymentId);
    }
  }
}
